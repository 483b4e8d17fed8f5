/**
 * The request handlers of the server that do more than forward one store call:
 * the upload guard, the background processing of an uploaded policy, the
 * not-found checks of the analysis and claim fetches, the claim creation with
 * its default checklist and first status update, and the checklist update.
 * Every handler acts as the anonymous user. Express, multer and the HTTP
 * response are reduced to a `Response` value; the OCR engine and the language
 * model are reduced to their outcomes, passed in.
 */
module Routes {
  import opened Wrappers
  import opened JsCollections
  import opened Schema
  import opened OpenAi
  import opened Storage

  /** A JSON answer with status 200, or an error status with its `message`. */
  datatype Response<T> = Ok(body: T) | Err(status: int, message: string)

  const AnonymousUser: Id := "anonymous-user"

  // ---------------------------------------------------------------- policy upload

  /** What multer hands the handler about the uploaded file (its bytes are not modelled). */
  datatype UploadedFile = UploadedFile(originalName: string, size: int, mimeType: string)

  /** The answer to an accepted upload. */
  datatype UploadAccepted = UploadAccepted(policyId: Id, message: string)

  /**
   * `POST /api/policies/upload`: without a file, 400 and no policy; otherwise one
   * pending policy of the anonymous user under `id`, whose id is answered.
   */
  method UploadPolicy(store: MemStorage, file: Option<UploadedFile>, id: Id, now: Time)
    returns (r: Response<UploadAccepted>)
    requires store.Valid()
    modifies store`policies
    ensures store.Valid()
    ensures file.None? ==> r == Err(400, "No file uploaded") && store.policies == old(store.policies)
    ensures file.Some? ==>
      && r == Ok(UploadAccepted(id, "Upload successful, processing started"))
      && store.policies == old(store.policies).Set(id,
           Policy(id, AnonymousUser, file.value.originalName, file.value.size, file.value.mimeType,
                  now, None, Pending, now))
  {
    if file.None? {
      return Err(400, "No file uploaded");
    }
    var f := file.value;
    var policy := store.CreatePolicy(InsertPolicy(AnonymousUser, f.originalName, f.size, f.mimeType, None, None), id, now);
    r := Ok(UploadAccepted(policy.id, "Upload successful, processing started"));
  }

  // ---------------------------------------------------------------- policy processing

  /** The analysis record `processOCR` stores for an analysis result. */
  function AnalysisRecord(policyId: Id, a: PolicyAnalysis): InsertAnalysis {
    InsertAnalysis(policyId, Some(a.riskScore), Some(a.riskLevel.Name()), Some(a.summary),
                   Some(a.flaggedClauses), Some(a.recommendations))
  }

  /**
   * `processOCR`: the policy goes to processing, the extracted text is stored,
   * the analysis (which never fails) is stored, and the policy goes to
   * completed. `ocr` is the text the OCR engine yields, `None` when it throws,
   * in which case the policy goes to failed and no analysis is stored.
   */
  method ProcessOcr(store: MemStorage, policyId: Id, ocr: Option<string>, reply: Reply<RawAnalysis>,
                    analysisId: Id, now: Time)
    requires store.Valid()
    modifies store`policies, store`analyses, store`statusLog
    ensures store.Valid()
    ensures store.statusLog ==
      old(store.statusLog) + [(policyId, Processing)] + [(policyId, if ocr.Some? then Completed else Failed)]
    ensures store.policies.keys == old(store.policies).keys
    ensures policyId !in old(store.policies).entries ==> store.policies == old(store.policies)
    ensures policyId in old(store.policies).entries ==>
      var p := old(store.policies).entries[policyId];
      store.policies == old(store.policies).Set(policyId,
        if ocr.Some? then p.(extractedText := Some(ocr.value), analysisStatus := Completed)
        else p.(analysisStatus := Failed))
    ensures ocr.None? ==> store.analyses == old(store.analyses)
    ensures ocr.Some? ==>
      var a := AnalyzePolicy(reply);
      store.analyses == old(store.analyses).Set(analysisId, Analysis(analysisId, policyId, Some(a.riskScore),
        Some(a.riskLevel.Name()), Some(a.summary), Some(a.flaggedClauses), Some(a.recommendations), now))
    ensures ocr.Some? ==> 0.0 <= store.analyses.entries[analysisId].riskScore.GetOr(-1.0) <= 100.0
    ensures ocr.Some? && policyId in store.policies.entries ==> FetchAnalysis(store, policyId).Ok?
  {
    ghost var policies0 := store.policies;
    store.UpdatePolicyAnalysisStatus(policyId, Processing);
    ghost var policies1 := store.policies;
    if ocr.None? {
      store.UpdatePolicyAnalysisStatus(policyId, Failed);
      if policyId in policies0.entries {
        SetTwice(policies0, policyId, policies0.entries[policyId].(analysisStatus := Processing),
                 policies0.entries[policyId].(analysisStatus := Failed));
      }
      return;
    }
    store.UpdatePolicyText(policyId, ocr.value);
    ghost var policies2 := store.policies;
    var analysis := AnalyzePolicy(reply);
    var _ := store.CreateAnalysis(AnalysisRecord(policyId, analysis), analysisId, now);
    store.UpdatePolicyAnalysisStatus(policyId, Completed);
    if policyId in policies0.entries {
      var p := policies0.entries[policyId];
      SetTwice(policies0, policyId, p.(analysisStatus := Processing),
               p.(analysisStatus := Processing, extractedText := Some(ocr.value)));
      SetTwice(policies0, policyId, p.(analysisStatus := Processing, extractedText := Some(ocr.value)),
               p.(extractedText := Some(ocr.value), analysisStatus := Completed));
      StoredAnalysisIsReady(store, policyId, analysisId);
    }
  }

  /** Once an analysis of an existing policy is stored, the analysis fetch of that policy succeeds. */
  lemma StoredAnalysisIsReady(store: MemStorage, policyId: Id, analysisId: Id)
    requires store.Valid() && policyId in store.policies.entries
    requires analysisId in store.analyses.entries && store.analyses.entries[analysisId].policyId == policyId
    ensures FetchAnalysis(store, policyId).Ok?
  {
  }

  // ---------------------------------------------------------------- fetches

  /**
   * `GET /api/policies/:id/analysis`: "Policy not found" is checked first,
   * then "Analysis not ready"; otherwise the policy and its first analysis.
   */
  function FetchAnalysis(store: MemStorage, policyId: Id): (r: Response<(Policy, Analysis)>)
    reads store
    requires store.Valid()
    ensures policyId !in store.policies.entries ==> r == Err(404, "Policy not found")
    ensures (&& policyId in store.policies.entries
             && forall k | k in store.analyses.entries :: store.analyses.entries[k].policyId != policyId) ==>
      r == Err(404, "Analysis not ready")
    ensures r.Ok? ==> r.body.0 == store.policies.entries[policyId] && r.body.0.id == policyId
    ensures r.Ok? ==> r.body.1.policyId == policyId && Some(r.body.1) == store.GetAnalysisByPolicy(policyId)
    ensures r.Err? ==> r.status == 404
  {
    var policy := store.GetPolicy(policyId);
    if policy.None? then Err(404, "Policy not found")
    else
      var analysis := store.GetAnalysisByPolicy(policyId);
      if analysis.None? then Err(404, "Analysis not ready")
      else Ok((policy.value, analysis.value))
  }

  /** What the claim fetch answers: the claim with its checklist and updates. */
  datatype ClaimDetails = ClaimDetails(claim: Claim, checklistItems: seq<ChecklistItem>, updates: seq<ClaimUpdate>)

  /** `GET /api/claims/:id`: "Claim not found", or the claim with its sorted checklist and updates. */
  function FetchClaim(store: MemStorage, claimId: Id): (r: Response<ClaimDetails>)
    reads store
    requires store.Valid()
    ensures r.Err? <==> claimId !in store.claims.entries
    ensures r.Err? ==> r == Err(404, "Claim not found")
    ensures r.Ok? ==> r.body.claim == store.claims.entries[claimId] && r.body.claim.id == claimId
    ensures r.Ok? ==> r.body.checklistItems == store.GetChecklistItemsByClaim(claimId)
    ensures r.Ok? ==> r.body.updates == store.GetClaimUpdatesByClaim(claimId)
  {
    var claim := store.GetClaim(claimId);
    if claim.None? then Err(404, "Claim not found")
    else Ok(ClaimDetails(claim.value, store.GetChecklistItemsByClaim(claimId), store.GetClaimUpdatesByClaim(claimId)))
  }

  // ---------------------------------------------------------------- claim creation

  /** Title, description and order of one default checklist step. */
  datatype DefaultStep = DefaultStep(title: string, description: string, order: int)

  const DefaultSteps: seq<DefaultStep> := [
    DefaultStep("Gather Medical Records",
      "Collect all relevant medical documentation from your healthcare providers.", 1),
    DefaultStep("Complete Claim Form",
      "Fill out the official claim form with accurate information about your incident.", 2),
    DefaultStep("Submit Supporting Evidence",
      "Include photos, receipts, or other documentation that supports your claim.", 3),
    DefaultStep("Review Policy Coverage",
      "Verify that your claim falls within your policy coverage limits.", 4),
    DefaultStep("Submit Claim",
      "Submit your completed claim with all required documentation.", 5)
  ]

  /** `{ claimId, ...item }` for the default step `k`. */
  function DefaultItemInput(claimId: Id, k: nat): InsertChecklistItem
    requires k < |DefaultSteps|
  {
    InsertChecklistItem(claimId, DefaultSteps[k].title, Some(DefaultSteps[k].description), None,
                        DefaultSteps[k].order, None, None, None)
  }

  /** The checklist items the claim creation stores, item `k` under `itemIds[k]`. */
  function DefaultChecklist(claimId: Id, itemIds: seq<Id>): (items: seq<ChecklistItem>)
    requires |itemIds| == |DefaultSteps|
    ensures |items| == |DefaultSteps|
  {
    seq(|DefaultSteps|, k requires 0 <= k < |DefaultSteps| =>
      ChecklistItem(itemIds[k], claimId, DefaultSteps[k].title, Some(DefaultSteps[k].description), false,
                    DefaultSteps[k].order, None, None, None))
  }

  /** Five items of the claim, none completed, with orders 1 to 5 and the listed titles. */
  lemma DefaultChecklistShape(claimId: Id, itemIds: seq<Id>)
    requires |itemIds| == |DefaultSteps|
    ensures var items := DefaultChecklist(claimId, itemIds);
      && |items| == 5
      && (forall k | 0 <= k < 5 ::
           && items[k].id == itemIds[k] && items[k].claimId == claimId
           && items[k].order == k + 1 && !items[k].isCompleted && items[k].completedAt.None?)
      && [items[0].title, items[1].title, items[2].title, items[3].title, items[4].title] ==
         ["Gather Medical Records", "Complete Claim Form", "Submit Supporting Evidence",
          "Review Policy Coverage", "Submit Claim"]
  {
  }

  const InitialUpdateTitle := "Claim Submitted"
  const InitialUpdateDescription := "Your claim has been successfully submitted and assigned a claim number."

  /** The first update of every claim. */
  function InitialUpdate(claimId: Id, updateId: Id, now: Time): (u: ClaimUpdate)
    ensures u.claimId == claimId && u.title == "Claim Submitted" && u.updateType == StatusChange
  {
    ClaimUpdate(updateId, claimId, InitialUpdateTitle, Some(InitialUpdateDescription), StatusChange, now)
  }

  /** No stored record of the claim's checklist or updates refers to `claimId` yet. */
  ghost predicate NothingOfClaim(store: MemStorage, claimId: Id)
    reads store
  {
    && (forall k | k in store.checklistItems.entries :: store.checklistItems.entries[k].claimId != claimId)
    && (forall k | k in store.claimUpdates.entries :: store.claimUpdates.entries[k].claimId != claimId)
  }

  /**
   * `POST /api/claims`. `parsed` is the outcome of `insertClaimSchema.parse` on
   * the request body, `None` when it throws: then 500 and nothing is stored.
   * Otherwise one claim of the anonymous user (its number made by the store,
   * `routeNumber` being discarded), the five default checklist items and the
   * "Claim Submitted" update are stored, and the claim is answered.
   */
  method CreateClaimRoute(store: MemStorage, parsed: Option<ClaimInput>, routeNumber: string,
                          claimId: Id, year: int, random: string, itemIds: seq<Id>, updateId: Id, now: Time)
    returns (r: Response<Claim>)
    requires store.Valid() && |itemIds| == |DefaultSteps|
    modifies store`claims, store`checklistItems, store`claimUpdates
    ensures store.Valid()
    ensures parsed.None? ==>
      && r == Err(500, "Failed to create claim")
      && store.claims == old(store.claims)
      && store.checklistItems == old(store.checklistItems)
      && store.claimUpdates == old(store.claimUpdates)
    ensures parsed.Some? ==>
      && r == Ok(Claim(claimId, AnonymousUser, parsed.value.policyId, ClaimNumber(year, random), Submitted,
                       parsed.value.amount, parsed.value.description, 10, now, now))
      && store.claims == old(store.claims).Set(claimId, r.body)
      && store.checklistItems == old(store.checklistItems).SetAll(itemIds, DefaultChecklist(claimId, itemIds))
      && store.claimUpdates == old(store.claimUpdates).Set(updateId, InitialUpdate(claimId, updateId, now))
    ensures (&& parsed.Some? && FreshKeys(old(store.checklistItems), itemIds)
             && updateId !in old(store.claimUpdates).entries && old(NothingOfClaim(store, claimId))) ==>
      FetchClaim(store, claimId) == Ok(ClaimDetails(r.body, DefaultChecklist(claimId, itemIds),
                                                    [InitialUpdate(claimId, updateId, now)]))
  {
    if parsed.None? {
      return Err(500, "Failed to create claim");
    }
    ghost var items0, updates0 := store.checklistItems, store.claimUpdates;
    ghost var empty0 := NothingOfClaim(store, claimId);
    var data := parsed.value.(userId := AnonymousUser).WithClaimNumber(routeNumber);
    var claim := store.CreateClaim(data, claimId, year, random, now);
    AddDefaultChecklist(store, claimId, itemIds);
    var u := store.CreateClaimUpdate(
      InsertClaimUpdate(claimId, InitialUpdateTitle, Some(InitialUpdateDescription), StatusChange),
      updateId, now);
    r := Ok(claim);
    if FreshKeys(items0, itemIds) && updateId !in updates0.entries && empty0 {
      FetchNewClaim(store, claim, items0, itemIds, updates0, u);
    }
  }

  /**
   * Right after a claim was created under fresh item and update ids, fetching
   * it gives the claim, exactly the default checklist in order, and exactly
   * the initial update.
   */
  lemma FetchNewClaim(store: MemStorage, claim: Claim, items0: OrderedMap<ChecklistItem>, itemIds: seq<Id>,
                      updates0: OrderedMap<ClaimUpdate>, u: ClaimUpdate)
    requires store.Valid() && items0.Valid() && updates0.Valid() && |itemIds| == |DefaultSteps|
    requires claim.id in store.claims.entries && store.claims.entries[claim.id] == claim
    requires FreshKeys(items0, itemIds) && u.id !in updates0.entries && u.claimId == claim.id
    requires forall k | k in items0.entries :: items0.entries[k].claimId != claim.id
    requires forall k | k in updates0.entries :: updates0.entries[k].claimId != claim.id
    requires store.checklistItems == items0.SetAll(itemIds, DefaultChecklist(claim.id, itemIds))
    requires store.claimUpdates == updates0.Set(u.id, u)
    ensures FetchClaim(store, claim.id) == Ok(ClaimDetails(claim, DefaultChecklist(claim.id, itemIds), [u]))
  {
    NewClaimChecklist(store, claim.id, items0, itemIds);
    NewClaimUpdates(store, updates0, u);
  }

  lemma NewClaimChecklist(store: MemStorage, claimId: Id, items0: OrderedMap<ChecklistItem>, itemIds: seq<Id>)
    requires store.Valid() && items0.Valid() && |itemIds| == |DefaultSteps| && FreshKeys(items0, itemIds)
    requires forall k | k in items0.entries :: items0.entries[k].claimId != claimId
    requires store.checklistItems == items0.SetAll(itemIds, DefaultChecklist(claimId, itemIds))
    ensures store.GetChecklistItemsByClaim(claimId) == DefaultChecklist(claimId, itemIds)
  {
    DefaultChecklistOrdered(claimId, itemIds);
    SortedFilterOfFresh(items0, itemIds, DefaultChecklist(claimId, itemIds), ItemOfClaim(claimId), OrderKey);
  }

  lemma NewClaimUpdates(store: MemStorage, updates0: OrderedMap<ClaimUpdate>, u: ClaimUpdate)
    requires store.Valid() && updates0.Valid() && u.id !in updates0.entries
    requires forall k | k in updates0.entries :: updates0.entries[k].claimId != u.claimId
    requires store.claimUpdates == updates0.Set(u.id, u)
    ensures store.GetClaimUpdatesByClaim(u.claimId) == [u]
  {
    assert updates0.Set(u.id, u) == updates0.SetAll([u.id], [u]);
    SortedFilterOfFresh(updates0, [u.id], [u], UpdateOfClaim(u.claimId), NewestFirstKey);
  }

  /** The loop over the default steps: one new item per step, in order, under `itemIds`. */
  method AddDefaultChecklist(store: MemStorage, claimId: Id, itemIds: seq<Id>)
    requires store.Valid() && |itemIds| == |DefaultSteps|
    modifies store`checklistItems
    ensures store.Valid()
    ensures store.checklistItems == old(store.checklistItems).SetAll(itemIds, DefaultChecklist(claimId, itemIds))
  {
    ghost var items := DefaultChecklist(claimId, itemIds);
    for k := 0 to |DefaultSteps|
      invariant store.Valid()
      invariant store.checklistItems == old(store.checklistItems).SetAll(itemIds[..k], items[..k])
    {
      SetAllSnoc(old(store.checklistItems), itemIds, items, k);
      var item := store.CreateChecklistItem(DefaultItemInput(claimId, k), itemIds[k]);
      assert item == items[k];
    }
    assert itemIds[..|DefaultSteps|] == itemIds && items[..|DefaultSteps|] == items;
  }

  /** The default checklist belongs to its claim and is sorted by order. */
  lemma DefaultChecklistOrdered(claimId: Id, itemIds: seq<Id>)
    requires |itemIds| == |DefaultSteps|
    ensures var items := DefaultChecklist(claimId, itemIds);
      && SortedBy(items, OrderKey)
      && forall i | 0 <= i < |items| :: ItemOfClaim(claimId)(items[i])
  {
  }

  // ---------------------------------------------------------------- checklist update

  /**
   * `PUT /api/checklist/:id`: forwards only the completion flag (a missing flag
   * as false) and answers success whether or not the item exists.
   */
  method UpdateChecklistRoute(store: MemStorage, itemId: Id, isCompleted: Option<bool>, now: Time)
    returns (r: Response<string>)
    requires store.Valid()
    modifies store`checklistItems
    ensures store.Valid()
    ensures r == Ok("Checklist item updated")
    ensures store.checklistItems.keys == old(store.checklistItems).keys
    ensures itemId !in old(store.checklistItems).entries ==> store.checklistItems == old(store.checklistItems)
    ensures itemId in old(store.checklistItems).entries ==>
      var item := old(store.checklistItems).entries[itemId];
      var done := isCompleted.GetOr(false);
      store.checklistItems == old(store.checklistItems).Set(itemId,
        item.(isCompleted := done, completedAt := if done then Some(now) else item.completedAt))
  {
    store.UpdateChecklistItem(itemId, CompletionPatch(isCompleted.GetOr(false)), now);
    r := Ok("Checklist item updated");
  }
}
