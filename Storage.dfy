/**
 * The in-memory store: seven insertion-ordered maps keyed by record id. The
 * creation methods force their default fields, the update methods do nothing
 * for an unknown id, and the queries are filter, find, sort and slice
 * expressions over the values in insertion order. Ids (`randomUUID()`), the
 * clock (`new Date()`) and `Math.random()` are parameters.
 */
module Storage {
  import opened Wrappers
  import opened JsCollections
  import opened JsStrings
  import opened Schema

  // ---------------------------------------------------------------- claim numbers

  /**
   * `CLM-${year}-${random.slice(2, 8)}`, where `random` is the text of
   * `Math.random()` (`"0."` and then digits) and `year` that of `getFullYear()`.
   */
  function ClaimNumber(year: int, random: string): (cn: string)
    ensures 5 + |IntToString(year)| <= |cn| <= 5 + |IntToString(year)| + 6
    ensures cn[..4] == "CLM-"
    ensures cn[4..4 + |IntToString(year)|] == IntToString(year)
    ensures cn[4 + |IntToString(year)|] == '-'
  {
    "CLM-" + IntToString(year) + "-" + Slice(random, 2, 8)
  }

  /** The year and the random suffix of a claim number whose year is not negative. */
  function ClaimNumberParts(cn: string): (r: Option<(nat, string)>)
  {
    if |cn| < 4 || cn[..4] != "CLM-" then None
    else
      var rest := cn[4..];
      var i := IndexOf(rest, "-");
      if i < 0 || exists k | 0 <= k < i :: !('0' <= rest[k] <= '9') then None
      else Some((ParseNat(rest[..i]), rest[i + 1..]))
  }

  /** The fields of a claim number can be read back: the year, and at most six characters of randomness. */
  lemma ClaimNumberRoundTrip(year: nat, random: string)
    ensures ClaimNumberParts(ClaimNumber(year, random)) == Some((year, Slice(random, 2, 8)))
    ensures |Slice(random, 2, 8)| <= 6
  {
    var cn := ClaimNumber(year, random);
    var digits := NatToString(year);
    var rest := cn[4..];
    assert rest == digits + "-" + Slice(random, 2, 8);
    IndexOfChar(rest, '-', |digits|);
    assert rest[..|digits|] == digits;
    ParseNatToString(year);
  }

  /** A `Math.random()` text, `0.` and digits, leaves only digits in the claim number. */
  lemma ClaimNumberSuffixDigits(random: string)
    requires |random| >= 2 && random[..2] == "0."
    requires forall k | 2 <= k < |random| :: '0' <= random[k] <= '9'
    ensures forall k | 0 <= k < |Slice(random, 2, 8)| :: '0' <= Slice(random, 2, 8)[k] <= '9'
  {
  }

  // ---------------------------------------------------------------- record builders

  /** `{ ...item, ...updates }`: every field the patch carries replaces the stored one. */
  function ApplyPatch(item: ChecklistItem, patch: ChecklistPatch): (r: ChecklistItem)
    ensures r.id == item.id
    ensures r.claimId == patch.claimId.GetOr(item.claimId)
    ensures r.title == patch.title.GetOr(item.title)
    ensures r.isCompleted == patch.isCompleted.GetOr(item.isCompleted)
    ensures r.order == patch.order.GetOr(item.order)
    ensures r.completedAt == if patch.completedAt.Some? then patch.completedAt else item.completedAt
    ensures r.description == if patch.description.Some? then patch.description else item.description
    ensures r.requiredDocuments == if patch.requiredDocuments.Some? then patch.requiredDocuments else item.requiredDocuments
    ensures r.uploadedDocuments == if patch.uploadedDocuments.Some? then patch.uploadedDocuments else item.uploadedDocuments
  {
    item.(
      claimId := patch.claimId.GetOr(item.claimId),
      title := patch.title.GetOr(item.title),
      description := if patch.description.Some? then patch.description else item.description,
      isCompleted := patch.isCompleted.GetOr(item.isCompleted),
      order := patch.order.GetOr(item.order),
      requiredDocuments := if patch.requiredDocuments.Some? then patch.requiredDocuments else item.requiredDocuments,
      uploadedDocuments := if patch.uploadedDocuments.Some? then patch.uploadedDocuments else item.uploadedDocuments,
      completedAt := if patch.completedAt.Some? then patch.completedAt else item.completedAt)
  }

  /** A patch carrying only the completion flag, as the checklist endpoint sends it. */
  function CompletionPatch(isCompleted: bool): ChecklistPatch {
    ChecklistPatch(None, None, None, Some(isCompleted), None, None, None, None)
  }

  /** Merging the same patch again changes nothing. */
  lemma ApplyPatchTwice(item: ChecklistItem, patch: ChecklistPatch)
    ensures ApplyPatch(ApplyPatch(item, patch), patch) == ApplyPatch(item, patch)
  {
  }

  /** The checklist endpoint's patch changes the completion flag and nothing else. */
  lemma CompletionPatchSetsFlag(item: ChecklistItem, isCompleted: bool)
    ensures ApplyPatch(item, CompletionPatch(isCompleted)) == item.(isCompleted := isCompleted)
  {
  }

  // ---------------------------------------------------------------- seed catalogue

  /** The eight health insurance products every new store starts with, in this order. */
  const SeedCatalogue: seq<ProductInfo> := [
    ProductInfo("Star Health Family Optima", "Star Health", "health", 10, 14000, 3, 10, 92,
      "Pre-existing diseases, cosmetic treatments, dental care",
      ["Family floater", "Pre-post hospitalization", "Daycare procedures"],
      "18-65 years", true, false, 50, "2% of sum insured"),
    ProductInfo("HDFC ERGO Health Suraksha", "HDFC ERGO", "health", 5, 8500, 2, 20, 96,
      "Cosmetic surgery, war injuries, nuclear risks",
      ["Cashless treatment", "Health checkups", "Emergency assistance"],
      "18-70 years", false, true, 25, "1% of sum insured"),
    ProductInfo("ICICI Lombard Complete Health", "ICICI Lombard", "health", 15, 22000, 2, 0, 94,
      "Self-inflicted injuries, substance abuse",
      ["No copay", "Unlimited restoration", "Global coverage"],
      "91 days-75 years", true, true, 50, "No limit"),
    ProductInfo("Care Health Supreme", "Care Health", "health", 10, 16500, 2, 10, 89,
      "Congenital diseases, experimental treatments",
      ["OPD coverage", "Mental health cover", "Maternity benefits"],
      "18-65 years", true, true, 100, "Single AC room"),
    ProductInfo("Bajaj Allianz Health Guard", "Bajaj Allianz", "health", 7, 11000, 4, 15, 87,
      "Dental treatments, fertility treatments",
      ["Personal accident cover", "Daily cash allowance"],
      "18-60 years", false, false, 20, "1.5% of sum insured"),
    ProductInfo("Max Bupa Health Companion", "Max Bupa", "health", 20, 28000, 1, 5, 93,
      "War, nuclear risks, intentional self-injury",
      ["Reload benefit", "International coverage", "Health coaching"],
      "18-75 years", true, true, 50, "No capping"),
    ProductInfo("Apollo Munich Easy Health", "Apollo Munich", "health", 5, 7800, 3, 25, 85,
      "Cosmetic surgery, obesity treatments",
      ["Easy claim process", "24x7 helpline"],
      "18-65 years", false, false, 10, "1% of sum insured"),
    ProductInfo("Religare Health Total", "Religare Health", "health", 12, 18000, 2, 0, 91,
      "Pre-existing mental disorders, AIDS",
      ["Zero copay", "Domiciliary treatment", "Second opinion"],
      "18-70 years", true, true, 75, "Private room")
  ]

  /** The seeded records: product `i` of the catalogue under id `ids[i]`, all created at `now`. */
  function SeedProducts(ids: seq<Id>, now: Time): (ps: seq<PolicyProduct>)
    requires |ids| == |SeedCatalogue|
    ensures |ps| == |SeedCatalogue|
    ensures forall i | 0 <= i < |ps| :: ps[i].id == ids[i] && ps[i].info == SeedCatalogue[i] && ps[i].createdAt == now
  {
    seq(|SeedCatalogue|, i requires 0 <= i < |SeedCatalogue| => PolicyProduct(ids[i], SeedCatalogue[i], now))
  }

  // ---------------------------------------------------------------- query helpers

  function PolicyOfUser(userId: Id): Policy -> bool { (p: Policy) => p.userId == userId }
  function ClaimOfUser(userId: Id): Claim -> bool { (c: Claim) => c.userId == userId }
  function AnalysisOfPolicy(policyId: Id): Analysis -> bool { (a: Analysis) => a.policyId == policyId }
  function ItemOfClaim(claimId: Id): ChecklistItem -> bool { (i: ChecklistItem) => i.claimId == claimId }
  function UpdateOfClaim(claimId: Id): ClaimUpdate -> bool { (u: ClaimUpdate) => u.claimId == claimId }
  function InCategory(category: string): PolicyProduct -> bool { (p: PolicyProduct) => p.info.category == category }

  /** The sort key of `getChecklistItemsByClaim`: ascending `order`. */
  function OrderKey(i: ChecklistItem): int {
    i.order
  }

  /** The sort key of `getClaimUpdatesByClaim`: the newest update sorts first. */
  function NewestFirstKey(u: ClaimUpdate): int {
    -u.createdAt
  }

  /** The sort key of `findSimilarPolicies`: a higher settlement ratio sorts first. */
  function RatioKey(p: PolicyProduct): int {
    -p.info.claimSettlementRatio
  }

  /** The filter of `findSimilarPolicies`: same category, coverage within half to twice the wanted one. */
  predicate IsSimilar(p: PolicyProduct, coverage: real, category: string) {
    && p.info.category == category
    && p.info.coverage as real >= coverage * 0.5
    && p.info.coverage as real <= coverage * 2.0
  }

  function SimilarTo(coverage: real, category: string): PolicyProduct -> bool {
    (p: PolicyProduct) => IsSimilar(p, coverage, category)
  }

  /** The five best similar products, before `SimilarAmong` names them. */
  function TopSimilar(products: seq<PolicyProduct>, coverage: real, category: string): seq<PolicyProduct> {
    Take(SortBy(Filter(products, SimilarTo(coverage, category)), RatioKey), 5)
  }

  lemma TopSimilarAreSimilar(products: seq<PolicyProduct>, coverage: real, category: string)
    ensures forall i | 0 <= i < |TopSimilar(products, coverage, category)| ::
      SimilarTo(coverage, category)(TopSimilar(products, coverage, category)[i])
  {
    TopOfSortedFilter(products, SimilarTo(coverage, category), RatioKey, 5);
  }

  lemma TopSimilarOrdered(products: seq<PolicyProduct>, coverage: real, category: string)
    ensures var r := TopSimilar(products, coverage, category);
      forall i, j | 0 <= i < j < |r| :: r[i].info.claimSettlementRatio >= r[j].info.claimSettlementRatio
  {
    var r := TopSimilar(products, coverage, category);
    TopOfSortedFilter(products, SimilarTo(coverage, category), RatioKey, 5);
    forall i, j | 0 <= i < j < |r| ensures r[i].info.claimSettlementRatio >= r[j].info.claimSettlementRatio {
      assert RatioKey(r[i]) <= RatioKey(r[j]);
    }
  }

  lemma TopSimilarLeftOut(products: seq<PolicyProduct>, coverage: real, category: string)
    ensures var r := TopSimilar(products, coverage, category);
      forall p, i | p in Filter(products, SimilarTo(coverage, category)) && p !in r && 0 <= i < |r| ::
        p.info.claimSettlementRatio <= r[i].info.claimSettlementRatio
  {
    var r := TopSimilar(products, coverage, category);
    var similar := Filter(products, SimilarTo(coverage, category));
    TopOfSortedFilter(products, SimilarTo(coverage, category), RatioKey, 5);
    forall p, i | p in similar && p !in r && 0 <= i < |r|
      ensures p.info.claimSettlementRatio <= r[i].info.claimSettlementRatio
    {
      assert RatioKey(r[i]) <= RatioKey(p);
    }
  }

  /**
   * `findSimilarPolicies` over the products in insertion order: the first five
   * of the similar products stably sorted best ratio first, so that no similar
   * product left out has a better ratio than one returned.
   */
  function SimilarAmong(products: seq<PolicyProduct>, coverage: real, category: string): (r: seq<PolicyProduct>)
    ensures |r| == if |Filter(products, SimilarTo(coverage, category))| < 5
                   then |Filter(products, SimilarTo(coverage, category))| else 5
    ensures forall i | 0 <= i < |r| :: IsSimilar(r[i], coverage, category)
    ensures forall i, j | 0 <= i < j < |r| :: r[i].info.claimSettlementRatio >= r[j].info.claimSettlementRatio
    ensures r <= SortBy(Filter(products, SimilarTo(coverage, category)), RatioKey)
    ensures forall p, i | p in Filter(products, SimilarTo(coverage, category)) && p !in r && 0 <= i < |r| ::
      p.info.claimSettlementRatio <= r[i].info.claimSettlementRatio
  {
    TopSimilarAreSimilar(products, coverage, category);
    TopSimilarOrdered(products, coverage, category);
    TopSimilarLeftOut(products, coverage, category);
    TopSimilar(products, coverage, category)
  }

  // ---------------------------------------------------------------- the store

  class MemStorage {
    var users: OrderedMap<User>
    var policies: OrderedMap<Policy>
    var analyses: OrderedMap<Analysis>
    var claims: OrderedMap<Claim>
    var checklistItems: OrderedMap<ChecklistItem>
    var claimUpdates: OrderedMap<ClaimUpdate>
    var policyProducts: OrderedMap<PolicyProduct>
    /** Every status write asked of the store, in order: what a reader polling the status can see. */
    ghost var statusLog: seq<(Id, PolicyStatus)>

    /** Every map is a well-formed ordered map, and every record is stored under its own id. */
    ghost predicate Valid()
      reads this
    {
      UsersValid() && PoliciesValid() && AnalysesValid() && ClaimsValid() && ChecklistItemsValid() && ClaimUpdatesValid() && PolicyProductsValid()
    }

    ghost predicate UsersValid()
      reads this`users
    {
      users.Valid() && forall k | k in users.entries :: users.entries[k].id == k
    }

    ghost predicate PoliciesValid()
      reads this`policies
    {
      policies.Valid() && forall k | k in policies.entries :: policies.entries[k].id == k
    }

    ghost predicate AnalysesValid()
      reads this`analyses
    {
      analyses.Valid() && forall k | k in analyses.entries :: analyses.entries[k].id == k
    }

    ghost predicate ClaimsValid()
      reads this`claims
    {
      claims.Valid() && forall k | k in claims.entries :: claims.entries[k].id == k
    }

    ghost predicate ChecklistItemsValid()
      reads this`checklistItems
    {
      checklistItems.Valid() && forall k | k in checklistItems.entries :: checklistItems.entries[k].id == k
    }

    ghost predicate ClaimUpdatesValid()
      reads this`claimUpdates
    {
      claimUpdates.Valid() && forall k | k in claimUpdates.entries :: claimUpdates.entries[k].id == k
    }

    ghost predicate PolicyProductsValid()
      reads this`policyProducts
    {
      policyProducts.Valid() && forall k | k in policyProducts.entries :: policyProducts.entries[k].id == k
    }

    /** A new store: everything empty except the catalogue, seeded under the given ids. */
    constructor (productIds: seq<Id>, now: Time)
      requires |productIds| == |SeedCatalogue|
      ensures Valid()
      ensures users == Empty() && policies == Empty() && analyses == Empty() && claims == Empty()
      ensures checklistItems == Empty() && claimUpdates == Empty()
      ensures policyProducts == Empty().SetAll(productIds, SeedProducts(productIds, now))
      ensures statusLog == []
    {
      users := Empty();
      policies := Empty();
      analyses := Empty();
      claims := Empty();
      checklistItems := Empty();
      claimUpdates := Empty();
      policyProducts := Empty();
      statusLog := [];
      new;
      SeedPolicyProducts(productIds, now);
    }

    /** Adds the catalogue, one product after the other. */
    method SeedPolicyProducts(productIds: seq<Id>, now: Time)
      requires Valid() && |productIds| == |SeedCatalogue|
      modifies this`policyProducts
      ensures Valid()
      ensures policyProducts == old(policyProducts).SetAll(productIds, SeedProducts(productIds, now))
    {
      var seeded := SeedProducts(productIds, now);
      for i := 0 to |seeded|
        invariant Valid()
        invariant policyProducts == old(policyProducts).SetAll(productIds[..i], seeded[..i])
      {
        SetAllSnoc(old(policyProducts), productIds, seeded, i);
        policyProducts := policyProducts.Set(productIds[i], seeded[i]);
      }
      assert productIds[..|seeded|] == productIds && seeded[..|seeded|] == seeded;
    }

    // ------------------------------------------------------------ users

    function GetUser(id: Id): (r: Option<User>)
      reads this
      requires Valid()
      ensures r.Some? <==> id in users.entries
      ensures r.Some? ==> r.value.id == id && r.value == users.entries[id]
    {
      users.Get(id)
    }

    /**
     * Stores the given fields under the given id, or under `freshId` when the id
     * is missing or empty; an existing user keeps its creation time.
     */
    method UpsertUser(userData: UpsertUser, freshId: Id, now: Time) returns (user: User)
      requires Valid()
      modifies this`users
      ensures Valid()
      ensures users == old(users).Set(user.id, user)
      ensures user.id == if userData.id.Some? && userData.id.value != "" then userData.id.value else freshId
      ensures user.email == userData.email && user.firstName == userData.firstName
      ensures user.lastName == userData.lastName && user.profileImageUrl == userData.profileImageUrl
      ensures user.updatedAt == now
      ensures user.createdAt ==
        if userData.id.Some? && userData.id.value in old(users).entries
        then old(users).entries[userData.id.value].createdAt
        else now
    {
      var existing := if userData.id.Some? then users.Get(userData.id.value) else None;
      var id := if userData.id.Some? && userData.id.value != "" then userData.id.value else freshId;
      var createdAt := if existing.Some? then existing.value.createdAt else now;
      user := User(id, userData.email, userData.firstName, userData.lastName, userData.profileImageUrl, createdAt, now);
      users := users.Set(id, user);
    }

    // ------------------------------------------------------------ policies

    /** Stores a new policy under `id` with status pending, whatever status the input carries. */
    method CreatePolicy(data: InsertPolicy, id: Id, now: Time) returns (policy: Policy)
      requires Valid()
      modifies this`policies
      ensures Valid()
      ensures policy == Policy(id, data.userId, data.fileName, data.fileSize, data.mimeType, now,
                               data.extractedText, Pending, now)
      ensures policies == old(policies).Set(id, policy)
      ensures id !in old(policies).entries ==> policies.keys == old(policies).keys + [id]
      ensures policies.Get(id) == Some(policy)
      ensures forall k | k != id :: policies.Get(k) == old(policies).Get(k)
    {
      policy := Policy(id, data.userId, data.fileName, data.fileSize, data.mimeType, now,
                       data.extractedText, Pending, now);
      policies := policies.Set(id, policy);
    }

    function GetPolicy(id: Id): (r: Option<Policy>)
      reads this
      requires Valid()
      ensures r.Some? <==> id in policies.entries
      ensures r.Some? ==> r.value.id == id && r.value == policies.entries[id]
    {
      policies.Get(id)
    }

    /** The user's policies, in the order they were created. */
    function GetPoliciesByUser(userId: Id): (r: seq<Policy>)
      reads this
      requires Valid()
      ensures forall i | 0 <= i < |r| :: r[i].userId == userId
      ensures forall k | k in policies.entries && policies.entries[k].userId == userId :: policies.entries[k] in r
      ensures var ks := Filter(policies.keys, KeyWhere(policies.entries, PolicyOfUser(userId)));
        |r| == |ks| && forall i | 0 <= i < |r| :: ks[i] in policies.entries && r[i] == policies.entries[ks[i]]
      ensures forall p :: multiset(r)[p] == if p.userId == userId then multiset(policies.Values())[p] else 0
    {
      ValuesHasEntries(policies);
      FilterMembers(policies.Values(), PolicyOfUser(userId));
      FilterValues(policies, PolicyOfUser(userId));
      Filter(policies.Values(), PolicyOfUser(userId))
    }

    /** Stores the extracted text on a known policy; nothing happens for an unknown id. */
    method UpdatePolicyText(id: Id, extractedText: string)
      requires Valid()
      modifies this`policies
      ensures Valid()
      ensures policies.keys == old(policies).keys
      ensures id !in old(policies).entries ==> policies == old(policies)
      ensures id in old(policies).entries ==>
        policies == old(policies).Set(id, old(policies).entries[id].(extractedText := Some(extractedText)))
    {
      var policy := policies.Get(id);
      if policy.Some? {
        policies := policies.Set(id, policy.value.(extractedText := Some(extractedText)));
      }
    }

    /** Sets the analysis status of a known policy; nothing happens for an unknown id. */
    method UpdatePolicyAnalysisStatus(id: Id, status: PolicyStatus)
      requires Valid()
      modifies this`policies, this`statusLog
      ensures Valid()
      ensures statusLog == old(statusLog) + [(id, status)]
      ensures policies.keys == old(policies).keys
      ensures id !in old(policies).entries ==> policies == old(policies)
      ensures id in old(policies).entries ==>
        policies == old(policies).Set(id, old(policies).entries[id].(analysisStatus := status))
    {
      var policy := policies.Get(id);
      if policy.Some? {
        policies := policies.Set(id, policy.value.(analysisStatus := status));
      }
      statusLog := statusLog + [(id, status)];
    }

    // ------------------------------------------------------------ analyses

    method CreateAnalysis(data: InsertAnalysis, id: Id, now: Time) returns (analysis: Analysis)
      requires Valid()
      modifies this`analyses
      ensures Valid()
      ensures analysis == Analysis(id, data.policyId, data.riskScore, data.riskLevel, data.summary,
                                   data.flaggedClauses, data.recommendations, now)
      ensures analyses == old(analyses).Set(id, analysis)
      ensures id !in old(analyses).entries ==> analyses.keys == old(analyses).keys + [id]
    {
      analysis := Analysis(id, data.policyId, data.riskScore, data.riskLevel, data.summary,
                           data.flaggedClauses, data.recommendations, now);
      analyses := analyses.Set(id, analysis);
    }

    /** The earliest-inserted analysis of the policy, if there is one. */
    function GetAnalysisByPolicy(policyId: Id): (r: Option<Analysis>)
      reads this
      requires Valid()
      ensures r.None? <==> forall k | k in analyses.entries :: analyses.entries[k].policyId != policyId
      ensures r.Some? ==> exists i | 0 <= i < |analyses.keys| ::
        && analyses.entries[analyses.keys[i]] == r.value
        && r.value.policyId == policyId
        && forall j | 0 <= j < i :: analyses.entries[analyses.keys[j]].policyId != policyId
    {
      FindInValues(analyses, AnalysisOfPolicy(policyId));
      Find(analyses.Values(), AnalysisOfPolicy(policyId))
    }

    // ------------------------------------------------------------ claims

    /**
     * Stores a new claim under `id` with a freshly made claim number, status
     * submitted and 10 processing days, whatever the input carries for those.
     */
    method CreateClaim(data: InsertClaim, id: Id, year: int, random: string, now: Time) returns (claim: Claim)
      requires Valid()
      modifies this`claims
      ensures Valid()
      ensures claim == Claim(id, data.userId, data.policyId, ClaimNumber(year, random), Submitted,
                             data.amount, data.description, 10, now, now)
      ensures claims == old(claims).Set(id, claim)
      ensures id !in old(claims).entries ==> claims.keys == old(claims).keys + [id]
    {
      var claimNumber := "CLM-" + IntToString(year) + "-" + Slice(random, 2, 8);
      claim := Claim(id, data.userId, data.policyId, claimNumber, Submitted, data.amount, data.description, 10, now, now);
      claims := claims.Set(id, claim);
    }

    /** The user's claims, in the order they were created. */
    function GetClaimsByUser(userId: Id): (r: seq<Claim>)
      reads this
      requires Valid()
      ensures forall i | 0 <= i < |r| :: r[i].userId == userId
      ensures forall k | k in claims.entries && claims.entries[k].userId == userId :: claims.entries[k] in r
      ensures var ks := Filter(claims.keys, KeyWhere(claims.entries, ClaimOfUser(userId)));
        |r| == |ks| && forall i | 0 <= i < |r| :: ks[i] in claims.entries && r[i] == claims.entries[ks[i]]
      ensures forall c :: multiset(r)[c] == if c.userId == userId then multiset(claims.Values())[c] else 0
    {
      ValuesHasEntries(claims);
      FilterMembers(claims.Values(), ClaimOfUser(userId));
      FilterValues(claims, ClaimOfUser(userId));
      Filter(claims.Values(), ClaimOfUser(userId))
    }

    function GetClaim(id: Id): (r: Option<Claim>)
      reads this
      requires Valid()
      ensures r.Some? <==> id in claims.entries
      ensures r.Some? ==> r.value.id == id && r.value == claims.entries[id]
    {
      claims.Get(id)
    }

    /** Sets the status of a known claim and refreshes its update time; nothing happens for an unknown id. */
    method UpdateClaimStatus(id: Id, status: ClaimStatus, now: Time)
      requires Valid()
      modifies this`claims
      ensures Valid()
      ensures claims.keys == old(claims).keys
      ensures id !in old(claims).entries ==> claims == old(claims)
      ensures id in old(claims).entries ==>
        claims == old(claims).Set(id, old(claims).entries[id].(status := status, updatedAt := now))
    {
      var claim := claims.Get(id);
      if claim.Some? {
        claims := claims.Set(id, claim.value.(status := status, updatedAt := now));
      }
    }

    // ------------------------------------------------------------ checklist

    /** Stores a new checklist item under `id`, never completed, whatever the input carries. */
    method CreateChecklistItem(data: InsertChecklistItem, id: Id) returns (item: ChecklistItem)
      requires Valid()
      modifies this`checklistItems
      ensures Valid()
      ensures item == ChecklistItem(id, data.claimId, data.title, data.description, false, data.order,
                                    data.requiredDocuments, data.uploadedDocuments, data.completedAt)
      ensures checklistItems == old(checklistItems).Set(id, item)
      ensures id !in old(checklistItems).entries ==> checklistItems.keys == old(checklistItems).keys + [id]
    {
      item := ChecklistItem(id, data.claimId, data.title, data.description, false, data.order,
                            data.requiredDocuments, data.uploadedDocuments, data.completedAt);
      checklistItems := checklistItems.Set(id, item);
    }

    /**
     * The claim's checklist, ascending by `order`: exactly the stored items of
     * that claim, items with the same order in the order they were created.
     */
    function GetChecklistItemsByClaim(claimId: Id): (r: seq<ChecklistItem>)
      reads this
      requires Valid()
      ensures forall i, j | 0 <= i < j < |r| :: r[i].order <= r[j].order
      ensures multiset(r) == multiset(Filter(checklistItems.Values(), ItemOfClaim(claimId)))
      ensures forall i | 0 <= i < |r| :: r[i].claimId == claimId
    {
      SortedFilterHolds(checklistItems.Values(), ItemOfClaim(claimId), OrderKey);
      SortBy(Filter(checklistItems.Values(), ItemOfClaim(claimId)), OrderKey)
    }

    /**
     * Merges the patch into a known item and stamps `completedAt` when the
     * patch marks it completed; nothing happens for an unknown id.
     */
    method UpdateChecklistItem(id: Id, patch: ChecklistPatch, now: Time)
      requires Valid()
      modifies this`checklistItems
      ensures Valid()
      ensures checklistItems.keys == old(checklistItems).keys
      ensures id !in old(checklistItems).entries ==> checklistItems == old(checklistItems)
      ensures id in old(checklistItems).entries ==>
        var merged := ApplyPatch(old(checklistItems).entries[id], patch);
        checklistItems == old(checklistItems).Set(id,
          if patch.isCompleted == Some(true) then merged.(completedAt := Some(now)) else merged)
      ensures id in old(checklistItems).entries && patch == CompletionPatch(false) ==>
        checklistItems.entries[id].completedAt == old(checklistItems).entries[id].completedAt
    {
      var item := checklistItems.Get(id);
      if item.Some? {
        var updated := ApplyPatch(item.value, patch);
        if patch.isCompleted == Some(true) {
          updated := updated.(completedAt := Some(now));
        }
        checklistItems := checklistItems.Set(id, updated);
      }
    }

    // ------------------------------------------------------------ claim updates

    method CreateClaimUpdate(data: InsertClaimUpdate, id: Id, now: Time) returns (update: ClaimUpdate)
      requires Valid()
      modifies this`claimUpdates
      ensures Valid()
      ensures update == ClaimUpdate(id, data.claimId, data.title, data.description, data.updateType, now)
      ensures claimUpdates == old(claimUpdates).Set(id, update)
      ensures id !in old(claimUpdates).entries ==> claimUpdates.keys == old(claimUpdates).keys + [id]
    {
      update := ClaimUpdate(id, data.claimId, data.title, data.description, data.updateType, now);
      claimUpdates := claimUpdates.Set(id, update);
    }

    /** The claim's updates, newest first: exactly the stored updates of that claim. */
    function GetClaimUpdatesByClaim(claimId: Id): (r: seq<ClaimUpdate>)
      reads this
      requires Valid()
      ensures forall i, j | 0 <= i < j < |r| :: r[i].createdAt >= r[j].createdAt
      ensures multiset(r) == multiset(Filter(claimUpdates.Values(), UpdateOfClaim(claimId)))
      ensures forall i | 0 <= i < |r| :: r[i].claimId == claimId
    {
      SortedFilterHolds(claimUpdates.Values(), UpdateOfClaim(claimId), NewestFirstKey);
      SortBy(Filter(claimUpdates.Values(), UpdateOfClaim(claimId)), NewestFirstKey)
    }

    // ------------------------------------------------------------ policy products

    method CreatePolicyProduct(info: ProductInfo, id: Id, now: Time) returns (product: PolicyProduct)
      requires Valid()
      modifies this`policyProducts
      ensures Valid()
      ensures product == PolicyProduct(id, info, now)
      ensures policyProducts == old(policyProducts).Set(id, product)
      ensures id !in old(policyProducts).entries ==> policyProducts.keys == old(policyProducts).keys + [id]
    {
      product := PolicyProduct(id, info, now);
      policyProducts := policyProducts.Set(id, product);
    }

    function GetAllPolicyProducts(): (r: seq<PolicyProduct>)
      reads this
      requires Valid()
      ensures |r| == |policyProducts.keys|
      ensures forall i | 0 <= i < |r| :: r[i] == policyProducts.entries[policyProducts.keys[i]]
    {
      policyProducts.Values()
    }

    /** The products of the category, in the order they were added. */
    function GetPolicyProductsByCategory(category: string): (r: seq<PolicyProduct>)
      reads this
      requires Valid()
      ensures forall i | 0 <= i < |r| :: r[i].info.category == category
      ensures forall k | k in policyProducts.entries && policyProducts.entries[k].info.category == category ::
        policyProducts.entries[k] in r
      ensures var ks := Filter(policyProducts.keys, KeyWhere(policyProducts.entries, InCategory(category)));
        |r| == |ks| && forall i | 0 <= i < |r| :: ks[i] in policyProducts.entries && r[i] == policyProducts.entries[ks[i]]
      ensures forall p :: multiset(r)[p] == if p.info.category == category then multiset(policyProducts.Values())[p] else 0
    {
      ValuesHasEntries(policyProducts);
      FilterMembers(policyProducts.Values(), InCategory(category));
      FilterValues(policyProducts, InCategory(category));
      Filter(policyProducts.Values(), InCategory(category))
    }

    /**
     * Up to five products of the category whose coverage lies within half to
     * twice `coverage`, best claim settlement ratio first.
     */
    function FindSimilarPolicies(coverage: real, category: string): (r: seq<PolicyProduct>)
      reads this
      requires Valid()
      ensures var n := |Filter(policyProducts.Values(), SimilarTo(coverage, category))|;
        |r| == if n < 5 then n else 5
      ensures forall i | 0 <= i < |r| :: IsSimilar(r[i], coverage, category)
      ensures forall i, j | 0 <= i < j < |r| :: r[i].info.claimSettlementRatio >= r[j].info.claimSettlementRatio
      ensures r <= SortBy(Filter(policyProducts.Values(), SimilarTo(coverage, category)), RatioKey)
      ensures forall p, i | p in Filter(policyProducts.Values(), SimilarTo(coverage, category)) && p !in r && 0 <= i < |r| ::
        p.info.claimSettlementRatio <= r[i].info.claimSettlementRatio
    {
      SimilarAmong(policyProducts.Values(), coverage, category)
    }
  }
}
