/**
 * The claim tracker page: the five progress steps derived from a claim's
 * status, and the tests that pick out the updates that mention the blockchain.
 * The page receives the claim as JSON, so the status is the stored string.
 */
module ClaimTracker {
  import opened Wrappers
  import opened JsStrings
  import opened JsCollections
  import opened Schema
  import opened StatusTracker

  /** The claim statuses in the order a claim moves through them. */
  const Progression: seq<string> := ["submitted", "under_review", "processing", "decision", "payment", "completed"]

  const InProgress := "In Progress"
  const DoneLabel := "Completed"

  function Min(a: int, b: int): int {
    if a <= b then a else b
  }

  /**
   * `getStatusSteps()`: the steps submitted, under review, processing,
   * decision and payment. A step is completed when the status is its own or a
   * later one; `submittedDate` is the rendered submission date, or empty.
   */
  function StatusSteps(status: string, submittedDate: string): (steps: seq<StatusStep>)
    ensures |steps| == 5
    ensures forall k | 0 <= k < 5 :: steps[k].id == Progression[k]
    ensures steps[0].completed && steps[0].date == submittedDate
  {
    [ StatusStep("submitted", "Submitted", true, false, submittedDate),
      StatusStep("under_review", "Under Review", status in Progression[1..], false,
                 if status == "under_review" then InProgress else ""),
      StatusStep("processing", "Processing", status in Progression[2..], status == "processing",
                 if status == "processing" then InProgress else ""),
      StatusStep("decision", "Decision", status in Progression[3..], status == "decision",
                 if status == "decision" then InProgress else ""),
      StatusStep("payment", "Payment", status in Progression[4..], status == "payment",
                 if status == "completed" then DoneLabel else if status == "payment" then InProgress else "")
    ]
  }

  /** The six statuses of the progression are different words. */
  lemma ProgressionDistinct()
    ensures forall i, j | 0 <= i < j < |Progression| :: Progression[i] != Progression[j]
  {
  }

  /** Step `k` is completed exactly when the status is the `k`-th of the progression or a later one. */
  lemma StepCompletedIff(status: string, d: string, k: nat)
    requires k < 5
    ensures StatusSteps(status, d)[k].completed <==> k == 0 || status in Progression[k..]
  {
  }

  /** The completed steps always form a prefix: a completed step has only completed steps before it. */
  lemma CompletedFormPrefix(status: string, d: string)
    ensures forall i, j | 0 <= i < j < 5 :: StatusSteps(status, d)[j].completed ==> StatusSteps(status, d)[i].completed
  {
    forall i, j | 0 <= i < j < 5 && StatusSteps(status, d)[j].completed
      ensures StatusSteps(status, d)[i].completed
    {
      StepCompletedIff(status, d, i);
      StepCompletedIff(status, d, j);
      if i > 0 {
        var m :| j <= m < |Progression| && Progression[m] == status;
        assert Progression[i..][m - i] == status;
      }
    }
  }

  /**
   * For the `i`-th status of the progression, `1 + min(i, 4)` steps are
   * completed: all five for `completed`.
   */
  lemma CompletedCountOfKnown(status: string, d: string, i: nat)
    requires i < |Progression| && Progression[i] == status
    ensures CompletedSteps(StatusSteps(status, d)) == 1 + Min(i, 4)
  {
    var steps := StatusSteps(status, d);
    ProgressionDistinct();
    forall k | 0 <= k < 5 ensures steps[k].completed <==> k < 1 + Min(i, 4) {
      StepCompletedIff(status, d, k);
      if k > 0 && status in Progression[k..] {
        var m :| 0 <= m < |Progression[k..]| && Progression[k..][m] == status;
        assert Progression[k + m] == status;
      }
      if 0 < k <= i {
        assert Progression[k..][i - k] == status;
      }
    }
    CompletedPrefixCount(steps, 1 + Min(i, 4));
  }

  /** A status outside the progression completes only the submitted step. */
  lemma CompletedCountOfUnknown(status: string, d: string)
    requires status !in Progression
    ensures CompletedSteps(StatusSteps(status, d)) == 1
  {
    var steps := StatusSteps(status, d);
    forall k | 0 <= k < 5 ensures steps[k].completed <==> k < 1 {
      StepCompletedIff(status, d, k);
    }
    CompletedPrefixCount(steps, 1);
  }

  /** Only processing, decision and payment can be current, each for its own status; a current step is completed. */
  lemma CurrentIsOwnStatus(status: string, d: string)
    ensures forall k | 0 <= k < 5 :: StatusSteps(status, d)[k].current <==> 2 <= k && status == Progression[k]
    ensures forall k | 0 <= k < 5 :: StatusSteps(status, d)[k].current ==> StatusSteps(status, d)[k].completed
  {
    forall k | 0 <= k < 5 ensures StatusSteps(status, d)[k].current <==> 2 <= k && status == Progression[k] {
      StepCurrentIff(status, d, k);
    }
    forall k | 0 <= k < 5 && StatusSteps(status, d)[k].current ensures StatusSteps(status, d)[k].completed {
      StepCurrentIff(status, d, k);
      StepCompletedIff(status, d, k);
      assert Progression[k..][0] == status;
    }
  }

  /** Step `k` is current exactly when it is one of the last three and the status is its own. */
  lemma StepCurrentIff(status: string, d: string, k: nat)
    requires k < 5
    ensures StatusSteps(status, d)[k].current <==> 2 <= k && status == Progression[k]
  {
  }

  /** At most one step is current. */
  lemma AtMostOneCurrent(status: string, d: string, i: nat, j: nat)
    requires i < 5 && j < 5 && StatusSteps(status, d)[i].current && StatusSteps(status, d)[j].current
    ensures i == j
  {
    CurrentIsOwnStatus(status, d);
    ProgressionDistinct();
  }

  /** Payment reads "Completed" exactly for a completed claim and "In Progress" exactly while paying. */
  lemma PaymentDateLabel(status: string, d: string)
    ensures StatusSteps(status, d)[4].date == DoneLabel <==> status == "completed"
    ensures StatusSteps(status, d)[4].date == InProgress <==> status == "payment"
  {
  }

  /** Each middle step reads "In Progress" exactly while the claim is at that step, and is blank otherwise. */
  lemma MiddleDateLabels(status: string, d: string, k: nat)
    requires 1 <= k <= 3
    ensures StatusSteps(status, d)[k].date == (if status == Progression[k] then InProgress else "")
  {
  }

  // ---------------------------------------------------------------- blockchain markers

  const BlockchainWord := "Blockchain"
  const YellowNetwork := "Yellow Network"

  /** The lock emoji U+1F512. */
  const Lock := "\U{1F512}"

  /** The lock marker as the page spells it: the UTF-8 bytes of U+1F512 read as Windows-1252. */
  const LockAsWritten := "ðŸ”’"

  /** `update.description?.includes(marker)` */
  predicate DescriptionHas(u: ClaimUpdate, marker: string) {
    u.description.Some? && Contains(u.description.value, marker)
  }

  predicate TitleMarked(u: ClaimUpdate) {
    Contains(u.title, BlockchainWord) || Contains(u.title, YellowNetwork)
  }

  /** The test of `blockchainUpdates`, with a given lock marker. */
  predicate OnChainWith(u: ClaimUpdate, lock: string) {
    TitleMarked(u) || DescriptionHas(u, lock)
  }

  /** The test of `isBlockchainSecured`, with a given lock marker: also a description naming Yellow Network. */
  predicate SecuresWith(u: ClaimUpdate, lock: string) {
    OnChainWith(u, lock) || DescriptionHas(u, YellowNetwork)
  }

  predicate OnChain(u: ClaimUpdate) {
    OnChainWith(u, Lock)
  }

  predicate Secures(u: ClaimUpdate) {
    SecuresWith(u, Lock)
  }

  predicate OnChainAsWritten(u: ClaimUpdate) {
    OnChainWith(u, LockAsWritten)
  }

  predicate SecuresAsWritten(u: ClaimUpdate) {
    SecuresWith(u, LockAsWritten)
  }

  /** `isBlockchainSecured`: some update carries a marker. */
  function IsBlockchainSecured(updates: seq<ClaimUpdate>): (r: bool)
    ensures r <==> exists i | 0 <= i < |updates| :: Secures(updates[i])
  {
    FindIndex(updates, Secures) >= 0
  }

  /** `isBlockchainSecured` as the page writes it, with the misspelt lock. */
  function IsBlockchainSecuredAsWritten(updates: seq<ClaimUpdate>): (r: bool)
    ensures r <==> exists i | 0 <= i < |updates| :: SecuresAsWritten(updates[i])
  {
    FindIndex(updates, SecuresAsWritten) >= 0
  }

  /** `blockchainUpdates`: the updates with a blockchain title or a lock in the description, in order. */
  function BlockchainUpdates(updates: seq<ClaimUpdate>): (r: seq<ClaimUpdate>)
    ensures forall i | 0 <= i < |r| :: OnChain(r[i])
  {
    Filter(updates, OnChain)
  }

  /** `blockchainUpdates` as the page writes it, with the misspelt lock. */
  function BlockchainUpdatesAsWritten(updates: seq<ClaimUpdate>): (r: seq<ClaimUpdate>)
    ensures forall i | 0 <= i < |r| :: OnChainAsWritten(r[i])
  {
    Filter(updates, OnChainAsWritten)
  }

  /**
   * Any blockchain update makes the claim secured; a secured claim without
   * blockchain updates has an update whose description names Yellow Network.
   */
  lemma ChainUpdatesMeanSecured(updates: seq<ClaimUpdate>)
    ensures |BlockchainUpdates(updates)| > 0 ==> IsBlockchainSecured(updates)
    ensures IsBlockchainSecured(updates) && BlockchainUpdates(updates) == [] ==>
      exists i | 0 <= i < |updates| :: DescriptionHas(updates[i], YellowNetwork) && !OnChain(updates[i])
  {
    FilterMembers(updates, OnChain);
    FilterKeepsNone(updates, OnChain);
    if |BlockchainUpdates(updates)| > 0 {
      var u := BlockchainUpdates(updates)[0];
      var i :| 0 <= i < |updates| && updates[i] == u;
      assert Secures(updates[i]);
    }
  }

  /** Every update of `BlockchainUpdates` comes from the claim's updates, and every marked update is kept. */
  lemma ChainUpdatesAreTheMarkedOnes(updates: seq<ClaimUpdate>)
    ensures forall u :: u in BlockchainUpdates(updates) <==> u in updates && OnChain(u)
  {
    FilterMembers(updates, OnChain);
  }

  /** An update whose description names only Yellow Network secures the claim without being a blockchain update. */
  lemma SecuredWithoutChainUpdates(id: Id, claimId: Id, t: UpdateType, at: Time)
    ensures var u := ClaimUpdate(id, claimId, "", Some(YellowNetwork), t, at);
      IsBlockchainSecured([u]) && BlockchainUpdates([u]) == []
  {
    var u := ClaimUpdate(id, claimId, "", Some(YellowNetwork), t, at);
    assert OccursAt(YellowNetwork, YellowNetwork, 0);
    NoLockInYellowNetwork();
    assert Secures([u][0]);
    assert !OnChain(u);
  }

  lemma NoLockInYellowNetwork()
    ensures !Contains(YellowNetwork, Lock)
  {
    forall j | OccursAt(YellowNetwork, Lock, j) ensures YellowNetwork[j] == Lock[0] {
      assert YellowNetwork[j..j + 1] == Lock;
    }
  }

  /** A description carrying the lock emoji makes the update a blockchain update and the claim secured. */
  lemma LockedUpdateIsOnChain(updates: seq<ClaimUpdate>, i: nat)
    requires i < |updates| && DescriptionHas(updates[i], Lock)
    ensures IsBlockchainSecured(updates)
    ensures updates[i] in BlockchainUpdates(updates)
  {
    assert Secures(updates[i]);
    FilterMembers(updates, OnChain);
  }

  /**
   * The page's spelling of the lock misses an update that carries the lock
   * emoji and no other marker: such an update secures the claim and is a
   * blockchain update, yet the page's tests reject it.
   */
  lemma AsWrittenMissesLock(id: Id, claimId: Id, t: UpdateType, at: Time)
    ensures var u := ClaimUpdate(id, claimId, "", Some(Lock), t, at);
      && !IsBlockchainSecuredAsWritten([u]) && BlockchainUpdatesAsWritten([u]) == []
      && IsBlockchainSecured([u]) && BlockchainUpdates([u]) == [u]
  {
    var u := ClaimUpdate(id, claimId, "", Some(Lock), t, at);
    assert OccursAt(Lock, Lock, 0);
    assert !SecuresAsWritten(u);
    assert OnChain([u][0]);
    FilterAll([u], OnChain);
  }
}
