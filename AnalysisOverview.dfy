/**
 * The analysis overview page: the user's policies split by analysis status
 * into completed, processing and pending, beside the total count. The page
 * receives the policies as JSON, so a status is its stored word.
 */
module AnalysisOverview {
  import opened Wrappers
  import opened JsCollections
  import opened Schema

  predicate IsCompleted(p: Policy) {
    p.analysisStatus.Name() == "completed"
  }

  predicate IsProcessing(p: Policy) {
    p.analysisStatus.Name() == "processing"
  }

  predicate IsPending(p: Policy) {
    p.analysisStatus.Name() == "pending"
  }

  /** A policy the page shows in none of the three lists, such as a failed one. */
  predicate IsOther(p: Policy) {
    !IsCompleted(p) && !IsProcessing(p) && !IsPending(p)
  }

  datatype Overview = Overview(completed: seq<Policy>, processing: seq<Policy>, pending: seq<Policy>, total: nat)

  /** The three `filter`s, each `|| []` while the policies are not loaded, and `policies?.length || 0`. */
  function OverviewOf(policies: Option<seq<Policy>>): (r: Overview)
    ensures policies.None? ==> r == Overview([], [], [], 0)
    ensures policies.Some? ==> r.total == |policies.value|
  {
    match policies
    case None => Overview([], [], [], 0)
    case Some(ps) => Overview(Filter(ps, IsCompleted), Filter(ps, IsProcessing), Filter(ps, IsPending), |ps|)
  }

  /** Each list holds exactly the policies of its status, as often as the policies do. */
  lemma ListsHoldTheirStatus(ps: seq<Policy>)
    ensures var r := OverviewOf(Some(ps));
      && (forall p :: multiset(r.completed)[p] == if IsCompleted(p) then multiset(ps)[p] else 0)
      && (forall p :: multiset(r.processing)[p] == if IsProcessing(p) then multiset(ps)[p] else 0)
      && (forall p :: multiset(r.pending)[p] == if IsPending(p) then multiset(ps)[p] else 0)
  {
    FilterCounts(ps, IsCompleted);
    FilterCounts(ps, IsProcessing);
    FilterCounts(ps, IsPending);
  }

  /** No policy is in two lists. */
  lemma ListsAreDisjoint(policies: Option<seq<Policy>>)
    ensures var r := OverviewOf(policies);
      forall p :: (p in r.completed ==> p !in r.processing && p !in r.pending) && (p in r.processing ==> p !in r.pending)
  {
    if policies.Some? {
      FilterMembers(policies.value, IsCompleted);
      FilterMembers(policies.value, IsProcessing);
      FilterMembers(policies.value, IsPending);
    }
  }

  /** The three lists and the others together account for every policy. */
  lemma {:induction false} PartitionSizes(ps: seq<Policy>)
    ensures |Filter(ps, IsCompleted)| + |Filter(ps, IsProcessing)| + |Filter(ps, IsPending)| + |Filter(ps, IsOther)| == |ps|
    decreases |ps|
  {
    if ps != [] {
      PartitionSizes(ps[..|ps| - 1]);
    }
  }

  /** The list sizes add up to at most the total, and to the total exactly when no policy has another status. */
  lemma ListSizesAndTotal(policies: Option<seq<Policy>>)
    ensures var r := OverviewOf(policies);
      && |r.completed| + |r.processing| + |r.pending| <= r.total
      && (|r.completed| + |r.processing| + |r.pending| == r.total
          <==> policies.None? || forall i | 0 <= i < |policies.value| :: !IsOther(policies.value[i]))
  {
    if policies.Some? {
      PartitionSizes(policies.value);
      FilterKeepsNone(policies.value, IsOther);
    }
  }
}
