/**
 * The policy comparison page: the policy id taken from the location, the
 * selection of at most three alternatives, the up/down marks that say whether
 * an alternative is better, and the coverage label.
 */
module PolicyComparison {
  import opened Wrappers
  import opened JsStrings
  import opened JsCollections

  // ---------------------------------------------------------------- location

  const ComparePath := "compare"

  /** `location.split('/')[2]`, which is `undefined` when the location has fewer than two slashes. */
  function PolicyIdOf(location: string): (r: Option<string>)
    ensures r.Some? <==> |Split(location, "/")| > 2
    ensures r.Some? ==> !Contains(r.value, "/")
  {
    var parts := Split(location, "/");
    SplitPartsFree(location, "/");
    if |parts| > 2 then Some(parts[2]) else None
  }

  /** `/compare/X`, for an `X` without a slash, names policy `X`. */
  lemma PolicyIdOfCompare(x: string)
    requires forall i | 0 <= i < |x| :: x[i] != '/'
    ensures PolicyIdOf("/" + ComparePath + "/" + x) == Some(x)
  {
    CompareLocationSplit(x);
  }

  /** `/compare/X` splits at its slashes into an empty piece, `compare` and `X`. */
  lemma CompareLocationSplit(x: string)
    requires forall i | 0 <= i < |x| :: x[i] != '/'
    ensures Split("/" + ComparePath + "/" + x, "/") == ["", ComparePath, x]
  {
    ComparePathHasNoSlash();
    SplitTwoSeparators('/', ComparePath, x);
  }

  lemma ComparePathHasNoSlash()
    ensures forall i | 0 <= i < |ComparePath| :: ComparePath[i] != '/'
  {
    assert ComparePath[0] == 'c' && ComparePath[1] == 'o' && ComparePath[2] == 'm' && ComparePath[3] == 'p';
    assert ComparePath[4] == 'a' && ComparePath[5] == 'r' && ComparePath[6] == 'e';
  }

  // ---------------------------------------------------------------- selection

  ghost predicate NoDuplicates(s: seq<string>) {
    forall i, j | 0 <= i < j < |s| :: s[i] != s[j]
  }

  /** What the selection always satisfies: at most three ids, none twice. */
  ghost predicate ValidSelection(s: seq<string>) {
    |s| <= 3 && NoDuplicates(s)
  }

  /**
   * `handlePolicySelect(id)`: a selected id is removed, an absent one is
   * appended while fewer than three are selected, and otherwise nothing changes.
   */
  function Select(prev: seq<string>, id: string): (r: seq<string>)
    ensures id in prev ==> id !in r && forall x :: x in r <==> x in prev && x != id
    ensures id !in prev && |prev| < 3 ==> r == prev + [id]
    ensures id !in prev && |prev| >= 3 ==> r == prev
  {
    if id in prev then
      FilterMembers(prev, x => x != id);
      Filter(prev, x => x != id)
    else if |prev| < 3 then prev + [id]
    else prev
  }

  /** Deselecting keeps the other ids in their order: it cuts the id out where it stood. */
  lemma DeselectCutsOut(prev: seq<string>, i: nat)
    requires i < |prev| && NoDuplicates(prev)
    ensures Select(prev, prev[i]) == prev[..i] + prev[i + 1..]
  {
    var id := prev[i];
    var f := x => x != id;
    var a, b := prev[..i], prev[i + 1..];
    assert prev == a + [id] + b;
    assert Filter(a + [id], f) == a by {
      FilterAll(a, f);
      FilterConcat(a, [id], f);
      assert Filter([id], f) == [];
    }
    assert Filter(b, f) == b by {
      FilterAll(b, f);
    }
    FilterConcat(a + [id], b, f);
  }

  /** One selection keeps a valid selection valid. */
  lemma SelectKeepsValid(prev: seq<string>, id: string)
    requires ValidSelection(prev)
    ensures ValidSelection(Select(prev, id))
  {
    if id in prev {
      var i :| 0 <= i < |prev| && prev[i] == id;
      DeselectCutsOut(prev, i);
      var r := prev[..i] + prev[i + 1..];
      forall p, q | 0 <= p < q < |r| ensures r[p] != r[q] {
        var p', q' := if p < i then p else p + 1, if q < i then q else q + 1;
        assert r[p] == prev[p'] && r[q] == prev[q'];
      }
    }
  }

  /** The selection after clicking each id of `ids` in turn. */
  function SelectAll(prev: seq<string>, ids: seq<string>): seq<string>
    decreases |ids|
  {
    if ids == [] then prev else SelectAll(Select(prev, ids[0]), ids[1..])
  }

  /** Any sequence of clicks keeps a valid selection valid. */
  lemma {:induction false} SelectAllKeepsValid(prev: seq<string>, ids: seq<string>)
    requires ValidSelection(prev)
    ensures ValidSelection(SelectAll(prev, ids))
    decreases |ids|
  {
    if ids != [] {
      SelectKeepsValid(prev, ids[0]);
      SelectAllKeepsValid(Select(prev, ids[0]), ids[1..]);
    }
  }

  /** Clicking an absent id twice, when there is room, gives the original selection back. */
  lemma SelectTwiceRestores(prev: seq<string>, id: string)
    requires id !in prev && |prev| < 3
    ensures Select(Select(prev, id), id) == prev
  {
    var f := x => x != id;
    FilterAll(prev, f);
    FilterConcat(prev, [id], f);
    assert Filter([id], f) == [];
  }

  // ---------------------------------------------------------------- comparison marks

  /** `lowerIsBetter ? alternative < current : alternative > current` */
  predicate IsBetter(current: real, alternative: real, lowerIsBetter: bool) {
    if lowerIsBetter then alternative < current else alternative > current
  }

  datatype Trend = TrendingUp | TrendingDown

  /** `getComparisonIcon`: none for equal values, up for a better alternative, down for a worse one. */
  function ComparisonIcon(current: real, alternative: real, lowerIsBetter: bool): (r: Option<Trend>)
    ensures r.None? <==> current == alternative
    ensures r == Some(TrendingUp) <==> current != alternative && IsBetter(current, alternative, lowerIsBetter)
  {
    if current == alternative then None
    else if IsBetter(current, alternative, lowerIsBetter) then Some(TrendingUp)
    else Some(TrendingDown)
  }

  datatype BadgeVariant = SecondaryBadge | DefaultBadge | DestructiveBadge

  /** `getBadgeVariant`: neutral for equal values, default for a better alternative, destructive for a worse one. */
  function BadgeVariantOf(current: real, alternative: real, lowerIsBetter: bool): (r: BadgeVariant)
    ensures r == SecondaryBadge <==> current == alternative
    ensures r == DefaultBadge <==> current != alternative && IsBetter(current, alternative, lowerIsBetter)
  {
    if current == alternative then SecondaryBadge
    else if IsBetter(current, alternative, lowerIsBetter) then DefaultBadge
    else DestructiveBadge
  }

  /** The badge and the icon tell the same story. */
  lemma BadgeMatchesIcon(current: real, alternative: real, lowerIsBetter: bool)
    ensures BadgeVariantOf(current, alternative, lowerIsBetter) == SecondaryBadge
        <==> ComparisonIcon(current, alternative, lowerIsBetter).None?
    ensures BadgeVariantOf(current, alternative, lowerIsBetter) == DestructiveBadge
        <==> ComparisonIcon(current, alternative, lowerIsBetter) == Some(TrendingDown)
  {
  }

  /**
   * Of two different values exactly one is better than the other, and "lower
   * is better" is "higher is better" with the two values swapped.
   */
  lemma BetterIsOneSided(x: real, y: real, lowerIsBetter: bool)
    requires x != y
    ensures IsBetter(x, y, lowerIsBetter) != IsBetter(y, x, lowerIsBetter)
    ensures IsBetter(x, y, true) == IsBetter(y, x, false)
  {
  }

  // ---------------------------------------------------------------- coverage label

  /** The rupee sign as the page spells it: the UTF-8 bytes of U+20B9 read as Windows-1252. */
  const RupeeAsWritten := "â‚¹"
  const LakhWord := " Lakh"

  /** The plural ending of the coverage label. */
  function Plural(lakhs: int): string {
    if lakhs != 1 then "s" else ""
  }

  /** `formatCoverage(lakhs)`: the sign, the number, " Lakh", and "s" unless the number is 1. */
  function FormatCoverage(lakhs: int): (r: string)
    ensures |r| >= |RupeeAsWritten| && r[..|RupeeAsWritten|] == RupeeAsWritten
    ensures (r[|r| - 1] == 's') <==> lakhs != 1
  {
    RupeeAsWritten + (IntToString(lakhs) + (LakhWord + Plural(lakhs)))
  }

  /** The unit word of the label: "Lakh" for exactly one, "Lakhs" otherwise. */
  function LakhUnit(lakhs: int): string {
    if lakhs == 1 then "Lakh" else "Lakhs"
  }

  /** After the sign, the label reads as two words: the number, then the unit, singular only for one. */
  lemma FormatCoverageReadsBack(lakhs: int)
    ensures Split(FormatCoverage(lakhs)[|RupeeAsWritten|..], " ") == [IntToString(lakhs), LakhUnit(lakhs)]
  {
    var n, unit := IntToString(lakhs), LakhUnit(lakhs);
    assert FormatCoverage(lakhs)[|RupeeAsWritten|..] == n + (LakhWord + Plural(lakhs));
    assert n + (LakhWord + Plural(lakhs)) == n + [' '] + unit by {
      assert LakhWord + Plural(lakhs) == [' '] + unit;
    }
    LakhUnitHasNoSpace(lakhs);
    SplitWord(n, ' ', unit);
    SplitLastWord(unit, ' ');
  }

  lemma LakhUnitHasNoSpace(lakhs: int)
    ensures forall i | 0 <= i < |LakhUnit(lakhs)| :: LakhUnit(lakhs)[i] != ' '
  {
    var u := LakhUnit(lakhs);
    assert u[0] == 'L' && u[1] == 'a' && u[2] == 'k' && u[3] == 'h';
    assert |u| == 5 ==> u[4] == 's';
  }

  /** Different coverages get different labels. */
  lemma FormatCoverageInjective(a: int, b: int)
    requires FormatCoverage(a) == FormatCoverage(b)
    ensures a == b
  {
    var ta := LakhWord + Plural(a);
    var tb := LakhWord + Plural(b);
    assert IntToString(a) + ta == IntToString(b) + tb by {
      CancelPrefix(RupeeAsWritten, IntToString(a) + ta, IntToString(b) + tb);
    }
    assert IntToString(a) == IntToString(b) by {
      WordBeforeSpace(IntToString(a), IntToString(b), ta, tb);
    }
    IntToStringInjective(a, b);
  }

  /** Equal strings with a common head have equal tails. */
  lemma CancelPrefix(head: string, u: string, v: string)
    requires head + u == head + v
    ensures u == v
  {
    assert u == (head + u)[|head|..];
    assert v == (head + v)[|head|..];
  }

  /** Two space-free words each followed by a space-led tail: equal strings mean equal words. */
  lemma WordBeforeSpace(x: string, y: string, tx: string, ty: string)
    requires forall i | 0 <= i < |x| :: x[i] != ' '
    requires forall i | 0 <= i < |y| :: y[i] != ' '
    requires |tx| > 0 && tx[0] == ' ' && |ty| > 0 && ty[0] == ' '
    requires x + tx == y + ty
    ensures x == y
  {
    assert x == (x + tx)[..|x|];
    assert y == (y + ty)[..|y|];
  }
}
