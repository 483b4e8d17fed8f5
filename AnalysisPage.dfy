/**
 * The analysis page: the recommendations text is split at the blockchain
 * verification heading into the main advice and the blockchain section, and
 * the page shows a "verified" badge when the text carries a verification marker.
 */
module AnalysisPage {
  import opened Wrappers
  import opened JsStrings
  import opened Schema

  const VerifiedMarker := "\U{1F512} Blockchain Verification"
  const YellowNetwork := "Yellow Network"

  /** The heading that starts the blockchain section: a blank line, then the marker and a colon. */
  const Delimiter := "\n\n" + VerifiedMarker + ":"

  datatype Recommendations = Recommendations(main: string, blockchain: string)

  /** `getRecommendationsData()`: `split(delimiter)`, then the first piece and the second (or `''`). */
  function RecommendationsData(recommendations: Option<string>): (r: Recommendations)
    ensures recommendations.None? || recommendations.value == "" ==> r == Recommendations("", "")
    ensures recommendations.Some? ==> r.main <= recommendations.value
    ensures r.blockchain != "" ==> recommendations.Some? && Contains(recommendations.value, Delimiter)
  {
    if recommendations.None? || recommendations.value == "" then Recommendations("", "")
    else
      var parts := Split(recommendations.value, Delimiter);
      SplitFirst(recommendations.value, Delimiter);
      Recommendations(parts[0], if |parts| > 1 then parts[1] else "")
  }

  /** Missing or empty recommendations give two empty parts; text without the heading is all main advice. */
  lemma RecommendationsWithoutHeading(recommendations: Option<string>)
    requires recommendations.None? || !Contains(recommendations.value, Delimiter)
    ensures RecommendationsData(recommendations).blockchain == ""
    ensures RecommendationsData(recommendations).main == recommendations.GetOr("")
  {
    if recommendations.Some? {
      SplitFirst(recommendations.value, Delimiter);
    }
  }

  /**
   * With the heading, the main advice is the text before its first occurrence
   * and does not contain it, and the blockchain section is the text up to the
   * next occurrence, or to the end.
   */
  lemma RecommendationsWithHeading(s: string)
    requires Contains(s, Delimiter)
    ensures var i := IndexOf(s, Delimiter);
      var rest := s[i + |Delimiter|..];
      var r := RecommendationsData(Some(s));
      && r.main == s[..i]
      && !Contains(r.main, Delimiter)
      && r.blockchain == (if Contains(rest, Delimiter) then rest[..IndexOf(rest, Delimiter)] else rest)
  {
    var i := IndexOf(s, Delimiter);
    var rest := s[i + |Delimiter|..];
    SplitFirst(s, Delimiter);
    SplitFirst(rest, Delimiter);
    forall j | OccursAt(s[..i], Delimiter, j) ensures false {
      OccursInPrefix(s, Delimiter, i, j);
    }
  }

  /**
   * Putting the parts back together with the heading gives a prefix of the
   * text, and the whole text exactly when the heading occurs only once.
   */
  lemma RecommendationsReassemble(s: string)
    requires Contains(s, Delimiter)
    ensures var r := RecommendationsData(Some(s));
      var rest := s[IndexOf(s, Delimiter) + |Delimiter|..];
      && r.main + Delimiter + r.blockchain <= s
      && (r.main + Delimiter + r.blockchain == s <==> !Contains(rest, Delimiter))
  {
    var i := IndexOf(s, Delimiter);
    var rest := s[i + |Delimiter|..];
    var r := RecommendationsData(Some(s));
    var head := s[..i] + Delimiter;
    assert r.main + Delimiter == head
        && r.blockchain == (if Contains(rest, Delimiter) then rest[..IndexOf(rest, Delimiter)] else rest) by {
      RecommendationsWithHeading(s);
    }
    assert s == head + rest by {
      assert s[i..i + |Delimiter|] == Delimiter;
      SliceThree(s, i, i + |Delimiter|);
    }
    assert r.blockchain == rest <==> !Contains(rest, Delimiter);
    PrefixOfJoin(head, r.blockchain, rest);
  }

  /** Extending a common head by a prefix of `rest` gives a prefix of the head followed by `rest`. */
  lemma PrefixOfJoin(head: string, b: string, rest: string)
    requires b <= rest
    ensures head + b <= head + rest
    ensures head + b == head + rest <==> b == rest
  {
    if head + b == head + rest {
      assert b == (head + b)[|head|..];
    }
  }

  /** The heading carries the marker two characters in. */
  lemma DelimiterHoldsMarker(s: string, i: int)
    requires OccursAt(s, Delimiter, i)
    ensures OccursAt(s, VerifiedMarker, i + 2)
  {
    OccursInside(s, "\n\n", VerifiedMarker, ":", i);
  }

  /** `isBlockchainVerified`: the text names the verification marker or Yellow Network. */
  predicate IsBlockchainVerified(recommendations: Option<string>): (b: bool)
    ensures recommendations.None? ==> !b
  {
    recommendations.Some? &&
    (Contains(recommendations.value, VerifiedMarker) || Contains(recommendations.value, YellowNetwork))
  }

  /** Text holding the blockchain heading is always shown as verified. */
  lemma HeadingMeansVerified(s: string)
    requires Contains(s, Delimiter)
    ensures IsBlockchainVerified(Some(s))
  {
    DelimiterHoldsMarker(s, IndexOf(s, Delimiter));
  }

  /** A blockchain section is only ever shown with the "verified" badge. */
  lemma BlockchainSectionMeansVerified(recommendations: Option<string>)
    requires RecommendationsData(recommendations).blockchain != ""
    ensures IsBlockchainVerified(recommendations)
  {
    HeadingMeansVerified(recommendations.value);
  }

  /** `(analysis.flaggedClauses as any[]) || []` */
  function FlaggedClausesShown(analysis: Analysis): (r: seq<FlaggedClause>)
    ensures analysis.flaggedClauses.None? ==> r == []
    ensures analysis.flaggedClauses.Some? ==> r == analysis.flaggedClauses.value
  {
    analysis.flaggedClauses.GetOr([])
  }
}
