/**
 * What the server does with the replies of the language model: the analysis of
 * a whole policy is sanitised field by field (the score clamped to [0, 100],
 * unknown risk levels replaced by medium, missing texts by fixed defaults) and
 * any failure yields a fixed fallback analysis; the analysis of one clause and
 * the claim guidance have fallbacks of their own. The request itself and the
 * model's answer are not modelled: a reply is given as what `JSON.parse`
 * produced, or as the way the call failed.
 */
module OpenAi {
  import opened Wrappers
  import opened Schema

  /** How a chat-completion call ended. */
  datatype Reply<T> =
    | CallFailed        // the request threw
    | NoContent         // the message content was null or empty
    | Malformed         // `JSON.parse` threw
    | Parsed(json: T)   // the parsed content

  /**
   * A flagged clause as parsed: any field may be missing, the entry itself may
   * be `null`. An entry that is neither `null` nor an object reads every field
   * as missing, and a level that is not a string is given as missing, since
   * `includes` rejects both alike.
   */
  datatype RawClause =
    | NullClause
    | ClauseObject(
        title: Option<string>,
        summary: Option<string>,
        originalText: Option<string>,
        riskLevel: Option<string>,
        category: Option<string>)

  /**
   * The score as `JSON.parse` may give it. What `Number()` reads from a
   * non-empty string or from an array is carried with the value (`None` for
   * `NaN`); the grammar of numeric strings is not modelled.
   */
  datatype ScoreJson =
    | JsonNumber(x: real)
    | JsonBool(b: bool)
    | JsonNull
    | JsonString(s: string, number: Option<real>)
    | JsonArray(number: Option<real>)
    | JsonObject

  /** Whether `||` keeps the value. */
  predicate Truthy(v: ScoreJson) {
    match v
    case JsonNumber(x) => x != 0.0
    case JsonBool(b) => b
    case JsonNull => false
    case JsonString(s, _) => s != ""
    case JsonArray(_) => true
    case JsonObject => true
  }

  /** `Number(v)`, with `None` standing for `NaN`. */
  function ToNumber(v: ScoreJson): (n: Option<real>)
    ensures !Truthy(v) ==> n == Some(0.0)
    ensures v.JsonObject? ==> n.None?
  {
    match v
    case JsonNumber(x) => Some(x)
    case JsonBool(b) => Some(if b then 1.0 else 0.0)
    case JsonNull => Some(0.0)
    case JsonString(s, number) => if s == "" then Some(0.0) else number
    case JsonArray(number) => number
    case JsonObject => None
  }

  /** The flagged clauses as parsed: an array, or some other value. */
  datatype ClausesJson = ClauseArray(items: seq<RawClause>) | NotArray(truthy: bool)

  /** A policy analysis as parsed. */
  datatype RawAnalysis =
    | NullAnalysis
    | AnalysisObject(
        riskScore: Option<ScoreJson>,
        riskLevel: Option<string>,
        summary: Option<string>,
        flaggedClauses: Option<ClausesJson>,
        recommendations: Option<string>)

  /** The claim guidance as parsed. */
  datatype RawGuidance = NullGuidance | GuidanceObject(steps: Option<seq<string>>)

  /** The analysis the server hands on. */
  datatype PolicyAnalysis = PolicyAnalysis(
    riskScore: real,
    riskLevel: RiskLevel,
    summary: string,
    flaggedClauses: seq<FlaggedClause>,
    recommendations: string)

  // ---------------------------------------------------------------- field sanitisers

  /** `value || fallback` on a string field: missing or empty gives the fallback. */
  function TextOr(value: Option<string>, fallback: string): (r: string)
    ensures value.Some? && value.value != "" ==> r == value.value
    ensures value.None? || value.value == "" ==> r == fallback
  {
    if value.Some? && value.value != "" then value.value else fallback
  }

  /** `Math.max(0, Math.min(100, x))` on a number. */
  function Clamp(x: real): (r: real)
    ensures 0.0 <= r <= 100.0
    ensures 0.0 <= x <= 100.0 ==> r == x
    ensures x > 100.0 ==> r == 100.0
    ensures x < 0.0 ==> r == 0.0
  {
    if x < 0.0 then 0.0 else if x > 100.0 then 100.0 else x
  }

  /**
   * `Math.max(0, Math.min(100, score || 0))` as written: a truthy score that
   * `Number()` cannot read gives `NaN` (`None`), which neither bound removes.
   */
  function ClampScoreAsWritten(score: Option<ScoreJson>): (r: Option<real>)
    ensures r.None? <==> score.Some? && Truthy(score.value) && ToNumber(score.value).None?
    ensures r.Some? ==> 0.0 <= r.value <= 100.0
    ensures score.None? ==> r == Some(0.0)
    ensures score.Some? && score.value.JsonNumber? ==> r == Some(Clamp(score.value.x))
  {
    var n := if score.Some? && Truthy(score.value) then ToNumber(score.value) else Some(0.0);
    if n.None? then None else Some(Clamp(n.value))
  }

  /** A score the model sends as text that is not a number escapes the clamp. */
  lemma NonNumericScoreEscapes()
    ensures ClampScoreAsWritten(Some(JsonString("N/A", None))).None?
  {
  }

  /**
   * The score clamp as intended, a number in [0, 100] whatever the reply: it
   * agrees with the clamp as written wherever that gives a number, and gives 0
   * where that gives `NaN`.
   */
  function ClampScore(score: Option<ScoreJson>): (r: real)
    ensures 0.0 <= r <= 100.0
    ensures ClampScoreAsWritten(score).Some? ==> r == ClampScoreAsWritten(score).value
    ensures ClampScoreAsWritten(score).None? ==> r == 0.0
  {
    var n := if score.Some? then ToNumber(score.value) else None;
    Clamp(if n.Some? then n.value else 0.0)
  }

  /** A level is kept when it is one of `low`, `medium`, `high`, and is `medium` otherwise. */
  function LevelOr(level: Option<string>): (r: RiskLevel)
    ensures level.Some? && level.value in {"low", "medium", "high"} ==> r.Name() == level.value
    ensures !(level.Some? && level.value in {"low", "medium", "high"}) ==> r == Medium
  {
    if level == Some("low") then Low
    else if level == Some("high") then High
    else Medium
  }

  lemma LevelOrName(l: RiskLevel)
    ensures LevelOr(Some(l.Name())) == l
  {
  }

  /** One clause of the `map`: `None` where the entry is null and reading a field throws. */
  function SanitizeClause(c: RawClause): (r: Option<FlaggedClause>)
    ensures r.None? <==> c.NullClause?
    ensures r.Some? ==> r.value.title != "" && r.value.summary != "" && r.value.category != ""
  {
    match c
    case NullClause => None
    case ClauseObject(title, summary, originalText, riskLevel, category) =>
      Some(FlaggedClause(
        TextOr(title, "Policy Clause"),
        TextOr(summary, "No summary available"),
        TextOr(originalText, ""),
        LevelOr(riskLevel),
        TextOr(category, "general")))
  }

  /** `clauses.map(...)`: one sanitised clause per entry, in order, or `None` if any entry is null. */
  function SanitizeClauses(cs: seq<RawClause>): (r: Option<seq<FlaggedClause>>)
    ensures r.Some? <==> forall i | 0 <= i < |cs| :: cs[i].ClauseObject?
    ensures r.Some? ==> |r.value| == |cs| && forall i | 0 <= i < |cs| :: SanitizeClause(cs[i]) == Some(r.value[i])
    decreases |cs|
  {
    if cs == [] then Some([])
    else
      var init := SanitizeClauses(cs[..|cs| - 1]);
      var last := SanitizeClause(cs[|cs| - 1]);
      if init.None? || last.None? then None else Some(init.value + [last.value])
  }

  /** The clause list fails exactly when some entry is `null`. */
  lemma NullClauseFails(cs: seq<RawClause>)
    ensures SanitizeClauses(cs).None? <==> exists i | 0 <= i < |cs| :: cs[i].NullClause?
  {
    if SanitizeClauses(cs).None? {
      var i :| 0 <= i < |cs| && !cs[i].ClauseObject?;
    }
  }

  /** The clause entries of a parsed analysis: those of an array, and none otherwise. */
  function ClauseItems(raw: RawAnalysis): seq<RawClause> {
    if raw.AnalysisObject? && raw.flaggedClauses.Some? && raw.flaggedClauses.value.ClauseArray?
    then raw.flaggedClauses.value.items else []
  }

  /**
   * Where the sanitiser throws: reading a field of a `null` analysis, calling
   * `map` on a truthy value that is not an array, or reading a field of a
   * `null` clause.
   */
  ghost predicate SanitizerThrows(raw: RawAnalysis) {
    || raw.NullAnalysis?
    || (raw.flaggedClauses.Some? && raw.flaggedClauses.value.NotArray? && raw.flaggedClauses.value.truthy)
    || exists i | 0 <= i < |ClauseItems(raw)| :: ClauseItems(raw)[i].NullClause?
  }

  const DefaultSummary := "Analysis completed successfully."
  const DefaultRecommendations :=
    "Please review your policy carefully and consult with an insurance professional if you have questions."

  /** The sanitised analysis; `None` exactly where the source throws. */
  function Sanitize(raw: RawAnalysis): (r: Option<PolicyAnalysis>)
    ensures r.None? <==> SanitizerThrows(raw)
    ensures r.Some? ==> 0.0 <= r.value.riskScore <= 100.0
  {
    match raw
    case NullAnalysis => None
    case AnalysisObject(score, level, summary, clauses, recommendations) =>
      NullClauseFails(ClauseItems(raw));
      var cs :=
        if clauses.Some? && clauses.value.ClauseArray? then SanitizeClauses(clauses.value.items)
        else if clauses.Some? && clauses.value.truthy then None
        else Some([]);
      if cs.None? then None
      else Some(PolicyAnalysis(
        ClampScore(score),
        LevelOr(level),
        TextOr(summary, DefaultSummary),
        cs.value,
        TextOr(recommendations, DefaultRecommendations)))
  }

  /** What `analyzePolicy` returns whenever something throws. */
  const FallbackAnalysis := PolicyAnalysis(
    50.0,
    Medium,
    "Unable to complete automated analysis. Please review your policy manually or try uploading again.",
    [],
    "We recommend having a qualified insurance professional review your policy to identify any potential concerns or coverage gaps.")

  /** `analyzePolicy`: never fails; the sanitised reply, or the fallback wherever something throws. */
  function AnalyzePolicy(reply: Reply<RawAnalysis>): (a: PolicyAnalysis)
    ensures 0.0 <= a.riskScore <= 100.0
    ensures reply.Parsed? && !SanitizerThrows(reply.json) ==> Sanitize(reply.json) == Some(a)
    ensures !reply.Parsed? || SanitizerThrows(reply.json) ==> a == FallbackAnalysis
  {
    if reply.Parsed? && Sanitize(reply.json).Some? then Sanitize(reply.json).value else FallbackAnalysis
  }

  // ---------------------------------------------------------------- properties of the sanitiser

  /** A missing, zero or unreadable score becomes 0; an in-range number is kept, others are clamped. */
  lemma SanitizeScore(raw: RawAnalysis)
    requires raw.AnalysisObject? && Sanitize(raw).Some?
    ensures raw.riskScore.None? ==> Sanitize(raw).value.riskScore == 0.0
    ensures raw.riskScore.Some? && ToNumber(raw.riskScore.value).None? ==> Sanitize(raw).value.riskScore == 0.0
    ensures raw.riskScore.Some? && ToNumber(raw.riskScore.value).Some? ==>
      Sanitize(raw).value.riskScore == Clamp(ToNumber(raw.riskScore.value).value)
    ensures raw.riskScore.Some? && raw.riskScore.value.JsonNumber? && 0.0 <= raw.riskScore.value.x <= 100.0 ==>
      Sanitize(raw).value.riskScore == raw.riskScore.value.x
  {
  }

  /** Missing or empty texts take the fixed defaults; any other text is kept. */
  lemma SanitizeTexts(raw: RawAnalysis)
    requires raw.AnalysisObject? && Sanitize(raw).Some?
    ensures raw.summary.Some? && raw.summary.value != "" ==> Sanitize(raw).value.summary == raw.summary.value
    ensures raw.summary.None? || raw.summary.value == "" ==> Sanitize(raw).value.summary == DefaultSummary
    ensures raw.recommendations.Some? && raw.recommendations.value != "" ==>
      Sanitize(raw).value.recommendations == raw.recommendations.value
    ensures raw.recommendations.None? || raw.recommendations.value == "" ==>
      Sanitize(raw).value.recommendations == DefaultRecommendations
  {
  }

  /** The top-level and every clause's risk level is kept only when it is a known one, else medium. */
  lemma SanitizeLevels(raw: RawAnalysis)
    requires raw.AnalysisObject? && Sanitize(raw).Some?
    ensures Sanitize(raw).value.riskLevel ==
      if raw.riskLevel.Some? && raw.riskLevel.value in {"low", "medium", "high"}
      then ParseLevel(raw.riskLevel.value) else Medium
    ensures |Sanitize(raw).value.flaggedClauses| == |ClauseItems(raw)|
    ensures forall i | 0 <= i < |ClauseItems(raw)| ::
      var c := ClauseItems(raw)[i];
      c.ClauseObject? &&
      Sanitize(raw).value.flaggedClauses[i].riskLevel ==
        if c.riskLevel.Some? && c.riskLevel.value in {"low", "medium", "high"}
        then ParseLevel(c.riskLevel.value) else Medium
  {
    var a := Sanitize(raw).value;
    var cs := ClauseItems(raw);
    assert |a.flaggedClauses| == |cs|;
    forall i | 0 <= i < |cs| ensures
      var c := cs[i];
      c.ClauseObject? &&
      a.flaggedClauses[i].riskLevel ==
        if c.riskLevel.Some? && c.riskLevel.value in {"low", "medium", "high"}
        then ParseLevel(c.riskLevel.value) else Medium
    {
      assert SanitizeClause(cs[i]) == Some(a.flaggedClauses[i]);
    }
  }

  /** The level a known name stands for. */
  function ParseLevel(name: string): (l: RiskLevel)
    requires name in {"low", "medium", "high"}
    ensures l.Name() == name
  {
    if name == "low" then Low else if name == "high" then High else Medium
  }

  /** Missing or falsy clauses give the empty list; otherwise one clause per entry, in order, texts defaulted. */
  lemma SanitizeClauseList(raw: RawAnalysis)
    requires raw.AnalysisObject? && Sanitize(raw).Some?
    ensures raw.flaggedClauses.None? || raw.flaggedClauses.value.NotArray? ==> Sanitize(raw).value.flaggedClauses == []
    ensures |Sanitize(raw).value.flaggedClauses| == |ClauseItems(raw)|
    ensures forall i | 0 <= i < |ClauseItems(raw)| ::
      var c := ClauseItems(raw)[i];
      var f := Sanitize(raw).value.flaggedClauses[i];
      && c.ClauseObject?
      && f.title == TextOr(c.title, "Policy Clause")
      && f.summary == TextOr(c.summary, "No summary available")
      && f.originalText == TextOr(c.originalText, "")
      && f.category == TextOr(c.category, "general")
  {
    var a := Sanitize(raw).value;
    var cs := ClauseItems(raw);
    assert |a.flaggedClauses| == |cs|;
    forall i | 0 <= i < |cs| ensures
      var c := cs[i];
      var f := a.flaggedClauses[i];
      && c.ClauseObject?
      && f.title == TextOr(c.title, "Policy Clause")
      && f.summary == TextOr(c.summary, "No summary available")
      && f.originalText == TextOr(c.originalText, "")
      && f.category == TextOr(c.category, "general")
    {
      assert SanitizeClause(cs[i]) == Some(a.flaggedClauses[i]);
    }
  }

  /**
   * The fallback comes back exactly where the source throws, or where the
   * sanitised reply happens to be the fallback itself.
   */
  lemma AnalyzePolicyFallsBack(raw: RawAnalysis)
    ensures AnalyzePolicy(Parsed(raw)) == FallbackAnalysis <==>
      SanitizerThrows(raw) || Sanitize(raw) == Some(FallbackAnalysis)
  {
  }

  /** An analysis shaped as the sanitiser leaves it: score in range, the defaulted texts non-empty. */
  ghost predicate Sanitized(a: PolicyAnalysis) {
    && 0.0 <= a.riskScore <= 100.0
    && a.summary != "" && a.recommendations != ""
    && forall i | 0 <= i < |a.flaggedClauses| ::
      a.flaggedClauses[i].title != "" && a.flaggedClauses[i].summary != "" && a.flaggedClauses[i].category != ""
  }

  function ClauseToRaw(c: FlaggedClause): RawClause {
    ClauseObject(Some(c.title), Some(c.summary), Some(c.originalText), Some(c.riskLevel.Name()), Some(c.category))
  }

  function ClausesToRaw(cs: seq<FlaggedClause>): (r: seq<RawClause>)
    ensures |r| == |cs| && forall i | 0 <= i < |cs| :: r[i] == ClauseToRaw(cs[i])
  {
    seq(|cs|, i requires 0 <= i < |cs| => ClauseToRaw(cs[i]))
  }

  /** The JSON form of an analysis, every field present. */
  function ToRaw(a: PolicyAnalysis): RawAnalysis {
    AnalysisObject(Some(JsonNumber(a.riskScore)), Some(a.riskLevel.Name()), Some(a.summary),
                   Some(ClauseArray(ClausesToRaw(a.flaggedClauses))), Some(a.recommendations))
  }

  lemma SanitizeIsSanitized(raw: RawAnalysis)
    requires Sanitize(raw).Some?
    ensures Sanitized(Sanitize(raw).value)
  {
    var a := Sanitize(raw).value;
    var cs := ClauseItems(raw);
    forall i | 0 <= i < |a.flaggedClauses|
      ensures a.flaggedClauses[i].title != "" && a.flaggedClauses[i].summary != "" && a.flaggedClauses[i].category != ""
    {
      assert SanitizeClause(cs[i]) == Some(a.flaggedClauses[i]);
    }
  }

  /** Sanitising an already sanitised analysis changes nothing. */
  lemma {:induction false} SanitizeFixesSanitized(a: PolicyAnalysis)
    requires Sanitized(a)
    ensures Sanitize(ToRaw(a)) == Some(a)
  {
    var raw := ClausesToRaw(a.flaggedClauses);
    forall i | 0 <= i < |raw| ensures SanitizeClause(raw[i]) == Some(a.flaggedClauses[i]) {
      LevelOrName(a.flaggedClauses[i].riskLevel);
    }
    SanitizeClausesOf(raw, a.flaggedClauses);
    LevelOrName(a.riskLevel);
  }

  /** A clause list whose entries each sanitise to the matching clause sanitises to that list. */
  lemma {:induction false} SanitizeClausesOf(raw: seq<RawClause>, cs: seq<FlaggedClause>)
    requires |raw| == |cs|
    requires forall i | 0 <= i < |raw| :: SanitizeClause(raw[i]) == Some(cs[i])
    ensures SanitizeClauses(raw) == Some(cs)
    decreases |raw|
  {
    if raw != [] {
      var n := |raw| - 1;
      SanitizeClausesOf(raw[..n], cs[..n]);
      assert cs == cs[..n] + [cs[n]];
    }
  }

  /** Sanitising is idempotent: feeding its result back through it gives the same analysis. */
  lemma SanitizeIdempotent(raw: RawAnalysis)
    requires Sanitize(raw).Some?
    ensures Sanitize(ToRaw(Sanitize(raw).value)) == Sanitize(raw)
  {
    SanitizeIsSanitized(raw);
    SanitizeFixesSanitized(Sanitize(raw).value);
  }

  /** The fallback passes through the sanitiser unchanged. */
  lemma FallbackIsSanitized()
    ensures Sanitize(ToRaw(FallbackAnalysis)) == Some(FallbackAnalysis)
  {
    SanitizeFixesSanitized(FallbackAnalysis);
  }

  // ---------------------------------------------------------------- one clause

  /** `analyzeSpecificClause`: the parsed reply as it is, or a fallback echoing the clause text. */
  function AnalyzeSpecificClause(clauseText: string, reply: Reply<RawClause>): (r: RawClause)
    ensures reply.Parsed? ==> r == reply.json
    ensures !reply.Parsed? ==> r.ClauseObject? && r.originalText == Some(clauseText)
    ensures !reply.Parsed? ==> r.riskLevel == Some("medium") && r.category == Some("general")
  {
    if reply.Parsed? then reply.json
    else ClauseObject(Some("Clause Analysis"), Some("Unable to analyze this clause automatically."),
                      Some(clauseText), Some("medium"), Some("general"))
  }

  /** Read as a flagged clause, the fallback is a medium, general clause holding the given text. */
  lemma ClauseFallbackReads(clauseText: string, reply: Reply<RawClause>)
    requires !reply.Parsed?
    ensures SanitizeClause(AnalyzeSpecificClause(clauseText, reply)) ==
      Some(FlaggedClause("Clause Analysis", "Unable to analyze this clause automatically.", clauseText, Medium, "general"))
  {
  }

  // ---------------------------------------------------------------- claim guidance

  const OneStepGuidance := ["Contact your insurance company to begin the claims process."]

  const FallbackGuidance := [
    "Contact your insurance company to report the claim",
    "Gather all relevant documentation",
    "Fill out required claim forms",
    "Submit your claim with supporting evidence",
    "Follow up on claim status regularly"
  ]

  /**
   * `generateClaimGuidance`: the parsed `steps`, the one-step list when the
   * content or its `steps` is missing, and the five-step list when anything throws.
   */
  function GenerateClaimGuidance(reply: Reply<RawGuidance>): (steps: seq<string>)
    ensures reply.NoContent? || reply == Parsed(GuidanceObject(None)) ==> steps == OneStepGuidance
    ensures reply.CallFailed? || reply.Malformed? || reply == Parsed(NullGuidance) ==> steps == FallbackGuidance
    ensures reply.Parsed? && reply.json.GuidanceObject? && reply.json.steps.Some? ==> steps == reply.json.steps.value
  {
    match reply
    case NoContent => OneStepGuidance
    case Parsed(GuidanceObject(Some(s))) => s
    case Parsed(GuidanceObject(None)) => OneStepGuidance
    case _ => FallbackGuidance
  }

  /** The guidance is empty only when the reply itself listed no steps. */
  lemma GuidanceEmptyOnlyWhenGiven(reply: Reply<RawGuidance>)
    ensures GenerateClaimGuidance(reply) == [] <==> reply == Parsed(GuidanceObject(Some([])))
  {
  }
}
