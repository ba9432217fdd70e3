/**
 * The routing engine (routing/engine.py) as the runtime endpoint (api/runtime.py) and the CSV
 * test runner (testing/csv_runner.py) drive it. Embedding and vector search are outside the
 * model: a query comes with the rows the search returned for it, whatever they are.
 */
module Routing {
  import opened Wrappers
  import opened Scoring

  datatype IntentCandidate = IntentCandidate(
    intentId: string,
    displayName: string,
    domain: string,
    routeKey: string,
    includeKeywords: seq<string>,
    excludeKeywords: seq<string>)

  datatype ExampleType = Positive | Negative | OtherType

  datatype SearchRow = SearchRow(intentId: string, exampleType: ExampleType, similarity: real)

  datatype SemanticMatch = SemanticMatch(positives: seq<real>, negatives: seq<real>)

  /**
   * A query against one release. matches(k) says that the stripped keyword k is not blank and
   * occurs, up to case, in the query.
   */
  datatype RouteInput = RouteInput(
    config: ThresholdConfig,
    candidates: seq<IntentCandidate>,
    riskEnabled: bool,
    riskPatterns: seq<string>,
    offTopicEnabled: bool,
    offTopicKeywords: seq<string>,
    matches: string -> bool,
    rows: seq<SearchRow>)
  {
    predicate AtRisk() {
      riskEnabled && exists p :: p in riskPatterns && matches(p)
    }

    predicate IsOffTopic() {
      offTopicEnabled && exists k :: k in offTopicKeywords && matches(k)
    }

    ghost predicate Valid() {
      && config.clarifyMargin >= 0.0
      && forall i, j :: 0 <= i < j < |candidates| ==> candidates[i].intentId != candidates[j].intentId
    }
  }

  // ---------------------------------------------------------------------------
  // Scoring the candidates
  // ---------------------------------------------------------------------------

  function MatchCount(matches: string -> bool, keywords: seq<string>): nat {
    if keywords == [] then 0
    else (if matches(keywords[0]) then 1 else 0) + MatchCount(matches, keywords[1..])
  }

  method KeywordMatchCount(matches: string -> bool, keywords: seq<string>) returns (matchCount: nat)
    ensures matchCount == MatchCount(matches, keywords)
    ensures matchCount > 0 <==> exists k :: k in keywords && matches(k)
  {
    matchCount := 0;
    for i := 0 to |keywords|
      invariant matchCount + MatchCount(matches, keywords[i..]) == MatchCount(matches, keywords)
      invariant matchCount > 0 <==> exists k :: k in keywords[..i] && matches(k)
    {
      assert keywords[i..][1..] == keywords[i + 1..];
      assert keywords[..i + 1] == keywords[..i] + [keywords[i]];
      if matches(keywords[i]) {
        matchCount := matchCount + 1;
      }
    }
    assert keywords[..|keywords|] == keywords;
  }

  /** The count is the number of keywords that match. */
  lemma {:induction false} MatchCountMeaning(matches: string -> bool, keywords: seq<string>)
    ensures MatchCount(matches, keywords) == |set i | 0 <= i < |keywords| && matches(keywords[i])|
  {
    var found := set i | 0 <= i < |keywords| && matches(keywords[i]);
    if keywords == [] {
      assert found == {};
    } else {
      var n := |keywords| - 1;
      MatchCountMeaning(matches, keywords[..n]);
      MatchCountAppend(matches, keywords[..n], keywords[n]);
      assert keywords[..n] + [keywords[n]] == keywords;
      var before := set i | 0 <= i < |keywords[..n]| && matches(keywords[..n][i]);
      assert found == if matches(keywords[n]) then before + {n} else before;
    }
  }

  lemma {:induction false} MatchCountAppend(matches: string -> bool, keywords: seq<string>, k: string)
    ensures MatchCount(matches, keywords + [k]) == MatchCount(matches, keywords) + if matches(k) then 1 else 0
  {
    if keywords == [] {
      assert keywords + [k] == [k];
    } else {
      MatchCountAppend(matches, keywords[1..], k);
      assert (keywords + [k])[1..] == keywords[1..] + [k];
    }
  }

  /** The similarities of one intent's rows of one type, in row order. */
  function Similarities(rows: seq<SearchRow>, intentId: string, t: ExampleType): seq<real> {
    if rows == [] then []
    else OwnSimilarity(rows[0], intentId, t) + Similarities(rows[1..], intentId, t)
  }

  predicate Grouped(rows: seq<SearchRow>, candidateIds: set<string>, m: map<string, SemanticMatch>) {
    && (forall id :: id in m ==>
          (id in candidateIds && m[id] == SemanticMatch(Similarities(rows, id, Positive),
                                                        Similarities(rows, id, Negative))))
    && (forall row :: row in rows && row.intentId in candidateIds && row.exampleType != OtherType ==> row.intentId in m)
  }

  function OwnSimilarity(row: SearchRow, intentId: string, t: ExampleType): seq<real> {
    if row.intentId == intentId && row.exampleType == t then [row.similarity] else []
  }

  lemma {:induction false} SimilaritiesAppend(rows: seq<SearchRow>, row: SearchRow, intentId: string, t: ExampleType)
    ensures Similarities(rows + [row], intentId, t) == Similarities(rows, intentId, t) + OwnSimilarity(row, intentId, t)
  {
    hide OwnSimilarity;
    var more := rows + [row];
    if rows == [] {
      assert more[1..] == [];
      assert Similarities(more[1..], intentId, t) == [];
    } else {
      SimilaritiesAppend(rows[1..], row, intentId, t);
      assert more[0] == rows[0] && more[1..] == rows[1..] + [row];
      assert Similarities(more, intentId, t)
          == OwnSimilarity(rows[0], intentId, t)
             + (Similarities(rows[1..], intentId, t) + OwnSimilarity(row, intentId, t));
    }
  }

  lemma {:induction false} NoRowsNoSimilarities(rows: seq<SearchRow>, intentId: string, t: ExampleType)
    requires forall row :: row in rows ==> row.intentId != intentId || row.exampleType == OtherType
    requires t != OtherType
    ensures Similarities(rows, intentId, t) == []
  {
    if rows != [] { NoRowsNoSimilarities(rows[1..], intentId, t); }
  }

  /** The scores of one intent after one more row. */
  function AddScore(grouped: map<string, SemanticMatch>, row: SearchRow): SemanticMatch {
    var payload := if row.intentId in grouped then grouped[row.intentId] else SemanticMatch([], []);
    if row.exampleType == Positive
    then payload.(positives := payload.positives + [row.similarity])
    else payload.(negatives := payload.negatives + [row.similarity])
  }

  lemma GroupedStep(rows: seq<SearchRow>, row: SearchRow, candidateIds: set<string>,
                    grouped: map<string, SemanticMatch>)
    requires Grouped(rows, candidateIds, grouped)
    ensures Grouped(rows + [row], candidateIds,
                    if row.intentId !in candidateIds || row.exampleType == OtherType then grouped
                    else grouped[row.intentId := AddScore(grouped, row)])
  {
    hide Similarities;
    forall id, t ensures Similarities(rows + [row], id, t) == Similarities(rows, id, t) + OwnSimilarity(row, id, t) {
      SimilaritiesAppend(rows, row, id, t);
    }
    if row.intentId in candidateIds && row.intentId !in grouped {
      NoRowsNoSimilarities(rows, row.intentId, Positive);
      NoRowsNoSimilarities(rows, row.intentId, Negative);
    }
  }

  /** The grouping loop: rows of unknown intents or types are dropped, the others kept in order. */
  method SemanticMatches(rows: seq<SearchRow>, candidateIds: set<string>) returns (grouped: map<string, SemanticMatch>)
    ensures Grouped(rows, candidateIds, grouped)
  {
    grouped := map[];
    for i := 0 to |rows|
      invariant Grouped(rows[..i], candidateIds, grouped)
    {
      var row := rows[i];
      GroupedStep(rows[..i], row, candidateIds, grouped);
      assert rows[..i + 1] == rows[..i] + [row];
      if row.intentId !in candidateIds || row.exampleType == OtherType {
        continue;
      }
      grouped := grouped[row.intentId := AddScore(grouped, row)];
    }
    assert rows[..|rows|] == rows;
  }

  /** An intent the grouping does not list has no rows, so its two lists of scores are empty. */
  lemma GroupedSuffices(input: RouteInput, candidateIds: set<string>, m: map<string, SemanticMatch>, c: IntentCandidate)
    requires Grouped(input.rows, candidateIds, m) && c.intentId in candidateIds
    ensures var match' := if c.intentId in m then m[c.intentId] else SemanticMatch([], []);
            && match'.positives == Similarities(input.rows, c.intentId, Positive)
            && match'.negatives == Similarities(input.rows, c.intentId, Negative)
  {
    if c.intentId !in m {
      NoRowsNoSimilarities(input.rows, c.intentId, Positive);
      NoRowsNoSimilarities(input.rows, c.intentId, Negative);
    }
  }

  function ScoreCandidate(input: RouteInput, c: IntentCandidate): CandidateScore {
    var included := MatchCount(input.matches, c.includeKeywords);
    var excluded := MatchCount(input.matches, c.excludeKeywords);
    var breakdown := IntentConfidence(Similarities(input.rows, c.intentId, Positive),
                                      Similarities(input.rows, c.intentId, Negative), included, excluded);
    CandidateScore(c.intentId, c.displayName, c.domain, c.routeKey, breakdown.confidence, included)
  }

  function Scored(input: RouteInput): (scores: seq<CandidateScore>)
    ensures |scores| == |input.candidates|
    ensures forall i :: 0 <= i < |scores| ==> scores[i] == ScoreCandidate(input, input.candidates[i])
    ensures UnitInterval(scores)
  {
    seq(|input.candidates|, i requires 0 <= i < |input.candidates| => ScoreCandidate(input, input.candidates[i]))
  }

  // ---------------------------------------------------------------------------
  // Routing
  // ---------------------------------------------------------------------------

  function WithoutCandidate(decision: Decision, reason: Reason): RoutingDecision {
    RoutingDecision(decision, reason, None, None, None, None, None, [], [])
  }

  function Route(input: RouteInput, scope: Scope): RoutingDecision {
    if input.AtRisk() then WithoutCandidate(Risk, RiskPolicyMatch)
    else
      var semantic := Composer(input.config, Scope(None, None)).Compose(Scored(input), scope);
      if semantic.decision == Confident then semantic
      else if input.IsOffTopic() then WithoutCandidate(OffTopic, OffTopicPolicyMatch)
      else semantic
  }

  /** Some word of the query is on the list of risky ones, and the policy is on. */
  ghost predicate Risky(input: RouteInput) {
    input.riskEnabled && exists p :: p in input.riskPatterns && input.matches(p)
  }

  ghost predicate OffTopicQuery(input: RouteInput) {
    input.offTopicEnabled && exists k :: k in input.offTopicKeywords && input.matches(k)
  }

  /**
   * Which part of the engine answers. A risky query is answered as such, without a look at any
   * candidate; otherwise a confident decision of the ladder stands, and one that is not confident
   * gives way to the off-topic policy where that applies.
   */
  lemma RouteMeaning(input: RouteInput, scope: Scope)
    ensures var r := Route(input, scope);
            var composed := Composer(input.config, Scope(None, None)).Compose(Scored(input), scope);
            && (r.decision == Risk <==> Risky(input))
            && (r.decision == OffTopic <==> !Risky(input) && composed.decision != Confident && OffTopicQuery(input))
            && (r.decision == Risk ==>
                  r == RoutingDecision(Risk, RiskPolicyMatch, None, None, None, None, None, [], []))
            && (r.decision == OffTopic ==>
                  r == RoutingDecision(OffTopic, OffTopicPolicyMatch, None, None, None, None, None, [], []))
            && (r.decision !in {Risk, OffTopic} ==> r == composed)
            && (r.decision == Confident <==> !Risky(input) && composed.decision == Confident)
  {
    hide Ranked, Viable;
  }

  /**
   * The candidates the ladder ranks: each with its own names, and with a confidence in figures from
   * the similarities of its own rows and the number of its own keywords that match.
   */
  lemma ScoredMeaning(input: RouteInput, i: nat) returns (b: ScoreBreakdown)
    requires i < |input.candidates|
    ensures |Scored(input)| == |input.candidates|
    ensures var c := input.candidates[i];
            var included := MatchCount(input.matches, c.includeKeywords);
            var excluded := MatchCount(input.matches, c.excludeKeywords);
            var sum := b.positiveScore + b.keywordBoost - b.keywordPenalty - b.negativePenalty;
            && Scored(input)[i]
               == CandidateScore(c.intentId, c.displayName, c.domain, c.routeKey, b.confidence, included)
            && b.confidence == (if sum < 0.0 then 0.0 else if sum > 1.0 then 1.0 else sum)
            && IsGreatestRow(b.positiveScore, input.rows, c.intentId, Positive)
            && b.keywordBoost == 0.02 * (if included <= 4 then included else 4) as real
            && b.keywordPenalty == 0.03 * (if excluded <= 4 then excluded else 4) as real
            && exists negative :: IsGreatestRow(negative, input.rows, c.intentId, Negative)
                 && b.negativePenalty == if negative <= 0.55 then 0.0 else (negative - 0.55) / 2.0
  {
    var c := input.candidates[i];
    var p, n := Similarities(input.rows, c.intentId, Positive), Similarities(input.rows, c.intentId, Negative);
    var included := MatchCount(input.matches, c.includeKeywords);
    var excluded := MatchCount(input.matches, c.excludeKeywords);
    b := IntentConfidence(p, n, included, excluded);
    ConfidenceInFigures(p, n, included, excluded);
    hide IntentConfidence;
    GreatestOfRows(b.positiveScore, input.rows, c.intentId, Positive);
    GreatestOfRows(b.negativeScore, input.rows, c.intentId, Negative);
  }

  /** x is the greatest similarity of the intent's rows of this type, or 0 where it has none. */
  ghost predicate IsGreatestRow(x: real, rows: seq<SearchRow>, id: string, t: ExampleType) {
    if exists y :: SearchRow(id, t, y) in rows
    then SearchRow(id, t, x) in rows && forall y :: SearchRow(id, t, y) in rows ==> y <= x
    else x == 0.0
  }

  lemma GreatestOfRows(x: real, rows: seq<SearchRow>, id: string, t: ExampleType)
    requires IsGreatest(x, Similarities(rows, id, t))
    ensures IsGreatestRow(x, rows, id, t)
  {
    var xs := Similarities(rows, id, t);
    forall y ensures y in xs <==> SearchRow(id, t, y) in rows {
      SimilarityMembers(rows, id, t, y);
    }
    if xs != [] {
      assert xs[0] in xs;
    }
  }

  /** A key's scope can withhold a route, never change it. */
  lemma ScopeOnlyWithholds(input: RouteInput, scope: Scope)
    ensures var open, scoped := Route(input, UNRESTRICTED), Route(input, scope);
            && (scoped == open || scoped.decision in {Unauthorized, OffTopic})
            && (open.decision in {Risk, OffTopic} ==> scoped == open)
            && (scoped.decision == Confident ==> open == scoped)
  {
    hide Ranked, Viable;
  }

  /** A confident route is withheld exactly when the scope excludes its intent or its route key. */
  lemma ConfidentUnderScope(input: RouteInput, scope: Scope)
    requires Route(input, UNRESTRICTED).decision == Confident
    ensures var open := Route(input, UNRESTRICTED);
            && open.intentId.Some? && open.routeKey.Some?
            && (Route(input, scope) == open <==>
                  && (scope.intents.None? || scope.intents.value == {} || open.intentId.value in scope.intents.value)
                  && (scope.routeKeys.None? || scope.routeKeys.value == {}
                      || open.routeKey.value in scope.routeKeys.value))
  {
    hide Ranked, Viable;
  }

  // ---------------------------------------------------------------------------
  // Robustness of a confident route
  // ---------------------------------------------------------------------------

  function InsertRow(rows: seq<SearchRow>, at: nat, row: SearchRow): seq<SearchRow>
    requires at <= |rows|
  {
    rows[..at] + [row] + rows[at..]
  }

  /** A further row that speaks for the winner or against another intent. */
  predicate Supports(row: SearchRow, winner: string) {
    || (row.intentId == winner && row.exampleType == Positive && row.similarity >= 0.0)
    || (row.intentId != winner && row.exampleType == Negative)
    || row.exampleType == OtherType
  }

  lemma {:induction false} SimilarityMembers(rows: seq<SearchRow>, id: string, t: ExampleType, x: real)
    ensures x in Similarities(rows, id, t) <==> SearchRow(id, t, x) in rows
  {
    if rows != [] {
      SimilarityMembers(rows[1..], id, t, x);
      assert rows == [rows[0]] + rows[1..];
    }
  }

  lemma InsertRowMembers(rows: seq<SearchRow>, at: nat, row: SearchRow, r: SearchRow)
    requires at <= |rows|
    ensures r in InsertRow(rows, at, row) <==> r in rows || r == row
  {
    assert rows == rows[..at] + rows[at..];
  }

  lemma SimilaritiesAfterInsert(rows: seq<SearchRow>, at: nat, row: SearchRow, id: string, t: ExampleType)
    requires at <= |rows|
    ensures forall x :: x in Similarities(InsertRow(rows, at, row), id, t) <==>
              x in Similarities(rows, id, t) || (row == SearchRow(id, t, x))
  {
    forall x
      ensures x in Similarities(InsertRow(rows, at, row), id, t) <==>
              x in Similarities(rows, id, t) || (row == SearchRow(id, t, x))
    {
      SimilarityMembers(rows, id, t, x);
      SimilarityMembers(InsertRow(rows, at, row), id, t, x);
      InsertRowMembers(rows, at, row, SearchRow(id, t, x));
    }
  }

  lemma SameMembersSameMax(p: seq<real>, q: seq<real>)
    requires forall x :: x in p <==> x in q
    ensures MaxOrZero(p) == MaxOrZero(q)
  {
    assert p != [] ==> p[0] in p;
    assert q != [] ==> q[0] in q;
  }

  /** One more row moves the confidences the right way. */
  lemma SupportShiftsScores(input: RouteInput, at: nat, row: SearchRow, winner: string, c: IntentCandidate)
    requires at <= |input.rows| && Supports(row, winner)
    ensures var before := ScoreCandidate(input, c);
            var after := ScoreCandidate(input.(rows := InsertRow(input.rows, at, row)), c);
            if c.intentId == winner then after.confidence >= before.confidence
            else after.confidence <= before.confidence
  {
    var rows' := InsertRow(input.rows, at, row);
    SimilaritiesAfterInsert(input.rows, at, row, c.intentId, Positive);
    SimilaritiesAfterInsert(input.rows, at, row, c.intentId, Negative);
    var p, q := Similarities(input.rows, c.intentId, Positive), Similarities(rows', c.intentId, Positive);
    var n, m := Similarities(input.rows, c.intentId, Negative), Similarities(rows', c.intentId, Negative);
    var included := MatchCount(input.matches, c.includeKeywords);
    var excluded := MatchCount(input.matches, c.excludeKeywords);
    if c.intentId == winner {
      SameMembersSameMax(n, m);
      MorePositivesRaise(p, q, n, included, excluded);
    } else {
      SameMembersSameMax(p, q);
      MoreNegativesLower(p, n, m, included, excluded);
    }
  }

  /** The same candidate stays confident: through grouping, scoring and the ladder. */
  lemma ConfidentIsRobust(input: RouteInput, scope: Scope, at: nat, row: SearchRow)
    requires input.Valid() && at <= |input.rows|
    requires Route(input, scope).decision == Confident && Supports(row, Route(input, scope).intentId.value)
    ensures var after := Route(input.(rows := InsertRow(input.rows, at, row)), scope);
            && after.decision == Confident
            && after.intentId == Route(input, scope).intentId
            && after.routeKey == Route(input, scope).routeKey
  {
    hide Ranked, Viable;
    var input' := input.(rows := InsertRow(input.rows, at, row));
    var composer := Composer(input.config, Scope(None, None));
    var cs, ds := Scored(input), Scored(input');
    var w := ConfidentTop(composer, cs, scope);
    forall i | 0 <= i < |cs|
      ensures if i == w then ds[i].confidence >= cs[i].confidence else ds[i].confidence <= cs[i].confidence
    {
      SupportShiftsScores(input, at, row, cs[w].intentId, input.candidates[i]);
    }
    ComposeIsRobust(composer, cs, ds, w, scope);
  }

  // ---------------------------------------------------------------------------
  // The CSV test runner
  // ---------------------------------------------------------------------------

  datatype CaseType = PositiveCase | ConfusingCase | ClarifyCase | RiskCase | OffTopicCase | FallbackCase

  function ExpectedDecision(t: CaseType): Decision {
    match t
    case PositiveCase => Confident
    case ConfusingCase => Confident
    case ClarifyCase => Clarify
    case RiskCase => Risk
    case OffTopicCase => OffTopic
    case FallbackCase => Fallback
  }

  datatype TestCase = TestCase(
    caseId: string,
    query: string,
    caseType: CaseType,
    memo: string,
    expectedDecision: Decision,
    expectedIntent: Option<string>,
    expectedRouteKey: Option<string>)
  {
    /** What every parser makes sure of: an intent is expected for exactly the cases that expect a confident route. */
    predicate Valid() {
      && expectedDecision == ExpectedDecision(caseType)
      && (expectedIntent.Some? <==> expectedDecision == Confident)
      && (expectedRouteKey.Some? ==> expectedIntent.Some?)
    }
  }

  datatype Verdict = Pass | Review | Fail

  function CompareResult(c: TestCase, d: RoutingDecision): Verdict {
    if d.decision == Clarify then
      if c.expectedDecision == Clarify then Pass else Review
    else if && d.decision == c.expectedDecision
            && (c.expectedIntent.None? || d.intentId == c.expectedIntent)
            && (c.expectedRouteKey.None? || d.routeKey == c.expectedRouteKey)
    then Pass
    else Fail
  }

  datatype CaseResult = CaseResult(
    caseId: string,
    caseType: CaseType,
    expectedDecision: Decision,
    expectedIntent: Option<string>,
    actualDecision: Decision,
    actualIntent: Option<string>,
    actualRouteKey: Option<string>,
    confidence: Option<real>,
    result: Verdict)

  /** A case runs with an empty scope, which allows every intent and route key. */
  function RunCase(input: RouteInput, c: TestCase): CaseResult {
    var d := Route(input, UNRESTRICTED);
    CaseResult(c.caseId, c.caseType, c.expectedDecision, c.expectedIntent,
               d.decision, d.intentId, d.routeKey, d.confidence, CompareResult(c, d))
  }

  // ---------------------------------------------------------------------------
  // The runtime answer
  // ---------------------------------------------------------------------------

  datatype RuntimeResponse = RuntimeResponse(
    decision: Decision,
    intentId: Option<string>,
    routeKey: Option<string>,
    confidence: Option<real>)

  function Answer(input: RouteInput, scope: Scope): RuntimeResponse {
    var d := Route(input, scope);
    RuntimeResponse(d.decision,
                    if d.decision == Confident then d.intentId else None,
                    if d.decision == Confident then d.routeKey else None,
                    d.confidence)
  }

  /**
   * What was tested is what runs: a case that passed with an expected intent is answered, for the
   * same release and query, as that intent with the tested route key under every key whose scope
   * allows both, and is withheld under every other key.
   */
  lemma PassedCaseIsServed(input: RouteInput, scope: Scope, c: TestCase)
    requires c.Valid()
    requires c.expectedIntent.Some? && RunCase(input, c).result == Pass
    ensures var tested, served := RunCase(input, c), Answer(input, scope);
            && tested.actualIntent == c.expectedIntent
            && tested.actualRouteKey.Some?
            && (c.expectedRouteKey.Some? ==> tested.actualRouteKey == c.expectedRouteKey)
            && if (scope.intents.None? || scope.intents.value == {} || c.expectedIntent.value in scope.intents.value)
                  && (scope.routeKeys.None? || scope.routeKeys.value == {}
                      || tested.actualRouteKey.value in scope.routeKeys.value)
               then served == RuntimeResponse(Confident, c.expectedIntent, tested.actualRouteKey, tested.confidence)
               else served.decision in {Unauthorized, OffTopic} && served.intentId == None && served.routeKey == None
  {
    ConfidentUnderScope(input, scope);
    ScopeOnlyWithholds(input, scope);
  }

  /** No key is served an intent or route key that the unrestricted test run would not have produced. */
  lemma ServedWasTestable(input: RouteInput, scope: Scope, c: TestCase)
    requires Answer(input, scope).intentId.Some?
    ensures var tested := RunCase(input, c);
            && tested.actualDecision == Confident
            && tested.actualIntent == Answer(input, scope).intentId
            && tested.actualRouteKey == Answer(input, scope).routeKey
  {
    ScopeOnlyWithholds(input, scope);
  }

  /**
   * What a verdict says, for a parsed case: REVIEW is a clarification nobody asked for, PASS the
   * expected decision with, where one is expected, the expected intent and its catalog route key.
   */
  lemma VerdictMeaning(input: RouteInput, c: TestCase)
    requires c.Valid()
    ensures var t, r := c.caseType, RunCase(input, c);
            && r.caseId == c.caseId && r.caseType == t
            && r.actualDecision == Route(input, UNRESTRICTED).decision
            && (r.result == Review <==> r.actualDecision == Clarify && t != ClarifyCase)
            && (t == ClarifyCase ==> (r.result == Pass <==> r.actualDecision == Clarify))
            && (t == RiskCase ==> (r.result == Pass <==> r.actualDecision == Risk))
            && (t == OffTopicCase ==> (r.result == Pass <==> r.actualDecision == OffTopic))
            && (t == FallbackCase ==> (r.result == Pass <==> r.actualDecision == Fallback))
            && (t in {PositiveCase, ConfusingCase} ==>
                  (r.result == Pass <==>
                     && r.actualDecision == Confident && r.actualIntent == c.expectedIntent
                     && (c.expectedRouteKey.Some? ==> r.actualRouteKey == c.expectedRouteKey)))
  {
  }

  /** A query tested as a risk, or as off topic, is answered so under every key. */
  lemma PassedRefusalIsServed(input: RouteInput, scope: Scope, c: TestCase)
    requires c.expectedDecision in {Risk, OffTopic} && RunCase(input, c).result == Pass
    ensures var served := Answer(input, scope);
            served.decision == c.expectedDecision && served.intentId == None && served.routeKey == None
  {
  }
}
