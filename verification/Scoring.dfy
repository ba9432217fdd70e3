/**
 * Intent confidence and the decision ladder (routing/scoring.py).
 * Scores are real numbers; the ranking is a stable sort, best first.
 */
module Scoring {
  import opened Wrappers

  // ---------------------------------------------------------------------------
  // Threshold configuration
  // ---------------------------------------------------------------------------

  datatype Preset = Strict | Balanced | Exploratory | Custom

  datatype ConfigError = CustomRequiresThreshold

  datatype ThresholdConfig = ThresholdConfig(
    threshold: real,
    clarifyMargin: real,
    minCandidateScore: real,
    fallbackScore: real,
    maxClarifyCandidates: nat)
  {
    /** What the policy endpoint enforces for every stored policy. */
    predicate Ordered() {
      fallbackScore <= minCandidateScore <= threshold
    }
  }

  const MAX_CLARIFY_CANDIDATES: nat := 3

  function PresetThreshold(preset: Preset): real
    requires !preset.Custom?
  {
    match preset
    case Strict => 1.0
    case Balanced => 0.8
    case Exploratory => 0.6
  }

  /** An explicit threshold wins over the preset's; a custom preset must bring one. */
  function MakeConfig(preset: Preset, threshold: Option<real>, clarifyMargin: real, minCandidateScore: real,
                      fallbackScore: real): Result<ThresholdConfig, ConfigError>
  {
    if preset.Custom? && threshold.None? then Err(CustomRequiresThreshold)
    else
      var resolved := if threshold.Some? then threshold.value else PresetThreshold(preset);
      Ok(ThresholdConfig(resolved, clarifyMargin, minCandidateScore, fallbackScore, MAX_CLARIFY_CANDIDATES))
  }

  /** What the policy endpoint accepts. */
  predicate AcceptsPolicy(preset: Preset, threshold: Option<real>, clarifyMargin: real, minCandidateScore: real,
                          fallbackScore: real)
  {
    && (threshold.Some? ==> 0.0 <= threshold.value <= 1.0)
    && 0.0 <= clarifyMargin <= 1.0 && 0.0 <= minCandidateScore <= 1.0 && 0.0 <= fallbackScore <= 1.0
    && (preset.Custom? <==> threshold.Some?)
    && fallbackScore <= minCandidateScore
       <= if threshold.Some? then threshold.value else if preset.Custom? then 0.0 else PresetThreshold(preset)
  }

  /**
   * Every accepted policy gives a configuration, of ordered bars and with a margin that is not
   * negative, so the decision ladder below applies to it; and the program's own defaults, a margin
   * of 0.08 over bars of 0.55 and 0.45, are accepted with every preset.
   */
  lemma AcceptedPolicyIsOrdered(preset: Preset, threshold: Option<real>, clarifyMargin: real, minCandidateScore: real,
                                fallbackScore: real)
    ensures AcceptsPolicy(preset, threshold, clarifyMargin, minCandidateScore, fallbackScore) ==>
              var r := MakeConfig(preset, threshold, clarifyMargin, minCandidateScore, fallbackScore);
              && r.Ok? && r.value.Ordered() && r.value.clarifyMargin >= 0.0 && r.value.maxClarifyCandidates == 3
              && r.value.threshold <= 1.0
    ensures MakeConfig(preset, threshold, clarifyMargin, minCandidateScore, fallbackScore).Err? <==>
              preset.Custom? && threshold.None?
    ensures !preset.Custom? ==> AcceptsPolicy(preset, None, 0.08, 0.55, 0.45)
  {
  }

  // ---------------------------------------------------------------------------
  // Confidence of one intent
  // ---------------------------------------------------------------------------

  function Max(x: real, y: real): real { if x >= y then x else y }

  function Min(x: real, y: real): real { if x <= y then x else y }

  function Clamp(value: real, minimum: real, maximum: real): real {
    Max(minimum, Min(maximum, value))
  }

  /** The greatest element, or 0 for no elements. */
  function MaxOrZero(xs: seq<real>): (m: real)
    ensures xs == [] ==> m == 0.0
    ensures xs != [] ==> m in xs
    ensures forall x :: x in xs ==> x <= m
  {
    if xs == [] then 0.0
    else
      assert forall x :: x in xs ==> x == xs[0] || x in xs[1..];
      if |xs| == 1 then xs[0] else Max(xs[0], MaxOrZero(xs[1..]))
  }

  datatype ScoreBreakdown = ScoreBreakdown(
    positiveScore: real,
    negativeScore: real,
    keywordBoost: real,
    keywordPenalty: real,
    negativePenalty: real,
    confidence: real)

  function IntentConfidence(positives: seq<real>, negatives: seq<real>, included: nat,
                            excluded: nat): (b: ScoreBreakdown)
    ensures 0.0 <= b.confidence <= 1.0
  {
    var positive := MaxOrZero(positives);
    var negative := MaxOrZero(negatives);
    var boost := Min(0.08, 0.02 * included as real);
    var penalty := Min(0.12, 0.03 * excluded as real);
    var negativePenalty := Max(0.0, negative - 0.55) * 0.5;
    ScoreBreakdown(positive, negative, boost, penalty, negativePenalty,
                   Clamp(positive + boost - penalty - negativePenalty, 0.0, 1.0))
  }

  /** x is the greatest of these, or 0 where there are none. */
  ghost predicate IsGreatest(x: real, xs: seq<real>) {
    if xs == [] then x == 0.0 else x in xs && forall y :: y in xs ==> y <= x
  }

  /**
   * The confidence in figures: the greatest positive similarity, 0.02 more for each of the first four
   * matching keywords, 0.03 less for each of the first four excluded ones, less half of what the
   * greatest negative similarity is above 0.55; cut off at 0 and 1.
   */
  lemma ConfidenceInFigures(positives: seq<real>, negatives: seq<real>, included: nat, excluded: nat)
    ensures var b := IntentConfidence(positives, negatives, included, excluded);
            && IsGreatest(b.positiveScore, positives) && IsGreatest(b.negativeScore, negatives)
            && b.keywordBoost == 0.02 * (if included <= 4 then included else 4) as real
            && b.keywordPenalty == 0.03 * (if excluded <= 4 then excluded else 4) as real
            && b.negativePenalty == (if b.negativeScore <= 0.55 then 0.0 else (b.negativeScore - 0.55) / 2.0)
            && var sum := b.positiveScore + b.keywordBoost - b.keywordPenalty - b.negativePenalty;
               b.confidence == if sum < 0.0 then 0.0 else if sum > 1.0 then 1.0 else sum
  {
    assert included >= 4 ==> included as real >= 4.0;
    assert included <= 4 ==> included as real <= 4.0;
    assert excluded >= 4 ==> excluded as real >= 4.0;
    assert excluded <= 4 ==> excluded as real <= 4.0;
  }

  /**
   * How far keywords and negative examples reach: four matches of either kind exhaust the effect of
   * keywords, at 0.08 up and 0.12 down, and a negative example counts only above 0.55.
   */
  lemma EffectsAreBounded(positives: seq<real>, negatives: seq<real>, included: nat, excluded: nat)
    ensures var b := IntentConfidence(positives, negatives, included, excluded);
            && 0.0 <= b.keywordBoost <= 0.08 && (b.keywordBoost == 0.08 <==> included >= 4)
            && 0.0 <= b.keywordPenalty <= 0.12 && (b.keywordPenalty == 0.12 <==> excluded >= 4)
            && (b.keywordBoost == 0.0 <==> included == 0) && (b.keywordPenalty == 0.0 <==> excluded == 0)
            && (b.negativePenalty > 0.0 <==> exists x :: x in negatives && x > 0.55)
            && ((forall x :: x in negatives ==> x <= 1.0) ==> b.negativePenalty <= 0.225)
            && (0.0 <= b.positiveScore + b.keywordBoost - b.keywordPenalty - b.negativePenalty <= 1.0 ==>
                  b.confidence == b.positiveScore + b.keywordBoost - b.keywordPenalty - b.negativePenalty)
  {
    assert included >= 4 ==> included as real >= 4.0;
    assert included < 4 ==> included as real <= 3.0;
    assert excluded >= 4 ==> excluded as real >= 4.0;
    assert excluded < 4 ==> excluded as real <= 3.0;
    assert included > 0 ==> included as real >= 1.0;
    assert excluded > 0 ==> excluded as real >= 1.0;
    var negative := MaxOrZero(negatives);
    if negative > 0.55 {
      assert negative in negatives;
    }
  }

  /** More positive evidence of non-negative similarity never lowers a confidence. */
  lemma MorePositivesRaise(p: seq<real>, q: seq<real>, negatives: seq<real>, included: nat, excluded: nat)
    requires forall x :: x in p ==> x in q
    requires forall x :: x in q ==> x in p || x >= 0.0
    ensures IntentConfidence(p, negatives, included, excluded).confidence
         <= IntentConfidence(q, negatives, included, excluded).confidence
  {
    assert MaxOrZero(p) <= MaxOrZero(q) by {
      if p == [] && q != [] { assert q[0] in q; }
    }
  }

  /**
   * One more positive row lowers the positive score exactly if it is the first one and dissimilar:
   * an intent without positive rows counts as 0, above any negative similarity.
   */
  lemma MorePositivesLowerIff(positives: seq<real>, x: real)
    ensures MaxOrZero(positives + [x]) < MaxOrZero(positives) <==> positives == [] && x < 0.0
  {
    var more := positives + [x];
    assert more[|positives|] == x;
    assert forall y :: y in positives ==> y in more;
    if positives != [] {
      assert MaxOrZero(positives) in more;
    }
  }

  /** More negative evidence never raises a confidence, whatever its similarity. */
  lemma MoreNegativesLower(positives: seq<real>, p: seq<real>, q: seq<real>, included: nat, excluded: nat)
    requires forall x :: x in p ==> x in q
    ensures IntentConfidence(positives, q, included, excluded).confidence
         <= IntentConfidence(positives, p, included, excluded).confidence
  {
  }

  // ---------------------------------------------------------------------------
  // Ranking
  // ---------------------------------------------------------------------------

  datatype CandidateScore = CandidateScore(
    intentId: string,
    displayName: string,
    domain: string,
    routeKey: string,
    confidence: real,
    includeKeywordMatches: nat)

  function InsertRanked(c: CandidateScore, ranked: seq<CandidateScore>): seq<CandidateScore> {
    if ranked == [] || c.confidence >= ranked[0].confidence then [c] + ranked
    else [ranked[0]] + InsertRanked(c, ranked[1..])
  }

  /** The stable sort by confidence, best first. */
  function Ranked(cs: seq<CandidateScore>): seq<CandidateScore> {
    if cs == [] then [] else InsertRanked(cs[0], Ranked(cs[1..]))
  }

  predicate Descending(cs: seq<CandidateScore>) {
    forall i, j :: 0 <= i < j < |cs| ==> cs[i].confidence >= cs[j].confidence
  }

  /** The candidates of one confidence, in the order they stand. */
  function AtLevel(cs: seq<CandidateScore>, level: real): seq<CandidateScore> {
    if cs == [] then []
    else (if cs[0].confidence == level then [cs[0]] else []) + AtLevel(cs[1..], level)
  }

  lemma {:induction false} InsertRankedDescends(c: CandidateScore, ranked: seq<CandidateScore>)
    requires Descending(ranked)
    ensures Descending(InsertRanked(c, ranked))
    ensures var r := InsertRanked(c, ranked);
            r[0] == if ranked == [] || c.confidence >= ranked[0].confidence then c else ranked[0]
  {
    if ranked != [] && c.confidence < ranked[0].confidence {
      InsertRankedDescends(c, ranked[1..]);
      var rest := InsertRanked(c, ranked[1..]);
      assert rest[0].confidence <= ranked[0].confidence;
      assert forall i :: 0 <= i < |rest| ==> rest[i].confidence <= rest[0].confidence;
    }
  }

  lemma {:induction false} InsertRankedAdds(c: CandidateScore, ranked: seq<CandidateScore>)
    ensures multiset(InsertRanked(c, ranked)) == multiset{c} + multiset(ranked)
  {
    if ranked != [] && c.confidence < ranked[0].confidence {
      InsertRankedAdds(c, ranked[1..]);
      assert ranked == [ranked[0]] + ranked[1..];
    }
  }

  lemma {:induction false} InsertRankedKeepsOrder(c: CandidateScore, ranked: seq<CandidateScore>, level: real)
    ensures AtLevel(InsertRanked(c, ranked), level) == AtLevel([c] + ranked, level)
  {
    assert ([c] + ranked)[1..] == ranked;
    if ranked != [] && c.confidence < ranked[0].confidence {
      InsertRankedKeepsOrder(c, ranked[1..], level);
      assert InsertRanked(c, ranked)[1..] == InsertRanked(c, ranked[1..]);
      assert ([c] + ranked[1..])[1..] == ranked[1..];
    }
  }

  lemma NothingDescends()
    ensures Descending([])
  {
  }

  /** Ranked is a stable sort: a descending rearrangement that keeps the order of equals. */
  lemma {:induction false} RankedIsStableSort(cs: seq<CandidateScore>, level: real)
    ensures Descending(Ranked(cs))
    ensures multiset(Ranked(cs)) == multiset(cs)
    ensures AtLevel(Ranked(cs), level) == AtLevel(cs, level)
  {
    hide InsertRanked, Descending;
    if cs == [] {
      assert Descending(Ranked(cs)) by { NothingDescends(); }
    } else {
      RankedIsStableSort(cs[1..], level);
      InsertRankedDescends(cs[0], Ranked(cs[1..]));
      InsertRankedAdds(cs[0], Ranked(cs[1..]));
      InsertRankedKeepsOrder(cs[0], Ranked(cs[1..]), level);
      assert cs == [cs[0]] + cs[1..];
      assert ([cs[0]] + Ranked(cs[1..]))[1..] == Ranked(cs[1..]);
    }
  }

  lemma {:induction false} LevelMembers(cs: seq<CandidateScore>, level: real)
    ensures AtLevel(cs, level) != [] ==> exists i :: 0 <= i < |cs| && cs[i].confidence == level
    ensures (exists i :: 0 <= i < |cs| && cs[i].confidence == level) ==> AtLevel(cs, level) != []
  {
    if cs != [] {
      LevelMembers(cs[1..], level);
      if i :| 0 <= i < |cs| && cs[i].confidence == level {
        if i > 0 { assert cs[1..][i - 1].confidence == level; }
      }
      if j :| 0 <= j < |cs[1..]| && cs[1..][j].confidence == level {
        assert cs[j + 1].confidence == level;
      }
    }
  }

  /** There is only one stable sort, so any other sorting method gives the same ranking. */
  lemma {:induction false} StableSortIsUnique(r: seq<CandidateScore>, s: seq<CandidateScore>)
    requires Descending(r) && Descending(s)
    requires forall level :: AtLevel(r, level) == AtLevel(s, level)
    ensures r == s
    decreases |r|
  {
    if r != [] {
      LevelMembers(r, r[0].confidence);
      LevelMembers(s, r[0].confidence);
    }
    if s != [] {
      LevelMembers(r, s[0].confidence);
      LevelMembers(s, s[0].confidence);
    }
    if r != [] {
      var level := r[0].confidence;
      assert s != [] && s[0].confidence == level;
      assert AtLevel(r, level)[0] == r[0] && AtLevel(s, level)[0] == s[0];
      forall l ensures AtLevel(r[1..], l) == AtLevel(s[1..], l) {
        var skip := if l == level then 1 else 0;
        assert AtLevel(r, l)[skip..] == AtLevel(r[1..], l);
        assert AtLevel(s, l)[skip..] == AtLevel(s[1..], l);
      }
      StableSortIsUnique(r[1..], s[1..]);
      assert r == [r[0]] + r[1..] && s == [s[0]] + s[1..];
    }
  }

  // ---------------------------------------------------------------------------
  // The decision ladder
  // ---------------------------------------------------------------------------

  datatype Decision = Confident | Clarify | Fallback | OffTopic | Risk | Unauthorized

  datatype Reason =
    | NoCandidates
    | BelowFallbackFloor
    | OutsideScope
    | ThresholdMet
    | OutsideCatalogScope
    | TopCandidatesClose
    | BelowThreshold
    | NoViableCandidates
    | RiskPolicyMatch
    | OffTopicPolicyMatch

  datatype RoutingDecision = RoutingDecision(
    decision: Decision,
    reason: Reason,
    domain: Option<string>,
    intentId: Option<string>,
    routeKey: Option<string>,
    confidence: Option<real>,
    margin: Option<real>,
    clarify: seq<CandidateScore>,
    ranking: seq<CandidateScore>)

  /** A key's scope; no set, or an empty one, allows everything. */
  datatype Scope = Scope(intents: Option<set<string>>, routeKeys: Option<set<string>>) {

    predicate Allows(c: CandidateScore) {
      && (intents.None? || intents.value == {} || c.intentId in intents.value)
      && (routeKeys.None? || routeKeys.value == {} || c.routeKey in routeKeys.value)
    }

    /** A call's own sets replace the composer's, one by one. */
    function OrElse(default: Scope): Scope {
      Scope(if intents.None? then default.intents else intents,
            if routeKeys.None? then default.routeKeys else routeKeys)
    }
  }

  /** What may be routed: a call's own sets count where it has them, else the composer's; an empty set is no limit. */
  lemma ScopeMeaning(call: Scope, default: Scope, c: CandidateScore)
    ensures call.OrElse(default).Allows(c) <==>
              && (var intents := if call.intents.Some? then call.intents else default.intents;
                  intents == None || intents == Some({}) || c.intentId in intents.value)
              && (var keys := if call.routeKeys.Some? then call.routeKeys else default.routeKeys;
                  keys == None || keys == Some({}) || c.routeKey in keys.value)
  {
  }

  const UNRESTRICTED := Scope(Some({}), Some({}))

  function Viable(config: ThresholdConfig, ranked: seq<CandidateScore>): seq<CandidateScore> {
    if ranked == [] then []
    else (if ranked[0].confidence >= config.minCandidateScore then [ranked[0]] else []) + Viable(config, ranked[1..])
  }

  function Margin(ranked: seq<CandidateScore>): real
    requires ranked != []
  {
    if |ranked| == 1 then ranked[0].confidence else ranked[0].confidence - ranked[1].confidence
  }

  function ConfidentDecision(ranked: seq<CandidateScore>): RoutingDecision
    requires ranked != []
  {
    var top := ranked[0];
    RoutingDecision(Confident, ThresholdMet, Some(top.domain), Some(top.intentId), Some(top.routeKey),
                    Some(top.confidence), Some(Margin(ranked)), [], ranked)
  }

  function OtherDecision(decision: Decision, reason: Reason, ranked: seq<CandidateScore>,
                         clarify: seq<CandidateScore>): RoutingDecision
    requires ranked != []
  {
    RoutingDecision(decision, reason, Some(ranked[0].domain), None, None,
                    Some(ranked[0].confidence), Some(Margin(ranked)), clarify, ranked)
  }

  datatype Composer = Composer(config: ThresholdConfig, scope: Scope) {

    function Compose(candidates: seq<CandidateScore>, callScope: Scope): RoutingDecision {
      var ranked := Ranked(candidates);
      if ranked == [] then
        RoutingDecision(Fallback, NoCandidates, None, None, None, None, None, [], [])
      else
        var top := ranked[0];
        var margin := Margin(ranked);
        if top.confidence < config.fallbackScore then
          OtherDecision(Fallback, BelowFallbackFloor, ranked, [])
        else if !callScope.OrElse(scope).Allows(top) then
          OtherDecision(Unauthorized, OutsideScope, ranked, [])
        else if top.confidence >= config.threshold && margin >= config.clarifyMargin then
          ConfidentDecision(ranked)
        else
          var viable := Viable(config, ranked);
          var ceiling := Min(config.threshold, config.minCandidateScore + config.clarifyMargin);
          if top.confidence < ceiling && top.includeKeywordMatches == 0 then
            OtherDecision(Fallback, OutsideCatalogScope, ranked, [])
          else if |viable| >= 2 && margin < config.clarifyMargin then
            OtherDecision(Clarify, TopCandidatesClose, ranked, FirstFew(viable))
          else if config.minCandidateScore <= top.confidence < config.threshold then
            OtherDecision(Clarify, BelowThreshold, ranked, FirstFew(if viable == [] then [top] else viable))
          else
            OtherDecision(Fallback, NoViableCandidates, ranked, [])
    }

    function FirstFew(cs: seq<CandidateScore>): seq<CandidateScore> {
      if |cs| <= config.maxClarifyCandidates then cs else cs[..config.maxClarifyCandidates]
    }
  }

  // ---------------------------------------------------------------------------
  // What the ladder means, without the sort
  // ---------------------------------------------------------------------------

  predicate UnitInterval(cs: seq<CandidateScore>) {
    forall c :: c in cs ==> 0.0 <= c.confidence <= 1.0
  }

  /**
   * c clears both bars and beats every other candidate, and 0, by the clarify margin. Stated on the
   * candidates as a multiset, so the order they come in cannot matter.
   */
  ghost predicate Winner(config: ThresholdConfig, scope: Scope, all: multiset<CandidateScore>, c: CandidateScore) {
    && all[c] == 1
    && scope.Allows(c)
    && c.confidence >= config.threshold
    && c.confidence >= config.fallbackScore
    && c.confidence >= config.clarifyMargin
    && forall e :: e in all && e != c ==> c.confidence - e.confidence >= config.clarifyMargin
  }

  ghost predicate HasWinner(config: ThresholdConfig, scope: Scope, all: multiset<CandidateScore>) {
    exists c :: Winner(config, scope, all, c)
  }

  lemma OccursOnce(cs: seq<CandidateScore>, w: nat)
    requires w < |cs|
    ensures multiset(cs)[cs[w]] == 1 <==> forall i :: 0 <= i < |cs| && i != w ==> cs[i] != cs[w]
  {
    var before, after := cs[..w], cs[w + 1..];
    assert cs == before + [cs[w]] + after;
    assert multiset(cs)[cs[w]] == multiset(before)[cs[w]] + 1 + multiset(after)[cs[w]];
    if multiset(cs)[cs[w]] == 1 {
      forall i | 0 <= i < |cs| && i != w ensures cs[i] != cs[w] {
        if i < w { assert cs[i] == before[i] && before[i] in multiset(before); }
        else { assert cs[i] == after[i - w - 1] && after[i - w - 1] in multiset(after); }
      }
    } else if cs[w] in multiset(before) {
      var i :| 0 <= i < |before| && before[i] == cs[w];
      assert cs[i] == cs[w];
    } else {
      assert cs[w] in multiset(after);
      var i :| 0 <= i < |after| && after[i] == cs[w];
      assert cs[i + w + 1] == cs[w];
    }
  }

  lemma RankedParts(cs: seq<CandidateScore>)
    requires cs != []
    ensures var r := Ranked(cs);
            && r != []
            && Descending(r)
            && multiset(r) == multiset(cs)
            && forall c :: c in cs <==> c in r
  {
    RankedIsStableSort(cs, 0.0);
    var r := Ranked(cs);
    assert cs[0] in multiset(r);
    forall c ensures c in cs <==> c in r {
      assert c in cs <==> c in multiset(cs);
      assert c in r <==> c in multiset(r);
    }
  }

  /** In a descending ranking the top candidate keeps its margin exactly when it beats the rest by it. */
  lemma MarginMeaning(r: seq<CandidateScore>, m: real)
    requires r != [] && Descending(r) && UnitInterval(r) && m > 0.0
    ensures Margin(r) >= m <==>
              && multiset(r)[r[0]] == 1
              && r[0].confidence >= m
              && forall e :: e in r && e != r[0] ==> r[0].confidence - e.confidence >= m
  {
    OccursOnce(r, 0);
    assert r[0] in r && |r| > 1 ==> r[1] in r;
  }

  /** The single winner decides a confident route, whatever order the candidates come in. */
  lemma ConfidentIffWinner(composer: Composer, cs: seq<CandidateScore>, callScope: Scope)
    requires composer.config.clarifyMargin > 0.0 && UnitInterval(cs)
    ensures composer.Compose(cs, callScope).decision == Confident
       <==> HasWinner(composer.config, callScope.OrElse(composer.scope), multiset(cs))
    ensures forall c :: Winner(composer.config, callScope.OrElse(composer.scope), multiset(cs), c) ==>
              var r := composer.Compose(cs, callScope);
              && r.intentId == Some(c.intentId) && r.routeKey == Some(c.routeKey) && r.domain == Some(c.domain)
              && r.confidence == Some(c.confidence)
  {
    hide Ranked, Viable;
    var config, scope := composer.config, callScope.OrElse(composer.scope);
    if cs != [] {
      RankedParts(cs);
      var r := Ranked(cs);
      assert r[0] in r && UnitInterval(r);
      MarginMeaning(r, config.clarifyMargin);
      forall c | Winner(config, scope, multiset(cs), c) ensures c == r[0] {
        WinnerIsTop(config, scope, r, c);
      }
      assert composer.Compose(cs, callScope).decision == Confident <==> Winner(config, scope, multiset(cs), r[0]);
    } else {
      NoCandidatesNoWinner(composer, callScope);
    }
  }

  lemma NoCandidatesNoWinner(composer: Composer, callScope: Scope)
    ensures composer.Compose([], callScope).decision == Fallback && composer.Compose([], callScope).clarify == []
    ensures !HasWinner(composer.config, callScope.OrElse(composer.scope), multiset([]))
  {
  }

  lemma WinnerIsTop(config: ThresholdConfig, scope: Scope, r: seq<CandidateScore>, c: CandidateScore)
    requires r != [] && Descending(r) && config.clarifyMargin > 0.0
    requires Winner(config, scope, multiset(r), c)
    ensures c == r[0]
  {
    assert c in multiset(r) && r[0] in multiset(r);
    var i :| 0 <= i < |r| && r[i] == c;
  }

  /** The top of the ranking is the first of the best, as the candidates stand. */
  lemma {:induction false} TopIsFirstBest(cs: seq<CandidateScore>) returns (w: nat)
    requires cs != []
    ensures w < |cs| && Ranked(cs) != [] && Ranked(cs)[0] == cs[w]
    ensures forall i :: 0 <= i < |cs| ==> cs[i].confidence <= cs[w].confidence
    ensures forall i :: 0 <= i < w ==> cs[i].confidence < cs[w].confidence
  {
    w := 0;
    if |cs| > 1 {
      var v := TopIsFirstBest(cs[1..]);
      assert forall i :: 1 <= i < |cs| ==> cs[i] == cs[1..][i - 1];
      if cs[0].confidence < cs[1..][v].confidence { w := v + 1; }
    }
  }

  // --- No margin to keep ---

  predicate Rearranged(cs: seq<CandidateScore>, ds: seq<CandidateScore>) {
    multiset(cs) == multiset(ds)
  }

  /** No candidate is better. */
  ghost predicate Best(cs: seq<CandidateScore>, c: CandidateScore) {
    c in cs && forall e :: e in cs ==> e.confidence <= c.confidence
  }

  /** The scope allows the candidate and it clears both bars. */
  predicate Passes(config: ThresholdConfig, scope: Scope, c: CandidateScore) {
    scope.Allows(c) && c.confidence >= config.threshold && c.confidence >= config.fallbackScore
  }

  /** A confident decision for this candidate. */
  predicate RoutesTo(decision: RoutingDecision, c: CandidateScore) {
    && decision.decision == Confident && decision.ranking != [] && decision.ranking[0] == c
    && decision.intentId == Some(c.intentId) && decision.routeKey == Some(c.routeKey)
  }

  /** Any candidate can be put first. */
  lemma PlacedFirst(cs: seq<CandidateScore>, c: CandidateScore) returns (ds: seq<CandidateScore>)
    requires c in cs
    ensures Rearranged(cs, ds) && ds != [] && ds[0] == c
  {
    var i :| 0 <= i < |cs| && cs[i] == c;
    var before, after := cs[..i], cs[i + 1..];
    ds := [c] + before + after;
    assert cs == before + [c] + after;
  }

  lemma RearrangedMembers(cs: seq<CandidateScore>, ds: seq<CandidateScore>)
    requires Rearranged(cs, ds)
    ensures forall c :: c in cs <==> c in ds
    ensures UnitInterval(cs) ==> UnitInterval(ds)
    ensures forall c :: Best(cs, c) <==> Best(ds, c)
  {
    forall c ensures c in cs <==> c in ds {
      assert c in cs <==> c in multiset(cs);
      assert c in ds <==> c in multiset(ds);
    }
  }

  /** Without a margin the top of the ranking decides alone: confident exactly if it passes. */
  lemma WithoutMarginTopDecides(composer: Composer, cs: seq<CandidateScore>, callScope: Scope)
    returns (top: CandidateScore)
    requires composer.config.clarifyMargin == 0.0 && UnitInterval(cs) && cs != []
    ensures Best(cs, top)
    ensures Best(cs, cs[0]) ==> top == cs[0]
    ensures var r := composer.Compose(cs, callScope);
            if Passes(composer.config, callScope.OrElse(composer.scope), top) then RoutesTo(r, top)
            else r.decision != Confident && r.intentId == None
  {
    hide Ranked, Viable;
    var w := TopIsFirstBest(cs);
    top := cs[w];
    RankedParts(cs);
    MarginIsNotNegative(Ranked(cs));
  }

  /** Without a margin, some order routes to a candidate exactly if it passes and none is better. */
  lemma WithoutMarginRoutesIff(composer: Composer, cs: seq<CandidateScore>, callScope: Scope, c: CandidateScore)
    requires composer.config.clarifyMargin == 0.0 && UnitInterval(cs)
    ensures (exists ds :: Rearranged(cs, ds) && RoutesTo(composer.Compose(ds, callScope), c))
       <==> Best(cs, c) && Passes(composer.config, callScope.OrElse(composer.scope), c)
  {
    hide Best, Passes, Composer.Compose, Rearranged;
    if Best(cs, c) && Passes(composer.config, callScope.OrElse(composer.scope), c) {
      assert c in cs by { BestIsMember(cs, c); }
      var ds := PlacedFirst(cs, c);
      RearrangedMembers(cs, ds);
      var top := WithoutMarginTopDecides(composer, ds, callScope);
    }
    forall ds | Rearranged(cs, ds) && RoutesTo(composer.Compose(ds, callScope), c)
      ensures Best(cs, c) && Passes(composer.config, callScope.OrElse(composer.scope), c)
    {
      RearrangedMembers(cs, ds);
      if ds == [] {
        NoCandidatesNoWinner(composer, callScope);
      } else {
        var top := WithoutMarginTopDecides(composer, ds, callScope);
      }
    }
  }

  lemma BestIsMember(cs: seq<CandidateScore>, c: CandidateScore)
    requires Best(cs, c)
    ensures c in cs
  {
  }

  /** The intent a best candidate gives when it comes first: its own if it passes, else none. */
  function IntentIfFirst(composer: Composer, callScope: Scope, c: CandidateScore): Option<string> {
    if Passes(composer.config, callScope.OrElse(composer.scope), c) then Some(c.intentId) else None
  }

  /**
   * Without a margin, the intent answered does not depend on the order exactly if all the best
   * candidates give the same one: they are of one intent and all allowed, or none of them passes.
   */
  lemma WithoutMarginOrderIsIgnoredIff(composer: Composer, cs: seq<CandidateScore>, callScope: Scope)
    requires composer.config.clarifyMargin == 0.0 && UnitInterval(cs)
    ensures (forall ds :: Rearranged(cs, ds) ==>
               composer.Compose(ds, callScope).intentId == composer.Compose(cs, callScope).intentId)
       <==> (forall c, d :: Best(cs, c) && Best(cs, d) ==>
               IntentIfFirst(composer, callScope, c) == IntentIfFirst(composer, callScope, d))
  {
    hide Best, Passes, Composer.Compose, Rearranged, IntentIfFirst;
    var intent := composer.Compose(cs, callScope).intentId;
    assert Rearranged(cs, cs) by { SameOrder(cs); }
    if forall ds :: Rearranged(cs, ds) ==> composer.Compose(ds, callScope).intentId == intent {
      forall c | Best(cs, c) ensures IntentIfFirst(composer, callScope, c) == intent {
        var ds := BestIsAnswered(composer, cs, callScope, c);
      }
    }
    if forall c, d :: Best(cs, c) && Best(cs, d) ==>
        IntentIfFirst(composer, callScope, c) == IntentIfFirst(composer, callScope, d) {
      forall ds | Rearranged(cs, ds) ensures composer.Compose(ds, callScope).intentId == intent {
        if ds == [] || cs == [] {
          RearrangedMembers(cs, ds);
          assert (cs != [] ==> cs[0] in ds) && (ds != [] ==> ds[0] in cs);
        } else {
          var c := AnswerIsBest(composer, cs, callScope, ds);
          var d := AnswerIsBest(composer, cs, callScope, cs);
        }
      }
    }
  }

  lemma BestIsAnswered(composer: Composer, cs: seq<CandidateScore>, callScope: Scope, c: CandidateScore)
    returns (ds: seq<CandidateScore>)
    requires composer.config.clarifyMargin == 0.0 && UnitInterval(cs) && Best(cs, c)
    ensures Rearranged(cs, ds) && composer.Compose(ds, callScope).intentId == IntentIfFirst(composer, callScope, c)
  {
    hide Passes, Composer.Compose, Rearranged;
    ds := PlacedFirst(cs, c);
    RearrangedMembers(cs, ds);
    var top := WithoutMarginTopDecides(composer, ds, callScope);
  }

  lemma AnswerIsBest(composer: Composer, cs: seq<CandidateScore>, callScope: Scope, ds: seq<CandidateScore>)
    returns (c: CandidateScore)
    requires composer.config.clarifyMargin == 0.0 && UnitInterval(cs) && Rearranged(cs, ds) && ds != []
    ensures Best(cs, c) && composer.Compose(ds, callScope).intentId == IntentIfFirst(composer, callScope, c)
  {
    hide Best, Passes, Composer.Compose, Rearranged;
    RearrangedMembers(cs, ds);
    c := WithoutMarginTopDecides(composer, ds, callScope);
  }

  lemma SameOrder(cs: seq<CandidateScore>)
    ensures Rearranged(cs, cs)
  {
  }

  lemma RankedPair(a: CandidateScore, b: CandidateScore)
    requires a.confidence >= b.confidence
    ensures Ranked([a, b]) == [a, b]
  {
    assert [a, b][1..] == [b] && [b][1..] == [];
    assert Ranked([b]) == [b];
  }

  /** It happens: two equally good candidates, told apart only by their order. */
  lemma WithoutMarginOrderDecides() returns (composer: Composer, cs: seq<CandidateScore>, ds: seq<CandidateScore>)
    ensures composer.config.clarifyMargin == 0.0 && composer.config.Ordered() && UnitInterval(cs)
    ensures multiset(cs) == multiset(ds)
    ensures composer.Compose(cs, UNRESTRICTED).decision == composer.Compose(ds, UNRESTRICTED).decision == Confident
    ensures composer.Compose(cs, UNRESTRICTED).intentId != composer.Compose(ds, UNRESTRICTED).intentId
  {
    hide Ranked, Viable;
    composer := Composer(ThresholdConfig(0.8, 0.0, 0.55, 0.45, 3), UNRESTRICTED);
    var a := CandidateScore("a", "A", "d", "ra", 0.9, 0);
    var b := CandidateScore("b", "B", "d", "rb", 0.9, 0);
    cs, ds := [a, b], [b, a];
    RankedPair(a, b);
    RankedPair(b, a);
    assert "a"[0] != "b"[0];
  }

  lemma {:induction false} ViableIsPrefix(config: ThresholdConfig, r: seq<CandidateScore>)
    requires Descending(r)
    ensures var n := |Viable(config, r)|;
            && n <= |r|
            && Viable(config, r) == r[..n]
            && (forall i :: 0 <= i < |r| ==> (i < n <==> r[i].confidence >= config.minCandidateScore))
  {
    if r != [] {
      var w := Viable(config, r[1..]);
      ViableIsPrefix(config, r[1..]);
      assert forall i :: 1 <= i < |r| ==> r[i] == r[1..][i - 1];
      if r[0].confidence < config.minCandidateScore {
        assert |r| > 1 ==> r[1..][0].confidence < config.minCandidateScore;
      }
    }
  }

  /** Who is routed confidently: the single winner, or without a margin the top candidate if it passes. */
  ghost predicate Wins(config: ThresholdConfig, scope: Scope, cs: seq<CandidateScore>, top: CandidateScore) {
    if config.clarifyMargin > 0.0 then HasWinner(config, scope, multiset(cs)) else Passes(config, scope, top)
  }

  lemma ConfidentIffWins(composer: Composer, cs: seq<CandidateScore>, callScope: Scope)
    requires composer.config.clarifyMargin >= 0.0 && UnitInterval(cs) && cs != []
    ensures Ranked(cs) != []
    ensures composer.Compose(cs, callScope).decision == Confident
       <==> Wins(composer.config, callScope.OrElse(composer.scope), cs, Ranked(cs)[0])
  {
    hide Ranked, Viable;
    RankedParts(cs);
    if composer.config.clarifyMargin > 0.0 {
      ConfidentIffWinner(composer, cs, callScope);
    } else {
      MarginIsNotNegative(Ranked(cs));
    }
  }

  /** Some candidate other than the top one reaches the candidate floor. */
  ghost predicate Rivalled(config: ThresholdConfig, r: seq<CandidateScore>)
    requires r != []
  {
    exists c :: c in r[1..] && c.confidence >= config.minCandidateScore
  }

  /**
   * The decision table for every accepted policy. The top candidate is the first of the best; what
   * else matters is whether it wins, whether it matched a keyword, and whether another candidate
   * reaches the candidate floor.
   */
  lemma DecisionTable(composer: Composer, cs: seq<CandidateScore>, callScope: Scope)
    requires composer.config.Ordered() && composer.config.clarifyMargin >= 0.0 && UnitInterval(cs)
    ensures var config, scope := composer.config, callScope.OrElse(composer.scope);
            var d := composer.Compose(cs, callScope).decision;
            if cs == [] then d == Fallback else
              var r := Ranked(cs);
              var top := r[0];
              var wins := Wins(config, scope, cs, top);
              && (d == Confident <==> wins)
              && (d == Unauthorized <==> top.confidence >= config.fallbackScore && !scope.Allows(top))
              && (d == Clarify <==>
                    && scope.Allows(top)
                    && !wins
                    && top.confidence >= config.minCandidateScore
                    && if top.confidence < config.threshold
                       then top.includeKeywordMatches > 0
                            || top.confidence >= config.minCandidateScore + config.clarifyMargin
                       else Rivalled(config, r))
              && d in {Confident, Unauthorized, Clarify, Fallback}
  {
    hide Ranked, Viable, Descending, Wins;
    if cs != [] {
      ConfidentIffWins(composer, cs, callScope);
      RankedParts(cs);
      RivalledIffTwoViable(composer.config, Ranked(cs));
    } else {
      NoCandidatesNoWinner(composer, callScope);
    }
  }

  lemma RivalledIffTwoViable(config: ThresholdConfig, r: seq<CandidateScore>)
    requires r != [] && Descending(r)
    ensures r[0].confidence >= config.minCandidateScore ==> (Rivalled(config, r) <==> |Viable(config, r)| >= 2)
    ensures r[0].confidence < config.minCandidateScore ==> |Viable(config, r)| == 0
  {
    ViableIsPrefix(config, r);
    if |r| > 1 { assert r[1] in r[1..]; }
  }

  /** Which reason accompanies the decision. */
  lemma ReasonTable(composer: Composer, cs: seq<CandidateScore>, callScope: Scope)
    requires cs != [] && composer.config.Ordered() && composer.config.clarifyMargin >= 0.0 && UnitInterval(cs)
    ensures var config, scope := composer.config, callScope.OrElse(composer.scope);
            var result, r := composer.Compose(cs, callScope), Ranked(cs);
            var top := r[0];
            var wins := Wins(config, scope, cs, top);
            && (result.reason == BelowFallbackFloor <==> top.confidence < config.fallbackScore)
            && (result.reason == OutsideScope <==> result.decision == Unauthorized)
            && (result.reason == ThresholdMet <==> wins)
            && (result.reason == OutsideCatalogScope <==>
                  && scope.Allows(top) && !wins
                  && config.fallbackScore <= top.confidence < config.threshold
                  && top.confidence < config.minCandidateScore + config.clarifyMargin
                  && top.includeKeywordMatches == 0)
            && (result.reason == TopCandidatesClose <==>
                  && result.decision == Clarify
                  && exists c :: c in r[1..] && c.confidence >= config.minCandidateScore
                                 && top.confidence - c.confidence < config.clarifyMargin)
            && (result.reason == BelowThreshold <==> result.decision == Clarify && result.reason != TopCandidatesClose)
  {
    hide Ranked, Viable, Descending, Wins;
    ConfidentIffWins(composer, cs, callScope);
    RankedParts(cs);
    RivalledIffTwoViable(composer.config, Ranked(cs));
    CloseRival(composer.config, Ranked(cs));
  }

  lemma RankedNothing()
    ensures Ranked([]) == []
  {
  }

  /**
   * What every decision carries: the ranking and, of its first candidate, the domain, the
   * confidence and the distance to the second; its intent and route key only if it is confident.
   */
  lemma PayloadMeaning(composer: Composer, cs: seq<CandidateScore>, callScope: Scope)
    ensures var r, ranking := composer.Compose(cs, callScope), Ranked(cs);
            if cs == [] then
              r == RoutingDecision(Fallback, NoCandidates, None, None, None, None, None, [], [])
            else
              && ranking != [] && r.ranking == ranking
              && r.domain == Some(ranking[0].domain) && r.confidence == Some(ranking[0].confidence)
              && r.margin == Some(if |ranking| == 1 then ranking[0].confidence
                                  else ranking[0].confidence - ranking[1].confidence)
              && r.intentId == (if r.decision == Confident then Some(ranking[0].intentId) else None)
              && r.routeKey == (if r.decision == Confident then Some(ranking[0].routeKey) else None)
  {
    hide Ranked, Viable, Min, Scope.Allows, Scope.OrElse, Composer.FirstFew, Descending;
    if cs != [] {
      RankedParts(cs);
    } else {
      RankedNothing();
    }
  }

  lemma CloseRival(config: ThresholdConfig, r: seq<CandidateScore>)
    requires r != [] && Descending(r)
    ensures r[0].confidence >= config.minCandidateScore ==>
            ((exists c :: c in r[1..] && c.confidence >= config.minCandidateScore
                          && r[0].confidence - c.confidence < config.clarifyMargin)
             <==> |Viable(config, r)| >= 2 && Margin(r) < config.clarifyMargin)
  {
    ViableIsPrefix(config, r);
    if |r| > 1 { assert r[1] in r[1..]; }
  }

  /**
   * What is offered for clarification is exactly this: of the ranking, best first, those that reach
   * the candidate floor, as many as the maximum allows; and at least one.
   */
  lemma ClarifyPayload(composer: Composer, cs: seq<CandidateScore>, callScope: Scope)
    requires composer.config.maxClarifyCandidates >= 1
    ensures var r := composer.Compose(cs, callScope);
            if r.decision == Clarify then
              && 1 <= |r.clarify| <= composer.config.maxClarifyCandidates
              && |r.clarify| <= |r.ranking| && r.clarify == r.ranking[..|r.clarify|]
              && r.ranking == Ranked(cs)
              && forall i :: 0 <= i < |r.ranking| ==>
                   (i < |r.clarify| <==>
                      i < composer.config.maxClarifyCandidates
                      && r.ranking[i].confidence >= composer.config.minCandidateScore)
            else r.clarify == []
  {
    hide Ranked, Viable, Descending;
    if cs != [] {
      RankedParts(cs);
      ViableIsPrefix(composer.config, Ranked(cs));
    } else {
      NoCandidatesNoWinner(composer, callScope);
    }
  }

  /** A winner stays the winner when it gains confidence and its rivals lose some. */
  lemma WinnerIsRobust(config: ThresholdConfig, scope: Scope, cs: seq<CandidateScore>, ds: seq<CandidateScore>, w: nat)
    requires Shifted(cs, ds, w)
    requires config.clarifyMargin > 0.0 && Winner(config, scope, multiset(cs), cs[w])
    ensures Winner(config, scope, multiset(ds), ds[w])
  {
    OccursOnce(cs, w);
    OccursOnce(ds, w);
    assert cs[w] in multiset(cs);
    forall i | 0 <= i < |ds| && i != w ensures ds[w].confidence - ds[i].confidence >= config.clarifyMargin {
      assert cs[i] in multiset(cs);
    }
    forall e | e in multiset(ds) && e != ds[w] ensures ds[w].confidence - e.confidence >= config.clarifyMargin {
      var i :| 0 <= i < |ds| && ds[i] == e;
    }
  }

  lemma MarginIsNotNegative(r: seq<CandidateScore>)
    requires r != [] && Descending(r) && UnitInterval(r)
    ensures Margin(r) >= 0.0
  {
    assert r[0] in r;
  }

  /** A confident decision is about the first of the best candidates. */
  lemma ConfidentTop(composer: Composer, cs: seq<CandidateScore>, callScope: Scope) returns (w: nat)
    requires composer.Compose(cs, callScope).decision == Confident
    ensures w < |cs| && Ranked(cs) != [] && Ranked(cs)[0] == cs[w]
    ensures composer.Compose(cs, callScope) == ConfidentDecision(Ranked(cs))
    ensures forall i :: 0 <= i < |cs| ==> cs[i].confidence <= cs[w].confidence
    ensures forall i :: 0 <= i < w ==> cs[i].confidence < cs[w].confidence
  {
    w := TopIsFirstBest(cs);
  }

  /** From cs to ds the candidate w gained confidence, if anything, and every other one lost some. */
  predicate Shifted(cs: seq<CandidateScore>, ds: seq<CandidateScore>, w: nat) {
    && w < |cs| == |ds|
    && ds[w].intentId == cs[w].intentId && ds[w].routeKey == cs[w].routeKey
    && ds[w].confidence >= cs[w].confidence
    && forall i :: 0 <= i < |cs| && i != w ==> ds[i].confidence <= cs[i].confidence
  }

  /** The same candidate stays confident when it gains and the others lose confidence. */
  lemma ComposeIsRobust(composer: Composer, cs: seq<CandidateScore>, ds: seq<CandidateScore>, w: nat, callScope: Scope)
    requires composer.config.clarifyMargin >= 0.0 && UnitInterval(cs) && UnitInterval(ds)
    requires composer.Compose(cs, callScope).decision == Confident
    requires Shifted(cs, ds, w) && Ranked(cs) != [] && Ranked(cs)[0] == cs[w]
    requires forall i :: 0 <= i < |cs| ==> cs[i].confidence <= cs[w].confidence
    requires forall i :: 0 <= i < w ==> cs[i].confidence < cs[w].confidence
    ensures var r := composer.Compose(ds, callScope);
            r.decision == Confident && r.intentId == Some(cs[w].intentId) && r.routeKey == Some(cs[w].routeKey)
  {
    hide Ranked, HasWinner, Composer.Compose;
    if composer.config.clarifyMargin > 0.0 {
      WinnerAfterShift(composer, cs, ds, w, callScope);
      ConfidentIffWinner(composer, ds, callScope);
    } else {
      TopAfterShift(composer, cs, ds, w, callScope);
    }
  }

  /** Without a margin to keep, staying first of the best is enough. */
  lemma TopAfterShift(composer: Composer, cs: seq<CandidateScore>, ds: seq<CandidateScore>, w: nat, callScope: Scope)
    requires composer.config.clarifyMargin == 0.0 && UnitInterval(cs) && UnitInterval(ds)
    requires composer.Compose(cs, callScope).decision == Confident
    requires Shifted(cs, ds, w) && Ranked(cs) != [] && Ranked(cs)[0] == cs[w]
    requires forall i :: 0 <= i < |cs| ==> cs[i].confidence <= cs[w].confidence
    requires forall i :: 0 <= i < w ==> cs[i].confidence < cs[w].confidence
    ensures composer.Compose(ds, callScope) == ConfidentDecision(Ranked(ds))
    ensures Ranked(ds)[0] == ds[w]
  {
    hide Ranked, Viable;
    var v := TopIsFirstBest(ds);
    assert v == w;
    RankedParts(ds);
    MarginIsNotNegative(Ranked(ds));
  }

  lemma WinnerAfterShift(composer: Composer, cs: seq<CandidateScore>, ds: seq<CandidateScore>, w: nat, callScope: Scope)
    requires composer.config.clarifyMargin > 0.0 && UnitInterval(cs)
    requires composer.Compose(cs, callScope).decision == Confident
    requires Shifted(cs, ds, w) && Ranked(cs) != [] && Ranked(cs)[0] == cs[w]
    ensures Winner(composer.config, callScope.OrElse(composer.scope), multiset(ds), ds[w])
    ensures HasWinner(composer.config, callScope.OrElse(composer.scope), multiset(ds))
  {
    hide Ranked, Viable, Composer.Compose;
    var config, scope := composer.config, callScope.OrElse(composer.scope);
    ConfidentIffWinner(composer, cs, callScope);
    var c :| Winner(config, scope, multiset(cs), c);
    RankedParts(cs);
    WinnerIsTop(config, scope, Ranked(cs), c);
    WinnerIsRobust(config, scope, cs, ds, w);
  }
}
