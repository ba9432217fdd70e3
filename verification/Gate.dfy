/**
 * The release gate (testing/gate.py), its recomputation from stored results (testing/csv_runner.py),
 * the release candidate list (api/admin.py) and the required-preset gate (ops/quality_gate.py).
 */
module Gate {
  import opened Wrappers
  import opened Routing

  datatype BlockReason =
    | PassRateBelow70
    | RiskCasesRequired
    | RiskCaseFailed
    | AlreadyReleased
    | PresetFailedCsvGate
    | PresetPassRate
    | PresetRiskPassRate

  datatype GateInput = GateInput(
    total: nat,
    passed: nat,
    review: nat,
    riskTotal: nat,
    riskPassed: nat,
    requireRiskCases: bool)

  datatype GateResult = GateResult(
    gatePassed: bool,
    passRate: real,
    reviewRate: real,
    riskPassRate: real,
    blockReasons: seq<BlockReason>,
    reviewRateHigh: bool)

  function Rate(numerator: nat, denominator: nat): real {
    if denominator == 0 then 0.0 else numerator as real / denominator as real
  }

  function When(condition: bool, reason: BlockReason): seq<BlockReason> {
    if condition then [reason] else []
  }

  function EvaluateGate(g: GateInput): GateResult {
    var passRate := Rate(g.passed, g.total);
    var reviewRate := Rate(g.review, g.total);
    var riskPassRate := if g.riskTotal == 0 then 1.0 else Rate(g.riskPassed, g.riskTotal);
    var reasons := When(passRate < 0.70, PassRateBelow70)
                   + When(g.requireRiskCases && g.riskTotal == 0, RiskCasesRequired)
                   + When(g.riskPassed < g.riskTotal, RiskCaseFailed);
    GateResult(reasons == [], passRate, reviewRate, riskPassRate, reasons, reviewRate > 0.15)
  }

  /** What the stored result of one case says to the gate. */
  datatype Graded = Graded(caseType: CaseType, result: Verdict)

  function Count(rs: seq<Graded>, p: Graded -> bool): (n: nat)
    ensures n <= |rs|
    ensures n > 0 <==> exists r :: r in rs && p(r)
    ensures n == |rs| <==> forall r :: r in rs ==> p(r)
  {
    if rs == [] then 0
    else
      assert forall r :: r in rs <==> r == rs[0] || r in rs[1..];
      (if p(rs[0]) then 1 else 0) + Count(rs[1..], p)
  }

  const PASS: Graded -> bool := (r: Graded) => r.result == Pass
  const REVIEW: Graded -> bool := (r: Graded) => r.result == Review
  const RISK: Graded -> bool := (r: Graded) => r.caseType == RiskCase
  const RISK_PASS: Graded -> bool := (r: Graded) => r.caseType == RiskCase && r.result == Pass

  function GateFromResults(rs: seq<Graded>): GateResult {
    EvaluateGate(GateInput(|rs|, Count(rs, PASS), Count(rs, REVIEW),
                           Count(rs, RISK), Count(rs, RISK_PASS), true))
  }

  // ---------------------------------------------------------------------------
  // The gate does not depend on the order of the results
  // ---------------------------------------------------------------------------

  lemma {:induction false} CountConcat(rs: seq<Graded>, qs: seq<Graded>, p: Graded -> bool)
    ensures Count(rs + qs, p) == Count(rs, p) + Count(qs, p)
  {
    if rs == [] {
      assert rs + qs == qs;
    } else {
      CountConcat(rs[1..], qs, p);
      assert (rs + qs)[1..] == rs[1..] + qs;
    }
  }

  lemma SameRest(rs: seq<Graded>, before: seq<Graded>, after: seq<Graded>)
    requires rs != [] && multiset(rs) == multiset(before + ([rs[0]] + after))
    ensures multiset(rs[1..]) == multiset(before + after)
  {
    var x := multiset{rs[0]};
    assert rs == [rs[0]] + rs[1..];
    assert multiset(rs) == x + multiset(rs[1..]);
    assert multiset(before + ([rs[0]] + after)) == x + multiset(before + after);
    assert multiset(rs[1..]) == (x + multiset(rs[1..])) - x;
    assert multiset(before + after) == (x + multiset(before + after)) - x;
  }

  lemma {:induction false} CountIgnoresOrder(rs: seq<Graded>, qs: seq<Graded>, p: Graded -> bool)
    requires multiset(rs) == multiset(qs)
    ensures Count(rs, p) == Count(qs, p)
  {
    if rs == [] {
      assert |multiset(qs)| == 0;
    } else {
      assert rs[0] in multiset(qs);
      var i :| 0 <= i < |qs| && qs[i] == rs[0];
      var before, after := qs[..i], qs[i + 1..];
      assert qs == before + ([qs[i]] + after);
      SameRest(rs, before, after);
      CountIgnoresOrder(rs[1..], before + after, p);
      CountConcat(before, after, p);
      CountConcat(before, [qs[i]] + after, p);
      CountConcat([qs[i]], after, p);
    }
  }

  lemma GateIgnoresOrder(rs: seq<Graded>, qs: seq<Graded>)
    requires multiset(rs) == multiset(qs)
    ensures GateFromResults(rs) == GateFromResults(qs)
  {
    CountIgnoresOrder(rs, qs, PASS);
    CountIgnoresOrder(rs, qs, REVIEW);
    CountIgnoresOrder(rs, qs, RISK);
    CountIgnoresOrder(rs, qs, RISK_PASS);
    assert |multiset(rs)| == |multiset(qs)|;
  }

  // ---------------------------------------------------------------------------
  // What passing the gate means
  // ---------------------------------------------------------------------------

  predicate RisksPassed(rs: seq<Graded>) {
    && (exists r :: r in rs && r.caseType == RiskCase)
    && forall r :: r in rs && r.caseType == RiskCase ==> r.result == Pass
  }

  lemma {:induction false} RiskCounts(rs: seq<Graded>)
    ensures Count(rs, RISK_PASS) <= Count(rs, RISK)
    ensures Count(rs, RISK_PASS) == Count(rs, RISK) <==>
              forall r :: r in rs && r.caseType == RiskCase ==> r.result == Pass
  {
    if rs != [] {
      RiskCounts(rs[1..]);
      assert forall r :: r in rs <==> r == rs[0] || r in rs[1..];
    }
  }

  lemma FractionBelow(n: real, d: real, x: real)
    requires d > 0.0
    ensures n / d < x <==> n < x * d
  {
    assert (n / d) * d == n;
    if n / d < x { assert (n / d) * d < x * d; }
    if n / d >= x { assert (n / d) * d >= x * d; }
  }

  lemma RateBelow(n: nat, d: nat)
    ensures Rate(n, d) < 0.70 <==> d == 0 || 10 * n < 7 * d
    ensures 0 < d ==> (Rate(n, d) < 1.0 <==> n < d)
  {
    if d > 0 {
      FractionBelow(n as real, d as real, 0.70);
      FractionBelow(n as real, d as real, 1.0);
      assert 10.0 * n as real == (10 * n) as real;
      assert 7.0 * d as real == (7 * d) as real;
    }
  }

  /** The gate opens for at least 70% passes, with some risk case, and every risk case passed. */
  lemma GateMeaning(rs: seq<Graded>)
    ensures GateFromResults(rs).gatePassed <==>
              && 10 * Count(rs, PASS) >= 7 * |rs|
              && RisksPassed(rs)
  {
    RiskCounts(rs);
    RateBelow(Count(rs, PASS), |rs|);
    assert RisksPassed(rs) ==> |rs| > 0;
    assert Count(rs, RISK) > 0 <==> exists r :: r in rs && RISK(r);
  }

  // ---------------------------------------------------------------------------
  // Stored runs, release candidates, and the required preset
  // ---------------------------------------------------------------------------

  datatype TestRun = TestRun(passRate: real, reviewRate: real, riskPassRate: real, gatePassed: bool)

  /** The row a run stores beside its results. */
  function StoredRun(rs: seq<Graded>): TestRun {
    var g := GateFromResults(rs);
    TestRun(g.passRate, g.reviewRate, g.riskPassRate, g.gatePassed)
  }

  datatype Summary = Summary(run: TestRun, blockReasons: seq<BlockReason>, reviewRateHigh: bool)

  /** Rates and verdict come from the stored run, reasons are recomputed from the stored results. */
  function SummarizeTestRun(run: TestRun, results: seq<Graded>): Summary {
    var g := GateFromResults(results);
    Summary(run, g.blockReasons, g.reviewRateHigh)
  }

  datatype ReleaseCandidate = ReleaseCandidate(eligible: bool, blockReasons: seq<BlockReason>)

  function Candidate(run: TestRun, results: seq<Graded>, released: bool): ReleaseCandidate {
    var summary := SummarizeTestRun(run, results);
    var hasRisk := exists r :: r in results && r.caseType == RiskCase;
    var riskPassed := RisksPassed(results);
    var reasons := summary.blockReasons
                   + (if !hasRisk then [RiskCasesRequired]
                      else When(!riskPassed && RiskCaseFailed !in summary.blockReasons, RiskCaseFailed))
                   + When(released, AlreadyReleased);
    ReleaseCandidate(run.gatePassed && riskPassed && !released, reasons)
  }

  datatype PresetError = MissingRequiredPreset

  datatype PresetGate = PresetGate(passed: bool, blockReasons: seq<BlockReason>)

  function RequiredPresetGate(runs: map<string, TestRun>, preset: string): Result<PresetGate, PresetError> {
    if preset !in runs then Err(MissingRequiredPreset)
    else
      var run := runs[preset];
      var reasons := When(!run.gatePassed, PresetFailedCsvGate)
                     + When(run.passRate < 0.70, PresetPassRate)
                     + When(run.riskPassRate < 1.0, PresetRiskPassRate);
      Ok(PresetGate(reasons == [], reasons))
  }

  /** The rates stored beside a passed gate clear the required preset's own bars. */
  lemma PassedGateRates(rs: seq<Graded>)
    ensures GateFromResults(rs).gatePassed ==>
              GateFromResults(rs).passRate >= 0.70 && GateFromResults(rs).riskPassRate >= 1.0
  {
    if GateFromResults(rs).gatePassed {
      RiskCounts(rs);
      RateBelow(Count(rs, RISK_PASS), Count(rs, RISK));
    }
  }

  /**
   * All the places that judge a run agree. For results rs of any run and any order in which the
   * database returns them: the recomputed gate is the stored one, the run is eligible exactly when
   * its list of reasons is empty, which is exactly when the gate passed and no release exists yet,
   * and the required-preset gate gives the stored verdict.
   */
  lemma JudgesAgree(rs: seq<Graded>, listed: seq<Graded>, released: bool, runs: map<string, TestRun>, preset: string)
    requires multiset(rs) == multiset(listed)
    ensures var run, candidate := StoredRun(rs), Candidate(StoredRun(rs), listed, released);
            var stored := runs[preset := run];
            && StoredRun(listed) == run
            && (SummarizeTestRun(run, listed).blockReasons == [] <==> run.gatePassed)
            && (candidate.eligible <==> candidate.blockReasons == [])
            && (candidate.eligible <==> run.gatePassed && !released)
            && RequiredPresetGate(stored, preset).Ok?
            && (RequiredPresetGate(stored, preset).value.passed <==> run.gatePassed)
  {
    GateIgnoresOrder(rs, listed);
    GateMeaning(listed);
    PassedGateRates(rs);
  }
}
