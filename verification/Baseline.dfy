/**
 * Freezing a CSV threshold report as a baseline and comparing a later report with it
 * (ops/csv_baseline.py). File hashes are inputs.
 */
module Baseline {
  import opened Wrappers

  datatype ReportRow = ReportRow(
    caseId: string,
    result: string,
    decision: Option<string>,
    intent: Option<string>,
    routeKey: Option<string>)

  datatype ReportRun = ReportRun(passRate: real, riskPassRate: real)

  datatype Report = Report(runs: map<string, ReportRun>, results: map<string, seq<ReportRow>>)

  datatype Policy = Policy(
    csvSha256: string,
    requiredPreset: string,
    minimumPassRate: real,
    requiredRiskPassRate: real,
    allowedNewFailures: int,
    allowedNewReviews: int)

  /** The row of the frozen report, as what later reports are expected to repeat. */
  datatype FrozenBaseline = FrozenBaseline(policy: Policy, cases: seq<ReportRow>)

  datatype BaselineError = MissingPreset | MissingCaseId

  // ---------------------------------------------------------------------------
  // Freezing: the cases sorted by case id
  // ---------------------------------------------------------------------------

  predicate LexLe(a: string, b: string) {
    a == "" || (b != "" && (a[0] < b[0] || (a[0] == b[0] && LexLe(a[1..], b[1..]))))
  }

  lemma {:induction false} LexIsTotalOrder(a: string, b: string, c: string)
    ensures LexLe(a, b) || LexLe(b, a)
    ensures LexLe(a, b) && LexLe(b, a) ==> a == b
    ensures LexLe(a, b) && LexLe(b, c) ==> LexLe(a, c)
  {
    if a != "" && b != "" && a[0] == b[0] {
      LexIsTotalOrder(a[1..], b[1..], if c == "" then "" else c[1..]);
      assert a == [a[0]] + a[1..] && b == [b[0]] + b[1..];
    }
  }

  function InsertCase(row: ReportRow, sorted: seq<ReportRow>): seq<ReportRow> {
    if sorted == [] || LexLe(row.caseId, sorted[0].caseId) then [row] + sorted
    else [sorted[0]] + InsertCase(row, sorted[1..])
  }

  /** The stable sort by case id. */
  function SortCases(rows: seq<ReportRow>): seq<ReportRow> {
    if rows == [] then [] else InsertCase(rows[0], SortCases(rows[1..]))
  }

  function FreezeBaseline(report: Report, csvSha256: string, preset: string): Result<FrozenBaseline, BaselineError> {
    if preset !in report.runs || preset !in report.results then Err(MissingPreset)
    else if exists row :: row in report.results[preset] && row.caseId == "" then Err(MissingCaseId)
    else
      var run := report.runs[preset];
      Ok(FrozenBaseline(Policy(csvSha256, preset, run.passRate, run.riskPassRate, 0, 0),
                        SortCases(report.results[preset])))
  }

  predicate Ascending(rows: seq<ReportRow>) {
    forall i, j :: 0 <= i < j < |rows| ==> LexLe(rows[i].caseId, rows[j].caseId)
  }

  lemma {:induction false} InsertCaseAdds(row: ReportRow, sorted: seq<ReportRow>)
    ensures multiset(InsertCase(row, sorted)) == multiset{row} + multiset(sorted)
    ensures InsertCase(row, sorted) != []
    ensures InsertCase(row, sorted)[0] == row || (sorted != [] && InsertCase(row, sorted)[0] == sorted[0])
  {
    hide LexLe;
    if sorted != [] && !LexLe(row.caseId, sorted[0].caseId) {
      InsertCaseAdds(row, sorted[1..]);
      assert sorted == [sorted[0]] + sorted[1..];
    }
  }

  /** Ascending, step by step. */
  lemma {:induction false} AscendingByHead(head: ReportRow, tail: seq<ReportRow>)
    requires Ascending(tail) && (tail != [] ==> LexLe(head.caseId, tail[0].caseId))
    ensures Ascending([head] + tail)
  {
    hide LexLe;
    var all := [head] + tail;
    forall i, j | 0 <= i < j < |all| ensures LexLe(all[i].caseId, all[j].caseId) {
      if i == 0 && j > 1 {
        LexIsTotalOrder(head.caseId, tail[0].caseId, tail[j - 1].caseId);
      }
    }
  }

  lemma {:induction false} InsertCaseAscends(row: ReportRow, sorted: seq<ReportRow>)
    requires Ascending(sorted)
    ensures Ascending(InsertCase(row, sorted))
  {
    hide LexLe;
    if sorted == [] {
    } else if LexLe(row.caseId, sorted[0].caseId) {
      AscendingByHead(row, sorted);
    } else {
      InsertCaseAscends(row, sorted[1..]);
      InsertCaseAdds(row, sorted[1..]);
      LexIsTotalOrder(row.caseId, sorted[0].caseId, "");
      AscendingByHead(sorted[0], InsertCase(row, sorted[1..]));
    }
  }

  lemma {:induction false} SortCasesSorts(rows: seq<ReportRow>)
    ensures Ascending(SortCases(rows))
    ensures multiset(SortCases(rows)) == multiset(rows)
    ensures forall row :: row in SortCases(rows) <==> row in rows
  {
    if rows != [] {
      SortCasesSorts(rows[1..]);
      InsertCaseAscends(rows[0], SortCases(rows[1..]));
      InsertCaseAdds(rows[0], SortCases(rows[1..]));
      assert rows == [rows[0]] + rows[1..];
    }
    forall row ensures row in SortCases(rows) <==> row in rows {
      assert row in multiset(SortCases(rows)) <==> row in multiset(rows);
    }
  }

  predicate DistinctIds(rows: seq<ReportRow>) {
    forall i, j :: 0 <= i < j < |rows| ==> rows[i].caseId != rows[j].caseId
  }

  /** Two ascending lists of the same rows start with the same row. */
  lemma SameLeast(a: seq<ReportRow>, b: seq<ReportRow>)
    requires Ascending(a) && Ascending(b) && DistinctIds(a) && multiset(a) == multiset(b) && a != [] && b != []
    ensures a[0] == b[0]
  {
    hide LexLe;
    assert a[0] in multiset(b) && b[0] in multiset(a);
    var i :| 0 <= i < |b| && b[i] == a[0];
    var j :| 0 <= j < |a| && a[j] == b[0];
    LexIsTotalOrder(a[0].caseId, b[0].caseId, "");
    LexIsTotalOrder(a[0].caseId, a[0].caseId, "");
    assert LexLe(a[0].caseId, a[j].caseId) && LexLe(b[0].caseId, b[i].caseId);
  }

  lemma {:induction false} AscendingIsCanonical(a: seq<ReportRow>, b: seq<ReportRow>)
    requires Ascending(a) && Ascending(b) && DistinctIds(a) && multiset(a) == multiset(b)
    ensures a == b
  {
    hide LexLe;
    assert |a| == |multiset(a)| == |multiset(b)| == |b|;
    if a != [] {
      SameLeast(a, b);
      assert a == [a[0]] + a[1..] && b == [b[0]] + b[1..];
      assert multiset(a) == multiset{a[0]} + multiset(a[1..]);
      assert multiset(b) == multiset{a[0]} + multiset(b[1..]);
      SameRest(multiset{a[0]}, multiset(a[1..]), multiset(b[1..]));
      AscendingIsCanonical(a[1..], b[1..]);
    }
  }

  lemma SameRest(x: multiset<ReportRow>, a: multiset<ReportRow>, b: multiset<ReportRow>)
    requires x + a == x + b
    ensures a == b
  {
    assert a == (x + a) - x && b == (x + b) - x;
  }

  lemma {:induction false} InsertKeepsDistinct(row: ReportRow, sorted: seq<ReportRow>)
    requires DistinctIds(sorted) && forall r :: r in sorted ==> r.caseId != row.caseId
    ensures DistinctIds(InsertCase(row, sorted))
    ensures forall r :: r in InsertCase(row, sorted) <==> r == row || r in sorted
  {
    hide LexLe;
    if sorted != [] && !LexLe(row.caseId, sorted[0].caseId) {
      InsertKeepsDistinct(row, sorted[1..]);
      assert forall r :: r in sorted <==> r == sorted[0] || r in sorted[1..];
      var rest := InsertCase(row, sorted[1..]);
      assert InsertCase(row, sorted) == [sorted[0]] + rest;
      forall i | 0 <= i < |rest| ensures rest[i].caseId != sorted[0].caseId {
        assert rest[i] in rest;
      }
    }
  }

  lemma {:induction false} SortKeepsDistinct(rows: seq<ReportRow>)
    requires DistinctIds(rows)
    ensures DistinctIds(SortCases(rows))
    ensures forall r :: r in SortCases(rows) <==> r in rows
  {
    if rows != [] {
      SortKeepsDistinct(rows[1..]);
      InsertKeepsDistinct(rows[0], SortCases(rows[1..]));
      assert forall r :: r in rows <==> r == rows[0] || r in rows[1..];
    }
  }

  /** The frozen baseline does not depend on the order in which the report lists its cases. */
  lemma FreezeIgnoresRowOrder(report: Report, other: Report, sha: string, preset: string)
    requires preset in report.runs && preset in other.runs && report.runs[preset] == other.runs[preset]
    requires preset in report.results && preset in other.results
    requires DistinctIds(report.results[preset])
    requires multiset(report.results[preset]) == multiset(other.results[preset])
    ensures FreezeBaseline(report, sha, preset) == FreezeBaseline(other, sha, preset)
  {
    var a, b := report.results[preset], other.results[preset];
    SortCasesSorts(a);
    SortCasesSorts(b);
    SortKeepsDistinct(a);
    AscendingIsCanonical(SortCases(a), SortCases(b));
    assert forall row :: row in a <==> row in b;
  }

  // ---------------------------------------------------------------------------
  // Comparing
  // ---------------------------------------------------------------------------

  datatype Drift = Drift(caseId: string, expected: Option<string>, actual: Option<string>)

  datatype BlockReason =
    | PassRateBelow | RiskPassRateBelow | NewFailures | NewReviews | CsvMismatch
    | MissingCases | DecisionDrift | IntentDrift | RouteKeyDrift

  datatype Comparison = Comparison(
    passed: bool,
    blockReasons: seq<BlockReason>,
    newFailures: seq<Drift>,
    newReviews: seq<Drift>,
    missingCases: seq<string>,
    csvMismatch: bool,
    changedDecisions: seq<Drift>,
    changedIntents: seq<Drift>,
    changedRouteKeys: seq<Drift>)

  /** The report's rows by case id; of rows with one id the last counts. */
  function ByCaseId(rows: seq<ReportRow>): (m: map<string, ReportRow>)
    ensures forall id :: id in m ==> m[id] in rows && m[id].caseId == id
    ensures forall row :: row in rows ==> row.caseId in m
  {
    if rows == [] then map[]
    else
      var last := rows[|rows| - 1];
      assert forall row :: row in rows <==> row == last || row in rows[..|rows| - 1];
      ByCaseId(rows[..|rows| - 1])[last.caseId := last]
  }

  /** How one expected case compares with the current row of its id. */
  function NewFailure(e: ReportRow, c: ReportRow): seq<Drift> {
    if e.result == "PASS" && c.result == "FAIL" then [Drift(e.caseId, Some(e.result), Some(c.result))] else []
  }

  function NewReview(e: ReportRow, c: ReportRow): seq<Drift> {
    if e.result == "PASS" && c.result == "REVIEW" then [Drift(e.caseId, Some(e.result), Some(c.result))] else []
  }

  function Changed(id: string, expected: Option<string>, actual: Option<string>): seq<Drift> {
    if actual != expected then [Drift(id, expected, actual)] else []
  }

  datatype Field = Failure | ReviewField | DecisionField | IntentField | RouteField

  function DriftOf(f: Field, e: ReportRow, c: ReportRow): seq<Drift> {
    match f
    case Failure => NewFailure(e, c)
    case ReviewField => NewReview(e, c)
    case DecisionField => Changed(e.caseId, e.decision, c.decision)
    case IntentField => Changed(e.caseId, e.intent, c.intent)
    case RouteField => Changed(e.caseId, e.routeKey, c.routeKey)
  }

  /** The drifts of one kind over the expected cases that are present, in baseline order. */
  function Drifts(f: Field, cases: seq<ReportRow>, current: map<string, ReportRow>): seq<Drift> {
    if cases == [] then []
    else
      var n := |cases| - 1;
      Drifts(f, cases[..n], current)
      + if cases[n].caseId in current then DriftOf(f, cases[n], current[cases[n].caseId]) else []
  }

  function Missing(cases: seq<ReportRow>, current: map<string, ReportRow>): seq<string> {
    if cases == [] then []
    else
      var n := |cases| - 1;
      Missing(cases[..n], current) + if cases[n].caseId in current then [] else [cases[n].caseId]
  }

  function When(condition: bool, reason: BlockReason): seq<BlockReason> {
    if condition then [reason] else []
  }

  function RateReasons(run: ReportRun, policy: Policy): seq<BlockReason> {
    When(run.passRate < policy.minimumPassRate, PassRateBelow)
    + When(run.riskPassRate < policy.requiredRiskPassRate, RiskPassRateBelow)
  }

  function CountReasons(policy: Policy, failures: nat, reviews: nat, mismatch: bool, missing: bool): seq<BlockReason> {
    When(failures > policy.allowedNewFailures, NewFailures)
    + When(reviews > policy.allowedNewReviews, NewReviews)
    + When(mismatch, CsvMismatch)
    + When(missing, MissingCases)
  }

  function FieldReasons(decisions: bool, intents: bool, routeKeys: bool): seq<BlockReason> {
    When(decisions, DecisionDrift) + When(intents, IntentDrift) + When(routeKeys, RouteKeyDrift)
  }

  function DriftReasons(policy: Policy, failures: nat, reviews: nat, mismatch: bool, missing: bool,
                        decisions: bool, intents: bool, routeKeys: bool): seq<BlockReason>
  {
    CountReasons(policy, failures, reviews, mismatch, missing) + FieldReasons(decisions, intents, routeKeys)
  }

  predicate Comparable(report: Report, baseline: FrozenBaseline) {
    baseline.policy.requiredPreset in report.results && baseline.policy.requiredPreset in report.runs
  }

  function Compare(report: Report, baseline: FrozenBaseline, currentSha: Option<string>): Comparison
    requires Comparable(report, baseline)
  {
    var policy := baseline.policy;
    var run := report.runs[policy.requiredPreset];
    var current := ByCaseId(report.results[policy.requiredPreset]);
    var failures := Drifts(Failure, baseline.cases, current);
    var reviews := Drifts(ReviewField, baseline.cases, current);
    var missing := Missing(baseline.cases, current);
    var mismatch := currentSha.Some? && currentSha.value != policy.csvSha256;
    var decisions := Drifts(DecisionField, baseline.cases, current);
    var intents := Drifts(IntentField, baseline.cases, current);
    var routeKeys := Drifts(RouteField, baseline.cases, current);
    var reasons := RateReasons(run, policy)
                   + DriftReasons(policy, |failures|, |reviews|, mismatch, missing != [], decisions != [],
                                  intents != [], routeKeys != []);
    Comparison(reasons == [], reasons, failures, reviews, missing, mismatch, decisions, intents, routeKeys)
  }

  // --- What a comparison says ---

  /** The row a report has for an id: of several, the last. */
  ghost predicate CurrentRow(rows: seq<ReportRow>, id: string, c: ReportRow) {
    exists j :: 0 <= j < |rows| && rows[j] == c && c.caseId == id && forall k :: j < k < |rows| ==> rows[k].caseId != id
  }

  /** A drift of one kind: the case, what was frozen, and what the report has instead. */
  predicate Says(f: Field, e: ReportRow, c: ReportRow, d: Drift) {
    && d.caseId == e.caseId
    && match f
       case Failure =>
         e.result == "PASS" && c.result == "FAIL" && d.expected == Some("PASS") && d.actual == Some("FAIL")
       case ReviewField =>
         e.result == "PASS" && c.result == "REVIEW" && d.expected == Some("PASS") && d.actual == Some("REVIEW")
       case DecisionField => e.decision != c.decision && d.expected == e.decision && d.actual == c.decision
       case IntentField => e.intent != c.intent && d.expected == e.intent && d.actual == c.intent
       case RouteField => e.routeKey != c.routeKey && d.expected == e.routeKey && d.actual == c.routeKey
  }

  /** The list has exactly the drifts of this kind, over the frozen cases that the report still has. */
  ghost predicate ListsDrifts(f: Field, list: seq<Drift>, cases: seq<ReportRow>, rows: seq<ReportRow>) {
    forall d :: d in list <==> exists e, c :: e in cases && CurrentRow(rows, e.caseId, c) && Says(f, e, c, d)
  }

  lemma {:induction false} ByCaseIdIsLast(rows: seq<ReportRow>, id: string, c: ReportRow)
    ensures id in ByCaseId(rows) && ByCaseId(rows)[id] == c <==> CurrentRow(rows, id, c)
  {
    hide ByCaseId;
    if rows != [] {
      var n := |rows| - 1;
      ByCaseIdIsLast(rows[..n], id, c);
      LastRowDecides(rows, id, c);
      assert ByCaseId(rows) == ByCaseId(rows[..n])[rows[n].caseId := rows[n]] by { ByCaseIdStep(rows); }
    } else {
      assert ByCaseId(rows) == map[] by { ByCaseIdStep(rows); }
    }
  }

  lemma ByCaseIdStep(rows: seq<ReportRow>)
    ensures ByCaseId(rows)
         == if rows == [] then map[] else ByCaseId(rows[..|rows| - 1])[rows[|rows| - 1].caseId := rows[|rows| - 1]]
  {
  }

  lemma LastRowDecides(rows: seq<ReportRow>, id: string, c: ReportRow)
    requires rows != []
    ensures var n := |rows| - 1;
            CurrentRow(rows, id, c) <==> if rows[n].caseId == id then c == rows[n] else CurrentRow(rows[..n], id, c)
  {
    var n := |rows| - 1;
    if rows[n].caseId != id && CurrentRow(rows[..n], id, c) {
      var j :| 0 <= j < n && rows[..n][j] == c && c.caseId == id && forall k :: j < k < n ==> rows[..n][k].caseId != id;
      assert rows[j] == c;
      assert forall k :: j < k < n ==> rows[k] == rows[..n][k];
    }
    if rows[n].caseId != id && CurrentRow(rows, id, c) {
      var j :| 0 <= j < |rows| && rows[j] == c && c.caseId == id && forall k :: j < k < |rows| ==> rows[k].caseId != id;
      assert rows[..n][j] == c;
      assert forall k :: j < k < n ==> rows[k] == rows[..n][k];
    }
    if rows[n].caseId == id && CurrentRow(rows, id, c) {
      assert c == rows[n];
    }
  }

  lemma SaysMeaning(f: Field, e: ReportRow, c: ReportRow, d: Drift)
    ensures d in DriftOf(f, e, c) <==> Says(f, e, c, d)
  {
  }

  lemma {:induction false} DriftsMembers(f: Field, cases: seq<ReportRow>, current: map<string, ReportRow>, d: Drift)
    ensures d in Drifts(f, cases, current) <==>
              exists e :: e in cases && e.caseId in current && d in DriftOf(f, e, current[e.caseId])
  {
    hide DriftOf;
    if cases != [] {
      var n := |cases| - 1;
      DriftsMembers(f, cases[..n], current, d);
      assert forall e :: e in cases <==> e == cases[n] || e in cases[..n];
    }
  }

  lemma DriftsAreListed(f: Field, cases: seq<ReportRow>, rows: seq<ReportRow>)
    ensures ListsDrifts(f, Drifts(f, cases, ByCaseId(rows)), cases, rows)
  {
    hide Drifts, ByCaseId, DriftOf, Says, CurrentRow;
    var current := ByCaseId(rows);
    forall d
      ensures d in Drifts(f, cases, current)
         <==> exists e, c :: e in cases && CurrentRow(rows, e.caseId, c) && Says(f, e, c, d)
    {
      DriftsMembers(f, cases, current, d);
      forall e: ReportRow, c: ReportRow ensures d in DriftOf(f, e, c) <==> Says(f, e, c, d) {
        SaysMeaning(f, e, c, d);
      }
      forall e: ReportRow, c: ReportRow
        ensures e.caseId in current && current[e.caseId] == c <==> CurrentRow(rows, e.caseId, c)
      {
        ByCaseIdIsLast(rows, e.caseId, c);
      }
      if e :| e in cases && e.caseId in current && d in DriftOf(f, e, current[e.caseId]) {
        assert CurrentRow(rows, e.caseId, current[e.caseId]);
      }
    }
  }

  lemma {:induction false} MissingMembers(cases: seq<ReportRow>, current: map<string, ReportRow>, id: string)
    ensures id in Missing(cases, current) <==> id !in current && exists e :: e in cases && e.caseId == id
  {
    if cases != [] {
      var n := |cases| - 1;
      MissingMembers(cases[..n], current, id);
      assert forall e :: e in cases <==> e == cases[n] || e in cases[..n];
    }
  }

  lemma RateMember(run: ReportRun, policy: Policy, x: BlockReason)
    ensures x in RateReasons(run, policy) <==>
              || (run.passRate < policy.minimumPassRate && x == PassRateBelow)
              || (run.riskPassRate < policy.requiredRiskPassRate && x == RiskPassRateBelow)
  {
  }

  lemma CountMember(policy: Policy, failures: nat, reviews: nat, mismatch: bool, missing: bool, x: BlockReason)
    ensures x in CountReasons(policy, failures, reviews, mismatch, missing) <==>
              || (failures > policy.allowedNewFailures && x == NewFailures)
              || (reviews > policy.allowedNewReviews && x == NewReviews)
              || (mismatch && x == CsvMismatch) || (missing && x == MissingCases)
  {
  }

  lemma FieldMember(decisions: bool, intents: bool, routeKeys: bool, x: BlockReason)
    ensures x in FieldReasons(decisions, intents, routeKeys) <==>
              || (decisions && x == DecisionDrift) || (intents && x == IntentDrift) || (routeKeys && x == RouteKeyDrift)
  {
  }

  /** Which reasons a comparison gives. */
  ghost predicate Gives(reasons: seq<BlockReason>, run: ReportRun, policy: Policy, failures: nat, reviews: nat,
                        mismatch: bool, missing: bool, decisions: bool, intents: bool, routeKeys: bool)
  {
    && (PassRateBelow in reasons <==> run.passRate < policy.minimumPassRate)
    && (RiskPassRateBelow in reasons <==> run.riskPassRate < policy.requiredRiskPassRate)
    && (NewFailures in reasons <==> failures > policy.allowedNewFailures)
    && (NewReviews in reasons <==> reviews > policy.allowedNewReviews)
    && (CsvMismatch in reasons <==> mismatch) && (MissingCases in reasons <==> missing)
    && (DecisionDrift in reasons <==> decisions) && (IntentDrift in reasons <==> intents)
    && (RouteKeyDrift in reasons <==> routeKeys)
  }

  lemma ReasonMembers(run: ReportRun, policy: Policy, failures: nat, reviews: nat, mismatch: bool, missing: bool,
                      decisions: bool, intents: bool, routeKeys: bool)
    ensures Gives(RateReasons(run, policy)
                  + DriftReasons(policy, failures, reviews, mismatch, missing, decisions, intents, routeKeys),
                  run, policy, failures, reviews, mismatch, missing, decisions, intents, routeKeys)
  {
    hide RateReasons, CountReasons, FieldReasons;
    forall x
      ensures x in RateReasons(run, policy) <==>
                || (run.passRate < policy.minimumPassRate && x == PassRateBelow)
                || (run.riskPassRate < policy.requiredRiskPassRate && x == RiskPassRateBelow)
      ensures x in CountReasons(policy, failures, reviews, mismatch, missing) <==>
                || (failures > policy.allowedNewFailures && x == NewFailures)
                || (reviews > policy.allowedNewReviews && x == NewReviews)
                || (mismatch && x == CsvMismatch) || (missing && x == MissingCases)
      ensures x in FieldReasons(decisions, intents, routeKeys) <==>
                || (decisions && x == DecisionDrift) || (intents && x == IntentDrift)
                || (routeKeys && x == RouteKeyDrift)
    {
      RateMember(run, policy, x);
      CountMember(policy, failures, reviews, mismatch, missing, x);
      FieldMember(decisions, intents, routeKeys, x);
    }
  }

  /** What a comparison lists and why it blocks: each list, each reason, and that it passes only without any. */
  lemma ComparisonMeaning(report: Report, baseline: FrozenBaseline, sha: Option<string>)
    requires Comparable(report, baseline)
    ensures var policy, cases, r := baseline.policy, baseline.cases, Compare(report, baseline, sha);
            var run, rows := report.runs[policy.requiredPreset], report.results[policy.requiredPreset];
            && ListsDrifts(Failure, r.newFailures, cases, rows) && ListsDrifts(ReviewField, r.newReviews, cases, rows)
            && ListsDrifts(DecisionField, r.changedDecisions, cases, rows)
            && ListsDrifts(IntentField, r.changedIntents, cases, rows)
            && ListsDrifts(RouteField, r.changedRouteKeys, cases, rows)
            && (forall id :: id in r.missingCases <==>
                  (exists e :: e in cases && e.caseId == id) && forall row :: row in rows ==> row.caseId != id)
            && (r.csvMismatch <==> sha.Some? && sha.value != policy.csvSha256)
            && Gives(r.blockReasons, run, policy, |r.newFailures|, |r.newReviews|, r.csvMismatch, r.missingCases != [],
                     r.changedDecisions != [], r.changedIntents != [], r.changedRouteKeys != [])
            && (r.passed <==> r.blockReasons == [])
  {
    hide ByCaseId, Drifts, Missing, ListsDrifts, RateReasons, DriftReasons, Gives;
    var policy, cases := baseline.policy, baseline.cases;
    var rows := report.results[policy.requiredPreset];
    var current, r := ByCaseId(rows), Compare(report, baseline, sha);
    forall f ensures ListsDrifts(f, Drifts(f, cases, current), cases, rows) {
      DriftsAreListed(f, cases, rows);
    }
    forall id
      ensures id in r.missingCases <==>
                (exists e :: e in cases && e.caseId == id) && forall row :: row in rows ==> row.caseId != id
    {
      MissingMembers(cases, current, id);
    }
    ReasonMembers(report.runs[policy.requiredPreset], policy, |r.newFailures|, |r.newReviews|, r.csvMismatch,
                  r.missingCases != [], r.changedDecisions != [], r.changedIntents != [], r.changedRouteKeys != []);
  }

  lemma DriftsOfNothing(current: map<string, ReportRow>)
    ensures Missing([], current) == [] && forall f :: Drifts(f, [], current) == []
  {
  }

  lemma DriftsStep(f: Field, cases: seq<ReportRow>, i: nat, current: map<string, ReportRow>)
    requires i < |cases|
    ensures Drifts(f, cases[..i + 1], current) ==
            Drifts(f, cases[..i], current)
            + if cases[i].caseId in current then DriftOf(f, cases[i], current[cases[i].caseId]) else []
    ensures Missing(cases[..i + 1], current) ==
            Missing(cases[..i], current) + if cases[i].caseId in current then [] else [cases[i].caseId]
  {
    assert cases[..i + 1][..i] == cases[..i];
  }

  method AppendResultDrifts(e: ReportRow, c: ReportRow, failures: seq<Drift>, reviews: seq<Drift>)
    returns (newFailures: seq<Drift>, newReviews: seq<Drift>)
    ensures newFailures == failures + DriftOf(Failure, e, c) && newReviews == reviews + DriftOf(ReviewField, e, c)
  {
    newFailures, newReviews := failures, reviews;
    if e.result == "PASS" && c.result == "FAIL" {
      newFailures := failures + [Drift(e.caseId, Some(e.result), Some(c.result))];
    }
    if e.result == "PASS" && c.result == "REVIEW" {
      newReviews := reviews + [Drift(e.caseId, Some(e.result), Some(c.result))];
    }
  }

  method AppendFieldDrifts(e: ReportRow, c: ReportRow, decisions: seq<Drift>, intents: seq<Drift>,
                           routeKeys: seq<Drift>)
    returns (newDecisions: seq<Drift>, newIntents: seq<Drift>, newRouteKeys: seq<Drift>)
    ensures newDecisions == decisions + DriftOf(DecisionField, e, c)
    ensures newIntents == intents + DriftOf(IntentField, e, c)
    ensures newRouteKeys == routeKeys + DriftOf(RouteField, e, c)
  {
    newDecisions, newIntents, newRouteKeys := decisions, intents, routeKeys;
    if c.decision != e.decision { newDecisions := decisions + [Drift(e.caseId, e.decision, c.decision)]; }
    if c.intent != e.intent { newIntents := intents + [Drift(e.caseId, e.intent, c.intent)]; }
    if c.routeKey != e.routeKey { newRouteKeys := routeKeys + [Drift(e.caseId, e.routeKey, c.routeKey)]; }
  }

  /** One pass over the expected cases that fills the lists. */
  method CollectDrifts(cases: seq<ReportRow>, current: map<string, ReportRow>)
    returns (failures: seq<Drift>, reviews: seq<Drift>, missing: seq<string>,
             decisions: seq<Drift>, intents: seq<Drift>, routeKeys: seq<Drift>)
    ensures failures == Drifts(Failure, cases, current) && reviews == Drifts(ReviewField, cases, current)
    ensures missing == Missing(cases, current)
    ensures decisions == Drifts(DecisionField, cases, current) && intents == Drifts(IntentField, cases, current)
    ensures routeKeys == Drifts(RouteField, cases, current)
  {
    hide Drifts, Missing, DriftOf;
    failures, reviews, missing, decisions, intents, routeKeys := [], [], [], [], [], [];
    DriftsOfNothing(current);
    for i := 0 to |cases|
      invariant failures == Drifts(Failure, cases[..i], current)
      invariant reviews == Drifts(ReviewField, cases[..i], current)
      invariant missing == Missing(cases[..i], current)
      invariant decisions == Drifts(DecisionField, cases[..i], current)
      invariant intents == Drifts(IntentField, cases[..i], current)
      invariant routeKeys == Drifts(RouteField, cases[..i], current)
    {
      var e := cases[i];
      DriftsStep(Failure, cases, i, current);
      DriftsStep(ReviewField, cases, i, current);
      DriftsStep(DecisionField, cases, i, current);
      DriftsStep(IntentField, cases, i, current);
      DriftsStep(RouteField, cases, i, current);
      if e.caseId !in current {
        missing := missing + [e.caseId];
        continue;
      }
      var c := current[e.caseId];
      failures, reviews := AppendResultDrifts(e, c, failures, reviews);
      decisions, intents, routeKeys := AppendFieldDrifts(e, c, decisions, intents, routeKeys);
    }
    assert cases[..|cases|] == cases;
  }

  method AddReason(reasons: seq<BlockReason>, condition: bool, reason: BlockReason) returns (r: seq<BlockReason>)
    ensures r == reasons + When(condition, reason)
  {
    r := reasons;
    if condition {
      r := reasons + [reason];
    }
  }

  method CollectRateReasons(run: ReportRun, policy: Policy) returns (reasons: seq<BlockReason>)
    ensures reasons == RateReasons(run, policy)
  {
    reasons := [];
    if run.passRate < policy.minimumPassRate {
      reasons := reasons + [PassRateBelow];
    }
    if run.riskPassRate < policy.requiredRiskPassRate {
      reasons := reasons + [RiskPassRateBelow];
    }
  }

  method CollectReasons(policy: Policy, failures: nat, reviews: nat, mismatch: bool, missing: bool,
                        decisions: bool, intents: bool, routeKeys: bool) returns (reasons: seq<BlockReason>)
    ensures reasons == DriftReasons(policy, failures, reviews, mismatch, missing, decisions, intents, routeKeys)
  {
    reasons := CollectCountReasons(policy, failures, reviews, mismatch, missing);
    var fields := CollectFieldReasons(decisions, intents, routeKeys);
    reasons := reasons + fields;
  }

  method CollectCountReasons(policy: Policy, failures: nat, reviews: nat, mismatch: bool, missing: bool)
    returns (reasons: seq<BlockReason>)
    ensures reasons == CountReasons(policy, failures, reviews, mismatch, missing)
  {
    reasons := if failures > policy.allowedNewFailures then [NewFailures] else [];
    assert reasons == When(failures > policy.allowedNewFailures, NewFailures);
    hide When;
    reasons := AddReason(reasons, reviews > policy.allowedNewReviews, NewReviews);
    reasons := AddReason(reasons, mismatch, CsvMismatch);
    reasons := AddReason(reasons, missing, MissingCases);
  }

  method CollectFieldReasons(decisions: bool, intents: bool, routeKeys: bool) returns (reasons: seq<BlockReason>)
    ensures reasons == FieldReasons(decisions, intents, routeKeys)
  {
    reasons := if decisions then [DecisionDrift] else [];
    assert reasons == When(decisions, DecisionDrift);
    hide When;
    reasons := AddReason(reasons, intents, IntentDrift);
    reasons := AddReason(reasons, routeKeys, RouteKeyDrift);
  }

  /** The comparison as the program runs it. */
  method CompareBaseline(report: Report, baseline: FrozenBaseline, currentSha: Option<string>)
    returns (r: Result<Comparison, BaselineError>)
    ensures r == if Comparable(report, baseline) then Ok(Compare(report, baseline, currentSha)) else Err(MissingPreset)
  {
    hide ByCaseId, Drifts, Missing, DriftOf, RateReasons, DriftReasons;
    var policy := baseline.policy;
    if policy.requiredPreset !in report.results {
      return Err(MissingPreset);
    }
    var current := ByCaseId(report.results[policy.requiredPreset]);
    if policy.requiredPreset !in report.runs {
      return Err(MissingPreset);
    }
    var run := report.runs[policy.requiredPreset];
    var rates := CollectRateReasons(run, policy);
    var mismatch := currentSha.Some? && currentSha.value != policy.csvSha256;

    var failures, reviews, missing, decisions, intents, routeKeys := CollectDrifts(baseline.cases, current);
    var drifts := CollectReasons(policy, |failures|, |reviews|, mismatch, missing != [], decisions != [], intents != [],
                                 routeKeys != []);
    var reasons := rates + drifts;
    return Ok(Comparison(reasons == [], reasons, failures, reviews, missing, mismatch, decisions, intents, routeKeys));
  }

  // ---------------------------------------------------------------------------
  // Acceptance
  // ---------------------------------------------------------------------------

  /** The later row repeats the expected case, and does not fall from PASS to FAIL or REVIEW. */
  predicate Repeats(e: ReportRow, c: ReportRow) {
    && c.decision == e.decision && c.intent == e.intent && c.routeKey == e.routeKey
    && (e.result == "PASS" ==> c.result !in {"FAIL", "REVIEW"})
  }

  predicate Accepted(report: Report, sha: string, baseline: FrozenBaseline) {
    Comparable(report, baseline) && Compare(report, baseline, Some(sha)).passed
  }

  lemma {:induction false} NoDrifts(f: Field, cases: seq<ReportRow>, current: map<string, ReportRow>)
    ensures Drifts(f, cases, current) == [] <==>
              forall e :: e in cases && e.caseId in current ==> DriftOf(f, e, current[e.caseId]) == []
  {
    if cases != [] {
      var n := |cases| - 1;
      NoDrifts(f, cases[..n], current);
      assert forall e :: e in cases <==> e == cases[n] || e in cases[..n];
    }
  }

  lemma {:induction false} NoMissing(cases: seq<ReportRow>, current: map<string, ReportRow>)
    ensures Missing(cases, current) == [] <==> forall e :: e in cases ==> e.caseId in current
  {
    if cases != [] {
      var n := |cases| - 1;
      NoMissing(cases[..n], current);
      assert forall e :: e in cases <==> e == cases[n] || e in cases[..n];
    }
  }

  lemma NoReasons(run: ReportRun, policy: Policy)
    ensures RateReasons(run, policy) == [] <==>
              run.passRate >= policy.minimumPassRate && run.riskPassRate >= policy.requiredRiskPassRate
    ensures forall failures: nat, reviews: nat, mismatch, missing, decisions, intents, routeKeys ::
              DriftReasons(policy, failures, reviews, mismatch, missing, decisions, intents, routeKeys) == [] <==>
                && failures <= policy.allowedNewFailures && reviews <= policy.allowedNewReviews
                && !mismatch && !missing && !decisions && !intents && !routeKeys
  {
  }

  /** What a comparison without allowances accepts. */
  lemma AcceptedMeaning(report: Report, sha: string, baseline: FrozenBaseline)
    requires Comparable(report, baseline)
    requires baseline.policy.allowedNewFailures == baseline.policy.allowedNewReviews == 0
    ensures var preset := baseline.policy.requiredPreset;
            var current := ByCaseId(report.results[preset]);
            Accepted(report, sha, baseline) <==>
              && report.runs[preset].passRate >= baseline.policy.minimumPassRate
              && report.runs[preset].riskPassRate >= baseline.policy.requiredRiskPassRate
              && sha == baseline.policy.csvSha256
              && forall e :: e in baseline.cases ==> e.caseId in current && Repeats(e, current[e.caseId])
  {
    var current := ByCaseId(report.results[baseline.policy.requiredPreset]);
    NoMissing(baseline.cases, current);
    NoDrifts(Failure, baseline.cases, current);
    NoDrifts(ReviewField, baseline.cases, current);
    NoDrifts(DecisionField, baseline.cases, current);
    NoDrifts(IntentField, baseline.cases, current);
    NoDrifts(RouteField, baseline.cases, current);
    hide Drifts, Missing, ByCaseId;
    NoReasons(report.runs[baseline.policy.requiredPreset], baseline.policy);
    hide RateReasons, DriftReasons;
    forall e | e in baseline.cases && e.caseId in current
      ensures Repeats(e, current[e.caseId]) <==> forall f: Field :: DriftOf(f, e, current[e.caseId]) == []
    {
      RepeatsMeaning(e, current[e.caseId]);
    }
  }

  lemma RepeatsMeaning(e: ReportRow, c: ReportRow)
    ensures Repeats(e, c) <==> forall f: Field :: DriftOf(f, e, c) == []
  {
    if forall f: Field :: DriftOf(f, e, c) == [] {
      assert DriftOf(Failure, e, c) == [] && DriftOf(ReviewField, e, c) == [];
      assert DriftOf(DecisionField, e, c) == [] && DriftOf(IntentField, e, c) == [] && DriftOf(RouteField, e, c) == [];
    }
  }

  lemma {:induction false} ByDistinctCaseId(rows: seq<ReportRow>, row: ReportRow)
    requires DistinctIds(rows) && row in rows
    ensures ByCaseId(rows)[row.caseId] == row
  {
    var m := ByCaseId(rows);
    assert m[row.caseId] in rows;
  }

  /**
   * A report passes against its own baseline exactly if each of its rows is repeated by the last row
   * of its case id; so it does whenever the case ids differ.
   */
  lemma AcceptanceIsReflexive(report: Report, sha: string, preset: string)
    requires FreezeBaseline(report, sha, preset).Ok?
    ensures var rows := report.results[preset];
            && (Accepted(report, sha, FreezeBaseline(report, sha, preset).value) <==>
                  forall row :: row in rows ==> Repeats(row, ByCaseId(rows)[row.caseId]))
            && (DistinctIds(rows) ==> Accepted(report, sha, FreezeBaseline(report, sha, preset).value))
  {
    hide SortCases, Accepted;
    var rows := report.results[preset];
    SortCasesSorts(rows);
    AcceptedMeaning(report, sha, FreezeBaseline(report, sha, preset).value);
    if DistinctIds(rows) {
      forall row | row in rows ensures Repeats(row, ByCaseId(rows)[row.caseId]) {
        ByDistinctCaseId(rows, row);
      }
    }
  }

  predicate Graded(row: ReportRow) { row.result in {"PASS", "REVIEW", "FAIL"} }

  /** The exact condition of acceptance, for a baseline without allowances. */
  ghost predicate Meets(report: Report, sha: string, baseline: FrozenBaseline)
    requires Comparable(report, baseline)
  {
    var preset := baseline.policy.requiredPreset;
    var current := ByCaseId(report.results[preset]);
    && report.runs[preset].passRate >= baseline.policy.minimumPassRate
    && report.runs[preset].riskPassRate >= baseline.policy.requiredRiskPassRate
    && sha == baseline.policy.csvSha256
    && forall e :: e in baseline.cases ==> e.caseId in current && Repeats(e, current[e.caseId])
  }

  lemma AcceptedIsMet(report: Report, sha: string, baseline: FrozenBaseline)
    requires Comparable(report, baseline)
    requires baseline.policy.allowedNewFailures == baseline.policy.allowedNewReviews == 0
    ensures Accepted(report, sha, baseline) <==> Meets(report, sha, baseline)
  {
    hide Accepted, ByCaseId, Repeats;
    AcceptedMeaning(report, sha, baseline);
  }

  /** A report with a run and results of the preset freezes if its case ids are there: rates, file and rows, by id. */
  lemma FrozenParts(report: Report, sha: string, preset: string)
    ensures FreezeBaseline(report, sha, preset).Ok? <==>
              && preset in report.runs && preset in report.results
              && forall row :: row in report.results[preset] ==> row.caseId != ""
    ensures FreezeBaseline(report, sha, preset).Ok? ==>
              var b := FreezeBaseline(report, sha, preset).value;
              && b.policy == Policy(sha, preset, report.runs[preset].passRate, report.runs[preset].riskPassRate, 0, 0)
              && Ascending(b.cases) && multiset(b.cases) == multiset(report.results[preset])
              && forall row :: row in b.cases <==> row in report.results[preset]
  {
    hide SortCases;
    if preset in report.results {
      SortCasesSorts(report.results[preset]);
    }
  }

  lemma MetThrough(r2: Report, s2: string, b1: FrozenBaseline, r3: Report, s3: string, b2: FrozenBaseline,
                   preset: string)
    requires b1.policy.requiredPreset == b2.policy.requiredPreset == preset
    requires Comparable(r2, b1) && Comparable(r3, b2) && Meets(r2, s2, b1) && Meets(r3, s3, b2)
    requires b2.policy.csvSha256 == s2 && b2.policy.minimumPassRate == r2.runs[preset].passRate
    requires b2.policy.requiredRiskPassRate == r2.runs[preset].riskPassRate
    requires forall row :: row in r2.results[preset] ==> row in b2.cases && Graded(row)
    ensures Meets(r3, s3, b1)
  {
    hide ByCaseId, Repeats, Graded;
    var second, third := ByCaseId(r2.results[preset]), ByCaseId(r3.results[preset]);
    forall e | e in b1.cases ensures e.caseId in third && Repeats(e, third[e.caseId]) {
      var c := second[e.caseId];
      assert c in r2.results[preset] && c in b2.cases;
      RepeatsChains(e, c, third[c.caseId]);
    }
  }

  lemma RepeatsChains(e: ReportRow, c: ReportRow, d: ReportRow)
    requires Repeats(e, c) && Repeats(c, d) && Graded(c)
    ensures Repeats(e, d)
  {
  }

  /** Acceptance chains: what passes against an accepted report passes against the first baseline. */
  lemma AcceptanceIsTransitive(r1: Report, s1: string, r2: Report, s2: string, r3: Report, s3: string, preset: string)
    requires FreezeBaseline(r1, s1, preset).Ok? && FreezeBaseline(r2, s2, preset).Ok?
    requires Accepted(r2, s2, FreezeBaseline(r1, s1, preset).value)
    requires Accepted(r3, s3, FreezeBaseline(r2, s2, preset).value)
    requires forall row :: row in r2.results[preset] ==> Graded(row)
    ensures Accepted(r3, s3, FreezeBaseline(r1, s1, preset).value)
  {
    hide FreezeBaseline, Accepted, Meets, Graded;
    var b1, b2 := FreezeBaseline(r1, s1, preset).value, FreezeBaseline(r2, s2, preset).value;
    FrozenParts(r1, s1, preset);
    FrozenParts(r2, s2, preset);
    AcceptedComparable(r2, s2, b1);
    AcceptedComparable(r3, s3, b2);
    AcceptedIsMet(r2, s2, b1);
    AcceptedIsMet(r3, s3, b2);
    AcceptedIsMet(r3, s3, b1);
    MetThrough(r2, s2, b1, r3, s3, b2, preset);
  }

  lemma AcceptedComparable(report: Report, sha: string, baseline: FrozenBaseline)
    requires Accepted(report, sha, baseline)
    ensures Comparable(report, baseline)
  {
  }

  /** The report with the result of one row of the preset replaced. */
  function Regrade(r: Report, preset: string, i: nat, result: string): Report
    requires preset in r.results && i < |r.results[preset]|
  {
    var rows := r.results[preset];
    r.(results := r.results[preset := rows[i := rows[i].(result := result)]])
  }

  /** Every case of the one report stands in the other, where it differs at most in the result of row i. */
  lemma RegradedCases(r: Report, preset: string, i: nat, sha: string, from: string, to: string)
    requires FreezeBaseline(r, sha, preset).Ok? && DistinctIds(r.results[preset]) && i < |r.results[preset]|
    requires from != "PASS" || to !in {"FAIL", "REVIEW"}
    ensures FreezeBaseline(Regrade(r, preset, i, from), sha, preset).Ok?
    ensures Accepted(Regrade(r, preset, i, to), sha, FreezeBaseline(Regrade(r, preset, i, from), sha, preset).value)
  {
    hide SortCases, ByCaseId, Accepted;
    var rows := r.results[preset];
    var frozen, later := Regrade(r, preset, i, from), Regrade(r, preset, i, to);
    var before, after := frozen.results[preset], later.results[preset];
    forall row | row in before ensures row.caseId != "" {
      var k :| 0 <= k < |before| && before[k] == row;
      assert rows[k] in rows;
    }
    var baseline := FreezeBaseline(frozen, sha, preset).value;
    SortCasesSorts(before);
    forall e | e in baseline.cases ensures e.caseId in ByCaseId(after) && Repeats(e, ByCaseId(after)[e.caseId]) {
      var k :| 0 <= k < |before| && before[k] == e;
      RegradedRow(rows, i, from, to, k);
    }
    AcceptedMeaning(later, sha, baseline);
  }

  lemma RegradeToItself(r: Report, preset: string, i: nat)
    requires preset in r.results && i < |r.results[preset]|
    ensures Regrade(r, preset, i, r.results[preset][i].result) == r
  {
    var rows := r.results[preset];
    assert rows[i := rows[i].(result := rows[i].result)] == rows;
    assert r.results[preset := rows] == r.results;
  }

  /** A case falling from PASS to FAIL is refused. */
  lemma FallenCase(r: Report, preset: string, i: nat, sha: string)
    requires preset in r.results && i < |r.results[preset]| && DistinctIds(r.results[preset])
    requires FreezeBaseline(Regrade(r, preset, i, "PASS"), sha, preset).Ok?
    ensures !Accepted(Regrade(r, preset, i, "FAIL"), sha,
                      FreezeBaseline(Regrade(r, preset, i, "PASS"), sha, preset).value)
  {
    hide SortCases, ByCaseId, Accepted;
    var r1, r3 := Regrade(r, preset, i, "PASS"), Regrade(r, preset, i, "FAIL");
    AcceptedMeaning(r3, sha, FreezeBaseline(r1, sha, preset).value);
    SortCasesSorts(r1.results[preset]);
    ByDistinctCaseId(r3.results[preset], r3.results[preset][i]);
    assert r1.results[preset][i] in r1.results[preset];
  }

  lemma RegradedRow(rows: seq<ReportRow>, i: nat, from: string, to: string, k: nat)
    requires DistinctIds(rows) && i < |rows| && k < |rows|
    requires from != "PASS" || to !in {"FAIL", "REVIEW"}
    ensures var e := rows[i := rows[i].(result := from)][k];
            var m := ByCaseId(rows[i := rows[i].(result := to)]);
            e.caseId in m && Repeats(e, m[e.caseId])
  {
    hide ByCaseId;
    var after := rows[i := rows[i].(result := to)];
    ByDistinctCaseId(after, after[k]);
  }

  /**
   * The grading condition is exact: through a report with a row of any other result, acceptance
   * does not chain. The first report has PASS there and the third FAIL.
   */
  lemma UngradedResultBreaksTheChain(r2: Report, sha: string, preset: string, i: nat)
    requires FreezeBaseline(r2, sha, preset).Ok? && DistinctIds(r2.results[preset])
    requires i < |r2.results[preset]| && !Graded(r2.results[preset][i])
    ensures var r1, r3 := Regrade(r2, preset, i, "PASS"), Regrade(r2, preset, i, "FAIL");
            && FreezeBaseline(r1, sha, preset).Ok?
            && Accepted(r2, sha, FreezeBaseline(r1, sha, preset).value)
            && Accepted(r3, sha, FreezeBaseline(r2, sha, preset).value)
            && !Accepted(r3, sha, FreezeBaseline(r1, sha, preset).value)
  {
    hide SortCases, ByCaseId, Accepted;
    var ungraded := r2.results[preset][i].result;
    RegradeToItself(r2, preset, i);
    RegradedCases(r2, preset, i, sha, "PASS", ungraded);
    RegradedCases(r2, preset, i, sha, ungraded, "FAIL");
    FallenCase(r2, preset, i, sha);
  }
}
