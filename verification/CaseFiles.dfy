/**
 * Reading the test cases of a run: classification files, files of the older format and risk files,
 * and the route key each expected intent has in the catalog (testing/csv_runner.py, testing/risk_pack.py).
 */
module CaseFiles {
  import opened Wrappers
  import opened Encryption
  import opened Scoring
  import opened Routing

  datatype Format = Classification | Legacy | RiskCases

  /** A line under the header: cells it lacks are absent, and it may have more than there are columns. */
  datatype Line = Line(
    overlong: bool,
    caseId: Option<string>,
    query: Option<string>,
    expectedIntent: Option<string>,
    caseType: Option<string>,
    memo: Option<string>)

  datatype Column = CaseIdColumn | QueryColumn | IntentColumn | MemoColumn

  datatype CaseError =
    | WrongColumns(row: nat)
    | Required(row: nat, column: Column)
    | Duplicate(row: nat, caseId: string)
    | UnknownType(row: nat, name: string)
    | IntentForbidden(row: nat)
    | NoCases
    | UnknownIntent(caseId: string)

  function Text(cell: Option<string>): string {
    if cell.None? then "" else Strip(cell.value)
  }

  function CaseTypeOf(name: string): Option<CaseType> {
    if name == "positive" then Some(PositiveCase)
    else if name == "confusing" then Some(ConfusingCase)
    else if name == "clarify" then Some(ClarifyCase)
    else if name == "risk" then Some(RiskCase)
    else if name == "off_topic" then Some(OffTopicCase)
    else if name == "fallback" then Some(FallbackCase)
    else None
  }

  /** The type of a line's case: what the older format says, and fixed for the others. */
  function LineType(format: Format, line: Line): Option<CaseType> {
    match format
    case Classification => Some(PositiveCase)
    case Legacy => CaseTypeOf(Text(line.caseType))
    case RiskCases => Some(RiskCase)
  }

  /** What a line needs by itself: its required cells, a known type, and an intent exactly where one is expected. */
  predicate Acceptable(format: Format, line: Line) {
    && !line.overlong
    && Text(line.caseId) != "" && Text(line.query) != "" && Text(line.memo) != ""
    && LineType(format, line).Some?
    && (format != RiskCases ==>
          (Text(line.expectedIntent) != "" <==> LineType(format, line).value in {PositiveCase, ConfusingCase}))
  }

  /** The case a line says: its cells without the blanks around them. */
  function CaseOf(format: Format, line: Line): TestCase
    requires Acceptable(format, line)
  {
    var t := LineType(format, line).value;
    TestCase(Text(line.caseId), Text(line.query), t, Text(line.memo), ExpectedDecision(t),
             if t in {PositiveCase, ConfusingCase} then Some(Text(line.expectedIntent)) else None, None)
  }

  /** One line, checked in the order in which the program does; row numbers count the header. */
  function ParseLine(format: Format, line: Line, row: nat, seen: set<string>): (r: Result<TestCase, CaseError>)
    ensures r.Ok? <==> Acceptable(format, line) && Text(line.caseId) !in seen
    ensures r.Ok? ==> r.value == CaseOf(format, line) && r.value.Valid()
    ensures r.Err? ==> !r.error.NoCases? && !r.error.UnknownIntent? && r.error.row == row
    ensures r.Err? && r.error.Duplicate? ==> r.error.caseId == Text(line.caseId) && r.error.caseId in seen
  {
    var intent := Text(line.expectedIntent);
    if line.overlong then Err(WrongColumns(row))
    else if Text(line.caseId) == "" then Err(Required(row, CaseIdColumn))
    else if Text(line.query) == "" then Err(Required(row, QueryColumn))
    else if format.Classification? && intent == "" then Err(Required(row, IntentColumn))
    else if Text(line.memo) == "" then Err(Required(row, MemoColumn))
    else if Text(line.caseId) in seen then Err(Duplicate(row, Text(line.caseId)))
    else if LineType(format, line).None? then Err(UnknownType(row, Text(line.caseType)))
    else
      var t := LineType(format, line).value;
      if format.Legacy? && t in {PositiveCase, ConfusingCase} && intent == "" then Err(Required(row, IntentColumn))
      else if format.Legacy? && t !in {PositiveCase, ConfusingCase} && intent != "" then Err(IntentForbidden(row))
      else
        var expected := if t in {PositiveCase, ConfusingCase} then Some(intent) else None;
        Ok(TestCase(Text(line.caseId), Text(line.query), t, Text(line.memo), ExpectedDecision(t), expected, None))
  }

  const DECISIONS := map["positive" := Confident, "confusing" := Confident, "clarify" := Clarify, "risk" := Risk,
                         "off_topic" := OffTopic, "fallback" := Fallback]

  /** The decision a case expects: the one its written type stands for, a route, or a refusal of a risk. */
  lemma ExpectedByType(format: Format, line: Line, row: nat, seen: set<string>)
    requires ParseLine(format, line, row, seen).Ok?
    ensures var c := ParseLine(format, line, row, seen).value;
            match format
            case Classification => c.expectedDecision == Confident
            case Legacy => Text(line.caseType) in DECISIONS && c.expectedDecision == DECISIONS[Text(line.caseType)]
            case RiskCases => c.expectedDecision == Risk
    ensures var c := ParseLine(format, line, row, seen).value;
            && c.caseId == Text(line.caseId) && c.query == Text(line.query) && c.memo == Text(line.memo)
            && c.expectedIntent == (if c.expectedDecision == Confident then Some(Text(line.expectedIntent)) else None)
            && c.expectedRouteKey == None
  {
    hide Strip;
  }

  /** The ids of the first lines. */
  function Ids(lines: seq<Line>): set<string> {
    set i | 0 <= i < |lines| :: Text(lines[i].caseId)
  }

  /** Nothing is wrong with these lines, each by itself and all together. */
  ghost predicate AllAcceptable(format: Format, lines: seq<Line>) {
    && (forall i :: 0 <= i < |lines| ==> Acceptable(format, lines[i]))
    && (forall i, j :: 0 <= i < j < |lines| ==> Text(lines[i].caseId) != Text(lines[j].caseId))
  }

  /**
   * A file is read as a whole or not at all: exactly if it has a line and nothing is wrong with any.
   * Otherwise the error is that of the first line something is wrong with.
   */
  method ParseCases(format: Format, lines: seq<Line>) returns (r: Result<seq<TestCase>, CaseError>)
    ensures r.Ok? <==> lines != [] && AllAcceptable(format, lines)
    ensures r.Ok? ==>
              && |r.value| == |lines|
              && (forall i :: 0 <= i < |lines| ==> r.value[i] == CaseOf(format, lines[i]) && r.value[i].Valid())
              && (forall i, j :: 0 <= i < j < |lines| ==> r.value[i].caseId != r.value[j].caseId)
    ensures r.Err? ==>
              if lines == [] then r.error == NoCases
              else exists i :: 0 <= i < |lines| && AllAcceptable(format, lines[..i])
                               && Err(r.error) == ParseLine(format, lines[i], i + 2, Ids(lines[..i]))
  {
    hide Strip, Acceptable, CaseOf, TestCase.Valid, AllAcceptable, Ids;
    var cases: seq<TestCase> := [];
    var seen: set<string> := {};
    NoLines(format);
    assert lines[..0] == [];
    for i := 0 to |lines|
      invariant |cases| == i && seen == Ids(lines[..i]) && AllAcceptable(format, lines[..i])
      invariant forall k :: 0 <= k < i ==>
                  Acceptable(format, lines[k]) && cases[k] == CaseOf(format, lines[k]) && cases[k].Valid()
    {
      var parsed := ParseLine(format, lines[i], i + 2, seen);
      assert lines[..i + 1] == lines[..i] + [lines[i]];
      OneMoreLine(format, lines, i);
      if parsed.Err? {
        PrefixAcceptable(format, lines, i + 1);
        return Err(parsed.error);
      }
      cases := cases + [parsed.value];
      seen := seen + {parsed.value.caseId};
    }
    assert lines[..|lines|] == lines;
    if cases == [] {
      return Err(NoCases);
    }
    CasesDiffer(format, lines, cases);
    return Ok(cases);
  }

  lemma NoLines(format: Format)
    ensures Ids([]) == {} && AllAcceptable(format, [])
  {
  }

  lemma CasesDiffer(format: Format, lines: seq<Line>, cases: seq<TestCase>)
    requires AllAcceptable(format, lines) && |cases| == |lines|
    requires forall k :: 0 <= k < |lines| ==> cases[k] == CaseOf(format, lines[k])
    ensures forall i, j :: 0 <= i < j < |cases| ==> cases[i].caseId != cases[j].caseId
  {
    hide Strip;
  }

  lemma OneMoreLine(format: Format, lines: seq<Line>, i: nat)
    requires i < |lines|
    ensures Ids(lines[..i + 1]) == Ids(lines[..i]) + {Text(lines[i].caseId)}
    ensures AllAcceptable(format, lines[..i + 1]) <==>
              && AllAcceptable(format, lines[..i])
              && Acceptable(format, lines[i]) && Text(lines[i].caseId) !in Ids(lines[..i])
  {
    hide Strip, Acceptable, Text;
    var before, after := lines[..i], lines[..i + 1];
    assert forall k :: 0 <= k < i ==> after[k] == before[k];
    assert after[i] == lines[i];
    if AllAcceptable(format, after) {
      assert forall k :: 0 <= k < i ==> Text(after[k].caseId) != Text(after[i].caseId);
    }
  }

  lemma PrefixAcceptable(format: Format, lines: seq<Line>, n: nat)
    requires n <= |lines|
    ensures AllAcceptable(format, lines) ==> AllAcceptable(format, lines[..n])
  {
    hide Strip, Acceptable, Text;
  }

  /** Whether the catalog has the intent a case expects, if it expects one. */
  predicate Known(c: TestCase, routeKeys: map<string, string>) {
    c.expectedIntent.Some? ==> c.expectedIntent.value in routeKeys
  }

  /** Fills in the route key the catalog gives each expected intent, or names the first case whose intent it lacks. */
  method HydrateExpectedRouteKeys(cases: seq<TestCase>, routeKeys: map<string, string>)
    returns (r: Result<seq<TestCase>, CaseError>)
    ensures r.Ok? <==> forall i :: 0 <= i < |cases| ==> Known(cases[i], routeKeys)
    ensures r.Ok? ==>
              && |r.value| == |cases|
              && forall i :: 0 <= i < |cases| ==>
                   r.value[i] == if cases[i].expectedIntent.None? then cases[i]
                                 else cases[i].(expectedRouteKey := Some(routeKeys[cases[i].expectedIntent.value]))
    ensures r.Err? ==>
              exists i :: 0 <= i < |cases| && !Known(cases[i], routeKeys) && r.error == UnknownIntent(cases[i].caseId)
                          && forall k :: 0 <= k < i ==> Known(cases[k], routeKeys)
  {
    var hydrated: seq<TestCase> := [];
    for i := 0 to |cases|
      invariant |hydrated| == i
      invariant forall k :: 0 <= k < i ==> Known(cases[k], routeKeys)
      invariant forall k :: 0 <= k < i ==>
                  hydrated[k] == if cases[k].expectedIntent.None? then cases[k]
                                 else cases[k].(expectedRouteKey := Some(routeKeys[cases[k].expectedIntent.value]))
    {
      var c := cases[i];
      if c.expectedIntent.None? {
        hydrated := hydrated + [c];
        continue;
      }
      if c.expectedIntent.value !in routeKeys {
        return Err(UnknownIntent(c.caseId));
      }
      hydrated := hydrated + [c.(expectedRouteKey := Some(routeKeys[c.expectedIntent.value]))];
    }
    return Ok(hydrated);
  }
}
