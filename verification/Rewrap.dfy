/**
 * One rewrap run on the two tables, as a function: which rows it picks, what becomes of each, what
 * it counts and how it ends (scripts/rewrap_raw_text.py).
 */
module Rewrap {
  import opened Wrappers
  import opened Encryption
  import opened RawText

  datatype Reason = IncompleteEnvelope | MissingKeyMaterial | ReencryptFailed

  datatype Outcome =
    | Failed(keyId: string, reason: Reason)
    | Skipped
    | WouldRewrap
    | Rewrapped(envelope: EncryptedText)

  datatype Marked = Marked(table: Table, outcome: Outcome)

  function Applied(row: Row, outcome: Outcome): Row {
    if outcome.Rewrapped? then row.(raw := Stored(outcome.envelope)) else row
  }

  /** The first selected rows, as positions in the table. */
  function Chosen(sel: Selector, rows: seq<Row>, limit: nat): (chosen: seq<nat>)
    ensures forall j :: 0 <= j < |chosen| ==> chosen[j] < |rows| && sel(rows[chosen[j]])
  {
    if rows == [] then []
    else
      var n := |rows| - 1;
      var before := Chosen(sel, rows[..n], limit);
      if sel(rows[n]) && |before| < limit then before + [n] else before
  }

  /** The parameters of a run; the n-th candidate is encrypted with the n-th draw of randomness. */
  datatype Run = Run(
    p: Primitives,
    k: Keyring,
    service: string,
    included: seq<Table>,
    dryRun: bool,
    limit: nat,
    entropy: nat -> Randomness)
  {
    ghost predicate Valid() {
      p.Correct() && k.Valid()
    }

    function Decide(row: Row, n: nat): Outcome
      requires k.Valid()
    {
      match ReadEnvelope(row.raw)
      case None =>
        var keyId := if row.raw.keyId.Some? && row.raw.keyId.value != "" then row.raw.keyId.value else "unknown";
        Failed(keyId, IncompleteEnvelope)
      case Some(e) =>
        if e.keyId == k.activeKeyId then Skipped
        else if e.keyId !in k.encryptors then Failed(e.keyId, MissingKeyMaterial)
        else if dryRun then WouldRewrap
        else
          match ReencryptEnvelope(p, k, e, entropy(n))
          case Err(_) => Failed(e.keyId, ReencryptFailed)
          case Ok(again) => Rewrapped(again)
    }

    /** The table with its chosen rows replaced. */
    function RewrapRows(sel: Selector, rows: seq<Row>, base: nat): (after: seq<Row>)
      requires k.Valid()
      ensures |after| == |rows|
    {
      if rows == [] then []
      else
        var n := |rows| - 1;
        var rank := |Chosen(sel, rows[..n], limit)|;
        RewrapRows(sel, rows[..n], base)
        + [if sel(rows[n]) && rank < limit then Applied(rows[n], Decide(rows[n], base + rank)) else rows[n]]
    }

    function Sources(store: Store): set<string> {
      SourceKeys(store, included, service, k.activeKeyId)
    }

    function Selects(t: Table, store: Store): Selector {
      Listing(t, service, Sources(store))
    }

    function ChosenIn(t: Table, store: Store): (chosen: seq<nat>)
      ensures forall j :: 0 <= j < |chosen| ==> chosen[j] < |store.Rows(t)|
    {
      if t in included then Chosen(Selects(t, store), store.Rows(t), limit) else []
    }

    function CandidateRows(t: Table, store: Store): seq<Row> {
      var chosen := ChosenIn(t, store);
      seq(|chosen|, j requires 0 <= j < |chosen| => store.Rows(t)[chosen[j]])
    }

    /** Examples come first, so the logs are numbered after them. */
    function Base(t: Table, store: Store): nat {
      if t.IntentExamples? then 0 else |ChosenIn(IntentExamples, store)|
    }

    function MarksIn(t: Table, rows: seq<Row>, base: nat): seq<Marked>
      requires k.Valid()
    {
      seq(|rows|, j requires 0 <= j < |rows| => Marked(t, Decide(rows[j], base + j)))
    }

    function TableMarks(t: Table, store: Store): seq<Marked>
      requires k.Valid()
    {
      MarksIn(t, CandidateRows(t, store), Base(t, store))
    }

    /** What became of each candidate, in the order they are visited. */
    function Marks(store: Store): seq<Marked>
      requires k.Valid()
    {
      TableMarks(IntentExamples, store) + TableMarks(RuntimeLogs, store)
    }

    function RowsAfter(t: Table, store: Store): seq<Row>
      requires k.Valid()
    {
      if t in included then RewrapRows(Selects(t, store), store.Rows(t), Base(t, store)) else store.Rows(t)
    }

    function After(store: Store): Store
      requires k.Valid()
    {
      Store(RowsAfter(IntentExamples, store), RowsAfter(RuntimeLogs, store))
    }

    function Tallied(store: Store): Tally
      requires k.Valid()
    {
      TallyOf(included, Marks(store))
    }

    function Status(store: Store): RunStatus
      requires k.Valid()
    {
      if Tallied(store).failed > 0 then CompletedWithFailures
      else if !dryRun && LegacyRemains(After(store), included, service, k.activeKeyId) then PartialRemaining
      else Completed
    }
  }

  type Failures = map<Table, map<string, map<Reason, nat>>>

  datatype RunStatus = Completed | CompletedWithFailures | PartialRemaining

  // ---------------------------------------------------------------------------
  // What a run counts
  // ---------------------------------------------------------------------------

  datatype Tally = Tally(
    scanned: nat,
    rewrapped: nat,
    skipped: nat,
    failed: nat,
    scannedByTable: map<Table, nat>,
    failures: Failures)

  function Or<K, V>(m: map<K, V>, key: K, default: V): V {
    if key in m then m[key] else default
  }

  function RecordFailure(failures: Failures, t: Table, keyId: string, reason: Reason)
    : Failures
  {
    var byKey := Or(failures, t, map[]);
    var byReason := Or(byKey, keyId, map[]);
    failures[t := byKey[keyId := byReason[reason := Or(byReason, reason, 0) + 1]]]
  }

  /** A candidate is visited. */
  function Visit(t: Tally, table: Table): Tally {
    t.(scanned := t.scanned + 1, scannedByTable := t.scannedByTable[table := Or(t.scannedByTable, table, 0) + 1])
  }

  /** And settled one way or another. */
  function Settle(t: Tally, m: Marked): Tally {
    match m.outcome
    case Failed(keyId, reason) =>
      t.(failed := t.failed + 1, failures := RecordFailure(t.failures, m.table, keyId, reason))
    case Skipped => t.(skipped := t.skipped + 1)
    case WouldRewrap => t
    case Rewrapped(_) => t.(rewrapped := t.rewrapped + 1)
  }

  function Step(t: Tally, m: Marked): Tally {
    Settle(Visit(t, m.table), m)
  }

  function NothingCounted(included: seq<Table>): Tally {
    Tally(0, 0, 0, 0, map t: Table | t in included :: 0, map[])
  }

  function TallyOf(included: seq<Table>, marks: seq<Marked>): Tally {
    if marks == [] then NothingCounted(included)
    else Step(TallyOf(included, marks[..|marks| - 1]), marks[|marks| - 1])
  }

  type Kind = Marked -> bool

  const FAILED: Kind := (m: Marked) => m.outcome.Failed?
  const SKIPPED: Kind := (m: Marked) => m.outcome.Skipped?
  const WOULD: Kind := (m: Marked) => m.outcome.WouldRewrap?
  const REWRAPPED: Kind := (m: Marked) => m.outcome.Rewrapped?

  function InTable(t: Table): Kind {
    (m: Marked) => m.table == t
  }

  function FailedAs(t: Table, keyId: string, reason: Reason): Kind {
    (m: Marked) => m.table == t && m.outcome == Failed(keyId, reason)
  }

  function CountMarks(kind: Kind, marks: seq<Marked>): nat {
    if marks == [] then 0
    else CountMarks(kind, marks[..|marks| - 1]) + if kind(marks[|marks| - 1]) then 1 else 0
  }

  lemma {:induction false} CountMarksOfSum(kind: Kind, a: seq<Marked>, b: seq<Marked>)
    ensures CountMarks(kind, a + b) == CountMarks(kind, a) + CountMarks(kind, b)
  {
    if b == [] {
      assert a + b == a;
    } else {
      CountMarksOfSum(kind, a, b[..|b| - 1]);
      assert (a + b)[..|a + b| - 1] == a + b[..|b| - 1];
    }
  }

  lemma {:induction false} CountMarksBounds(kind: Kind, marks: seq<Marked>)
    ensures CountMarks(kind, marks) <= |marks|
    ensures CountMarks(kind, marks) == 0 <==> forall m :: m in marks ==> !kind(m)
    ensures CountMarks(kind, marks) == |marks| <==> forall m :: m in marks ==> kind(m)
  {
    if marks != [] {
      var n := |marks| - 1;
      CountMarksBounds(kind, marks[..n]);
      assert forall m :: m in marks <==> m == marks[n] || m in marks[..n];
    }
  }

  /** The cell of the nested failure map, zero where it has none. */
  function Cell(failures: Failures, t: Table, keyId: string, reason: Reason): nat {
    Or(Or(Or(failures, t, map[]), keyId, map[]), reason, 0)
  }

  ghost function Sum<K>(m: map<K, nat>): nat
    decreases |m|
  {
    if m == map[] then 0
    else
      var k :| k in m;
      m[k] + Sum(m - {k})
  }

  lemma {:induction false} SumPick<K>(m: map<K, nat>, k: K)
    requires k in m
    ensures Sum(m) == m[k] + Sum(m - {k})
    decreases |m|
  {
    var other :| other in m && Sum(m) == m[other] + Sum(m - {other});
    if other != k {
      SumPick(m - {other}, k);
      SumPick(m - {k}, other);
      assert (m - {other}) - {k} == (m - {k}) - {other};
    }
  }

  lemma SumUpdate<K>(m: map<K, nat>, k: K, v: nat)
    ensures Sum(m[k := v]) == Sum(m) - Or(m, k, 0) + v
  {
    SumPick(m[k := v], k);
    assert m[k := v] - {k} == m - {k};
    if k in m {
      SumPick(m, k);
    } else {
      assert m - {k} == m;
    }
  }

  ghost function ReasonSums(byKey: map<string, map<Reason, nat>>): map<string, nat> {
    map id | id in byKey :: Sum(byKey[id])
  }

  ghost function KeySums(failures: Failures): map<Table, nat> {
    map t | t in failures :: Sum(ReasonSums(failures[t]))
  }

  /** All cells of the nested failure map added up. */
  ghost function FailureTotal(failures: Failures): nat {
    Sum(KeySums(failures))
  }

  lemma ReasonSumsUpdate(byKey: map<string, map<Reason, nat>>, id: string, byReason: map<Reason, nat>)
    ensures ReasonSums(byKey[id := byReason]) == ReasonSums(byKey)[id := Sum(byReason)]
  {
    hide Sum;
  }

  lemma KeySumsUpdate(failures: Failures, t: Table, byKey: map<string, map<Reason, nat>>)
    ensures KeySums(failures[t := byKey]) == KeySums(failures)[t := Sum(ReasonSums(byKey))]
  {
    hide Sum, ReasonSums;
  }

  lemma SumOfEmpty<K>()
    ensures Sum<K>(map[]) == 0
  {
  }

  lemma OrOfReasonSums(byKey: map<string, map<Reason, nat>>, id: string)
    ensures Or(ReasonSums(byKey), id, 0) == Sum(Or(byKey, id, map[]))
  {
    SumOfEmpty<Reason>();
  }

  lemma OrOfKeySums(failures: Failures, t: Table)
    ensures Or(KeySums(failures), t, 0) == Sum(ReasonSums(Or(failures, t, map[])))
  {
    SumOfEmpty<string>();
    assert ReasonSums(map[]) == map[];
  }

  lemma RecordFailureAddsOne(failures: Failures, t: Table, keyId: string, reason: Reason)
    ensures FailureTotal(RecordFailure(failures, t, keyId, reason)) == FailureTotal(failures) + 1
  {
    hide Sum, ReasonSums, KeySums;
    var byKey := Or(failures, t, map[]);
    var byReason := Or(byKey, keyId, map[]);
    var newReason := byReason[reason := Or(byReason, reason, 0) + 1];
    var newKey := byKey[keyId := newReason];
    SumUpdate(byReason, reason, Or(byReason, reason, 0) + 1);
    ReasonSumsUpdate(byKey, keyId, newReason);
    OrOfReasonSums(byKey, keyId);
    SumUpdate(ReasonSums(byKey), keyId, Sum(newReason));
    KeySumsUpdate(failures, t, newKey);
    OrOfKeySums(failures, t);
    SumUpdate(KeySums(failures), t, Sum(ReasonSums(newKey)));
  }

  lemma {:induction false} SumOfZeros(m: map<Table, nat>)
    requires forall t :: t in m ==> m[t] == 0
    ensures Sum(m) == 0
    decreases |m|
  {
    if m != map[] {
      var t :| t in m;
      SumPick(m, t);
      SumOfZeros(m - {t});
    }
  }

  lemma {:induction false} TallyCounts(included: seq<Table>, marks: seq<Marked>)
    ensures var t := TallyOf(included, marks);
            && t.scanned == |marks|
            && t.rewrapped == CountMarks(REWRAPPED, marks)
            && t.skipped == CountMarks(SKIPPED, marks)
            && t.failed == CountMarks(FAILED, marks)
            && t.scanned == t.rewrapped + t.skipped + t.failed + CountMarks(WOULD, marks)
  {
    hide RecordFailure;
    if marks != [] {
      TallyCounts(included, marks[..|marks| - 1]);
    }
  }

  lemma ScannedStep(t: Tally, m: Marked)
    ensures Step(t, m).scannedByTable == t.scannedByTable[m.table := Or(t.scannedByTable, m.table, 0) + 1]
  {
    hide RecordFailure;
  }

  lemma {:induction false} TallyTables(included: seq<Table>, marks: seq<Marked>)
    ensures forall x :: Or(TallyOf(included, marks).scannedByTable, x, 0) == CountMarks(InTable(x), marks)
    ensures Sum(TallyOf(included, marks).scannedByTable) == |marks|
  {
    hide Step, Sum;
    if marks == [] {
      SumOfZeros(NothingCounted(included).scannedByTable);
    } else {
      var n := |marks| - 1;
      var t, m := TallyOf(included, marks[..n]), marks[n];
      TallyTables(included, marks[..n]);
      ScannedStep(t, m);
      SumUpdate(t.scannedByTable, m.table, Or(t.scannedByTable, m.table, 0) + 1);
    }
  }

  lemma {:induction false} TallyFailures(included: seq<Table>, marks: seq<Marked>)
    ensures forall x, id, r ::
              Cell(TallyOf(included, marks).failures, x, id, r) == CountMarks(FailedAs(x, id, r), marks)
    ensures FailureTotal(TallyOf(included, marks).failures) == CountMarks(FAILED, marks)
  {
    hide FailureTotal;
    if marks == [] {
      NoFailuresNoTotal();
    } else {
      var n := |marks| - 1;
      var t, m := TallyOf(included, marks[..n]), marks[n];
      TallyFailures(included, marks[..n]);
      if m.outcome.Failed? {
        RecordFailureAddsOne(t.failures, m.table, m.outcome.keyId, m.outcome.reason);
      }
    }
  }

  lemma NoFailuresNoTotal()
    ensures FailureTotal(map[]) == 0
  {
    assert KeySums(map[]) == map[];
  }

  /**
   * The counters mean what they say, for every list of outcomes: each candidate is counted once,
   * as a whole, by table, and by what became of it; every cell of the failure map is the number of
   * candidates that failed that way, and the cells add up to the failures.
   */
  lemma TallyMeaning(included: seq<Table>, marks: seq<Marked>)
    ensures var t := TallyOf(included, marks);
            && t.scanned == |marks| == Sum(t.scannedByTable)
            && t.rewrapped == CountMarks(REWRAPPED, marks)
            && t.skipped == CountMarks(SKIPPED, marks)
            && t.failed == CountMarks(FAILED, marks) == FailureTotal(t.failures)
            && t.scanned == t.rewrapped + t.skipped + t.failed + CountMarks(WOULD, marks)
    ensures forall x :: Or(TallyOf(included, marks).scannedByTable, x, 0) == CountMarks(InTable(x), marks)
    ensures forall x, id, r ::
              Cell(TallyOf(included, marks).failures, x, id, r) == CountMarks(FailedAs(x, id, r), marks)
  {
    TallyCounts(included, marks);
    TallyTables(included, marks);
    TallyFailures(included, marks);
  }
}
