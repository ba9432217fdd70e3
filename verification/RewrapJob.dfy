/** The rewrap job as it runs: batches of records changed in place (scripts/rewrap_raw_text.py). */
module RewrapJob {
  import opened Wrappers
  import opened Encryption
  import opened RawText
  import opened Rewrap
  import opened RawTextRepository
  import RewrapTheorems

  datatype RewrapCandidate = ExampleCandidate(example: IntentExample) | LogCandidate(log: RuntimeLog) {

    function TableName(): Table {
      if ExampleCandidate? then IntentExamples else RuntimeLogs
    }

    function Record(): object {
      if ExampleCandidate? then example else log
    }

    function View(): Row
      reads Record()
    {
      if ExampleCandidate? then example.View() else log.View()
    }
  }

  function Records(candidates: seq<RewrapCandidate>): set<object> {
    set c | c in candidates :: c.Record()
  }

  class RewrapCounts {
    var scanned: nat
    var rewrapped: nat
    var skipped: nat
    var failed: nat
    var scannedByTable: map<Table, nat>
    var failureCounts: Failures

    constructor (included: seq<Table>)
      ensures View() == NothingCounted(included)
    {
      scanned, rewrapped, skipped, failed := 0, 0, 0, 0;
      scannedByTable := map t: Table | t in included :: 0;
      failureCounts := map[];
    }

    function View(): Tally
      reads this
    {
      Tally(scanned, rewrapped, skipped, failed, scannedByTable, failureCounts)
    }

    method RecordFailed(t: Table, keyId: string, reason: Reason)
      modifies this`failureCounts
      ensures failureCounts == RecordFailure(old(failureCounts), t, keyId, reason)
    {
      ghost var was, byKey := failureCounts, Or(failureCounts, t, map[]);
      ghost var byReason := Or(byKey, keyId, map[]);
      if t !in failureCounts {
        failureCounts := failureCounts[t := map[]];
      }
      assert failureCounts == was[t := byKey];
      assert keyId in byKey ==> byKey[keyId := byReason] == byKey;
      if keyId !in failureCounts[t] {
        failureCounts := failureCounts[t := failureCounts[t][keyId := map[]]];
      }
      assert failureCounts == was[t := byKey[keyId := byReason]];
      var keyCounts := failureCounts[t][keyId];
      var count := if reason in keyCounts then keyCounts[reason] else 0;
      failureCounts := failureCounts[t := failureCounts[t][keyId := keyCounts[reason := count + 1]]];
      assert byKey[keyId := byReason][keyId := byReason[reason := count + 1]]
             == byKey[keyId := byReason[reason := count + 1]];
    }
  }

  /** The body of the loop: one candidate, the n-th to be visited. */
  method ProcessCandidate(run: Run, counts: RewrapCounts, candidate: RewrapCandidate, n: nat)
    requires run.k.Valid() && counts != candidate.Record()
    modifies counts, candidate.Record()
    ensures var row := old(candidate.View());
            && candidate.View() == Applied(row, run.Decide(row, n))
            && counts.View() == Step(old(counts.View()), Marked(candidate.TableName(), run.Decide(row, n)))
  {
    hide Run.Decide, Applied, Settle, RewrapCandidate.View;
    counts.scanned := counts.scanned + 1;
    var t := candidate.TableName();
    counts.scannedByTable := counts.scannedByTable[t := Or(counts.scannedByTable, t, 0) + 1];
    SettleCandidate(run, counts, candidate, n);
  }

  method SettleCandidate(run: Run, counts: RewrapCounts, candidate: RewrapCandidate, n: nat)
    requires run.k.Valid() && counts != candidate.Record()
    modifies counts, candidate.Record()
    ensures var row := old(candidate.View());
            && candidate.View() == Applied(row, run.Decide(row, n))
            && counts.View() == Settle(old(counts.View()), Marked(candidate.TableName(), run.Decide(row, n)))
  {
    hide ReencryptEnvelope, RecordFailure, Stored, WellFormed;
    var t := candidate.TableName();
    var encrypted := CandidateEncryptedText(candidate);
    if encrypted.None? {
      counts.failed := counts.failed + 1;
      var keyId := CandidateKeyId(candidate);
      counts.RecordFailed(t, keyId, IncompleteEnvelope);
      return;
    }
    var e := encrypted.value;
    if e.keyId == run.k.activeKeyId {
      counts.skipped := counts.skipped + 1;
      return;
    }
    if e.keyId !in run.k.encryptors {
      counts.failed := counts.failed + 1;
      counts.RecordFailed(t, e.keyId, MissingKeyMaterial);
      return;
    }
    if run.dryRun {
      return;
    }
    var again := ReencryptEnvelope(run.p, run.k, e, run.entropy(n));
    if again.Err? {
      counts.failed := counts.failed + 1;
      counts.RecordFailed(t, e.keyId, ReencryptFailed);
      return;
    }
    ApplyCandidateEncryptedText(candidate, again.value);
    counts.rewrapped := counts.rewrapped + 1;
  }

  method ApplyCandidateEncryptedText(candidate: RewrapCandidate, e: EncryptedText)
    modifies candidate.Record()
    ensures candidate.View() == old(candidate.View()).(raw := Stored(e))
  {
    match candidate {
      case ExampleCandidate(example) => example.ApplyEncryptedText(e);
      case LogCandidate(log) => log.ApplyEncryptedQuery(e);
    }
  }

  method CandidateEncryptedText(candidate: RewrapCandidate) returns (e: Option<EncryptedText>)
    ensures e == ReadEnvelope(candidate.View().raw)
  {
    match candidate {
      case ExampleCandidate(example) => return Some(example.Envelope());
      case LogCandidate(log) => return ReadEnvelope(log.View().raw);
    }
  }

  method CandidateKeyId(candidate: RewrapCandidate) returns (keyId: string)
    requires ReadEnvelope(candidate.View().raw).None?
    ensures var stored := candidate.View().raw.keyId;
            keyId == if stored.Some? && stored.value != "" then stored.value else "unknown"
  {
    match candidate {
      case LogCandidate(log) =>
        keyId := if log.keyId.Some? && log.keyId.value != "" then log.keyId.value else "unknown";
    }
  }

  predicate DistinctRecords(candidates: seq<RewrapCandidate>) {
    forall i, j :: 0 <= i < j < |candidates| ==> candidates[i].Record() != candidates[j].Record()
  }

  /** The outcomes of candidates that now read as these rows. */
  function Outcomes(run: Run, candidates: seq<RewrapCandidate>, rows: seq<Row>): (marks: seq<Marked>)
    requires run.k.Valid() && |rows| == |candidates|
    ensures |marks| == |rows|
  {
    seq(|rows|, j requires 0 <= j < |rows| => Marked(candidates[j].TableName(), run.Decide(rows[j], j)))
  }

  function Views(candidates: seq<RewrapCandidate>): (rows: seq<Row>)
    reads Records(candidates)
    ensures |rows| == |candidates| && forall j :: 0 <= j < |rows| ==> rows[j] == candidates[j].View()
  {
    seq(|candidates|, j requires 0 <= j < |candidates| reads Records(candidates) => candidates[j].View())
  }

  /** The first n candidates are processed, the others as they were. */
  ghost predicate Done(run: Run, candidates: seq<RewrapCandidate>, rows: seq<Row>, n: nat)
    requires run.k.Valid() && |rows| == |candidates| && n <= |candidates|
    reads Records(candidates)
  {
    && (forall j :: 0 <= j < n ==> candidates[j].View() == Applied(rows[j], run.Decide(rows[j], j)))
    && (forall j :: n <= j < |candidates| ==> candidates[j].View() == rows[j])
  }

  /** Done, and counted: the outcomes of the first n candidates are in the counters. */
  ghost predicate Counted(run: Run, counts: RewrapCounts, candidates: seq<RewrapCandidate>, rows: seq<Row>, n: nat)
    requires run.k.Valid() && |rows| == |candidates| && n <= |candidates|
    reads counts, Records(candidates)
  {
    && counts !in Records(candidates)
    && Done(run, candidates, rows, n)
    && counts.View() == TallyOf(run.included, Outcomes(run, candidates, rows)[..n])
  }

  lemma NextTally(run: Run, candidates: seq<RewrapCandidate>, rows: seq<Row>, n: nat)
    requires run.k.Valid() && |rows| == |candidates| && n < |rows|
    ensures var marks := Outcomes(run, candidates, rows);
            TallyOf(run.included, marks[..n + 1]) ==
            Step(TallyOf(run.included, marks[..n]), Marked(candidates[n].TableName(), run.Decide(rows[n], n)))
  {
    hide Run.Decide, Step;
    var marks := Outcomes(run, candidates, rows);
    assert marks[..n + 1][..n] == marks[..n];
  }

  method ProcessNext(run: Run, counts: RewrapCounts, candidates: seq<RewrapCandidate>, ghost rows: seq<Row>,
                     candidate: RewrapCandidate, n: nat)
    requires run.k.Valid() && DistinctRecords(candidates) && |rows| == |candidates|
    requires n < |candidates| && candidates[n] == candidate
    requires Counted(run, counts, candidates, rows, n)
    modifies counts, Records(candidates)
    ensures Counted(run, counts, candidates, rows, n + 1)
  {
    hide Run.Decide, Applied, Step, RewrapCandidate.View, TallyOf, Outcomes;
    assert candidate.Record() in Records(candidates);
    NextTally(run, candidates, rows, n);
    ProcessCandidate(run, counts, candidate, n);
    forall j | 0 <= j < |candidates| && j != n ensures candidates[j].View() == old(candidates[j].View()) {
      assert candidates[j].Record() != candidate.Record() && candidates[j].Record() in Records(candidates);
    }
  }

  /** One batch, the candidates from position start on. */
  method ProcessBatch(run: Run, counts: RewrapCounts, candidates: seq<RewrapCandidate>, ghost rows: seq<Row>,
                      batch: seq<RewrapCandidate>, start: nat)
    requires run.k.Valid() && DistinctRecords(candidates) && |rows| == |candidates|
    requires start + |batch| <= |candidates| && candidates[start..start + |batch|] == batch
    requires Counted(run, counts, candidates, rows, start)
    modifies counts, Records(candidates)
    ensures Counted(run, counts, candidates, rows, start + |batch|)
  {
    hide Counted;
    for i := 0 to |batch|
      invariant Counted(run, counts, candidates, rows, start + i)
    {
      assert candidates[start + i] == batch[i];
      ProcessNext(run, counts, candidates, rows, batch[i], start + i);
    }
  }

  /** Batch by batch, every candidate is visited once, in order. */
  method ProcessCandidates(run: Run, candidates: seq<RewrapCandidate>, batchSize: nat) returns (counts: RewrapCounts)
    requires run.k.Valid() && batchSize >= 1 && DistinctRecords(candidates)
    modifies Records(candidates)
    ensures fresh(counts)
    ensures Done(run, candidates, old(Views(candidates)), |candidates|)
    ensures counts.View() == TallyOf(run.included, Outcomes(run, candidates, old(Views(candidates))))
  {
    hide Run.Decide, Applied, Step, RewrapCandidate.View;
    ghost var rows := Views(candidates);
    counts := new RewrapCounts(run.included);
    var start: nat, end: nat := 0, 0;
    while start < |candidates|
      invariant end == if start < |candidates| then start else |candidates|
      invariant fresh(counts)
      invariant Counted(run, counts, candidates, rows, end)
    {
      hide Counted;
      end := if start + batchSize < |candidates| then start + batchSize else |candidates|;
      ProcessBatch(run, counts, candidates, rows, candidates[start..end], start);
      start := start + batchSize;
    }
    assert Outcomes(run, candidates, rows)[..|candidates|] == Outcomes(run, candidates, rows);
  }

  // ---------------------------------------------------------------------------
  // The whole run
  // ---------------------------------------------------------------------------

  function AsExamples(records: seq<IntentExample>): seq<RewrapCandidate> {
    seq(|records|, j requires 0 <= j < |records| => ExampleCandidate(records[j]))
  }

  function AsLogs(records: seq<RuntimeLog>): seq<RewrapCandidate> {
    seq(|records|, j requires 0 <= j < |records| => LogCandidate(records[j]))
  }

  function Candidates(examples: seq<IntentExample>, logs: seq<RuntimeLog>): (candidates: seq<RewrapCandidate>)
    ensures |candidates| == |examples| + |logs|
    ensures forall j :: 0 <= j < |examples| ==> candidates[j] == ExampleCandidate(examples[j])
    ensures forall j :: 0 <= j < |logs| ==> candidates[|examples| + j] == LogCandidate(logs[j])
  {
    AsExamples(examples) + AsLogs(logs)
  }

  lemma CandidatesAreDistinct(examples: seq<IntentExample>, logs: seq<RuntimeLog>)
    requires Distinct(examples) && Distinct(logs)
    ensures DistinctRecords(Candidates(examples, logs))
  {
    var candidates, n := Candidates(examples, logs), |examples|;
    forall i, j | 0 <= i < j < |candidates| ensures candidates[i].Record() != candidates[j].Record() {
      if j < n {
        assert candidates[i] == ExampleCandidate(examples[i]) && candidates[j] == ExampleCandidate(examples[j]);
      } else if i < n {
        assert candidates[i] == ExampleCandidate(examples[i]) && candidates[j] == LogCandidate(logs[j - n]);
      } else {
        assert candidates[i] == LogCandidate(logs[i - n]) && candidates[j] == LogCandidate(logs[j - n]);
      }
    }
  }

  lemma {:induction false} ChosenOfNone(sel: Selector, rows: seq<Row>, limit: nat)
    requires forall row :: !sel(row)
    ensures Chosen(sel, rows, limit) == []
  {
    if rows != [] {
      ChosenOfNone(sel, rows[..|rows| - 1], limit);
    }
  }

  lemma NoSourcesNoneChosen(run: Run, store: Store, t: Table)
    requires run.Sources(store) == {}
    ensures run.ChosenIn(t, store) == []
  {
    ChosenOfNone(run.Selects(t, store), store.Rows(t), run.limit);
  }

  method ListExamples(run: Run, repository: Repository) returns (found: seq<IntentExample>)
    requires repository.Valid()
    ensures found == Pick(repository.examples, run.ChosenIn(IntentExamples, repository.View())) && Distinct(found)
  {
    hide Chosen, SourceKeys, ListedForRewrap;
    if IntentExamples !in run.included {
      return [];
    }
    found := repository.ListIntentExamplesForRewrap(run.service, run.Sources(repository.View()), run.limit);
  }

  method ListLogs(run: Run, repository: Repository) returns (found: seq<RuntimeLog>)
    requires repository.Valid()
    ensures found == Pick(repository.logs, run.ChosenIn(RuntimeLogs, repository.View())) && Distinct(found)
  {
    hide Chosen, SourceKeys, ListedForRewrap;
    if RuntimeLogs !in run.included {
      return [];
    }
    found := repository.ListRuntimeLogsForRewrap(run.service, run.Sources(repository.View()), run.limit);
  }

  /** The records of the rows the run is specified to choose. */
  method ListCandidates(run: Run, repository: Repository)
    returns (candidates: seq<RewrapCandidate>, ghost examples: seq<IntentExample>, ghost logs: seq<RuntimeLog>)
    requires repository.Valid()
    ensures examples == Pick(repository.examples, run.ChosenIn(IntentExamples, repository.View()))
    ensures logs == Pick(repository.logs, run.ChosenIn(RuntimeLogs, repository.View()))
    ensures candidates == Candidates(examples, logs) && DistinctRecords(candidates)
  {
    hide Run.ChosenIn, Run.Sources, DistinctRecords;
    if run.Sources(repository.View()) == {} {
      NoSourcesNoneChosen(run, repository.View(), IntentExamples);
      NoSourcesNoneChosen(run, repository.View(), RuntimeLogs);
      candidates, examples, logs := [], [], [];
    } else {
      var foundExamples := ListExamples(run, repository);
      var foundLogs := ListLogs(run, repository);
      candidates, examples, logs := Candidates(foundExamples, foundLogs), foundExamples, foundLogs;
    }
    CandidatesAreDistinct(examples, logs);
  }

  /** The chosen rows of a table, each with its outcome applied. */
  function ChosenAfter(run: Run, t: Table, store: Store): (after: seq<Row>)
    requires run.k.Valid()
    ensures |after| == |run.ChosenIn(t, store)|
  {
    var chosen := run.ChosenIn(t, store);
    seq(|chosen|, j requires 0 <= j < |chosen| =>
      Applied(store.Rows(t)[chosen[j]], run.Decide(store.Rows(t)[chosen[j]], run.Base(t, store) + j)))
  }

  /** What the specification says of a table, position by position, determines it. */
  lemma RowsAfterMeaning(run: Run, t: Table, store: Store, after: seq<Row>)
    requires run.k.Valid()
    requires ReadsAs(after, run.ChosenIn(t, store), ChosenAfter(run, t, store), store.Rows(t))
    ensures after == run.RowsAfter(t, store)
  {
    hide Run.Decide, Applied, Run.RewrapRows, Run.Base, Run.Selects, Chosen, Store.Rows, ChosenAfter;
    var chosen, rows := run.ChosenIn(t, store), store.Rows(t);
    var spec := run.RowsAfter(t, store);
    SpecReadsAs(run, t, store);
    forall i | 0 <= i < |rows| ensures after[i] == spec[i] {
      if i in chosen {
        var j :| 0 <= j < |chosen| && chosen[j] == i;
        assert after[chosen[j]] == spec[chosen[j]];
      }
    }
  }

  lemma SpecReadsAs(run: Run, t: Table, store: Store)
    requires run.k.Valid()
    ensures ReadsAs(run.RowsAfter(t, store), run.ChosenIn(t, store), ChosenAfter(run, t, store), store.Rows(t))
  {
    hide Run.Decide, Applied, Run.RewrapRows, Run.Base, Run.Selects, Chosen, Store.Rows;
    var chosen, expected, after, rows := run.ChosenIn(t, store), ChosenAfter(run, t, store), run.RowsAfter(t, store),
      store.Rows(t);
    if t in run.included {
      RewrapTheorems.RewrapRowsAt(run, run.Selects(t, store), rows, run.Base(t, store));
      forall j | 0 <= j < |chosen| ensures chosen[j] < |after| && after[chosen[j]] == expected[j] {
        assert chosen == Chosen(run.Selects(t, store), rows, run.limit);
        assert expected[j] == Applied(rows[chosen[j]], run.Decide(rows[chosen[j]], run.Base(t, store) + j));
        assert after == run.RewrapRows(run.Selects(t, store), rows, run.Base(t, store));
      }
    }
  }

  /** The candidates from a position on read as these rows. */
  ghost predicate Settled(candidates: seq<RewrapCandidate>, base: nat, expected: seq<Row>)
    reads Records(candidates)
  {
    base + |expected| <= |candidates| && forall j :: 0 <= j < |expected| ==> candidates[base + j].View() == expected[j]
  }

  /** The chosen rows are as expected, the others as before. */
  predicate ReadsAs(after: seq<Row>, chosen: seq<nat>, expected: seq<Row>, rows: seq<Row>) {
    && |after| == |rows| && |expected| == |chosen|
    && (forall j :: 0 <= j < |chosen| ==> chosen[j] < |after| && after[chosen[j]] == expected[j])
    && (forall i :: 0 <= i < |rows| && i !in chosen ==> after[i] == rows[i])
  }

  /** These rows are, from a position on, the chosen ones of a table. */
  predicate Lists(rows: seq<Row>, base: nat, table: seq<Row>, chosen: seq<nat>) {
    && base + |chosen| <= |rows|
    && forall j :: 0 <= j < |chosen| ==> chosen[j] < |table| && rows[base + j] == table[chosen[j]]
  }

  /** Records that are not among the candidates read as before. */
  ghost predicate OtherExamplesStay(records: seq<IntentExample>, candidates: seq<RewrapCandidate>, rows: seq<Row>)
    reads records
  {
    |records| == |rows| && forall i :: 0 <= i < |records| && records[i] !in Records(candidates) ==>
        records[i].View() == rows[i]
  }

  ghost predicate OtherLogsStay(records: seq<RuntimeLog>, candidates: seq<RewrapCandidate>, rows: seq<Row>)
    reads records
  {
    |records| == |rows| && forall i :: 0 <= i < |records| && records[i] !in Records(candidates) ==>
        records[i].View() == rows[i]
  }

  /** Processed candidates of a table read as its chosen rows after the run. */
  lemma DoneIsChosenAfter(run: Run, t: Table, store: Store, candidates: seq<RewrapCandidate>, rows: seq<Row>)
    requires run.k.Valid() && |rows| == |candidates| && Done(run, candidates, rows, |rows|)
    requires Lists(rows, run.Base(t, store), store.Rows(t), run.ChosenIn(t, store))
    ensures Settled(candidates, run.Base(t, store), ChosenAfter(run, t, store))
  {
    hide Run.ChosenIn, Run.Decide, Applied, RewrapCandidate.View, Run.Base;
  }

  /** A record whose row is not chosen is no candidate. */
  lemma UnchosenExample(examples: seq<IntentExample>, chosen: seq<nat>, logs: seq<RuntimeLog>, i: nat)
    requires Distinct(examples) && i < |examples| && i !in chosen
    requires forall j :: 0 <= j < |chosen| ==> chosen[j] < |examples|
    ensures examples[i] !in Records(Candidates(Pick(examples, chosen), logs))
  {
    var picked := Pick(examples, chosen);
    forall c | c in Candidates(picked, logs) ensures c.Record() != examples[i] {
      var j :| 0 <= j < |picked| + |logs| && Candidates(picked, logs)[j] == c;
      if j < |picked| {
        assert c == ExampleCandidate(examples[chosen[j]]);
      } else {
        assert c == LogCandidate(logs[j - |picked|]);
      }
    }
  }

  lemma UnchosenLog(logs: seq<RuntimeLog>, chosen: seq<nat>, examples: seq<IntentExample>, i: nat)
    requires Distinct(logs) && i < |logs| && i !in chosen
    requires forall j :: 0 <= j < |chosen| ==> chosen[j] < |logs|
    ensures logs[i] !in Records(Candidates(examples, Pick(logs, chosen)))
  {
    var picked := Pick(logs, chosen);
    forall c | c in Candidates(examples, picked) ensures c.Record() != logs[i] {
      var j :| 0 <= j < |examples| + |picked| && Candidates(examples, picked)[j] == c;
      if j < |examples| {
        assert c == ExampleCandidate(examples[j]);
      } else {
        assert c == LogCandidate(logs[chosen[j - |examples|]]);
      }
    }
  }

  /** Candidates that read as the chosen rows have the outcomes the run is specified to have. */
  lemma OutcomesAreMarks(run: Run, store: Store, candidates: seq<RewrapCandidate>, rows: seq<Row>, n: nat)
    requires run.k.Valid() && |rows| == |candidates| && n <= |rows| && n == |run.ChosenIn(IntentExamples, store)|
    requires rows == run.CandidateRows(IntentExamples, store) + run.CandidateRows(RuntimeLogs, store)
    requires forall j :: 0 <= j < |rows| ==> candidates[j].TableName() == if j < n then IntentExamples else RuntimeLogs
    ensures Outcomes(run, candidates, rows) == run.Marks(store)
  {
    hide Run.ChosenIn, Run.Decide;
    var outcomes, marks := Outcomes(run, candidates, rows), run.Marks(store);
    forall j | 0 <= j < |rows| ensures outcomes[j] == marks[j] {
      if j >= n {
        assert marks[j] == run.TableMarks(RuntimeLogs, store)[j - n];
      }
    }
  }

  ghost function Listed(run: Run, repository: Repository): seq<RewrapCandidate>
    reads repository, repository.examples, repository.logs
  {
    var store := repository.View();
    Candidates(Pick(repository.examples, run.ChosenIn(IntentExamples, store)),
               Pick(repository.logs, run.ChosenIn(RuntimeLogs, store)))
  }

  lemma ListedRecords(run: Run, repository: Repository)
    ensures forall r :: r in Records(Listed(run, repository)) ==> r in repository.examples || r in repository.logs
  {
    hide Run.ChosenIn, Pick, Candidates, IntentExample.View, RuntimeLog.View;
    var store := repository.View();
    var chosen, chosenLogs := run.ChosenIn(IntentExamples, store), run.ChosenIn(RuntimeLogs, store);
    var listed, n := Listed(run, repository), |chosen|;
    forall c | c in listed ensures c.Record() in repository.examples || c.Record() in repository.logs {
      var j :| 0 <= j < |listed| && listed[j] == c;
      if j < n {
        assert c == ExampleCandidate(repository.examples[chosen[j]]);
      } else {
        assert c == LogCandidate(repository.logs[chosenLogs[j - n]]);
      }
    }
  }

  lemma ListedViews(run: Run, repository: Repository)
    ensures var store := repository.View();
            Views(Listed(run, repository))
            == run.CandidateRows(IntentExamples, store) + run.CandidateRows(RuntimeLogs, store)
    ensures |Listed(run, repository)| ==
            |run.ChosenIn(IntentExamples, repository.View())| + |run.ChosenIn(RuntimeLogs, repository.View())|
    ensures forall j :: 0 <= j < |Listed(run, repository)| ==>
              Listed(run, repository)[j].TableName()
              == if j < |run.ChosenIn(IntentExamples, repository.View())| then IntentExamples else RuntimeLogs
  {
    hide Run.ChosenIn, Pick, Candidates, IntentExample.View, RuntimeLog.View;
    var store := repository.View();
    var chosen, chosenLogs := run.ChosenIn(IntentExamples, store), run.ChosenIn(RuntimeLogs, store);
    var listed, n := Listed(run, repository), |chosen|;
    var spec := run.CandidateRows(IntentExamples, store) + run.CandidateRows(RuntimeLogs, store);
    forall j | 0 <= j < |listed|
      ensures listed[j].View() == spec[j] && listed[j].TableName() == if j < n then IntentExamples else RuntimeLogs
    {
      if j < n {
        assert listed[j] == ExampleCandidate(repository.examples[chosen[j]]);
      } else {
        assert listed[j] == LogCandidate(repository.logs[chosenLogs[j - n]]);
      }
    }
  }

  /** What the candidates read as is what their records read as, position by position. */
  lemma ExamplesAt(records: seq<IntentExample>, chosen: seq<nat>, logs: seq<RuntimeLog>, rows: seq<Row>,
                   expected: seq<Row>)
    requires Distinct(records) && |expected| == |chosen|
    requires forall j :: 0 <= j < |chosen| ==> chosen[j] < |records|
    requires Settled(Candidates(Pick(records, chosen), logs), 0, expected)
    requires OtherExamplesStay(records, Candidates(Pick(records, chosen), logs), rows)
    ensures ReadsAs(ExampleViews(records), chosen, expected, rows)
  {
    hide IntentExample.View, Records, Distinct, ExampleViews, Candidates, Pick;
    var after := ExampleViews(records);
    forall j | 0 <= j < |chosen| ensures after[chosen[j]] == expected[j] {
      assert Candidates(Pick(records, chosen), logs)[0 + j].View() == expected[j];
      assert Candidates(Pick(records, chosen), logs)[j] == ExampleCandidate(records[chosen[j]]);
    }
    forall i | 0 <= i < |records| && i !in chosen ensures after[i] == rows[i] {
      UnchosenExample(records, chosen, logs, i);
    }
  }

  lemma LogsAt(records: seq<RuntimeLog>, chosen: seq<nat>, examples: seq<IntentExample>, rows: seq<Row>,
               expected: seq<Row>)
    requires Distinct(records) && |expected| == |chosen|
    requires forall j :: 0 <= j < |chosen| ==> chosen[j] < |records|
    requires Settled(Candidates(examples, Pick(records, chosen)), |examples|, expected)
    requires OtherLogsStay(records, Candidates(examples, Pick(records, chosen)), rows)
    ensures ReadsAs(LogViews(records), chosen, expected, rows)
  {
    hide RuntimeLog.View, Records, Distinct, LogViews, Candidates, Pick;
    var after := LogViews(records);
    forall j | 0 <= j < |chosen| ensures after[chosen[j]] == expected[j] {
      assert Candidates(examples, Pick(records, chosen))[|examples| + j] == LogCandidate(records[chosen[j]]);
    }
    forall i | 0 <= i < |records| && i !in chosen ensures after[i] == rows[i] {
      UnchosenLog(records, chosen, examples, i);
    }
  }

  /** Candidates done and other examples left alone, the table is what the run is to make of it. */
  lemma ExamplesAfter(run: Run, store: Store, records: seq<IntentExample>, logs: seq<RuntimeLog>, rows: seq<Row>)
    requires run.k.Valid() && Distinct(records) && |records| == |store.examples|
    requires |rows| == |run.ChosenIn(IntentExamples, store)| + |logs|
    requires Lists(rows, 0, store.examples, run.ChosenIn(IntentExamples, store))
    requires Done(run, Candidates(Pick(records, run.ChosenIn(IntentExamples, store)), logs), rows, |rows|)
    requires OtherExamplesStay(records, Candidates(Pick(records, run.ChosenIn(IntentExamples, store)), logs),
                               store.examples)
    ensures ExampleViews(records) == run.RowsAfter(IntentExamples, store)
  {
    hide Run.ChosenIn, ChosenAfter, IntentExample.View, Records, Run.RowsAfter, Distinct, Candidates, Pick, Done,
      Settled, ReadsAs, ExampleViews, Lists, OtherExamplesStay;
    var chosen := run.ChosenIn(IntentExamples, store);
    DoneIsChosenAfter(run, IntentExamples, store, Candidates(Pick(records, chosen), logs), rows);
    ExamplesAt(records, chosen, logs, store.examples, ChosenAfter(run, IntentExamples, store));
    RowsAfterMeaning(run, IntentExamples, store, ExampleViews(records));
  }

  lemma LogsAfter(run: Run, store: Store, records: seq<RuntimeLog>, examples: seq<IntentExample>, rows: seq<Row>)
    requires run.k.Valid() && Distinct(records) && |records| == |store.logs|
    requires |examples| == run.Base(RuntimeLogs, store)
    requires |rows| == |examples| + |run.ChosenIn(RuntimeLogs, store)|
    requires Lists(rows, |examples|, store.logs, run.ChosenIn(RuntimeLogs, store))
    requires Done(run, Candidates(examples, Pick(records, run.ChosenIn(RuntimeLogs, store))), rows, |rows|)
    requires OtherLogsStay(records, Candidates(examples, Pick(records, run.ChosenIn(RuntimeLogs, store))), store.logs)
    ensures LogViews(records) == run.RowsAfter(RuntimeLogs, store)
  {
    hide Run.ChosenIn, ChosenAfter, RuntimeLog.View, Records, Run.RowsAfter, Distinct, Candidates, Pick, Done, Run.Base,
      Settled, ReadsAs, LogViews, Lists, OtherLogsStay;
    var chosen := run.ChosenIn(RuntimeLogs, store);
    DoneIsChosenAfter(run, RuntimeLogs, store, Candidates(examples, Pick(records, chosen)), rows);
    LogsAt(records, chosen, examples, store.logs, ChosenAfter(run, RuntimeLogs, store));
    RowsAfterMeaning(run, RuntimeLogs, store, LogViews(records));
  }

  lemma ListedRows(run: Run, store: Store, rows: seq<Row>)
    requires rows == run.CandidateRows(IntentExamples, store) + run.CandidateRows(RuntimeLogs, store)
    ensures var chosen, chosenLogs := run.ChosenIn(IntentExamples, store), run.ChosenIn(RuntimeLogs, store);
            && |rows| == |chosen| + |chosenLogs|
            && Lists(rows, 0, store.examples, chosen) && Lists(rows, |chosen|, store.logs, chosenLogs)
  {
    hide Run.ChosenIn;
  }

  /** Lists and processes: tables and counters become what the run is specified to make of them. */
  method RewrapTables(run: Run, repository: Repository, batchSize: nat) returns (counts: RewrapCounts)
    requires run.k.Valid() && repository.Valid() && batchSize >= 1
    modifies repository.examples, repository.logs
    ensures fresh(counts)
    ensures repository.View() == run.After(old(repository.View()))
    ensures counts.View() == run.Tallied(old(repository.View()))
  {
    hide Run.ChosenIn, Run.Decide, Applied, DistinctRecords, TallyOf, IntentExample.View, RuntimeLog.View,
      Run.RewrapRows, Records, Run.CandidateRows, Outcomes, Run.RowsAfter, Run.Selects, Chosen, Run.Marks, Views, Pick,
      Candidates, Done, Lists;
    ghost var store := repository.View();
    var candidates, examples, logs := ListCandidates(run, repository);
    ghost var rows := Views(candidates);
    assert candidates == Listed(run, repository);
    ListedRecords(run, repository);
    ListedViews(run, repository);
    ListedRows(run, store, rows);
    OutcomesAreMarks(run, store, candidates, rows, |examples|);
    counts := ProcessCandidates(run, candidates, batchSize);
    ExamplesAfter(run, store, repository.examples, logs, rows);
    LogsAfter(run, store, repository.logs, examples, rows);
  }

  datatype RewrapError = NoTables | BadBatchSize | BadLimit | ApprovalRequired

  datatype RewrapReport = RewrapReport(
    status: RunStatus,
    targetKeyId: string,
    sourceKeyIds: set<string>,
    before: map<Table, map<string, nat>>,
    after: map<Table, map<string, nat>>,
    tally: Tally)

  function KeyCountsByTable(store: Store, included: seq<Table>, service: string): map<Table, map<string, nat>> {
    map t: Table | t in included :: KeyCounts(t, store.Rows(t), service)
  }

  function ReportOf(run: Run, store: Store): RewrapReport
    requires run.k.Valid()
  {
    RewrapReport(run.Status(store), run.k.activeKeyId, run.Sources(store),
                 KeyCountsByTable(store, run.included, run.service),
                 KeyCountsByTable(run.After(store), run.included, run.service),
                 run.Tallied(store))
  }

  function Refusal(included: seq<Table>, batchSize: int, limit: int, dryRun: bool, approvalId: Option<string>)
    : Option<RewrapError>
  {
    if included == [] then Some(NoTables)
    else if batchSize < 1 then Some(BadBatchSize)
    else if limit < 1 then Some(BadLimit)
    else if !dryRun && approvalId.None? then Some(ApprovalRequired)
    else None
  }

  /** An accepted run: the tables, the report, and the stored record of the run. */
  method RunAccepted(run: Run, repository: Repository, batchSize: nat) returns (report: RewrapReport)
    requires run.k.Valid() && repository.Valid() && batchSize >= 1
    modifies repository`rewrapRuns, repository.examples, repository.logs
    ensures report == ReportOf(run, old(repository.View()))
    ensures repository.View() == run.After(old(repository.View()))
    ensures repository.rewrapRuns == old(repository.rewrapRuns)
              + [RewrapRun(run.service, run.k.activeKeyId, report.sourceKeyIds, run.dryRun, Some(report.status),
                           report.tally)]
  {
    hide Run.After, Run.Tallied, Run.Sources, KeyCountsByTable, LegacyRemains, IntentExample.View, RuntimeLog.View,
      ExampleViews, LogViews, Distinct;
    ghost var store := repository.View();
    var sources := run.Sources(repository.View());
    var before := KeyCountsByTable(repository.View(), run.included, run.service);
    repository.rewrapRuns := repository.rewrapRuns
      + [RewrapRun(run.service, run.k.activeKeyId, sources, run.dryRun, None, NothingCounted(run.included))];
    var counts := RewrapTables(run, repository, batchSize);
    var after := KeyCountsByTable(repository.View(), run.included, run.service);
    var status :=
      if counts.failed > 0 then CompletedWithFailures
      else if !run.dryRun && LegacyRemains(repository.View(), run.included, run.service, run.k.activeKeyId)
      then PartialRemaining
      else Completed;
    var tally, n := counts.View(), |repository.rewrapRuns| - 1;
    repository.rewrapRuns := repository.rewrapRuns[
      n := RewrapRun(run.service, run.k.activeKeyId, sources, run.dryRun, Some(status), tally)];
    report := RewrapReport(status, run.k.activeKeyId, sources, before, after, tally);
  }

  /** A rewrap run: a refused one changes nothing, any other leaves exactly what it is specified to. */
  method RunRawTextRewrap(repository: Repository, p: Primitives, k: Keyring, service: string, actorId: string,
                          included: seq<Table>, dryRun: bool, approvalId: Option<string>,
                          batchSize: int, limit: int, entropy: nat -> Randomness, now: int)
    returns (r: Result<RewrapReport, RewrapError>)
    requires repository.Valid() && k.Valid()
    modifies repository`rewrapRuns, repository`auditLogs, repository.examples, repository.logs
    ensures Refusal(included, batchSize, limit, dryRun, approvalId).Some? ==>
              && r == Err(Refusal(included, batchSize, limit, dryRun, approvalId).value)
              && repository.View() == old(repository.View())
              && repository.rewrapRuns == old(repository.rewrapRuns)
              && repository.auditLogs == old(repository.auditLogs)
    ensures Refusal(included, batchSize, limit, dryRun, approvalId).None? ==>
              var run := Run(p, k, service, included, dryRun, limit, entropy);
              var report := ReportOf(run, old(repository.View()));
              && r == Ok(report)
              && repository.View() == run.After(old(repository.View()))
              && repository.rewrapRuns == old(repository.rewrapRuns)
                 + [RewrapRun(service, k.activeKeyId, report.sourceKeyIds, dryRun, Some(report.status), report.tally)]
              && repository.auditLogs == old(repository.auditLogs)
                 + if dryRun then []
                   else [AuditLog("raw_text.rewrap.executed", actorId, service, "raw_text_rewrap_run", now)]
  {
    hide Run.After, ReportOf, IntentExample.View, RuntimeLog.View, ExampleViews, LogViews, Repository.Valid;
    if included == [] {
      return Err(NoTables);
    }
    if batchSize < 1 {
      return Err(BadBatchSize);
    }
    if limit < 1 {
      return Err(BadLimit);
    }
    if !dryRun && approvalId.None? {
      return Err(ApprovalRequired);
    }
    var run := Run(p, k, service, included, dryRun, limit, entropy);
    var report := RunAccepted(run, repository, batchSize);
    if !dryRun {
      repository.auditLogs := repository.auditLogs
        + [AuditLog("raw_text.rewrap.executed", actorId, service, "raw_text_rewrap_run", now)];
    }
    return Ok(report);
  }
}
