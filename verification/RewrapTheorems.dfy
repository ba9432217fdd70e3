/** What rewrap runs keep, when they end "completed", and what they are for: retiring legacy keys. */
module RewrapTheorems {
  import opened Wrappers
  import opened Encryption
  import opened RawText
  import opened Rewrap

  function Min(a: nat, b: nat): nat { if a < b then a else b }

  // ---------------------------------------------------------------------------
  // One table
  // ---------------------------------------------------------------------------

  function Picked(sel: Selector, rows: seq<Row>, limit: nat): seq<Row> {
    var chosen := Chosen(sel, rows, limit);
    seq(|chosen|, j requires 0 <= j < |chosen| => rows[chosen[j]])
  }

  lemma {:induction false} ChosenIsFirst(sel: Selector, rows: seq<Row>, limit: nat)
    ensures |Chosen(sel, rows, limit)| == Min(limit, CountRows(sel, rows))
    ensures forall i, j :: 0 <= i < j < |Chosen(sel, rows, limit)| ==>
              Chosen(sel, rows, limit)[i] < Chosen(sel, rows, limit)[j]
  {
    if rows != [] {
      ChosenIsFirst(sel, rows[..|rows| - 1], limit);
    }
  }

  /** No selected row before a chosen one is left out. */
  lemma {:induction false} ChosenLeavesNoneOut(sel: Selector, rows: seq<Row>, limit: nat, i: nat, j: nat)
    requires i < j < |rows| && sel(rows[i]) && j in Chosen(sel, rows, limit)
    ensures i in Chosen(sel, rows, limit)
  {
    var n := |rows| - 1;
    if j < n {
      ChosenLeavesNoneOut(sel, rows[..n], limit, i, j);
    } else {
      ChosenBelowLimit(sel, rows[..n], limit);
    }
  }

  /** While the limit is not reached, nothing selected is left out. */
  lemma {:induction false} ChosenBelowLimit(sel: Selector, rows: seq<Row>, limit: nat)
    requires |Chosen(sel, rows, limit)| < limit
    ensures forall i :: 0 <= i < |rows| && sel(rows[i]) ==> i in Chosen(sel, rows, limit)
  {
    if rows != [] {
      ChosenBelowLimit(sel, rows[..|rows| - 1], limit);
    }
  }

  /** Where the limit is not reached, every selected row is chosen. */
  lemma {:induction false} ChosenIsAll(sel: Selector, rows: seq<Row>, limit: nat)
    requires CountRows(sel, rows) <= limit
    ensures forall i :: 0 <= i < |rows| && sel(rows[i]) ==> i in Chosen(sel, rows, limit)
  {
    if rows != [] {
      ChosenIsAll(sel, rows[..|rows| - 1], limit);
      ChosenIsFirst(sel, rows[..|rows| - 1], limit);
    }
  }

  lemma {:induction false} PickedStep(sel: Selector, rows: seq<Row>, limit: nat)
    requires rows != []
    ensures var n := |rows| - 1;
            var before := Picked(sel, rows[..n], limit);
            && |before| == |Chosen(sel, rows[..n], limit)|
            && Picked(sel, rows, limit) == if sel(rows[n]) && |before| < limit then before + [rows[n]] else before
  {
  }

  /** What the last row of a table adds to the chosen positions and to the table after. */
  lemma RewrapRowsLast(run: Run, sel: Selector, rows: seq<Row>, base: nat)
    requires run.k.Valid() && rows != []
    ensures var n := |rows| - 1;
            var c, chosen := Chosen(sel, rows[..n], run.limit), Chosen(sel, rows, run.limit);
            var before, after := run.RewrapRows(sel, rows[..n], base), run.RewrapRows(sel, rows, base);
            && after[..n] == before
            && if sel(rows[n]) && |c| < run.limit
               then chosen == c + [n] && after[n] == Applied(rows[n], run.Decide(rows[n], base + |c|))
               else chosen == c && after[n] == rows[n]
  {
    hide Run.Decide, Applied;
  }

  /** The j-th chosen row is replaced by its outcome under the j-th draw; every other row stays. */
  lemma {:induction false} RewrapRowsAt(run: Run, sel: Selector, rows: seq<Row>, base: nat)
    requires run.k.Valid()
    ensures var chosen, after := Chosen(sel, rows, run.limit), run.RewrapRows(sel, rows, base);
            && (forall j :: 0 <= j < |chosen| ==>
                  after[chosen[j]] == Applied(rows[chosen[j]], run.Decide(rows[chosen[j]], base + j)))
            && (forall i :: 0 <= i < |rows| && i !in chosen ==> after[i] == rows[i])
  {
    hide Run.Decide, Applied;
    if rows != [] {
      hide Run.RewrapRows, Chosen;
      var n := |rows| - 1;
      RewrapRowsAt(run, sel, rows[..n], base);
      RewrapRowsLast(run, sel, rows, base);
      var c := Chosen(sel, rows[..n], run.limit);
      var before, after := run.RewrapRows(sel, rows[..n], base), run.RewrapRows(sel, rows, base);
      forall j | 0 <= j < |c| ensures after[c[j]] == Applied(rows[c[j]], run.Decide(rows[c[j]], base + j)) {
        assert rows[..n][c[j]] == rows[c[j]] && after[c[j]] == before[c[j]];
      }
      forall i | 0 <= i < n && i !in c ensures after[i] == rows[i] {
        assert after[i] == before[i] && rows[..n][i] == rows[i];
      }
    }
  }

  predicate Opens(run: Run, row: Row) {
    var e := ReadEnvelope(row.raw);
    e.Some? && run.k.DecryptText(run.p, e.value, None).Ok?
  }

  /** What becomes of a complete row under another key than the active one. */
  lemma DecideMeaning(run: Run, row: Row, n: nat)
    requires run.Valid() && row.raw.Complete() && row.raw.keyId.value != run.k.activeKeyId
    ensures var o := run.Decide(row, n);
            && !o.Skipped? && !(o.Failed? && o.reason.IncompleteEnvelope?)
            && (o.Rewrapped? <==> !run.dryRun && Opens(run, row))
            && (o.WouldRewrap? <==> run.dryRun && row.raw.keyId.value in run.k.encryptors)
            && (o.Rewrapped? ==> o.envelope.keyId == run.k.activeKeyId)
  {
    hide ReencryptEnvelope, Encryptor.DecryptText, Encryptor.EncryptText;
    var e := ReadEnvelope(row.raw).value;
    ReencryptKeepsText(run.p, run.k, e, run.entropy(n), run.k);
  }

  /**
   * What becomes of any row, and under which key and for which reason a failure is booked: an
   * incomplete envelope under its key id or "unknown"; a key that is not configured; in an execute
   * run, an envelope that cannot be decrypted.
   */
  lemma OutcomeMeaning(run: Run, row: Row, n: nat)
    requires run.Valid()
    ensures var o := run.Decide(row, n);
            if !row.raw.Complete() then
              o == Failed(if row.raw.keyId.None? || row.raw.keyId.value == "" then "unknown" else row.raw.keyId.value,
                          IncompleteEnvelope)
            else
              var keyId, active := row.raw.keyId.value, run.k.activeKeyId;
              && (o == Skipped <==> keyId == active)
              && (o == Failed(keyId, MissingKeyMaterial) <==> keyId != active && keyId !in run.k.encryptors)
              && (o == Failed(keyId, ReencryptFailed) <==>
                    keyId != active && keyId in run.k.encryptors && !run.dryRun && !Opens(run, row))
              && (o == WouldRewrap <==> keyId != active && keyId in run.k.encryptors && run.dryRun)
              && (o.Rewrapped? <==> keyId != active && keyId in run.k.encryptors && !run.dryRun && Opens(run, row))
              && (o.Rewrapped? ==>
                    && o.envelope.keyId == active
                    && run.k.DecryptText(run.p, o.envelope, None)
                       == run.k.DecryptText(run.p, ReadEnvelope(row.raw).value, None))
  {
    hide ReencryptEnvelope, Encryptor.DecryptText, Encryptor.EncryptText;
    if row.raw.Complete() && row.raw.keyId.value != run.k.activeKeyId {
      ReencryptKeepsText(run.p, run.k, ReadEnvelope(row.raw).value, run.entropy(n), run.k);
    }
  }

  /** The row's key is not configured. */
  predicate Unconfigured(run: Run, row: Row) {
    row.raw.keyId.Some? && row.raw.keyId.value !in run.k.encryptors
  }

  /** A dry run never reports anything remaining: it fails on keys that are not configured, and else completes. */
  lemma DryRunStatus(run: Run, store: Store)
    requires run.Valid() && run.dryRun && store.Valid()
    ensures run.Status(store)
         == if (exists t: Table, row :: row in run.CandidateRows(t, store) && Unconfigured(run, row))
            then CompletedWithFailures else Completed
  {
    hide Run.CandidateRows, Run.TableMarks, Run.Tallied, Run.After, Store.Valid, Unconfigured;
    FailedIffMarked(run, store);
    forall t: Table
      ensures (exists m :: m in run.TableMarks(t, store) && FAILED(m)) <==>
                exists row :: row in run.CandidateRows(t, store) && Unconfigured(run, row)
    {
      DryTableFails(run, t, store);
    }
    if t: Table, row :| row in run.CandidateRows(t, store) && Unconfigured(run, row) {
      assert t == IntentExamples || t == RuntimeLogs;
    }
  }

  lemma FailedIffMarked(run: Run, store: Store)
    requires run.Valid()
    ensures run.Tallied(store).failed > 0 <==>
              || (exists m :: m in run.TableMarks(IntentExamples, store) && FAILED(m))
              || (exists m :: m in run.TableMarks(RuntimeLogs, store) && FAILED(m))
  {
    hide Run.TableMarks, TallyOf, CountMarks;
    var marks := run.Marks(store);
    TallyMeaning(run.included, marks);
    CountMarksBounds(FAILED, marks);
    assert forall m :: m in marks <==>
        m in run.TableMarks(IntentExamples, store) || m in run.TableMarks(RuntimeLogs, store);
  }

  lemma DryRowFails(run: Run, t: Table, store: Store, j: nat)
    requires run.Valid() && run.dryRun && store.Valid() && j < |run.CandidateRows(t, store)|
    ensures |run.TableMarks(t, store)| == |run.CandidateRows(t, store)|
    ensures FAILED(run.TableMarks(t, store)[j]) <==> Unconfigured(run, run.CandidateRows(t, store)[j])
  {
    hide Run.CandidateRows, Run.Decide, Run.Base, Store.Valid, Opens;
    CandidatesAreLegacy(run, t, store);
    var row := run.CandidateRows(t, store)[j];
    OutcomeMeaning(run, row, run.Base(t, store) + j);
  }

  lemma DryTableFails(run: Run, t: Table, store: Store)
    requires run.Valid() && run.dryRun && store.Valid()
    ensures (exists m :: m in run.TableMarks(t, store) && FAILED(m)) <==>
              exists row :: row in run.CandidateRows(t, store) && Unconfigured(run, row)
  {
    hide Run.CandidateRows, Run.TableMarks, Run.Decide, Store.Valid, Unconfigured;
    forall j | 0 <= j < |run.CandidateRows(t, store)|
      ensures |run.TableMarks(t, store)| == |run.CandidateRows(t, store)|
      ensures FAILED(run.TableMarks(t, store)[j]) <==> Unconfigured(run, run.CandidateRows(t, store)[j])
    {
      DryRowFails(run, t, store, j);
    }
    MarksOfTable(run, t, store);
    SomeFails(run, run.CandidateRows(t, store), run.TableMarks(t, store));
  }

  lemma MarksOfTable(run: Run, t: Table, store: Store)
    requires run.Valid()
    ensures |run.TableMarks(t, store)| == |run.CandidateRows(t, store)|
  {
  }

  lemma SomeFails(run: Run, rows: seq<Row>, marks: seq<Marked>)
    requires |rows| == |marks| && forall j :: 0 <= j < |rows| ==> (FAILED(marks[j]) <==> Unconfigured(run, rows[j]))
    ensures (exists m :: m in marks && FAILED(m)) <==> exists row :: row in rows && Unconfigured(run, row)
  {
    hide Unconfigured;
    if m :| m in marks && FAILED(m) {
      var j :| 0 <= j < |marks| && marks[j] == m;
      assert rows[j] in rows;
    }
    if row :| row in rows && Unconfigured(run, row) {
      var j :| 0 <= j < |rows| && rows[j] == row;
      assert marks[j] in marks;
    }
  }

  /** No row leaves the legacy count but by being rewrapped. */
  lemma {:induction false} LegacyIsConserved(run: Run, t: Table, sel: Selector, rows: seq<Row>, base: nat)
    requires run.Valid()
    requires forall row :: row in rows ==>
              WellFormed(t, row) && sel(row) == Legacy(t, run.service, run.k.activeKeyId)(row)
    ensures var legacy := Legacy(t, run.service, run.k.activeKeyId);
            CountRows(legacy, run.RewrapRows(sel, rows, base))
            + CountMarks(REWRAPPED, run.MarksIn(t, Picked(sel, rows, run.limit), base))
            == CountRows(legacy, rows)
  {
    hide Legacy, WellFormed, Run.Decide, Run.MarksIn, Run.RewrapRows, Applied, Picked, Chosen, CountMarks;
    var legacy := Legacy(t, run.service, run.k.activeKeyId);
    if rows == [] {
      EmptyTable(run, t, sel, base);
    } else {
      var n := |rows| - 1;
      LegacyIsConserved(run, t, sel, rows[..n], base);
      PickedStep(sel, rows, run.limit);
      var picked := Picked(sel, rows[..n], run.limit);
      RewrapRowsLast(run, sel, rows, base);
      var after := run.RewrapRows(sel, rows, base);
      var last := after[n];
      assert after == after[..n] + [last];
      CountRowsStep(legacy, run.RewrapRows(sel, rows[..n], base), last);
      if sel(rows[n]) && |picked| < run.limit {
        LegacyStep(run, t, rows[n], base + |picked|);
        MarksStep(run, t, picked, rows[n], base);
      }
    }
  }

  lemma EmptyTable(run: Run, t: Table, sel: Selector, base: nat)
    requires run.Valid()
    ensures run.RewrapRows(sel, [], base) == [] && run.MarksIn(t, Picked(sel, [], run.limit), base) == []
    ensures CountMarks(REWRAPPED, []) == 0
  {
  }

  lemma CountRowsStep(sel: Selector, rows: seq<Row>, row: Row)
    ensures CountRows(sel, rows + [row]) == CountRows(sel, rows) + if sel(row) then 1 else 0
  {
    assert (rows + [row])[..|rows|] == rows;
  }

  lemma MarksStep(run: Run, t: Table, picked: seq<Row>, row: Row, base: nat)
    requires run.Valid()
    ensures CountMarks(REWRAPPED, run.MarksIn(t, picked + [row], base))
         == CountMarks(REWRAPPED, run.MarksIn(t, picked, base))
            + if run.Decide(row, base + |picked|).Rewrapped? then 1 else 0
  {
    hide Run.Decide;
    var marks, mark := run.MarksIn(t, picked, base), Marked(t, run.Decide(row, base + |picked|));
    assert run.MarksIn(t, picked + [row], base) == marks + [mark];
    assert (marks + [mark])[..|marks|] == marks;
  }

  lemma LegacyStep(run: Run, t: Table, row: Row, n: nat)
    requires run.Valid() && WellFormed(t, row) && Legacy(t, run.service, run.k.activeKeyId)(row)
    ensures var o := run.Decide(row, n);
            Legacy(t, run.service, run.k.activeKeyId)(Applied(row, o)) <==> !o.Rewrapped?
  {
    DecideMeaning(run, row, n);
  }

  // ---------------------------------------------------------------------------
  // One run
  // ---------------------------------------------------------------------------

  function LegacyIn(run: Run, t: Table, store: Store): nat {
    CountRows(Legacy(t, run.service, run.k.activeKeyId), store.Rows(t))
  }

  function RewrappedIn(run: Run, t: Table, store: Store): nat
    requires run.k.Valid()
  {
    CountMarks(REWRAPPED, run.TableMarks(t, store))
  }

  lemma SelectsLegacy(run: Run, t: Table, store: Store)
    requires run.Valid() && store.Valid() && t in run.included
    ensures forall row :: row in store.Rows(t) ==>
              WellFormed(t, row) && run.Selects(t, store)(row) == Legacy(t, run.service, run.k.activeKeyId)(row)
  {
    forall row | row in store.Rows(t)
      ensures WellFormed(t, row) && run.Selects(t, store)(row) == Legacy(t, run.service, run.k.activeKeyId)(row)
    {
      var i :| 0 <= i < |store.Rows(t)| && store.Rows(t)[i] == row;
      assert WellFormed(t, store.Rows(t)[i]);
      SourceRowsAreLegacy(store, run.included, t, run.service, run.k.activeKeyId, row);
    }
  }

  /** Conservation: what a run rewraps in a table is what its legacy count loses, whatever fails. */
  lemma RunConservesLegacy(run: Run, t: Table, store: Store)
    requires run.Valid() && store.Valid()
    ensures t in run.included ==>
              LegacyIn(run, t, run.After(store)) + RewrappedIn(run, t, store) == LegacyIn(run, t, store)
    ensures |run.CandidateRows(t, store)| == if t in run.included then Min(run.limit, LegacyIn(run, t, store)) else 0
  {
    if t in run.included {
      var sel := run.Selects(t, store);
      SelectsLegacy(run, t, store);
      LegacyIsConserved(run, t, sel, store.Rows(t), run.Base(t, store));
      assert run.CandidateRows(t, store) == Picked(sel, store.Rows(t), run.limit);
      ChosenIsFirst(sel, store.Rows(t), run.limit);
      CountAgrees(sel, Legacy(t, run.service, run.k.activeKeyId), store.Rows(t));
    }
  }

  /** The candidates of a valid store are complete rows under other keys than the active one. */
  lemma CandidatesAreLegacy(run: Run, t: Table, store: Store)
    requires run.Valid() && store.Valid()
    ensures forall row :: row in run.CandidateRows(t, store) ==>
              row in store.Rows(t) && row.raw.Complete() && row.raw.keyId.value != run.k.activeKeyId
  {
    if t in run.included {
      SelectsLegacy(run, t, store);
    }
  }

  lemma NothingSkippedIn(run: Run, t: Table, store: Store, j: nat)
    requires run.Valid() && store.Valid() && j < |run.TableMarks(t, store)|
    ensures var m := run.TableMarks(t, store)[j];
            && !SKIPPED(m) && !(FAILED(m) && m.outcome.reason.IncompleteEnvelope?)
            && if run.dryRun then !REWRAPPED(m) else !WOULD(m)
  {
    hide Run.Decide, Run.CandidateRows, Run.Base, Store.Valid, Opens;
    CandidatesAreLegacy(run, t, store);
    var row := run.CandidateRows(t, store)[j];
    DecideMeaning(run, row, run.Base(t, store) + j);
    assert run.TableMarks(t, store)[j].outcome == run.Decide(row, run.Base(t, store) + j);
  }

  /** A run never skips a candidate and never meets an incomplete envelope. */
  lemma NothingSkipped(run: Run, store: Store)
    requires run.Valid() && store.Valid()
    ensures forall m :: m in run.Marks(store) ==> !SKIPPED(m) && !(FAILED(m) && m.outcome.reason.IncompleteEnvelope?)
    ensures !run.dryRun ==> forall m :: m in run.Marks(store) ==> !WOULD(m)
    ensures run.dryRun ==> forall m :: m in run.Marks(store) ==> !REWRAPPED(m)
  {
    hide Run.TableMarks, Store.Valid;
    forall t, j: nat | j < |run.TableMarks(t, store)|
      ensures var m := run.TableMarks(t, store)[j];
              && !SKIPPED(m) && !(FAILED(m) && m.outcome.reason.IncompleteEnvelope?)
              && if run.dryRun then !REWRAPPED(m) else !WOULD(m)
    {
      NothingSkippedIn(run, t, store, j);
    }
  }

  /** The books of a run balance, for every store the writers leave. */
  lemma RunAccounting(run: Run, store: Store)
    requires run.Valid() && store.Valid()
    ensures var t := run.Tallied(store);
            && t.skipped == 0
            && (!run.dryRun ==> t.scanned == t.rewrapped + t.failed)
            && (run.dryRun ==> t.rewrapped == 0)
            && t.scanned == |run.CandidateRows(IntentExamples, store)| + |run.CandidateRows(RuntimeLogs, store)|
            && t.rewrapped == RewrappedIn(run, IntentExamples, store) + RewrappedIn(run, RuntimeLogs, store)
            && (forall x, id :: Cell(t.failures, x, id, IncompleteEnvelope) == 0)
  {
    hide TallyOf, CountMarks, Cell, Run.Decide, Run.CandidateRows, Store.Valid;
    var marks := run.Marks(store);
    TallyMeaning(run.included, marks);
    NothingSkipped(run, store);
    CountMarksBounds(SKIPPED, marks);
    CountMarksBounds(WOULD, marks);
    CountMarksBounds(REWRAPPED, marks);
    CountMarksOfSum(REWRAPPED, run.TableMarks(IntentExamples, store), run.TableMarks(RuntimeLogs, store));
    forall x, id ensures Cell(run.Tallied(store).failures, x, id, IncompleteEnvelope) == 0 {
      CountMarksBounds(FailedAs(x, id, IncompleteEnvelope), marks);
    }
  }

  // ---------------------------------------------------------------------------
  // How a run ends
  // ---------------------------------------------------------------------------

  lemma MarkOpens(run: Run, t: Table, store: Store, j: nat)
    requires run.Valid() && !run.dryRun && store.Valid() && j < |run.CandidateRows(t, store)|
    ensures REWRAPPED(run.TableMarks(t, store)[j]) <==> Opens(run, run.CandidateRows(t, store)[j])
  {
    hide Run.Decide, Run.CandidateRows, Opens, Run.Base, Store.Valid;
    CandidatesAreLegacy(run, t, store);
    var row := run.CandidateRows(t, store)[j];
    DecideMeaning(run, row, run.Base(t, store) + j);
    assert run.TableMarks(t, store)[j].outcome == run.Decide(row, run.Base(t, store) + j);
  }

  lemma MarksFollowRows(run: Run, marks: seq<Marked>, rows: seq<Row>)
    requires |marks| == |rows| && forall j :: 0 <= j < |rows| ==> (REWRAPPED(marks[j]) <==> Opens(run, rows[j]))
    ensures (forall m :: m in marks ==> REWRAPPED(m)) <==> forall row :: row in rows ==> Opens(run, row)
  {
    hide Opens;
    if forall m :: m in marks ==> REWRAPPED(m) {
      forall row | row in rows ensures Opens(run, row) {
        var j :| 0 <= j < |rows| && rows[j] == row;
        assert marks[j] in marks;
      }
    }
    if forall row :: row in rows ==> Opens(run, row) {
      forall m | m in marks ensures REWRAPPED(m) {
        var j :| 0 <= j < |marks| && marks[j] == m;
        assert rows[j] in rows;
      }
    }
  }

  /** Every candidate is rewrapped exactly where every one of them can be decrypted. */
  lemma RewrappedIffOpens(run: Run, t: Table, store: Store)
    requires run.Valid() && !run.dryRun && store.Valid()
    ensures RewrappedIn(run, t, store) <= |run.CandidateRows(t, store)|
    ensures RewrappedIn(run, t, store) == |run.CandidateRows(t, store)| <==>
              forall row :: row in run.CandidateRows(t, store) ==> Opens(run, row)
  {
    hide Run.Decide, Run.CandidateRows, Opens, CountMarks, Store.Valid;
    CountMarksBounds(REWRAPPED, run.TableMarks(t, store));
    forall j: nat | j < |run.CandidateRows(t, store)|
      ensures REWRAPPED(run.TableMarks(t, store)[j]) <==> Opens(run, run.CandidateRows(t, store)[j])
    {
      MarkOpens(run, t, store, j);
    }
    MarksFollowRows(run, run.TableMarks(t, store), run.CandidateRows(t, store));
  }

  /** Below the limit, every legacy row of an included table is a candidate. */
  lemma LegacyRowsAreCandidates(run: Run, t: Table, store: Store)
    requires run.Valid() && store.Valid() && t in run.included && LegacyIn(run, t, store) <= run.limit
    ensures forall row :: row in store.Rows(t) && Legacy(t, run.service, run.k.activeKeyId)(row) ==>
              row in run.CandidateRows(t, store)
  {
    hide Legacy, WellFormed, CountRows, Store.Valid, Run.Selects;
    var sel, rows := run.Selects(t, store), store.Rows(t);
    SelectsLegacy(run, t, store);
    CountAgrees(sel, Legacy(t, run.service, run.k.activeKeyId), rows);
    ChosenIsAll(sel, rows, run.limit);
    forall row | row in rows && Legacy(t, run.service, run.k.activeKeyId)(row)
      ensures row in run.CandidateRows(t, store)
    {
      var i :| 0 <= i < |rows| && rows[i] == row;
      var chosen := run.ChosenIn(t, store);
      var j :| 0 <= j < |chosen| && chosen[j] == i;
      assert run.CandidateRows(t, store)[j] == row;
    }
  }

  lemma CandidateIsListed(run: Run, t: Table, store: Store, row: Row)
    requires run.Valid() && store.Valid() && row in run.CandidateRows(t, store)
    ensures t in run.included && row in store.Rows(t) && Legacy(t, run.service, run.k.activeKeyId)(row)
  {
    SelectsLegacy(run, t, store);
  }

  predicate LegacyOpens(run: Run, t: Table, store: Store) {
    forall row :: row in store.Rows(t) && Legacy(t, run.service, run.k.activeKeyId)(row) ==> Opens(run, row)
  }

  lemma LegacyRemainsIffCounted(run: Run, store: Store)
    requires run.Valid()
    ensures LegacyRemains(store, run.included, run.service, run.k.activeKeyId) <==>
              exists t: Table :: t in run.included && LegacyIn(run, t, store) > 0
  {
    hide KeyCounts, LegacyCounted, Legacy, CountRows;
    forall t: Table
      ensures LegacyCounted(KeyCounts(t, store.Rows(t), run.service), run.k.activeKeyId) <==>
                LegacyIn(run, t, store) > 0
    {
      LegacyCountedIffAny(t, store.Rows(t), run.service, run.k.activeKeyId);
    }
  }

  /** The arithmetic of an execute run, table by table. */
  lemma ExecuteRun(run: Run, t: Table, store: Store)
    requires run.Valid() && !run.dryRun && store.Valid()
    ensures var candidates := |run.CandidateRows(t, store)|;
            && RewrappedIn(run, t, store) <= candidates
            && (t in run.included ==>
                  && candidates == Min(run.limit, LegacyIn(run, t, store))
                  && LegacyIn(run, t, run.After(store)) + RewrappedIn(run, t, store) == LegacyIn(run, t, store))
            && (t !in run.included ==> candidates == 0)
            && (RewrappedIn(run, t, store) == candidates <==>
                  forall row :: row in run.CandidateRows(t, store) ==> Opens(run, row))
            && run.Tallied(store).failed ==
                 |run.CandidateRows(IntentExamples, store)| + |run.CandidateRows(RuntimeLogs, store)|
                 - RewrappedIn(run, IntentExamples, store) - RewrappedIn(run, RuntimeLogs, store)
  {
    hide *;
    RunConservesLegacy(run, t, store);
    RewrappedIffOpens(run, t, store);
    RunAccounting(run, store);
  }

  /** A run fails on some candidate exactly where one of them cannot be decrypted. */
  lemma FailsIffUnopened(run: Run, store: Store)
    requires run.Valid() && !run.dryRun && store.Valid()
    ensures run.Status(store) == CompletedWithFailures <==>
              exists t: Table, row :: row in run.CandidateRows(t, store) && !Opens(run, row)
    ensures run.Status(store) == CompletedWithFailures <==> run.Tallied(store).failed > 0
  {
    hide Opens, Run.CandidateRows, Run.Tallied, Store.Valid, RewrappedIn, LegacyRemains, Run.After;
    ExecuteRun(run, IntentExamples, store);
    ExecuteRun(run, RuntimeLogs, store);
    if t: Table, row :| row in run.CandidateRows(t, store) && !Opens(run, row) {
      assert t == IntentExamples || t == RuntimeLogs;
    }
  }

  /**
   * An execute run ends "completed" exactly when every included table has at most limit legacy
   * rows and all of them can be decrypted.
   */
  lemma CompletedIff(run: Run, store: Store)
    requires run.Valid() && !run.dryRun && store.Valid()
    ensures run.Status(store) == Completed <==>
              forall t: Table :: t in run.included ==>
                  LegacyIn(run, t, store) <= run.limit && LegacyOpens(run, t, store)
  {
    hide Opens, Run.CandidateRows, Run.Tallied, Store.Valid, RewrappedIn, LegacyIn, Legacy, LegacyRemains, Run.After;
    FailsIffUnopened(run, store);
    LegacyRemainsIffCounted(run, run.After(store));
    forall t: Table | t in run.included
      ensures |run.CandidateRows(t, store)| == Min(run.limit, LegacyIn(run, t, store))
      ensures LegacyIn(run, t, run.After(store)) + RewrappedIn(run, t, store) == LegacyIn(run, t, store)
      ensures RewrappedIn(run, t, store) <= |run.CandidateRows(t, store)|
      ensures RewrappedIn(run, t, store) == |run.CandidateRows(t, store)| <==>
                forall row :: row in run.CandidateRows(t, store) ==> Opens(run, row)
    {
      ExecuteRun(run, t, store);
    }
    forall t: Table, row | row in run.CandidateRows(t, store)
      ensures t in run.included && row in store.Rows(t) && Legacy(t, run.service, run.k.activeKeyId)(row)
    {
      CandidateIsListed(run, t, store, row);
    }
    forall t: Table | t in run.included && LegacyIn(run, t, store) <= run.limit
      ensures forall row :: row in store.Rows(t) && Legacy(t, run.service, run.k.activeKeyId)(row) ==>
                row in run.CandidateRows(t, store)
    {
      LegacyRowsAreCandidates(run, t, store);
    }
  }
}
