/** Whole campaigns of rewrap runs: what one run keeps, how many are needed, and what they allow. */
module RewrapRuns {
  import opened Wrappers
  import opened Encryption
  import opened RawText
  import opened Rewrap
  import opened RewrapTheorems

  // ---------------------------------------------------------------------------
  // What one run keeps
  // ---------------------------------------------------------------------------

  /** Nothing but the envelope of a rewrapped row may differ. */
  predicate SameButRaw(a: Row, b: Row) {
    a == b.(raw := a.raw)
  }

  /** What a run may turn a row into: the same row, or the same text under the active key. */
  ghost predicate Kept(run: Run, before: Row, after: Row) {
    || after == before
    || (SameButRaw(before, after) && !run.dryRun && Renewed(run, before.raw, after.raw))
  }

  ghost predicate Renewed(run: Run, before: RawColumns, after: RawColumns) {
    && ReadEnvelope(before).Some? && ReadEnvelope(after).Some?
    && before.keyId != Some(run.k.activeKeyId)
    && after.keyId == Some(run.k.activeKeyId)
    && run.k.DecryptText(run.p, ReadEnvelope(before).value, None).Ok?
    && forall reader: Keyring :: ReadsActive(reader, run.k) ==>
         reader.DecryptText(run.p, ReadEnvelope(after).value, None)
         == run.k.DecryptText(run.p, ReadEnvelope(before).value, None)
  }

  /** A keyring that has the writer's active key, and no other key under an id they share. */
  predicate ReadsActive(reader: Keyring, writer: Keyring) {
    reader.Valid() && writer.AgreesWith(reader) && writer.activeKeyId in reader.encryptors
  }

  lemma DecideKeeps(run: Run, row: Row, n: nat)
    requires run.Valid()
    ensures Kept(run, row, Applied(row, run.Decide(row, n)))
  {
    hide ReencryptEnvelope, Encryptor.DecryptText, Encryptor.EncryptText;
    if run.Decide(row, n).Rewrapped? {
      var e := ReadEnvelope(row.raw).value;
      var again := ReencryptEnvelope(run.p, run.k, e, run.entropy(n)).value;
      assert ReadEnvelope(Stored(again)) == Some(again);
      ReencryptKeepsText(run.p, run.k, e, run.entropy(n), run.k);
      forall reader: Keyring | ReadsActive(reader, run.k)
        ensures reader.DecryptText(run.p, again, None) == run.k.DecryptText(run.p, e, None)
      {
        ReencryptKeepsText(run.p, run.k, e, run.entropy(n), reader);
      }
    }
  }

  /** Every row keeps its identity, and either its envelope or the text of it. */
  lemma RunKeepsRows(run: Run, t: Table, store: Store)
    requires run.Valid()
    ensures |run.After(store).Rows(t)| == |store.Rows(t)|
    ensures forall i :: 0 <= i < |store.Rows(t)| ==> Kept(run, store.Rows(t)[i], run.After(store).Rows(t)[i])
  {
    hide Run.Decide, Applied, Kept, Run.RewrapRows, Run.Selects;
    var rows, after := store.Rows(t), run.After(store).Rows(t);
    if t in run.included {
      RewrapRowsAt(run, run.Selects(t, store), rows, run.Base(t, store));
    }
    var chosen := run.ChosenIn(t, store);
    forall i | 0 <= i < |rows| ensures Kept(run, rows[i], after[i]) {
      if t in run.included && i in chosen {
        var j :| 0 <= j < |chosen| && chosen[j] == i;
        DecideKeeps(run, rows[i], run.Base(t, store) + j);
      } else {
        KeptItself(run, rows[i]);
      }
    }
  }

  lemma KeptItself(run: Run, row: Row)
    ensures Kept(run, row, row)
  {
  }

  /** Runs keep the writers' invariant; a dry run changes nothing at all. */
  lemma RunKeepsStore(run: Run, store: Store)
    requires run.Valid()
    ensures store.Valid() ==> run.After(store).Valid()
    ensures run.dryRun ==> run.After(store) == store
  {
    hide Run.After;
    RunKeepsRows(run, IntentExamples, store);
    RunKeepsRows(run, RuntimeLogs, store);
    if store.Valid() {
      forall t: Table, i | 0 <= i < |run.After(store).Rows(t)| ensures WellFormed(t, run.After(store).Rows(t)[i]) {
        assert Kept(run, store.Rows(t)[i], run.After(store).Rows(t)[i]);
        assert WellFormed(t, store.Rows(t)[i]);
      }
    }
    if run.dryRun {
      assert run.After(store).examples == store.examples;
      assert run.After(store).logs == store.logs;
    }
  }

  // ---------------------------------------------------------------------------
  // Retiring the legacy keys
  // ---------------------------------------------------------------------------

  /** The keyring that has only the active key left. */
  function ActiveOnly(k: Keyring): (r: Keyring)
    requires k.Valid()
    ensures ReadsActive(r, k)
  {
    Keyring(k.activeKeyId, map[k.activeKeyId := k.encryptors[k.activeKeyId]])
  }

  /**
   * After an execute run over both tables that ends "completed", every stored envelope of the
   * service that could be read before is read as the same text with the active key alone.
   */
  lemma CompletedRunRetiresKeys(run: Run, store: Store, t: Table, i: nat)
    requires run.Valid() && !run.dryRun && store.Valid()
    requires IntentExamples in run.included && RuntimeLogs in run.included
    requires run.Status(store) == Completed
    requires i < |store.Rows(t)| && store.Rows(t)[i].serviceId == Some(run.service) && Opens(run, store.Rows(t)[i])
    ensures |run.After(store).Rows(t)| == |store.Rows(t)|
    ensures var before, after := store.Rows(t)[i], run.After(store).Rows(t)[i];
            && SameButRaw(before, after) && ReadEnvelope(after.raw).Some?
            && ActiveOnly(run.k).DecryptText(run.p, ReadEnvelope(after.raw).value, None)
               == run.k.DecryptText(run.p, ReadEnvelope(before.raw).value, None)
  {
    hide Run.After, Run.Status, LegacyIn, CountRows, Encryptor.DecryptText, LegacyRemains;
    RunKeepsRows(run, t, store);
    var before, after := store.Rows(t)[i], run.After(store).Rows(t)[i];
    assert Kept(run, before, after);
    assert WellFormed(t, before);
    NothingLegacyIsLeft(run, store, t);
    RunKeepsStore(run, store);
    assert WellFormed(t, after);
    assert after in run.After(store).Rows(t);
    assert !Legacy(t, run.service, run.k.activeKeyId)(after);
  }

  lemma NothingLegacyIsLeft(run: Run, store: Store, t: Table)
    requires run.Valid() && !run.dryRun && store.Valid() && t in run.included
    requires run.Status(store) == Completed
    ensures forall row :: row in run.After(store).Rows(t) ==> !Legacy(t, run.service, run.k.activeKeyId)(row)
  {
    hide Run.After, LegacyRemains, CountRows, Legacy;
    LegacyRemainsIffCounted(run, run.After(store));
    CountIsZero(Legacy(t, run.service, run.k.activeKeyId), run.After(store).Rows(t));
    assert LegacyIn(run, t, run.After(store)) == 0;
  }

  // ---------------------------------------------------------------------------
  // Repeated runs
  // ---------------------------------------------------------------------------

  /** The randomness of each run of a campaign. */
  type Draws = nat -> (nat -> Randomness)

  /** The n-th run of a campaign, counted from zero. */
  function NthRun(run: Run, draws: Draws, n: nat): Run {
    run.(entropy := draws(n))
  }

  /** The store after n runs with the same parameters. */
  function AfterRuns(run: Run, draws: Draws, store: Store, n: nat): Store
    requires run.k.Valid()
  {
    if n == 0 then store
    else NthRun(run, draws, n - 1).After(AfterRuns(run, draws, store, n - 1))
  }

  ghost predicate Ready(run: Run, store: Store) {
    && run.Valid() && !run.dryRun && store.Valid()
    && forall t: Table :: t in run.included ==> LegacyOpens(run, t, store)
  }

  function Less(a: nat, b: nat): nat { if a < b then 0 else a - b }

  /** With every legacy row readable, a run rewraps min(limit, legacy) rows of each table and stays ready. */
  lemma ReadyRun(run: Run, store: Store)
    requires Ready(run, store)
    ensures Ready(run, run.After(store))
    ensures forall t: Table :: t in run.included ==>
              && RewrappedIn(run, t, store) == Min(run.limit, LegacyIn(run, t, store))
              && LegacyIn(run, t, run.After(store)) == Less(LegacyIn(run, t, store), run.limit)
    ensures run.Tallied(store).failed == 0
    ensures run.Status(store) ==
            if forall t: Table :: t in run.included ==> LegacyIn(run, t, store) <= run.limit then Completed
            else PartialRemaining
  {
    hide Run.After, LegacyIn, Opens, Legacy, Run.CandidateRows, RewrappedIn, Run.Tallied, Store.Valid, Run.Status;
    RunKeepsStore(run, store);
    forall t: Table | t in run.included
      ensures RewrappedIn(run, t, store) == Min(run.limit, LegacyIn(run, t, store))
      ensures LegacyIn(run, t, run.After(store)) == Less(LegacyIn(run, t, store), run.limit)
      ensures LegacyOpens(run, t, run.After(store))
    {
      ReadyTable(run, t, store);
    }
    ReadyRunEnds(run, store);
  }

  lemma ReadyTable(run: Run, t: Table, store: Store)
    requires Ready(run, store) && t in run.included
    ensures RewrappedIn(run, t, store) == Min(run.limit, LegacyIn(run, t, store))
    ensures LegacyIn(run, t, run.After(store)) == Less(LegacyIn(run, t, store), run.limit)
    ensures LegacyOpens(run, t, run.After(store))
  {
    hide Run.After, LegacyIn, Opens, Legacy, Run.CandidateRows, RewrappedIn, Run.Tallied, Store.Valid;
    ExecuteRun(run, t, store);
    forall row | row in run.CandidateRows(t, store) ensures Opens(run, row) {
      CandidateIsListed(run, t, store, row);
    }
    forall row | row in run.After(store).Rows(t) && Legacy(t, run.service, run.k.activeKeyId)(row)
      ensures Opens(run, row)
    {
      LegacyRowIsUnchanged(run, t, store, row);
    }
  }

  /** A row that is still legacy after a run is a row of before. */
  lemma LegacyRowIsUnchanged(run: Run, t: Table, store: Store, row: Row)
    requires run.Valid() && row in run.After(store).Rows(t) && Legacy(t, run.service, run.k.activeKeyId)(row)
    ensures row in store.Rows(t)
  {
    hide Run.After;
    RunKeepsRows(run, t, store);
    var i :| 0 <= i < |run.After(store).Rows(t)| && run.After(store).Rows(t)[i] == row;
    assert Kept(run, store.Rows(t)[i], row);
  }

  lemma ReadyRunEnds(run: Run, store: Store)
    requires Ready(run, store)
    ensures run.Tallied(store).failed == 0
    ensures run.Status(store) ==
            if forall t: Table :: t in run.included ==> LegacyIn(run, t, store) <= run.limit then Completed
            else PartialRemaining
  {
    hide Run.After, LegacyIn, Opens, Legacy, Run.CandidateRows, RewrappedIn, Run.Tallied, Store.Valid, LegacyRemains;
    FailsIffUnopened(run, store);
    CompletedIff(run, store);
    if t: Table, row :| row in run.CandidateRows(t, store) && !Opens(run, row) {
      CandidateIsListed(run, t, store, row);
      assert false;
    }
  }

  /** What n runs of at most limit rows leave. */
  function Left(legacy: nat, n: nat, limit: nat): nat {
    Less(legacy, n * limit)
  }

  /** The store after n runs is ready for the next one, and n * limit rows of the table nearer the end. */
  lemma {:induction false} Convergence(run: Run, draws: Draws, store: Store, n: nat, t: Table)
    requires run.Valid() && Ready(run, store)
    ensures Ready(NthRun(run, draws, n), AfterRuns(run, draws, store, n))
    ensures t in run.included ==>
              LegacyIn(run, t, AfterRuns(run, draws, store, n)) == Left(LegacyIn(run, t, store), n, run.limit)
  {
    hide Run.After, LegacyIn, Ready, NthRun, Less, Left;
    LeftStep(LegacyIn(run, t, store), n, run.limit);
    if n == 0 {
      SameForOtherDraws(run, draws, n, store);
    } else {
      Convergence(run, draws, store, n - 1, t);
      ConvergenceStep(run, draws, AfterRuns(run, draws, store, n - 1), n - 1);
    }
  }

  lemma LeftStep(legacy: nat, n: nat, limit: nat)
    ensures Left(legacy, 0, limit) == legacy
    ensures n > 0 ==> Left(legacy, n, limit) == Less(Left(legacy, n - 1, limit), limit)
  {
    assert n > 0 ==> n * limit == (n - 1) * limit + limit;
  }

  lemma ConvergenceStep(run: Run, draws: Draws, store: Store, n: nat)
    requires run.Valid() && Ready(NthRun(run, draws, n), store)
    ensures Ready(NthRun(run, draws, n + 1), NthRun(run, draws, n).After(store))
    ensures forall t: Table :: t in run.included ==>
              LegacyIn(run, t, NthRun(run, draws, n).After(store)) == Less(LegacyIn(run, t, store), run.limit)
  {
    hide Run.After, LegacyIn, Ready;
    var nth := NthRun(run, draws, n);
    ReadyRun(nth, store);
    SameForOtherDraws(run, draws, n, store);
    SameForOtherDraws(run, draws, n, nth.After(store));
    SameForOtherDraws(run, draws, n + 1, nth.After(store));
  }

  /** What is legacy, and what can be read, does not depend on the randomness. */
  lemma SameForOtherDraws(run: Run, draws: Draws, n: nat, store: Store)
    requires run.Valid()
    ensures forall t :: LegacyIn(NthRun(run, draws, n), t, store) == LegacyIn(run, t, store)
    ensures Ready(NthRun(run, draws, n), store) <==> Ready(run, store)
  {
    hide Legacy, CountRows;
    assert forall row :: Opens(NthRun(run, draws, n), row) == Opens(run, row);
    assert forall t: Table :: LegacyOpens(NthRun(run, draws, n), t, store) == LegacyOpens(run, t, store);
  }

  /** Runs of a table that has n legacy rows: n divided by the limit, rounded up. */
  function RunsNeeded(legacy: nat, limit: nat): nat
    requires limit > 0
  {
    (legacy + limit - 1) / limit
  }

  lemma RunsNeededMeaning(legacy: nat, limit: nat, n: nat)
    requires limit > 0
    ensures legacy <= n * limit <==> RunsNeeded(legacy, limit) <= n
  {
    var q, r := (legacy + limit - 1) / limit, (legacy + limit - 1) % limit;
    assert legacy + limit - 1 == q * limit + r;
    if q <= n {
      MulMonotone(q, n, limit);
    } else {
      MulMonotone(n + 1, q, limit);
      assert (n + 1) * limit == n * limit + limit;
    }
  }

  lemma LastRunMeaning(legacy: nat, limit: nat, n: nat)
    requires limit > 0
    ensures Left(legacy, n, limit) <= limit <==> RunsNeeded(legacy, limit) <= n + 1
  {
    RunsNeededMeaning(legacy, limit, n + 1);
    assert (n + 1) * limit == n * limit + limit;
  }

  lemma MulMonotone(a: nat, b: nat, c: nat)
    requires a <= b
    ensures a * c <= b * c
  {
    assert b * c == a * c + (b - a) * c;
  }

  /**
   * A campaign ends with run number max over the included tables of ceil(legacy / limit): the runs
   * before it are "partial_remaining", it and all later ones "completed".
   */
  lemma CampaignLength(run: Run, draws: Draws, store: Store, n: nat)
    requires run.Valid() && Ready(run, store) && run.limit > 0
    ensures NthRun(run, draws, n).Status(AfterRuns(run, draws, store, n)) ==
            if forall t: Table :: t in run.included ==> RunsNeeded(LegacyIn(run, t, store), run.limit) <= n + 1
            then Completed else PartialRemaining
  {
    hide Run.After, LegacyIn, Ready, Run.Status, RunsNeeded, AfterRuns, Left, Less;
    var nth, now := NthRun(run, draws, n), AfterRuns(run, draws, store, n);
    Convergence(run, draws, store, n, IntentExamples);
    ReadyRun(nth, now);
    SameForOtherDraws(run, draws, n, now);
    forall t: Table | t in run.included
      ensures LegacyIn(nth, t, now) <= run.limit <==> RunsNeeded(LegacyIn(run, t, store), run.limit) <= n + 1
    {
      Convergence(run, draws, store, n, t);
      LastRunMeaning(LegacyIn(run, t, store), run.limit, n);
    }
  }

  /**
   * A run makes progress exactly where some candidate can be read. Where none can, every further
   * run picks the same candidates and fails on them again.
   */
  lemma ProgressIff(run: Run, store: Store)
    requires run.Valid() && !run.dryRun && store.Valid()
    ensures run.After(store) != store <==> exists t: Table, row :: row in run.CandidateRows(t, store) && Opens(run, row)
  {
    hide Run.After, Opens, Run.CandidateRows;
    if t: Table, row :| row in run.CandidateRows(t, store) && Opens(run, row) {
      OpenCandidateChanges(run, t, store, row);
    } else {
      NothingOpensNothingChanges(run, IntentExamples, store);
      NothingOpensNothingChanges(run, RuntimeLogs, store);
    }
  }

  lemma AfterIncluded(run: Run, t: Table, store: Store)
    requires run.Valid() && t in run.included
    ensures run.After(store).Rows(t) == run.RewrapRows(run.Selects(t, store), store.Rows(t), run.Base(t, store))
  {
  }

  /** A candidate's row after the run is its outcome, which is the row itself exactly where it cannot be read. */
  lemma CandidateAfter(run: Run, t: Table, store: Store, j: nat)
    requires run.Valid() && !run.dryRun && store.Valid() && j < |run.ChosenIn(t, store)|
    ensures |run.After(store).Rows(t)| == |store.Rows(t)|
    ensures var i := run.ChosenIn(t, store)[j];
            run.After(store).Rows(t)[i] == store.Rows(t)[i] <==> !Opens(run, store.Rows(t)[i])
  {
    hide Run.RewrapRows, Run.Decide, Opens, Run.Selects, Store.Valid, Run.Base, Run.After, Applied, Chosen;
    AfterIncluded(run, t, store);
    RewrapRowsAt(run, run.Selects(t, store), store.Rows(t), run.Base(t, store));
    CandidatesAreLegacy(run, t, store);
    var i := run.ChosenIn(t, store)[j];
    var row := store.Rows(t)[i];
    assert run.ChosenIn(t, store) == Chosen(run.Selects(t, store), store.Rows(t), run.limit);
    assert run.After(store).Rows(t)[i] == Applied(row, run.Decide(row, run.Base(t, store) + j));
    assert run.CandidateRows(t, store)[j] == row;
    OutcomeChanges(run, row, run.Base(t, store) + j);
  }

  lemma OutcomeChanges(run: Run, row: Row, n: nat)
    requires run.Valid() && !run.dryRun && row.raw.Complete() && row.raw.keyId.value != run.k.activeKeyId
    ensures Applied(row, run.Decide(row, n)) == row <==> !Opens(run, row)
  {
    hide Run.Decide, Opens;
    DecideMeaning(run, row, n);
    var o := run.Decide(row, n);
    if o.Rewrapped? {
      assert Applied(row, o).raw.keyId != row.raw.keyId;
    }
  }

  lemma OpenCandidateChanges(run: Run, t: Table, store: Store, row: Row)
    requires run.Valid() && !run.dryRun && store.Valid() && row in run.CandidateRows(t, store) && Opens(run, row)
    ensures run.After(store) != store
  {
    hide Run.After, Opens, Store.Valid, Run.ChosenIn;
    var j :| 0 <= j < |run.ChosenIn(t, store)| && run.CandidateRows(t, store)[j] == row;
    CandidateAfter(run, t, store, j);
  }

  lemma NothingOpensNothingChanges(run: Run, t: Table, store: Store)
    requires run.Valid() && !run.dryRun && store.Valid()
    requires forall row :: row in run.CandidateRows(t, store) ==> !Opens(run, row)
    ensures run.After(store).Rows(t) == store.Rows(t)
  {
    hide Opens, Store.Valid, Run.Selects, Run.RewrapRows, Run.Decide;
    var chosen := run.ChosenIn(t, store);
    forall j | 0 <= j < |chosen| ensures run.After(store).Rows(t)[chosen[j]] == store.Rows(t)[chosen[j]] {
      assert run.CandidateRows(t, store)[j] == store.Rows(t)[chosen[j]];
      CandidateAfter(run, t, store, j);
    }
    if t in run.included {
      RewrapRowsAt(run, run.Selects(t, store), store.Rows(t), run.Base(t, store));
      UnchosenRowsStay(store.Rows(t), run.After(store).Rows(t), chosen);
    }
  }

  lemma UnchosenRowsStay(before: seq<Row>, after: seq<Row>, chosen: seq<nat>)
    requires |after| == |before| && forall j :: 0 <= j < |chosen| ==> chosen[j] < |before|
    requires forall i :: 0 <= i < |before| && i !in chosen ==> after[i] == before[i]
    requires forall j :: 0 <= j < |chosen| ==> after[chosen[j]] == before[chosen[j]]
    ensures after == before
  {
    forall i | 0 <= i < |before| ensures after[i] == before[i] {
      if i in chosen {
        var j :| 0 <= j < |chosen| && chosen[j] == i;
      }
    }
  }

  /** There are candidates, and none of them can be read. */
  ghost predicate Stalled(run: Run, store: Store) {
    && run.Valid() && !run.dryRun && store.Valid()
    && (exists t: Table, row :: row in run.CandidateRows(t, store))
    && (forall t: Table, row :: row in run.CandidateRows(t, store) ==> !Opens(run, row))
  }

  /** So it is when the first limit legacy rows are under keys the keyring does not have. */
  lemma UnconfiguredKeysStall(run: Run, store: Store)
    requires run.Valid() && !run.dryRun && store.Valid()
    requires exists t: Table, row :: row in run.CandidateRows(t, store)
    requires forall t: Table, row :: row in run.CandidateRows(t, store) ==>
              row.raw.keyId.Some? && row.raw.keyId.value !in run.k.encryptors
    ensures Stalled(run, store)
  {
    hide Run.CandidateRows, Store.Valid, Encryptor.DecryptText;
  }

  lemma StalledRun(run: Run, store: Store)
    requires Stalled(run, store)
    ensures run.After(store) == store && run.Status(store) == CompletedWithFailures
  {
    hide Run.After, Run.CandidateRows, Run.Status, Opens, Store.Valid;
    var t: Table, row :| row in run.CandidateRows(t, store);
    assert !Opens(run, row);
    ProgressIff(run, store);
    FailsIffUnopened(run, store);
  }

  lemma StalledForOtherDraws(run: Run, draws: Draws, n: nat, store: Store)
    requires Stalled(run, store)
    ensures Stalled(NthRun(run, draws, n), store)
  {
    hide Run.CandidateRows, Opens, Store.Valid;
    SameCandidates(run, draws, n, store);
    var t: Table, row :| row in run.CandidateRows(t, store);
    assert row in NthRun(run, draws, n).CandidateRows(t, store);
  }

  /** Once a run meets only candidates it cannot read, no number of runs changes anything. */
  lemma {:induction false} StallIsForever(run: Run, draws: Draws, store: Store, n: nat)
    requires run.Valid() && Stalled(run, store)
    ensures AfterRuns(run, draws, store, n) == store
    ensures NthRun(run, draws, n).Status(AfterRuns(run, draws, store, n)) == CompletedWithFailures
  {
    hide Run.After, Run.Status, Stalled, NthRun;
    if n > 0 {
      StallIsForever(run, draws, store, n - 1);
      StalledForOtherDraws(run, draws, n - 1, store);
      StalledRun(NthRun(run, draws, n - 1), store);
    }
    StalledForOtherDraws(run, draws, n, store);
    StalledRun(NthRun(run, draws, n), store);
  }

  lemma SameCandidates(run: Run, draws: Draws, n: nat, store: Store)
    ensures forall t: Table :: NthRun(run, draws, n).CandidateRows(t, store) == run.CandidateRows(t, store)
    ensures forall row :: Opens(NthRun(run, draws, n), row) == Opens(run, row)
  {
    hide Chosen, SourceKeys;
    forall t: Table ensures NthRun(run, draws, n).CandidateRows(t, store) == run.CandidateRows(t, store) {
      var nth := NthRun(run, draws, n);
      assert nth.ChosenIn(t, store) == run.ChosenIn(t, store);
      forall j | 0 <= j < |run.ChosenIn(t, store)|
        ensures nth.CandidateRows(t, store)[j] == run.CandidateRows(t, store)[j]
      {
      }
    }
  }
}
