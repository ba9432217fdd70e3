/**
 * The life of a raw query over whole runs: logged, rewrapped, redacted, viewed, in any order, under
 * keyrings that come and go (logging/trace.py, scripts/rewrap_raw_text.py, ops/retention.py,
 * api/admin.py). Each step is one transaction.
 */
module Lifecycle {
  import opened Wrappers
  import opened Encryption
  import opened RawText
  import Rewrap
  import RewrapRuns
  import Retention
  import Governance
  import GovernanceTheorems
  import GovernanceRuns

  /** Tables, governed records, and what was originally logged for each trace with a raw query. */
  datatype World = World(store: Store, gov: Governance.Gov, logged: map<string, string>)

  // ---------------------------------------------------------------------------
  // Steps
  // ---------------------------------------------------------------------------

  datatype Step =
    | LogSuccess(traceId: string, serviceId: string, createdAt: int, query: string, k: Keyring, r: Randomness, at: nat)
    | LogError(traceId: string, service: Option<string>, createdAt: int, queryRaw: Option<string>, encryptRaw: bool,
               k: Keyring, r: Randomness, at: nat)
    | RewrapRun(run: Rewrap.Run)
    | Redact(redactService: string, traceIds: set<string>, d: Deletion)
    | EditExamples(examples: seq<Row>)
    | Govern(step: Governance.Step, k: Keyring)

  predicate HasTrace(logs: seq<Row>, traceId: string) {
    exists i :: 0 <= i < |logs| && logs[i].id == traceId
  }

  /** A new log row, at its place in the order; a trace that exists already is refused. */
  function InsertLog(w: World, row: Row, query: Option<string>, at: nat): World {
    if HasTrace(w.store.logs, row.id) then w
    else
      World(w.store.(logs := InsertAt(w.store.logs, row, at)), w.gov,
            if query.Some? then w.logged[row.id := query.value] else w.logged)
  }

  function InsertAt(logs: seq<Row>, row: Row, at: nat): seq<Row> {
    var n := if at <= |logs| then at else |logs|;
    logs[..n] + [row] + logs[n..]
  }

  /** What the decrypt endpoint finds for a trace under a keyring. */
  function ReadLog(p: Primitives, w: World, k: Keyring, service: string, traceId: string): Governance.LogRead {
    if !(exists i :: 0 <= i < |w.store.logs|
                     && w.store.logs[i].id == traceId && w.store.logs[i].serviceId == Some(service))
    then Governance.NoLog
    else ReadRow(p, k, LogOf(w.store.logs, service, traceId))
  }

  function LogOf(logs: seq<Row>, service: string, traceId: string): (row: Row)
    requires exists i :: 0 <= i < |logs| && logs[i].id == traceId && logs[i].serviceId == Some(service)
    ensures row in logs && row.id == traceId && row.serviceId == Some(service)
  {
    if logs[0].id == traceId && logs[0].serviceId == Some(service) then logs[0]
    else LogOf(logs[1..], service, traceId)
  }

  function ReadRow(p: Primitives, k: Keyring, row: Row): Governance.LogRead {
    if row.deletion.Some? || ReadEnvelope(row.raw).None? then Governance.Unreadable
    else
      match k.DecryptText(p, ReadEnvelope(row.raw).value, None)
      case Err(_) => Governance.Unreadable
      case Ok(query) => Governance.Readable(query)
  }

  /** The governed call with the log it reads filled in. */
  function Informed(p: Primitives, w: World, s: Governance.Step, k: Keyring): Governance.Step {
    if s.call.CallDecryptQuery? then s.(call := s.call.(log := ReadLog(p, w, k, s.service, s.call.trace))) else s
  }

  function Perform(p: Primitives, w: World, s: Step): World
    requires Usable(s)
  {
    match s
    case LogSuccess(id, service, createdAt, query, k, r, at) =>
      (match k.EncryptText(p, query, None, r)
       case Err(_) => w
       case Ok(e) => InsertLog(w, Row(id, Some(service), createdAt, Stored(e), None), Some(query), at))
    case LogError(id, service, createdAt, query, encryptRaw, k, r, at) =>
      if encryptRaw && query.Some? then
        (match k.EncryptText(p, query.value, None, r)
         case Err(_) => w
         case Ok(e) => InsertLog(w, Row(id, service, createdAt, Stored(e), None), query, at))
      else InsertLog(w, Row(id, service, createdAt, NO_RAW, None), None, at)
    case RewrapRun(run) => w.(store := run.After(w.store))
    case Redact(service, ids, d) => w.(store := w.store.(logs := Retention.RedactRows(w.store.logs, service, ids, d)))
    case EditExamples(examples) => w.(store := w.store.(examples := examples))
    case Govern(step, k) => w.(gov := Governance.Perform(w.gov, Informed(p, w, step, k)).after)
  }

  predicate Usable(s: Step) {
    match s
    case LogSuccess(_, _, _, _, k, _, _) => k.Valid()
    case LogError(_, _, _, _, _, k, _, _) => k.Valid()
    case RewrapRun(run) => run.k.Valid()
    case Govern(_, k) => k.Valid()
    case _ => true
  }

  function After(p: Primitives, w: World, steps: seq<Step>): World
    requires forall s :: s in steps ==> Usable(s)
  {
    if steps == [] then w
    else
      assert forall s :: s in steps[..|steps| - 1] ==> s in steps;
      Perform(p, After(p, w, steps[..|steps| - 1]), steps[|steps| - 1])
  }

  // ---------------------------------------------------------------------------
  // Keys
  // ---------------------------------------------------------------------------

  /** Every key there ever is, by its id: rotation never gives an id to another key. */
  predicate ValidKeys(keys: map<string, Encryptor>) {
    forall id :: id in keys ==> keys[id].kekId == id && keys[id].Valid()
  }

  predicate Drawn(k: Keyring, keys: map<string, Encryptor>) {
    k.Valid() && forall id :: id in k.encryptors ==> id in keys && k.encryptors[id] == keys[id]
  }

  /** A step may have any arguments, but its keyring has its keys from here, and examples are complete. */
  ghost predicate Sound(p: Primitives, keys: map<string, Encryptor>, s: Step) {
    match s
    case LogSuccess(_, _, _, _, k, _, _) => Drawn(k, keys)
    case LogError(_, _, _, _, _, k, _, _) => Drawn(k, keys)
    case RewrapRun(run) => Drawn(run.k, keys) && run.p == p
    case Redact(_, _, _) => true
    case EditExamples(examples) => forall i :: 0 <= i < |examples| ==> WellFormed(IntentExamples, examples[i])
    case Govern(_, k) => Drawn(k, keys)
  }

  function AllKeys(keys: map<string, Encryptor>): Keyring {
    Keyring("", keys)
  }

  // ---------------------------------------------------------------------------
  // The invariant
  // ---------------------------------------------------------------------------

  /** A log that still has its envelope holds, under the key it names, the query logged for its trace. */
  ghost predicate Faithful(p: Primitives, keys: map<string, Encryptor>, logged: map<string, string>, row: Row) {
    && WellFormed(RuntimeLogs, row)
    && (row.raw.Complete() ==>
          row.id in logged && AllKeys(keys).DecryptText(p, ReadEnvelope(row.raw).value, None) == Ok(logged[row.id]))
  }

  ghost predicate Inv(p: Primitives, keys: map<string, Encryptor>, w: World) {
    && (forall i :: 0 <= i < |w.store.logs| ==> Faithful(p, keys, w.logged, w.store.logs[i]))
    && (forall i :: 0 <= i < |w.store.examples| ==> WellFormed(IntentExamples, w.store.examples[i]))
    && (forall i, j :: 0 <= i < j < |w.store.logs| ==> w.store.logs[i].id != w.store.logs[j].id)
    && (forall id :: id in w.logged ==> HasTrace(w.store.logs, id))
    && GovernanceTheorems.Inv(w.gov)
  }

  /** A keyring drawn from the keys reads an envelope as all keys together do, if it has its key. */
  lemma DrawnReads(p: Primitives, k: Keyring, keys: map<string, Encryptor>, e: EncryptedText)
    requires Drawn(k, keys)
    ensures e.keyId in k.encryptors ==> k.DecryptText(p, e, None) == AllKeys(keys).DecryptText(p, e, None)
    ensures e.keyId !in k.encryptors ==> k.DecryptText(p, e, None).Err?
  {
    hide Encryptor.DecryptText;
  }

  lemma WrittenIsFaithful(p: Primitives, keys: map<string, Encryptor>, k: Keyring, query: string, r: Randomness,
                          row: Row,
                          logged: map<string, string>)
    requires p.Correct() && ValidKeys(keys) && Drawn(k, keys)
    requires k.EncryptText(p, query, None, r).Ok? && row.raw == Stored(k.EncryptText(p, query, None, r).value)
    requires row.deletion.None? && row.id in logged && logged[row.id] == query
    ensures Faithful(p, keys, logged, row)
  {
    hide Encryptor.DecryptText;
    var e := k.EncryptText(p, query, None, r).value;
    assert ReadEnvelope(Stored(e)) == Some(e);
    KeyringRoundTrip(p, k, k, query, None, r);
    DrawnReads(p, k, keys, e);
  }

  /** Rewrapping keeps what a log says. */
  lemma KeptIsFaithful(p: Primitives, keys: map<string, Encryptor>, run: Rewrap.Run, logged: map<string, string>,
                       before: Row, after: Row)
    requires run.Valid() && run.p == p && ValidKeys(keys) && Drawn(run.k, keys)
    requires Faithful(p, keys, logged, before) && RewrapRuns.Kept(run, before, after)
    ensures Faithful(p, keys, logged, after) && after.id == before.id && after.deletion == before.deletion
  {
    hide Encryptor.DecryptText;
    if after != before {
      var reader := Keyring(run.k.activeKeyId, keys);
      assert RewrapRuns.ReadsActive(reader, run.k);
      var e, again := ReadEnvelope(before.raw).value, ReadEnvelope(after.raw).value;
      DrawnReads(p, run.k, keys, e);
      assert reader.DecryptText(p, again, None) == run.k.DecryptText(p, e, None);
      assert AllKeys(keys).DecryptText(p, again, None) == reader.DecryptText(p, again, None);
    }
  }

  // ---------------------------------------------------------------------------
  // Every step keeps it
  // ---------------------------------------------------------------------------

  lemma InsertedRows(logs: seq<Row>, row: Row, at: nat)
    ensures var after := InsertAt(logs, row, at);
            && |after| == |logs| + 1
            && (forall i :: 0 <= i < |after| ==> after[i] == row || after[i] in logs)
            && (forall id :: HasTrace(after, id) <==> HasTrace(logs, id) || id == row.id)
  {
    var after, n := InsertAt(logs, row, at), if at <= |logs| then at else |logs|;
    forall id ensures HasTrace(after, id) <==> HasTrace(logs, id) || id == row.id {
      if HasTrace(logs, id) {
        var i :| 0 <= i < |logs| && logs[i].id == id;
        assert after[if i < n then i else i + 1] == logs[i];
      }
      assert after[n] == row;
    }
  }

  lemma InsertedIds(logs: seq<Row>, row: Row, at: nat)
    requires !HasTrace(logs, row.id)
    requires forall i, j :: 0 <= i < j < |logs| ==> logs[i].id != logs[j].id
    ensures var after := InsertAt(logs, row, at);
            forall i, j :: 0 <= i < j < |after| ==> after[i].id != after[j].id
  {
    var after, n := InsertAt(logs, row, at), if at <= |logs| then at else |logs|;
    forall i, j | 0 <= i < j < |after| ensures after[i].id != after[j].id {
      var x, y := if i < n then i else i - 1, if j < n then j else j - 1;
      if i != n && j != n {
        assert after[i] == logs[x] && after[j] == logs[y];
      } else {
        assert after[if i == n then j else i] == logs[if i == n then y else x];
      }
    }
  }

  lemma InsertKeeps(p: Primitives, keys: map<string, Encryptor>, w: World, row: Row, query: Option<string>, at: nat)
    requires Inv(p, keys, w) && row.deletion.None?
    requires if query.Some? then Faithful(p, keys, w.logged[row.id := query.value], row) else row.raw == NO_RAW
    ensures Inv(p, keys, InsertLog(w, row, query, at))
  {
    hide GovernanceTheorems.Inv, InsertAt, Keyring.DecryptText;
    if !HasTrace(w.store.logs, row.id) {
      var after := InsertLog(w, row, query, at);
      InsertedRows(w.store.logs, row, at);
      InsertedIds(w.store.logs, row, at);
      forall i | 0 <= i < |after.store.logs| ensures Faithful(p, keys, after.logged, after.store.logs[i]) {
        if after.store.logs[i] != row {
          var j :| 0 <= j < |w.store.logs| && w.store.logs[j] == after.store.logs[i];
          assert Faithful(p, keys, w.logged, w.store.logs[j]);
          assert w.store.logs[j].id != row.id;
        }
      }
    }
  }

  /** Steps that only rework the rows in place: same traces, each row as faithful as before. */
  lemma ReworkKeeps(p: Primitives, keys: map<string, Encryptor>, w: World, after: World)
    requires Inv(p, keys, w) && after == w.(store := after.store)
    requires |after.store.logs| == |w.store.logs|
    requires forall i :: 0 <= i < |w.store.logs| ==>
               after.store.logs[i].id == w.store.logs[i].id && Faithful(p, keys, w.logged, after.store.logs[i])
    requires forall i :: 0 <= i < |after.store.examples| ==> WellFormed(IntentExamples, after.store.examples[i])
    ensures Inv(p, keys, after)
  {
    hide GovernanceTheorems.Inv, Faithful, WellFormed;
    forall id | id in w.logged ensures HasTrace(after.store.logs, id) {
      var i :| 0 <= i < |w.store.logs| && w.store.logs[i].id == id;
      assert after.store.logs[i].id == id;
    }
  }

  lemma RewrapKeeps(p: Primitives, keys: map<string, Encryptor>, w: World, run: Rewrap.Run)
    requires p.Correct() && ValidKeys(keys) && Inv(p, keys, w) && Drawn(run.k, keys) && run.p == p
    ensures Inv(p, keys, w.(store := run.After(w.store)))
  {
    hide GovernanceTheorems.Inv, Faithful, RewrapRuns.Kept, Rewrap.Run.After, WellFormed;
    RewrapRuns.RunKeepsRows(run, RuntimeLogs, w.store);
    RewrapRuns.RunKeepsRows(run, IntentExamples, w.store);
    var after := w.(store := run.After(w.store));
    assert w.store.Rows(RuntimeLogs) == w.store.logs && after.store.Rows(RuntimeLogs) == after.store.logs;
    assert w.store.Rows(IntentExamples) == w.store.examples && after.store.Rows(IntentExamples) == after.store.examples;
    forall i | 0 <= i < |w.store.logs|
      ensures after.store.logs[i].id == w.store.logs[i].id && Faithful(p, keys, w.logged, after.store.logs[i])
    {
      KeptIsFaithful(p, keys, run, w.logged, w.store.logs[i], after.store.logs[i]);
    }
    forall i | 0 <= i < |after.store.examples| ensures WellFormed(IntentExamples, after.store.examples[i]) {
      KeptIsWellFormed(run, IntentExamples, w.store.examples[i], after.store.examples[i]);
    }
    ReworkKeeps(p, keys, w, after);
  }

  lemma KeptIsWellFormed(run: Rewrap.Run, t: Table, before: Row, after: Row)
    requires WellFormed(t, before) && RewrapRuns.Kept(run, before, after)
    ensures WellFormed(t, after)
  {
  }

  lemma RedactKeeps(p: Primitives, keys: map<string, Encryptor>, w: World, service: string, ids: set<string>,
                    d: Deletion)
    requires Inv(p, keys, w)
    ensures Inv(p, keys, w.(store := w.store.(logs := Retention.RedactRows(w.store.logs, service, ids, d))))
  {
    hide GovernanceTheorems.Inv, Keyring.DecryptText;
    var after := w.(store := w.store.(logs := Retention.RedactRows(w.store.logs, service, ids, d)));
    forall i | 0 <= i < |w.store.logs|
      ensures after.store.logs[i].id == w.store.logs[i].id && Faithful(p, keys, w.logged, after.store.logs[i])
    {
      Retention.RedactionKeepsRow(w.store.logs[i], service, ids, d);
    }
    ReworkKeeps(p, keys, w, after);
  }

  lemma StepKeeps(p: Primitives, keys: map<string, Encryptor>, w: World, s: Step)
    requires p.Correct() && ValidKeys(keys) && Inv(p, keys, w) && Sound(p, keys, s)
    ensures Inv(p, keys, Perform(p, w, s))
  {
    hide Inv, Faithful, InsertLog, Encryptor.EncryptText, Governance.Perform, GovernanceTheorems.Inv, WellFormed;
    match s {
      case LogSuccess(id, service, createdAt, query, k, r, at) =>
        var e := k.EncryptText(p, query, None, r);
        if e.Ok? {
          var row := Row(id, Some(service), createdAt, Stored(e.value), None);
          WrittenIsFaithful(p, keys, k, query, r, row, w.logged[id := query]);
          InsertKeeps(p, keys, w, row, Some(query), at);
        }
      case LogError(id, service, createdAt, query, encryptRaw, k, r, at) =>
        if encryptRaw && query.Some? {
          var e := k.EncryptText(p, query.value, None, r);
          if e.Ok? {
            var row := Row(id, service, createdAt, Stored(e.value), None);
            WrittenIsFaithful(p, keys, k, query.value, r, row, w.logged[id := query.value]);
            InsertKeeps(p, keys, w, row, query, at);
          }
        } else {
          InsertKeeps(p, keys, w, Row(id, service, createdAt, NO_RAW, None), None, at);
        }
      case RewrapRun(run) => RewrapKeeps(p, keys, w, run);
      case Redact(service, ids, d) => RedactKeeps(p, keys, w, service, ids, d);
      case EditExamples(examples) => ExamplesKeep(p, keys, w, examples);
      case Govern(step, k) => GovernKeeps(p, keys, w, Informed(p, w, step, k));
    }
  }

  lemma ExamplesKeep(p: Primitives, keys: map<string, Encryptor>, w: World, examples: seq<Row>)
    requires Inv(p, keys, w) && forall i :: 0 <= i < |examples| ==> WellFormed(IntentExamples, examples[i])
    ensures Inv(p, keys, w.(store := w.store.(examples := examples)))
  {
    hide GovernanceTheorems.Inv, Faithful, WellFormed;
  }

  lemma GovernKeeps(p: Primitives, keys: map<string, Encryptor>, w: World, step: Governance.Step)
    requires Inv(p, keys, w)
    ensures Inv(p, keys, w.(gov := Governance.Perform(w.gov, step).after))
  {
    hide GovernanceTheorems.Inv, Faithful, WellFormed, Governance.Perform;
    GovernanceRuns.StepKeeps(w.gov, step);
  }

  /** Every sound run keeps the invariant. */
  lemma {:induction false} RunKeeps(p: Primitives, keys: map<string, Encryptor>, w: World, steps: seq<Step>)
    requires p.Correct() && ValidKeys(keys) && Inv(p, keys, w)
    requires forall s :: s in steps ==> Sound(p, keys, s)
    ensures forall s :: s in steps ==> Usable(s)
    ensures Inv(p, keys, After(p, w, steps))
  {
    hide Inv, Perform;
    assert forall s :: s in steps ==> Usable(s);
    if steps != [] {
      RunKeeps(p, keys, w, steps[..|steps| - 1]);
      StepKeeps(p, keys, After(p, w, steps[..|steps| - 1]), steps[|steps| - 1]);
    }
  }

  // ---------------------------------------------------------------------------
  // What a view shows
  // ---------------------------------------------------------------------------

  predicate HasLog(w: World, service: string, traceId: string) {
    exists i :: 0 <= i < |w.store.logs| && w.store.logs[i].id == traceId && w.store.logs[i].serviceId == Some(service)
  }

  /** What the endpoint reads is the query logged for the trace; it reads it exactly if it has the key. */
  lemma ReadMeaning(p: Primitives, keys: map<string, Encryptor>, w: World, k: Keyring, service: string, traceId: string)
    requires Inv(p, keys, w) && Drawn(k, keys)
    ensures var read := ReadLog(p, w, k, service, traceId);
            && (read.Readable? <==>
                  HasLog(w, service, traceId)
                  && var row := LogOf(w.store.logs, service, traceId);
                     row.raw.Complete() && row.raw.keyId.value in k.encryptors)
            && (read.Readable? ==> traceId in w.logged && read.query == w.logged[traceId])
  {
    hide GovernanceTheorems.Inv, Encryptor.DecryptText, LogOf;
    if HasLog(w, service, traceId) {
      var row := LogOf(w.store.logs, service, traceId);
      var i :| 0 <= i < |w.store.logs| && w.store.logs[i] == row;
      assert Faithful(p, keys, w.logged, row);
      if row.raw.Complete() {
        DrawnReads(p, k, keys, ReadEnvelope(row.raw).value);
      }
    }
  }

  predicate IsDecrypt(step: Governance.Step) {
    step.call.CallDecryptQuery?
  }

  function Reply(p: Primitives, w: World, step: Governance.Step, k: Keyring): Result<string, Governance.GovError> {
    Governance.Perform(w.gov, Informed(p, w, step, k)).reply
  }

  /** The checks before the log is read. */
  predicate Permitted(w: World, step: Governance.Step)
    requires IsDecrypt(step)
  {
    && step.call.serviceExists && step.call.presented.Some?
    && Governance.Consumable(w.gov, step.call.presented.value, step.service, step.call.trace, step.now)
    && step.actor.MayUseToken(w.gov.requests[w.gov.tokens[step.call.presented.value].requestId])
  }

  /**
   * A view succeeds exactly where the caller is permitted, the log is there with its envelope, and
   * the keyring still has the key the envelope names; and then it shows the query logged.
   */
  lemma ViewIff(p: Primitives, keys: map<string, Encryptor>, w: World, step: Governance.Step, k: Keyring)
    requires Inv(p, keys, w) && Drawn(k, keys) && IsDecrypt(step)
    ensures var service, trace := step.service, step.call.trace;
            && (Reply(p, w, step, k).Ok? <==>
                  && Permitted(w, step) && HasLog(w, service, trace)
                  && var row := LogOf(w.store.logs, service, trace);
                     row.raw.Complete() && row.raw.keyId.value in k.encryptors)
            && (Reply(p, w, step, k).Ok? ==> trace in w.logged && Reply(p, w, step, k).value == w.logged[trace])
  {
    hide Inv, LogOf, ReadLog, HasLog, Governance.Actor.MayUseToken;
    ReadMeaning(p, keys, w, k, step.service, step.call.trace);
  }

  /** What was logged for a trace is never replaced. */
  lemma StepKeepsLogged(p: Primitives, keys: map<string, Encryptor>, w: World, s: Step, id: string)
    requires Inv(p, keys, w) && Usable(s) && id in w.logged
    ensures id in Perform(p, w, s).logged && Perform(p, w, s).logged[id] == w.logged[id]
  {
    hide GovernanceTheorems.Inv, Faithful, Keyring.EncryptText, Governance.Perform, Rewrap.Run.After;
    assert HasTrace(w.store.logs, id);
  }

  lemma {:induction false} LoggedStays(p: Primitives, keys: map<string, Encryptor>, w: World, steps: seq<Step>,
                                       i: nat, id: string)
    requires p.Correct() && ValidKeys(keys) && Inv(p, keys, w)
    requires forall s :: s in steps ==> Sound(p, keys, s) && Usable(s)
    requires i <= |steps| && id in After(p, w, steps[..i]).logged
    ensures id in After(p, w, steps).logged && After(p, w, steps).logged[id] == After(p, w, steps[..i]).logged[id]
  {
    hide Inv, Perform, Sound, Usable;
    if i == |steps| {
      assert steps[..i] == steps;
    } else {
      var n := |steps| - 1;
      assert steps[..n][..i] == steps[..i];
      LoggedStays(p, keys, w, steps[..n], i, id);
      RunKeeps(p, keys, w, steps[..n]);
      StepKeepsLogged(p, keys, After(p, w, steps[..n]), steps[n], id);
    }
  }

  /** A step of the runtime that logs a raw query: every success, and an error where that is asked for. */
  predicate LogsQuery(s: Step) {
    s.LogSuccess? || (s.LogError? && s.encryptRaw && s.queryRaw.Some?)
  }

  function QueryOf(s: Step): string
    requires LogsQuery(s)
  {
    if s.LogSuccess? then s.query else s.queryRaw.value
  }

  /**
   * End to end: whatever happens between, a view that succeeds shows the very query that the
   * runtime logged for the trace.
   */
  lemma ViewShowsWhatWasLogged(p: Primitives, keys: map<string, Encryptor>, w: World, steps: seq<Step>, i: nat)
    requires p.Correct() && ValidKeys(keys) && Inv(p, keys, w)
    requires forall s :: s in steps ==> Sound(p, keys, s) && Usable(s)
    requires i < |steps| && steps[|steps| - 1].Govern? && IsDecrypt(steps[|steps| - 1].step)
    requires LogsQuery(steps[i]) && steps[i].traceId == steps[|steps| - 1].step.call.trace
    requires !HasTrace(After(p, w, steps[..i]).store.logs, steps[i].traceId) && p.Encode(QueryOf(steps[i])).Some?
    ensures var before, last := After(p, w, steps[..|steps| - 1]), steps[|steps| - 1];
            Reply(p, before, last.step, last.k).Ok? ==> Reply(p, before, last.step, last.k).value == QueryOf(steps[i])
  {
    hide Inv, Perform, Reply, Sound, Usable, HasTrace, LogOf, Permitted;
    var n := |steps| - 1;
    var id := steps[i].traceId;
    assert steps[..i + 1][..i] == steps[..i] && steps[..n][..i + 1] == steps[..i + 1];
    RunKeeps(p, keys, w, steps[..i]);
    RunKeeps(p, keys, w, steps[..n]);
    LoggedAtOnce(p, keys, After(p, w, steps[..i]), steps[i]);
    LoggedStays(p, keys, w, steps[..n], i + 1, id);
    SoundKeyring(p, keys, steps[n]);
    ViewIff(p, keys, After(p, w, steps[..n]), steps[n].step, steps[n].k);
  }

  lemma LoggedAtOnce(p: Primitives, keys: map<string, Encryptor>, w: World, s: Step)
    requires p.Correct() && LogsQuery(s) && Sound(p, keys, s) && Usable(s)
    requires !HasTrace(w.store.logs, s.traceId) && p.Encode(QueryOf(s)).Some?
    ensures s.traceId in Perform(p, w, s).logged && Perform(p, w, s).logged[s.traceId] == QueryOf(s)
  {
    hide Encryptor.EncryptText;
    KeyringRoundTrip(p, s.k, s.k, QueryOf(s), None, s.r);
  }

  lemma SoundKeyring(p: Primitives, keys: map<string, Encryptor>, s: Step)
    requires s.Govern? && Sound(p, keys, s)
    ensures Drawn(s.k, keys)
  {
  }

  // ---------------------------------------------------------------------------
  // A logged query can be viewed
  // ---------------------------------------------------------------------------

  function ServiceOf(s: Step): Option<string>
    requires LogsQuery(s)
  {
    if s.LogSuccess? then Some(s.serviceId) else s.service
  }

  /** The row of a trace that still has its envelope, under one of these keys. */
  predicate Readable(row: Row, service: Option<string>, id: string, ids: set<string>) {
    row.id == id && row.serviceId == service && row.deletion == None && row.raw.Complete() && row.raw.keyId.value in ids
  }

  predicate Alive(w: World, service: Option<string>, id: string, ids: set<string>) {
    exists i :: 0 <= i < |w.store.logs| && Readable(w.store.logs[i], service, id, ids)
  }

  /** What is logged for a new trace is stored, all of it, under the writer's active key, and reads as the query. */
  lemma LoggedIsStored(p: Primitives, w: World, s: Step)
    requires p.Correct() && LogsQuery(s) && Usable(s)
    requires !HasTrace(w.store.logs, s.traceId) && p.Encode(QueryOf(s)).Some?
    ensures exists i :: 0 <= i < |Perform(p, w, s).store.logs| &&
              var row := Perform(p, w, s).store.logs[i];
              && Readable(row, ServiceOf(s), s.traceId, {s.k.activeKeyId}) && row.createdAt == s.createdAt
              && s.k.DecryptText(p, ReadEnvelope(row.raw).value, None) == Ok(QueryOf(s))
    ensures Alive(Perform(p, w, s), ServiceOf(s), s.traceId, {s.k.activeKeyId})
  {
    hide Encryptor.EncryptText, Encryptor.DecryptText;
    KeyringRoundTrip(p, s.k, s.k, QueryOf(s), None, s.r);
    var e := s.k.EncryptText(p, QueryOf(s), None, s.r).value;
    assert ReadEnvelope(Stored(e)) == Some(e);
    var row := Row(s.traceId, ServiceOf(s), s.createdAt, Stored(e), None);
    var n := if s.at <= |w.store.logs| then s.at else |w.store.logs|;
    assert Perform(p, w, s).store.logs == InsertAt(w.store.logs, row, s.at);
    assert Perform(p, w, s).store.logs[n] == row;
    assert Readable(row, ServiceOf(s), s.traceId, {s.k.activeKeyId});
  }

  /** A redaction that asks for the trace of this service. */
  predicate Erases(s: Step, service: Option<string>, id: string) {
    s.Redact? && Some(s.redactService) == service && id in s.traceIds
  }

  /** The keys an envelope may be under after a step. */
  function KeysAfter(s: Step, ids: set<string>): set<string> {
    if s.RewrapRun? then ids + {s.run.k.activeKeyId} else ids
  }

  lemma InsertKeepsAlive(w: World, row: Row, query: Option<string>, at: nat, service: Option<string>, id: string,
                         ids: set<string>)
    requires Alive(w, service, id, ids)
    ensures Alive(InsertLog(w, row, query, at), service, id, ids)
  {
    hide Readable;
    var after := InsertLog(w, row, query, at);
    var i :| 0 <= i < |w.store.logs| && Readable(w.store.logs[i], service, id, ids);
    if after != w {
      var n := if at <= |w.store.logs| then at else |w.store.logs|;
      assert after.store.logs[if i < n then i else i + 1] == w.store.logs[i];
    }
  }

  /** Whatever else happens, the envelope stays, or is renewed under the active key of a rewrap run. */
  lemma StepKeepsAlive(p: Primitives, keys: map<string, Encryptor>, w: World, s: Step, service: Option<string>,
                       id: string, ids: set<string>)
    requires p.Correct() && Sound(p, keys, s) && Usable(s) && Alive(w, service, id, ids) && !Erases(s, service, id)
    ensures Alive(Perform(p, w, s), service, id, KeysAfter(s, ids))
  {
    hide Encryptor.EncryptText, Governance.Perform, InsertLog, Rewrap.Run.After, RewrapRuns.Kept, Readable;
    var i :| 0 <= i < |w.store.logs| && Readable(w.store.logs[i], service, id, ids);
    match s {
      case LogSuccess(x, service', createdAt, query, k, r, at) =>
        var e := k.EncryptText(p, query, None, r);
        if e.Ok? {
          var row := Row(x, Some(service'), createdAt, Stored(e.value), None);
          InsertKeepsAlive(w, row, Some(query), at, service, id, ids);
        }
      case LogError(x, service', createdAt, query, encryptRaw, k, r, at) =>
        InsertKeepsAlive(w, Row(x, service', createdAt, NO_RAW, None), None, at, service, id, ids);
        if encryptRaw && query.Some? && k.EncryptText(p, query.value, None, r).Ok? {
          var e := k.EncryptText(p, query.value, None, r).value;
          InsertKeepsAlive(w, Row(x, service', createdAt, Stored(e), None), query, at, service, id, ids);
        }
      case RewrapRun(run) =>
        RewrapRuns.RunKeepsRows(run, RuntimeLogs, w.store);
        assert w.store.Rows(RuntimeLogs) == w.store.logs;
        assert RewrapRuns.Kept(run, w.store.logs[i], run.After(w.store).Rows(RuntimeLogs)[i]);
        KeptReadable(run, w.store.logs[i], run.After(w.store).logs[i], service, id, ids);
      case Redact(redacting, traceIds, d) =>
        var after := Retention.RedactRows(w.store.logs, redacting, traceIds, d);
        UnredactedStays(w.store.logs[i], service, id, ids, redacting, traceIds, d);
        assert Readable(after[i], service, id, ids);
      case _ =>
    }
  }

  lemma KeptReadable(run: Rewrap.Run, before: Row, after: Row, service: Option<string>, id: string, ids: set<string>)
    requires RewrapRuns.Kept(run, before, after) && Readable(before, service, id, ids)
    ensures Readable(after, service, id, ids + {run.k.activeKeyId})
  {
  }

  lemma UnredactedStays(row: Row, service: Option<string>, id: string, ids: set<string>, redacting: string,
                        traceIds: set<string>, d: Deletion)
    requires Readable(row, service, id, ids) && !(Some(redacting) == service && id in traceIds)
    ensures Retention.RedactRow(row, redacting, traceIds, d) == row
  {
  }

  /** The active keys of the rewrap runs from step i on. */
  function RewrapKeys(steps: seq<Step>, i: nat): set<string> {
    set j | i <= j < |steps| && steps[j].RewrapRun? :: steps[j].run.k.activeKeyId
  }

  lemma {:induction false} AliveStays(p: Primitives, keys: map<string, Encryptor>, w: World, steps: seq<Step>, i: nat,
                                      service: Option<string>, id: string, ids: set<string>)
    requires p.Correct() && i <= |steps| && forall s :: s in steps ==> Sound(p, keys, s) && Usable(s)
    requires Alive(After(p, w, steps[..i]), service, id, ids)
    requires forall j :: i <= j < |steps| ==> !Erases(steps[j], service, id)
    ensures Alive(After(p, w, steps), service, id, ids + RewrapKeys(steps, i))
  {
    hide Perform, Sound, Usable, Alive, Erases;
    if i == |steps| {
      assert steps[..i] == steps;
      assert ids + RewrapKeys(steps, i) == ids;
    } else {
      var n := |steps| - 1;
      assert steps[..n][..i] == steps[..i];
      AliveStays(p, keys, w, steps[..n], i, service, id, ids);
      StepKeepsAlive(p, keys, After(p, w, steps[..n]), steps[n], service, id, ids + RewrapKeys(steps[..n], i));
      RewrapKeysStep(steps, i);
      assert KeysAfter(steps[n], ids + RewrapKeys(steps[..n], i)) == ids + RewrapKeys(steps, i);
    }
  }

  lemma RewrapKeysStep(steps: seq<Step>, i: nat)
    requires i < |steps|
    ensures var n := |steps| - 1;
            RewrapKeys(steps, i) == RewrapKeys(steps[..n], i) + KeysAfter(steps[n], {})
  {
    var n := |steps| - 1;
    forall x ensures x in RewrapKeys(steps, i) <==> x in RewrapKeys(steps[..n], i) + KeysAfter(steps[n], {}) {
      if x in RewrapKeys(steps, i) {
        var j :| i <= j < |steps| && steps[j].RewrapRun? && steps[j].run.k.activeKeyId == x;
        if j < n {
          assert steps[..n][j] == steps[j];
        }
      }
      if x in RewrapKeys(steps[..n], i) {
        var j :| i <= j < n && steps[..n][j].RewrapRun? && steps[..n][j].run.k.activeKeyId == x;
        assert steps[j].run.k.activeKeyId == x;
      }
    }
  }

  /** The one row of a trace is the one the endpoint finds. */
  lemma AliveIsFound(p: Primitives, keys: map<string, Encryptor>, w: World, service: string, id: string,
                     ids: set<string>)
    requires Inv(p, keys, w) && Alive(w, Some(service), id, ids)
    ensures HasLog(w, service, id) && Readable(LogOf(w.store.logs, service, id), Some(service), id, ids)
  {
    hide GovernanceTheorems.Inv, Faithful, LogOf;
    var i :| 0 <= i < |w.store.logs| && Readable(w.store.logs[i], Some(service), id, ids);
    var row := LogOf(w.store.logs, service, id);
    var j :| 0 <= j < |w.store.logs| && w.store.logs[j] == row;
    assert i == j;
  }

  /**
   * End to end: a query logged for a new trace, on which no redaction has been asked for since, is
   * shown by exactly the permitted views under a keyring that has the key its envelope is under by
   * then: the writer's active key, or the active key of a rewrap run in between.
   */
  lemma LoggedCanBeViewed(p: Primitives, keys: map<string, Encryptor>, w: World, steps: seq<Step>, i: nat)
    requires p.Correct() && ValidKeys(keys) && Inv(p, keys, w)
    requires forall s :: s in steps ==> Sound(p, keys, s) && Usable(s)
    requires i < |steps| - 1 && steps[|steps| - 1].Govern? && IsDecrypt(steps[|steps| - 1].step)
    requires LogsQuery(steps[i]) && steps[i].traceId == steps[|steps| - 1].step.call.trace
    requires ServiceOf(steps[i]) == Some(steps[|steps| - 1].step.service)
    requires !HasTrace(After(p, w, steps[..i]).store.logs, steps[i].traceId) && p.Encode(QueryOf(steps[i])).Some?
    requires forall j :: i < j < |steps| ==> !Erases(steps[j], ServiceOf(steps[i]), steps[i].traceId)
    ensures Shows(p, After(p, w, steps[..|steps| - 1]), steps[|steps| - 1],
                  {steps[i].k.activeKeyId} + RewrapKeys(steps, i + 1), QueryOf(steps[i]))
  {
    hide Inv, Perform, Sound, Usable, HasTrace, Alive, Erases, Shows, RewrapKeys;
    var n := |steps| - 1;
    RunKeeps(p, keys, w, steps[..n]);
    LoggedStaysAlive(p, keys, w, steps, i);
    SoundKeyring(p, keys, steps[n]);
    ShowsAlive(p, keys, After(p, w, steps[..n]), steps[n], {steps[i].k.activeKeyId} + RewrapKeys(steps, i + 1));
  }

  /** Up to the last step, the log is there with its envelope, and what was logged is known. */
  lemma LoggedStaysAlive(p: Primitives, keys: map<string, Encryptor>, w: World, steps: seq<Step>, i: nat)
    requires p.Correct() && ValidKeys(keys) && Inv(p, keys, w)
    requires forall s :: s in steps ==> Sound(p, keys, s) && Usable(s)
    requires i < |steps| - 1 && !steps[|steps| - 1].RewrapRun? && LogsQuery(steps[i])
    requires !HasTrace(After(p, w, steps[..i]).store.logs, steps[i].traceId) && p.Encode(QueryOf(steps[i])).Some?
    requires forall j :: i < j < |steps| ==> !Erases(steps[j], ServiceOf(steps[i]), steps[i].traceId)
    ensures var before, id := After(p, w, steps[..|steps| - 1]), steps[i].traceId;
            && Alive(before, ServiceOf(steps[i]), id, {steps[i].k.activeKeyId} + RewrapKeys(steps, i + 1))
            && id in before.logged && before.logged[id] == QueryOf(steps[i])
  {
    hide Inv, Perform, Sound, Usable, HasTrace, Alive, Erases, RewrapKeys;
    var n := |steps| - 1;
    var first := After(p, w, steps[..i]);
    assert steps[..i + 1][..i] == steps[..i] && steps[..n][..i + 1] == steps[..i + 1];
    assert After(p, w, steps[..i + 1]) == Perform(p, first, steps[i]);
    RunKeeps(p, keys, w, steps[..i]);
    LoggedAtOnce(p, keys, first, steps[i]);
    LoggedStays(p, keys, w, steps[..n], i + 1, steps[i].traceId);
    LoggedIsStored(p, first, steps[i]);
    AliveStays(p, keys, w, steps[..n], i + 1, ServiceOf(steps[i]), steps[i].traceId, {steps[i].k.activeKeyId});
    assert RewrapKeys(steps, i + 1) == RewrapKeys(steps[..n], i + 1) by { RewrapKeysStep(steps, i + 1); }
  }

  /**
   * What the view of a log shows: the log is there with its envelope, under one of these keys, and
   * the reply is the query exactly for a permitted caller and a keyring with that key.
   */
  ghost predicate Shows(p: Primitives, w: World, view: Step, ids: set<string>, query: string)
    requires view.Govern? && IsDecrypt(view.step)
  {
    var service, trace, reply := view.step.service, view.step.call.trace, Reply(p, w, view.step, view.k);
    && HasLog(w, service, trace)
    && var row := LogOf(w.store.logs, service, trace);
       && row.raw.Complete() && row.raw.keyId.value in ids
       && (reply == Ok(query) <==> Permitted(w, view.step) && row.raw.keyId.value in view.k.encryptors)
       && (reply.Err? <==> !(Permitted(w, view.step) && row.raw.keyId.value in view.k.encryptors))
  }

  lemma ShowsAlive(p: Primitives, keys: map<string, Encryptor>, w: World, view: Step, ids: set<string>)
    requires Inv(p, keys, w) && view.Govern? && IsDecrypt(view.step) && Drawn(view.k, keys)
    requires Alive(w, Some(view.step.service), view.step.call.trace, ids) && view.step.call.trace in w.logged
    ensures Shows(p, w, view, ids, w.logged[view.step.call.trace])
  {
    hide Inv, Alive, Reply, Permitted, LogOf, HasLog, Drawn;
    AliveIsFound(p, keys, w, view.step.service, view.step.call.trace, ids);
    ViewIff(p, keys, w, view.step, view.k);
  }

  // ---------------------------------------------------------------------------
  // Redaction is final
  // ---------------------------------------------------------------------------

  predicate Redacted(w: World, traceId: string) {
    exists i :: 0 <= i < |w.store.logs| && w.store.logs[i].id == traceId && w.store.logs[i].deletion.Some?
  }

  /** A redaction that asks for the trace of a log redacts it. */
  lemma RedactionRedacts(p: Primitives, w: World, s: Step, service: Option<string>, id: string, ids: set<string>)
    requires Usable(s) && Alive(w, service, id, ids) && Erases(s, service, id)
    ensures Redacted(Perform(p, w, s), id)
  {
    var i :| 0 <= i < |w.store.logs| && Readable(w.store.logs[i], service, id, ids);
    var after := Retention.RedactRows(w.store.logs, s.redactService, s.traceIds, s.d);
    assert after[i] == Retention.RedactRow(w.store.logs[i], s.redactService, s.traceIds, s.d);
  }

  lemma InsertKeepsRedacted(w: World, row: Row, query: Option<string>, at: nat, id: string)
    requires Redacted(w, id)
    ensures Redacted(InsertLog(w, row, query, at), id)
  {
    var after := InsertLog(w, row, query, at);
    var i :| 0 <= i < |w.store.logs| && w.store.logs[i].id == id && w.store.logs[i].deletion.Some?;
    if after != w {
      var n := if at <= |w.store.logs| then at else |w.store.logs|;
      assert after.store.logs[if i < n then i else i + 1] == w.store.logs[i];
    }
  }

  lemma StepKeepsRedacted(p: Primitives, keys: map<string, Encryptor>, w: World, s: Step, id: string)
    requires p.Correct() && Sound(p, keys, s) && Usable(s) && Redacted(w, id)
    ensures Redacted(Perform(p, w, s), id)
  {
    hide Encryptor.EncryptText, Governance.Perform, InsertLog, Rewrap.Run.After, RewrapRuns.Kept;
    var i :| 0 <= i < |w.store.logs| && w.store.logs[i].id == id && w.store.logs[i].deletion.Some?;
    match s {
      case LogSuccess(x, service, createdAt, query, k, r, at) =>
        var e := k.EncryptText(p, query, None, r);
        if e.Ok? {
          InsertKeepsRedacted(w, Row(x, Some(service), createdAt, Stored(e.value), None), Some(query), at, id);
        }
      case LogError(x, service, createdAt, query, encryptRaw, k, r, at) =>
        InsertKeepsRedacted(w, Row(x, service, createdAt, NO_RAW, None), None, at, id);
        if encryptRaw && query.Some? && k.EncryptText(p, query.value, None, r).Ok? {
          var e := k.EncryptText(p, query.value, None, r).value;
          InsertKeepsRedacted(w, Row(x, service, createdAt, Stored(e), None), query, at, id);
        }
      case RewrapRun(run) =>
        RewrapRuns.RunKeepsRows(run, RuntimeLogs, w.store);
        assert w.store.Rows(RuntimeLogs) == w.store.logs;
        assert RewrapRuns.Kept(run, w.store.logs[i], run.After(w.store).Rows(RuntimeLogs)[i]);
        KeptDeletion(run, w.store.logs[i], run.After(w.store).logs[i]);
      case Redact(service, ids, d) =>
        var after := Retention.RedactRows(w.store.logs, service, ids, d);
        assert after[i] == Retention.RedactRow(w.store.logs[i], service, ids, d);
      case _ =>
    }
  }

  lemma KeptDeletion(run: Rewrap.Run, before: Row, after: Row)
    requires RewrapRuns.Kept(run, before, after)
    ensures after.deletion == before.deletion && after.id == before.id
  {
  }

  lemma {:induction false} RedactedStays(p: Primitives, keys: map<string, Encryptor>, w: World,
                                         steps: seq<Step>, i: nat, id: string)
    requires p.Correct() && i <= |steps| && forall s :: s in steps ==> Sound(p, keys, s) && Usable(s)
    requires Redacted(After(p, w, steps[..i]), id)
    ensures Redacted(After(p, w, steps), id)
  {
    hide Perform, Sound, Usable, Redacted;
    if i == |steps| {
      assert steps[..i] == steps;
    } else {
      var n := |steps| - 1;
      assert steps[..n][..i] == steps[..i];
      RedactedStays(p, keys, w, steps[..n], i, id);
      StepKeepsRedacted(p, keys, After(p, w, steps[..n]), steps[n], id);
    }
  }

  /** Once a trace is redacted, no later view of it succeeds, under any keyring. */
  lemma RedactedIsNeverViewed(p: Primitives, keys: map<string, Encryptor>, w: World, steps: seq<Step>, i: nat)
    requires p.Correct() && ValidKeys(keys) && Inv(p, keys, w)
    requires forall s :: s in steps ==> Sound(p, keys, s) && Usable(s)
    requires i < |steps| && steps[|steps| - 1].Govern? && IsDecrypt(steps[|steps| - 1].step)
    requires Redacted(After(p, w, steps[..i]), steps[|steps| - 1].step.call.trace)
    ensures var before, last := After(p, w, steps[..|steps| - 1]), steps[|steps| - 1];
            Reply(p, before, last.step, last.k).Err?
  {
    hide Inv, Perform, Reply, Sound, Usable, Redacted, LogOf, Permitted;
    var n := |steps| - 1;
    assert steps[..n][..i] == steps[..i];
    RunKeeps(p, keys, w, steps[..n]);
    RedactedStays(p, keys, w, steps[..n], i, steps[n].step.call.trace);
    var before := After(p, w, steps[..n]);
    var last := steps[n];
    SoundKeyring(p, keys, last);
    ViewIff(p, keys, before, last.step, last.k);
    if HasLog(before, last.step.service, last.step.call.trace) {
      RedactedRowIsEmpty(p, keys, before, last.step.service, last.step.call.trace);
    }
  }

  lemma RedactedRowIsEmpty(p: Primitives, keys: map<string, Encryptor>, w: World, service: string, id: string)
    requires Inv(p, keys, w) && Redacted(w, id) && HasLog(w, service, id)
    ensures !LogOf(w.store.logs, service, id).raw.Complete()
  {
    hide GovernanceTheorems.Inv, Keyring.DecryptText, LogOf;
    var row := LogOf(w.store.logs, service, id);
    var j :| 0 <= j < |w.store.logs| && w.store.logs[j] == row;
    var i :| 0 <= i < |w.store.logs| && w.store.logs[i].id == id && w.store.logs[i].deletion.Some?;
    assert i == j;
    assert Faithful(p, keys, w.logged, w.store.logs[i]);
  }

  /** Runs may start from nothing. */
  lemma EmptyWorld(p: Primitives, keys: map<string, Encryptor>, gov: Governance.Gov)
    requires GovernanceRuns.Initial(gov)
    ensures Inv(p, keys, World(Store([], []), gov, map[]))
  {
    GovernanceRuns.InitialInv(gov);
  }

  /** The governed calls of a run, each with the log it read. */
  function Calls(p: Primitives, w: World, steps: seq<Step>): seq<Governance.Step>
    requires forall s :: s in steps ==> Usable(s)
  {
    if steps == [] then []
    else
      var n := |steps| - 1;
      assert forall s :: s in steps[..n] ==> s in steps;
      Calls(p, w, steps[..n])
      + if steps[n].Govern? then [Informed(p, After(p, w, steps[..n]), steps[n].step, steps[n].k)] else []
  }

  /** The governed records go through a governed run, so all that holds of those runs holds here. */
  lemma {:induction false} GovernedRun(p: Primitives, w: World, steps: seq<Step>)
    requires forall s :: s in steps ==> Usable(s)
    ensures After(p, w, steps).gov == Governance.After(w.gov, Calls(p, w, steps))
  {
    hide Usable, Governance.Perform, Informed, InsertLog, Rewrap.Run.After, Keyring.EncryptText;
    if steps != [] {
      var n := |steps| - 1;
      GovernedRun(p, w, steps[..n]);
      GovOfStep(p, After(p, w, steps[..n]), steps[n]);
      var calls := Calls(p, w, steps[..n]);
      if steps[n].Govern? {
        var call := Informed(p, After(p, w, steps[..n]), steps[n].step, steps[n].k);
        assert (calls + [call])[..|calls|] == calls;
      } else {
        assert calls + [] == calls;
      }
    }
  }

  lemma GovOfStep(p: Primitives, w: World, s: Step)
    requires Usable(s)
    ensures Perform(p, w, s).gov ==
            if s.Govern? then Governance.Perform(w.gov, Informed(p, w, s.step, s.k)).after else w.gov
  {
    hide Governance.Perform, Informed, Rewrap.Run.After, Keyring.EncryptText;
  }
}
