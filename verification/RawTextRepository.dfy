/** The stored records and the queries on them (db/models.py, db/repositories.py, security/rewrap.py). */
module RawTextRepository {
  import opened Wrappers
  import opened Encryption
  import opened RawText
  import opened Rewrap
  import RewrapTheorems

  class IntentExample {
    const exampleId: string
    const serviceId: string
    const createdAt: int
    var ciphertext: Bytes
    var encryptedDek: Bytes
    var encryptedDekIv: Bytes
    var encryptedDekAuthTag: Bytes
    var keyId: string
    var iv: Bytes
    var authTag: Bytes
    var algorithm: string

    constructor (exampleId: string, serviceId: string, createdAt: int, e: EncryptedText)
      ensures View() == Row(exampleId, Some(serviceId), createdAt, Stored(e), None)
    {
      this.exampleId, this.serviceId, this.createdAt := exampleId, serviceId, createdAt;
      ciphertext, encryptedDek, encryptedDekIv, encryptedDekAuthTag :=
        e.ciphertext, e.encryptedDek, e.encryptedDekIv, e.encryptedDekAuthTag;
      keyId, iv, authTag, algorithm := e.keyId, e.iv, e.authTag, e.algorithm;
    }

    function Envelope(): EncryptedText
      reads this
    {
      EncryptedText(ciphertext, encryptedDek, keyId, iv, authTag, algorithm, encryptedDekIv, encryptedDekAuthTag)
    }

    function View(): (row: Row)
      reads this
      ensures WellFormed(IntentExamples, row)
      ensures ReadEnvelope(row.raw) == Some(Envelope())
    {
      Row(exampleId, Some(serviceId), createdAt, Stored(Envelope()), None)
    }

    method ApplyEncryptedText(e: EncryptedText)
      modifies this
      ensures View() == old(View()).(raw := Stored(e))
    {
      ciphertext := e.ciphertext;
      encryptedDek := e.encryptedDek;
      encryptedDekIv := e.encryptedDekIv;
      encryptedDekAuthTag := e.encryptedDekAuthTag;
      keyId := e.keyId;
      iv := e.iv;
      authTag := e.authTag;
      algorithm := e.algorithm;
    }
  }

  class RuntimeLog {
    const traceId: string
    const serviceId: Option<string>
    const createdAt: int
    var ciphertext: Option<Bytes>
    var encryptedDek: Option<Bytes>
    var encryptedDekIv: Option<Bytes>
    var encryptedDekAuthTag: Option<Bytes>
    var keyId: Option<string>
    var iv: Option<Bytes>
    var authTag: Option<Bytes>
    var algorithm: Option<string>
    var deletion: Option<Deletion>

    /** A log is written with all raw columns or with none. */
    constructor (traceId: string, serviceId: Option<string>, createdAt: int, encrypted: Option<EncryptedText>)
      ensures View() == Row(traceId, serviceId, createdAt,
                            if encrypted.Some? then Stored(encrypted.value) else NO_RAW, None)
      ensures WellFormed(RuntimeLogs, View())
    {
      this.traceId, this.serviceId, this.createdAt := traceId, serviceId, createdAt;
      ciphertext := if encrypted.Some? then Some(encrypted.value.ciphertext) else None;
      encryptedDek := if encrypted.Some? then Some(encrypted.value.encryptedDek) else None;
      encryptedDekIv := if encrypted.Some? then Some(encrypted.value.encryptedDekIv) else None;
      encryptedDekAuthTag := if encrypted.Some? then Some(encrypted.value.encryptedDekAuthTag) else None;
      keyId := if encrypted.Some? then Some(encrypted.value.keyId) else None;
      iv := if encrypted.Some? then Some(encrypted.value.iv) else None;
      authTag := if encrypted.Some? then Some(encrypted.value.authTag) else None;
      algorithm := if encrypted.Some? then Some(encrypted.value.algorithm) else None;
      deletion := None;
    }

    function View(): Row
      reads this
    {
      Row(traceId, serviceId, createdAt,
          RawColumns(ciphertext, encryptedDek, encryptedDekIv, encryptedDekAuthTag, keyId, iv, authTag, algorithm),
          deletion)
    }

    method ApplyEncryptedQuery(e: EncryptedText)
      modifies this
      ensures View() == old(View()).(raw := Stored(e))
    {
      ciphertext := Some(e.ciphertext);
      encryptedDek := Some(e.encryptedDek);
      encryptedDekIv := Some(e.encryptedDekIv);
      encryptedDekAuthTag := Some(e.encryptedDekAuthTag);
      keyId := Some(e.keyId);
      iv := Some(e.iv);
      authTag := Some(e.authTag);
      algorithm := Some(e.algorithm);
    }

    method EraseRawQuery(d: Deletion)
      modifies this
      ensures View() == old(View()).(raw := NO_RAW, deletion := Some(d))
    {
      ciphertext, encryptedDek, encryptedDekIv, encryptedDekAuthTag := None, None, None, None;
      keyId, iv, authTag, algorithm := None, None, None, None;
      deletion := Some(d);
    }
  }

  datatype AuditLog = AuditLog(eventType: string, actorId: string, serviceId: string, targetId: string, createdAt: int)

  datatype RewrapRun = RewrapRun(
    serviceId: string,
    targetKeyId: string,
    sourceKeyIds: set<string>,
    dryRun: bool,
    status: Option<RunStatus>,
    counts: Tally)

  function ExampleViews(records: seq<IntentExample>): (rows: seq<Row>)
    reads records
    ensures |rows| == |records| && forall i :: 0 <= i < |rows| ==> rows[i] == records[i].View()
  {
    if records == [] then []
    else ExampleViews(records[..|records| - 1]) + [records[|records| - 1].View()]
  }

  function LogViews(records: seq<RuntimeLog>): (rows: seq<Row>)
    reads records
    ensures |rows| == |records| && forall i :: 0 <= i < |rows| ==> rows[i] == records[i].View()
  {
    if records == [] then []
    else LogViews(records[..|records| - 1]) + [records[|records| - 1].View()]
  }

  predicate Distinct<T(==)>(s: seq<T>) {
    forall i, j :: 0 <= i < j < |s| ==> s[i] != s[j]
  }

  function Pick<T>(s: seq<T>, positions: seq<nat>): (picked: seq<T>)
    requires forall j :: 0 <= j < |positions| ==> positions[j] < |s|
    ensures |picked| == |positions| && forall j :: 0 <= j < |picked| ==> picked[j] == s[positions[j]]
  {
    seq(|positions|, j requires 0 <= j < |positions| => s[positions[j]])
  }

  lemma PickedAreDistinct<T>(s: seq<T>, positions: seq<nat>)
    requires Distinct(s)
    requires forall j :: 0 <= j < |positions| ==> positions[j] < |s|
    requires forall i, j :: 0 <= i < j < |positions| ==> positions[i] < positions[j]
    ensures Distinct(Pick(s, positions))
  {
  }

  /** The tables, each in the order its queries list it. */
  class Repository {
    var examples: seq<IntentExample>
    var logs: seq<RuntimeLog>
    var rewrapRuns: seq<RewrapRun>
    var auditLogs: seq<AuditLog>

    constructor ()
      ensures Valid() && View() == Store([], []) && rewrapRuns == [] && auditLogs == []
    {
      examples, logs, rewrapRuns, auditLogs := [], [], [], [];
    }

    predicate Valid()
      reads this
    {
      Distinct(examples) && Distinct(logs)
    }

    function View(): Store
      reads this, examples, logs
    {
      Store(ExampleViews(examples), LogViews(logs))
    }

    method ListIntentExamplesForRewrap(service: string, keyIds: set<string>,
                                       limit: nat) returns (result: seq<IntentExample>)
      requires Valid()
      ensures var chosen := Chosen(Listing(IntentExamples, service, keyIds), View().examples, limit);
              result == Pick(examples, chosen) && Distinct(result)
    {
      ghost var sel, rows := Listing(IntentExamples, service, keyIds), View().examples;
      result := [];
      for i := 0 to |examples|
        invariant result == Pick(examples, Chosen(sel, rows[..i], limit))
      {
        assert rows[..i + 1][..i] == rows[..i];
        if |result| < limit && ListedForRewrap(IntentExamples, examples[i].View(), service, keyIds) {
          result := result + [examples[i]];
        }
      }
      assert rows[..|examples|] == rows;
      RewrapTheorems.ChosenIsFirst(sel, rows, limit);
      PickedAreDistinct(examples, Chosen(sel, rows, limit));
    }

    method ListRuntimeLogsForRewrap(service: string, keyIds: set<string>, limit: nat) returns (result: seq<RuntimeLog>)
      requires Valid()
      ensures var chosen := Chosen(Listing(RuntimeLogs, service, keyIds), View().logs, limit);
              result == Pick(logs, chosen) && Distinct(result)
    {
      ghost var sel, rows := Listing(RuntimeLogs, service, keyIds), View().logs;
      result := [];
      for i := 0 to |logs|
        invariant result == Pick(logs, Chosen(sel, rows[..i], limit))
      {
        assert rows[..i + 1][..i] == rows[..i];
        if |result| < limit && ListedForRewrap(RuntimeLogs, logs[i].View(), service, keyIds) {
          result := result + [logs[i]];
        }
      }
      assert rows[..|logs|] == rows;
      RewrapTheorems.ChosenIsFirst(sel, rows, limit);
      PickedAreDistinct(logs, Chosen(sel, rows, limit));
    }
  }
}
