/**
 * The stored form of raw text: eight columns of an intent example or a runtime log, how they are
 * read, listed and counted (security/rewrap.py, db/repositories.py).
 */
module RawText {
  import opened Wrappers
  import opened Encryption

  datatype RawColumns = RawColumns(
    ciphertext: Option<Bytes>,
    encryptedDek: Option<Bytes>,
    encryptedDekIv: Option<Bytes>,
    encryptedDekAuthTag: Option<Bytes>,
    keyId: Option<string>,
    iv: Option<Bytes>,
    authTag: Option<Bytes>,
    algorithm: Option<string>)
  {
    predicate Complete() {
      && ciphertext.Some? && encryptedDek.Some? && encryptedDekIv.Some? && encryptedDekAuthTag.Some?
      && keyId.Some? && iv.Some? && authTag.Some? && algorithm.Some?
    }

    predicate AnyMaterial() {
      || ciphertext.Some? || encryptedDek.Some? || encryptedDekIv.Some? || encryptedDekAuthTag.Some?
      || keyId.Some? || iv.Some? || authTag.Some? || algorithm.Some?
    }
  }

  const NO_RAW := RawColumns(None, None, None, None, None, None, None, None)

  function Stored(e: EncryptedText): RawColumns {
    RawColumns(Some(e.ciphertext), Some(e.encryptedDek), Some(e.encryptedDekIv), Some(e.encryptedDekAuthTag),
               Some(e.keyId), Some(e.iv), Some(e.authTag), Some(e.algorithm))
  }

  function ReadEnvelope(raw: RawColumns): (e: Option<EncryptedText>)
    ensures e.Some? <==> raw.Complete()
    ensures e.Some? ==> Stored(e.value) == raw
  {
    if !raw.Complete() then None
    else
      Some(EncryptedText(raw.ciphertext.value, raw.encryptedDek.value, raw.keyId.value, raw.iv.value,
                         raw.authTag.value, raw.algorithm.value, raw.encryptedDekIv.value,
                         raw.encryptedDekAuthTag.value))
  }

  datatype Deletion = Deletion(at: int, actor: string, reason: string)

  datatype Row = Row(
    id: string,
    serviceId: Option<string>,
    createdAt: int,
    raw: RawColumns,
    deletion: Option<Deletion>)

  datatype Table = IntentExamples | RuntimeLogs

  /**
   * What every writer keeps: the eight columns are all there or all absent, a deleted row has none,
   * and an intent example, whose columns are not nullable and which is never redacted, has all.
   */
  predicate WellFormed(t: Table, row: Row) {
    && (row.raw.Complete() || row.raw == NO_RAW)
    && (row.deletion.Some? ==> row.raw == NO_RAW)
    && (t.IntentExamples? ==> row.raw.Complete())
  }

  /** The two tables, each in the order its queries list it. */
  datatype Store = Store(examples: seq<Row>, logs: seq<Row>) {
    function Rows(t: Table): seq<Row> {
      match t
      case IntentExamples => examples
      case RuntimeLogs => logs
    }

    predicate Valid() {
      forall t: Table, i :: 0 <= i < |Rows(t)| ==> WellFormed(t, Rows(t)[i])
    }
  }

  // ---------------------------------------------------------------------------
  // Listing and counting
  // ---------------------------------------------------------------------------

  /** The rows a rewrap picks: deletion is not looked at. */
  predicate ListedForRewrap(t: Table, row: Row, service: string, keyIds: set<string>) {
    && row.serviceId == Some(service)
    && (t.RuntimeLogs? ==> row.raw.Complete())
    && row.raw.keyId.Some? && row.raw.keyId.value in keyIds
  }

  /** The rows the key counts are about: deletion is looked at. */
  predicate Counted(t: Table, row: Row, service: string) {
    && row.serviceId == Some(service)
    && (t.RuntimeLogs? ==> row.deletion.None? && row.raw.Complete())
    && row.raw.keyId.Some?
  }

  predicate CountedAs(t: Table, row: Row, service: string, keyId: string) {
    Counted(t, row, service) && row.raw.keyId == Some(keyId)
  }

  /** The inventory's "incomplete" rows: not deleted, without a key id, with any other column. */
  predicate CountedIncomplete(row: Row, service: string) {
    row.serviceId == Some(service) && row.deletion.None? && row.raw.keyId.None? && row.raw.AnyMaterial()
  }

  /** The listing and the count agree on well-formed rows, and nothing is ever counted as incomplete. */
  lemma ListingMatchesCount(t: Table, row: Row, service: string, keyIds: set<string>)
    requires WellFormed(t, row)
    ensures ListedForRewrap(t, row, service, keyIds) <==> exists id :: id in keyIds && CountedAs(t, row, service, id)
    ensures !CountedIncomplete(row, service)
  {
    if ListedForRewrap(t, row, service, keyIds) {
      assert CountedAs(t, row, service, row.raw.keyId.value);
    }
  }

  /** Without the writers' invariant they can differ: a deleted log that kept its columns is listed only. */
  lemma DeletedRowWithRawIsOnlyListed(row: Row, service: string, keyId: string)
    requires row.serviceId == Some(service) && row.raw.Complete() && row.raw.keyId == Some(keyId) && row.deletion.Some?
    ensures ListedForRewrap(RuntimeLogs, row, service, {keyId}) && !CountedAs(RuntimeLogs, row, service, keyId)
  {
  }

  type Selector = Row -> bool

  function CountRows(sel: Selector, rows: seq<Row>): nat {
    if rows == [] then 0
    else CountRows(sel, rows[..|rows| - 1]) + if sel(rows[|rows| - 1]) then 1 else 0
  }

  lemma {:induction false} CountIsZero(sel: Selector, rows: seq<Row>)
    ensures CountRows(sel, rows) == 0 <==> forall row :: row in rows ==> !sel(row)
  {
    if rows != [] {
      var n := |rows| - 1;
      CountIsZero(sel, rows[..n]);
      assert forall row :: row in rows <==> row == rows[n] || row in rows[..n];
    }
  }

  /** Two selectors that agree on the rows count the same. */
  lemma {:induction false} CountAgrees(a: Selector, b: Selector, rows: seq<Row>)
    requires forall row :: row in rows ==> a(row) == b(row)
    ensures CountRows(a, rows) == CountRows(b, rows)
  {
    if rows != [] {
      CountAgrees(a, b, rows[..|rows| - 1]);
    }
  }

  function AsKey(t: Table, service: string, keyId: string): Selector {
    row => CountedAs(t, row, service, keyId)
  }

  /** Rows under any other key than the active one. */
  function Legacy(t: Table, service: string, activeKeyId: string): Selector {
    row => Counted(t, row, service) && row.raw.keyId.Some? && row.raw.keyId.value != activeKeyId
  }

  function Listing(t: Table, service: string, keyIds: set<string>): Selector {
    row => ListedForRewrap(t, row, service, keyIds)
  }

  /** The key ids of a table's counted rows, each with its number of rows. */
  function KeyCounts(t: Table, rows: seq<Row>, service: string): map<string, nat> {
    map id | id in CountedKeys(t, rows, service) :: CountRows(AsKey(t, service, id), rows)
  }

  function CountedKeys(t: Table, rows: seq<Row>, service: string): set<string> {
    set i | 0 <= i < |rows| && Counted(t, rows[i], service) :: rows[i].raw.keyId.value
  }

  /** A row the counts are about: of the service, with a key id; a log only if it is whole and not deleted. */
  predicate HasKey(t: Table, row: Row, service: string, keyId: string) {
    && row.serviceId == Some(service) && row.raw.keyId == Some(keyId)
    && (t == RuntimeLogs ==> row.deletion == None && row.raw.Complete())
  }

  lemma {:induction false} CountRowsMeaning(sel: Selector, rows: seq<Row>)
    ensures CountRows(sel, rows) == |set i | 0 <= i < |rows| && sel(rows[i])|
  {
    var found := set i | 0 <= i < |rows| && sel(rows[i]);
    if rows == [] {
      assert found == {};
    } else {
      var n := |rows| - 1;
      CountRowsMeaning(sel, rows[..n]);
      var before := set i | 0 <= i < |rows[..n]| && sel(rows[..n][i]);
      forall i ensures i in found <==> i in before || (i == n && sel(rows[n])) {
        assert 0 <= i < n ==> rows[..n][i] == rows[i];
      }
      assert found == if sel(rows[n]) then before + {n} else before;
      assert n !in before;
    }
  }

  /** The counts list exactly the key ids that rows have, each with the number of its rows. */
  lemma KeyCountsMeaning(t: Table, rows: seq<Row>, service: string, keyId: string)
    ensures keyId in KeyCounts(t, rows, service) <==> exists row :: row in rows && HasKey(t, row, service, keyId)
    ensures keyId in KeyCounts(t, rows, service) ==>
              KeyCounts(t, rows, service)[keyId] == |set i | 0 <= i < |rows| && HasKey(t, rows[i], service, keyId)|
  {
    CountRowsMeaning(AsKey(t, service, keyId), rows);
    assert (set i | 0 <= i < |rows| && AsKey(t, service, keyId)(rows[i]))
        == set i | 0 <= i < |rows| && HasKey(t, rows[i], service, keyId);
    if row :| row in rows && HasKey(t, row, service, keyId) {
      var i :| 0 <= i < |rows| && rows[i] == row;
      assert Counted(t, rows[i], service);
    }
    if keyId in KeyCounts(t, rows, service) {
      var i :| 0 <= i < |rows| && Counted(t, rows[i], service) && rows[i].raw.keyId.value == keyId;
      assert rows[i] in rows && HasKey(t, rows[i], service, keyId);
    }
  }

  /** The keys to rewrap from: those counted in the included tables, the active one apart. */
  function SourceKeys(store: Store, included: seq<Table>, service: string, activeKeyId: string): set<string> {
    (set t: Table, id | t in included && id in KeyCounts(t, store.Rows(t), service) && id != activeKeyId :: id)
  }

  /** What the count maps say about remaining legacy rows. */
  predicate LegacyRemains(store: Store, included: seq<Table>, service: string, activeKeyId: string) {
    exists t: Table :: t in included && LegacyCounted(KeyCounts(t, store.Rows(t), service), activeKeyId)
  }

  predicate LegacyCounted(counts: map<string, nat>, activeKeyId: string) {
    exists id :: id in counts && id != activeKeyId && counts[id] > 0
  }

  /** The count maps report legacy rows exactly where there are any. */
  lemma LegacyCountedIffAny(t: Table, rows: seq<Row>, service: string, activeKeyId: string)
    ensures LegacyCounted(KeyCounts(t, rows, service), activeKeyId) <==>
              CountRows(Legacy(t, service, activeKeyId), rows) > 0
  {
    var counts := KeyCounts(t, rows, service);
    CountIsZero(Legacy(t, service, activeKeyId), rows);
    if LegacyCounted(counts, activeKeyId) {
      var id :| id in counts && id != activeKeyId && counts[id] > 0;
      CountIsZero(AsKey(t, service, id), rows);
      var row :| row in rows && AsKey(t, service, id)(row);
      assert Legacy(t, service, activeKeyId)(row);
    }
    if row :| row in rows && Legacy(t, service, activeKeyId)(row) {
      var id := row.raw.keyId.value;
      CountIsZero(AsKey(t, service, id), rows);
      assert AsKey(t, service, id)(row);
      var i :| 0 <= i < |rows| && rows[i] == row;
      assert id in CountedKeys(t, rows, service);
      assert id in counts && counts[id] > 0;
    }
  }

  /** The rows listed for the source keys are exactly the legacy rows. */
  lemma SourceRowsAreLegacy(store: Store, included: seq<Table>, t: Table, service: string, activeKeyId: string,
                            row: Row)
    requires store.Valid() && t in included && row in store.Rows(t)
    ensures Listing(t, service, SourceKeys(store, included, service, activeKeyId))(row) <==>
              Legacy(t, service, activeKeyId)(row)
  {
    var keys := SourceKeys(store, included, service, activeKeyId);
    var i :| 0 <= i < |store.Rows(t)| && store.Rows(t)[i] == row;
    assert WellFormed(t, row);
    if Legacy(t, service, activeKeyId)(row) {
      assert row.raw.keyId.value in CountedKeys(t, store.Rows(t), service);
      assert row.raw.keyId.value in KeyCounts(t, store.Rows(t), service);
      assert row.raw.keyId.value in keys;
    }
  }
}
