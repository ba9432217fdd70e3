/**
 * Retiring the legacy keys and loading a catalog version: a rewrap does not touch the envelopes a
 * version stores, and a load copies them back (scripts/rewrap_raw_text.py, api/admin.py).
 */
module KeyRetirement {
  import opened Wrappers
  import opened Encryption
  import opened RawText
  import opened Rewrap
  import opened RewrapTheorems
  import opened RewrapRuns
  import opened CatalogDraft
  import opened CatalogTheorems
  import opened CatalogVersions

  /** An example as the rewrap job sees it. */
  function RawRow(x: string, e: Example): Row {
    Row(x, Some(e.serviceId), e.createdAt, Stored(e.envelope), None)
  }

  /** The examples of the catalog are the rows of the table. */
  ghost predicate Tabled(c: Catalog, rows: seq<Row>) {
    && (forall i :: 0 <= i < |rows| ==>
          rows[i].id in c.examples && rows[i] == RawRow(rows[i].id, c.examples[rows[i].id]))
    && (forall x :: x in c.examples ==> RawRow(x, c.examples[x]) in rows)
  }

  /** Every example of the service is readable under the keyring. */
  predicate AllReadable(p: Primitives, k: Keyring, c: Catalog, service: string) {
    forall x :: x in c.examples && c.examples[x].serviceId == service ==>
      k.DecryptText(p, c.examples[x].envelope, None).Ok?
  }

  /** With the active key alone one reads what is under that key and was readable anyway. */
  lemma ActiveOnlyReads(p: Primitives, k: Keyring, e: EncryptedText)
    requires k.Valid()
    ensures ActiveOnly(k).DecryptText(p, e, None).Ok? <==> e.keyId == k.activeKeyId && k.DecryptText(p, e, None).Ok?
  {
    hide Encryptor.DecryptText;
  }

  /** After a completed run the active key reads every example of the service that could be read before. */
  lemma ReadableAfterRun(run: Run, store: Store, before: Catalog, c: Catalog)
    requires run.Valid() && !run.dryRun && store.Valid()
    requires IntentExamples in run.included && RuntimeLogs in run.included && run.Status(store) == Completed
    requires Tabled(before, store.examples) && Tabled(c, run.After(store).examples)
    requires AllReadable(run.p, run.k, before, run.service)
    ensures AllReadable(run.p, ActiveOnly(run.k), c, run.service)
  {
    hide Run.After, Run.Status, Keyring.DecryptText, ActiveOnly;
    var after := run.After(store).examples;
    assert run.After(store).Rows(IntentExamples) == after && store.Rows(IntentExamples) == store.examples;
    RunKeepsRows(run, IntentExamples, store);
    forall x | x in c.examples && c.examples[x].serviceId == run.service
      ensures ActiveOnly(run.k).DecryptText(run.p, c.examples[x].envelope, None).Ok?
    {
      var row := RawRow(x, c.examples[x]);
      assert row in after;
      var i :| 0 <= i < |after| && after[i] == row;
      assert Kept(run, store.examples[i], after[i]);
      var was := before.examples[store.examples[i].id];
      assert store.examples[i].raw == Stored(was.envelope) && was.serviceId == run.service;
      EnvelopeOf(was.envelope);
      EnvelopeOf(c.examples[x].envelope);
      CompletedRunRetiresKeys(run, store, IntentExamples, i);
    }
  }

  lemma EnvelopeOf(e: EncryptedText)
    ensures ReadEnvelope(Stored(e)) == Some(e)
  {
  }

  /**
   * A load after that: the active key alone still reads every example of the service exactly if
   * every row the version stores is under the active key. Rows written before the rotation are not.
   */
  lemma LoadAfterRetirement(p: Primitives, k: Keyring, origin: Catalog, c: Catalog, service: string, v: Version,
                            actor: string, now: int)
    requires k.Valid() && CreatedFrom(origin, service, v) && AllReadable(p, k, origin, service)
    requires Valid(c) && Load(c, service, Some(v), actor, now).Ok?
    ensures AllReadable(p, ActiveOnly(k), Load(c, service, Some(v), actor, now).value, service)
       <==> forall row :: row in v.rows ==> row.envelope.keyId == k.activeKeyId
  {
    hide Load, SnapshotOf, Keyring.DecryptText, ActiveOnly, ListsExample;
    var loaded := Load(c, service, Some(v), actor, now).value;
    LoadRestoresOrigin(origin, c, service, v, actor, now);
    forall row | row in v.rows
      ensures row.exampleId.Some? && InService(loaded, service, row.exampleId.value)
              && loaded.examples[row.exampleId.value].envelope == row.envelope
              && k.DecryptText(p, row.envelope, None).Ok?
      ensures ActiveOnly(k).DecryptText(p, row.envelope, None).Ok? <==> row.envelope.keyId == k.activeKeyId
    {
      var i :| 0 <= i < |v.rows| && v.rows[i] == row;
      assert row == RowOf(row.exampleId.value, origin.examples[row.exampleId.value]);
      ActiveOnlyReads(p, k, row.envelope);
    }
    forall x | InService(loaded, service, x)
      ensures exists row :: row in v.rows && row.exampleId == Some(x)
    {
      RowIsStored(v.rows, x);
    }
  }

  lemma RowIsStored(rows: seq<StoredRow>, x: string)
    requires ListsExample(rows, x)
    ensures exists row :: row in rows && row.exampleId == Some(x)
  {
    var i :| 0 <= i < |rows| && rows[i].exampleId == Some(x);
    assert rows[i] in rows;
  }
}
