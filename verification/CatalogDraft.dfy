/**
 * Loading a stored catalog version back into the draft tables: a reconciliation of live intents and
 * examples with a snapshot (api/admin.py).
 */
module CatalogDraft {
  import opened Wrappers
  import opened Encryption
  import Baseline

  datatype IntentFields = IntentFields(
    domain: string,
    displayName: string,
    description: string,
    routeKey: string,
    includeKeywords: seq<string>,
    excludeKeywords: seq<string>)

  datatype Status = Draft | Active | OtherStatus(name: string)

  datatype Intent = Intent(
    fields: IntentFields,
    status: Status,
    createdBy: string,
    createdAt: int,
    updatedBy: string,
    updatedAt: int)

  datatype Example = Example(
    serviceId: string,
    intentId: string,
    exampleType: string,
    envelope: EncryptedText,
    textMasked: string,
    embedding: Option<seq<real>>,
    source: string,
    testCaseId: Option<string>,
    approved: bool,
    createdBy: string,
    createdAt: int)

  /** The live tables of all services: intents by service and id, examples by their id. */
  datatype Catalog = Catalog(intents: map<(string, string), Intent>, examples: map<string, Example>)

  /** A snapshot lists intents, with their examples as they were shown. */
  datatype ShownExample = ShownExample(exampleId: string, exampleType: string, textMasked: string)

  datatype Item = Item(intentId: string, fields: IntentFields, examples: set<ShownExample>)

  /** The version's stored examples, with their envelopes. */
  datatype StoredRow = StoredRow(
    exampleId: Option<string>,
    intentId: string,
    exampleType: string,
    envelope: EncryptedText,
    textMasked: string)

  datatype Version = Version(items: seq<Item>, rows: seq<StoredRow>)

  datatype LoadError = NotFound | StillReferenced | RouteTaken | ExampleIdTaken | NoSuchIntent

  // ---------------------------------------------------------------------------
  // What the database keeps
  // ---------------------------------------------------------------------------

  /** Every example belongs to an intent of its service. */
  predicate Referential(c: Catalog) {
    forall x :: x in c.examples ==> (c.examples[x].serviceId, c.examples[x].intentId) in c.intents
  }

  predicate RouteHeldByOther(c: Catalog, service: string, intentId: string, routeKey: string) {
    exists k :: k in c.intents && k.0 == service && k.1 != intentId && c.intents[k].fields.routeKey == routeKey
  }

  /** No two intents of a service have the same route key. */
  predicate UniqueRoutes(c: Catalog) {
    forall j, k ::
      (j in c.intents && k in c.intents && j.0 == k.0
       && c.intents[j].fields.routeKey == c.intents[k].fields.routeKey) ==>
        j == k
  }

  ghost predicate Valid(c: Catalog) {
    Referential(c) && UniqueRoutes(c)
  }

  // ---------------------------------------------------------------------------
  // The load, step by step
  // ---------------------------------------------------------------------------

  predicate ListsIntent(items: seq<Item>, id: string) {
    exists i :: 0 <= i < |items| && items[i].intentId == id
  }

  predicate ListsExample(rows: seq<StoredRow>, id: string) {
    exists i :: 0 <= i < |rows| && rows[i].exampleId == Some(id)
  }

  function KeepExamples(c: Catalog, service: string, rows: seq<StoredRow>): Catalog {
    c.(examples := map x | x in c.examples && (c.examples[x].serviceId == service ==> ListsExample(rows, x)) ::
                     c.examples[x])
  }

  /** An example that stays refers to an intent that is to go. */
  predicate Blocked(c: Catalog, service: string, items: seq<Item>) {
    exists x :: x in c.examples && c.examples[x].serviceId == service && !ListsIntent(items, c.examples[x].intentId)
  }

  function KeepIntents(c: Catalog, service: string, items: seq<Item>): Catalog {
    c.(intents := map k | k in c.intents && (k.0 == service ==> ListsIntent(items, k.1)) :: c.intents[k])
  }

  /** An intent as drafted from a snapshot item; an existing one keeps who made it and when. */
  function Drafted(existing: Option<Intent>, item: Item, actor: string, now: int): Intent {
    var (by_, at_) := if existing.Some? then (existing.value.createdBy, existing.value.createdAt) else (actor, now);
    Intent(item.fields, Draft, by_, at_, actor, now)
  }

  function IntentAt(c: Catalog, service: string, id: string): Option<Intent> {
    if (service, id) in c.intents then Some(c.intents[(service, id)]) else None
  }

  function DraftItem(c: Catalog, service: string, item: Item, actor: string, now: int): Result<Catalog, LoadError> {
    if RouteHeldByOther(c, service, item.intentId, item.fields.routeKey) then Err(RouteTaken)
    else
      var drafted := Drafted(IntentAt(c, service, item.intentId), item, actor, now);
      Ok(c.(intents := c.intents[(service, item.intentId) := drafted]))
  }

  function DraftItems(c: Catalog, service: string, items: seq<Item>, actor: string,
                      now: int): Result<Catalog, LoadError> {
    if items == [] then Ok(c)
    else
      var before :- DraftItems(c, service, items[..|items| - 1], actor, now);
      DraftItem(before, service, items[|items| - 1], actor, now)
  }

  const LOADED := "catalog_version_load"

  function Restored(row: StoredRow, service: string, actor: string, now: int): Example {
    Example(service, row.intentId, row.exampleType, row.envelope, row.textMasked, None, LOADED, None, false, actor, now)
  }

  function RestoreRow(c: Catalog, service: string, row: StoredRow, actor: string,
                      now: int): Result<Catalog, LoadError> {
    if row.exampleId.None? then Ok(c)
    else if row.exampleId.value in c.examples && c.examples[row.exampleId.value].serviceId != service
    then Err(ExampleIdTaken)
    else if (service, row.intentId) !in c.intents then Err(NoSuchIntent)
    else Ok(c.(examples := c.examples[row.exampleId.value := Restored(row, service, actor, now)]))
  }

  function RestoreRows(c: Catalog, service: string, rows: seq<StoredRow>, actor: string,
                       now: int): Result<Catalog, LoadError> {
    if rows == [] then Ok(c)
    else
      var before :- RestoreRows(c, service, rows[..|rows| - 1], actor, now);
      RestoreRow(before, service, rows[|rows| - 1], actor, now)
  }

  /** The whole load; whatever fails, nothing of it stays. */
  function Load(c: Catalog, service: string, version: Option<Version>, actor: string,
                now: int): Result<Catalog, LoadError> {
    if version.None? then Err(NotFound)
    else
      var v := version.value;
      var kept := KeepExamples(c, service, v.rows);
      if Blocked(kept, service, v.items) then Err(StillReferenced)
      else
        var drafted :- DraftItems(KeepIntents(kept, service, v.items), service, v.items, actor, now);
        RestoreRows(drafted, service, v.rows, actor, now)
  }

  // ---------------------------------------------------------------------------
  // What the parts do
  // ---------------------------------------------------------------------------

  /** Of several items with one id, the last decides. */
  function LastItem(items: seq<Item>, id: string): (item: Item)
    requires ListsIntent(items, id)
    ensures item in items && item.intentId == id
  {
    var n := |items| - 1;
    if items[n].intentId == id then items[n] else LastItem(items[..n], id)
  }

  function LastRow(rows: seq<StoredRow>, id: string): (row: StoredRow)
    requires ListsExample(rows, id)
    ensures row in rows && row.exampleId == Some(id)
  {
    var n := |rows| - 1;
    if rows[n].exampleId == Some(id) then rows[n] else LastRow(rows[..n], id)
  }

  lemma ListsStep(items: seq<Item>, id: string)
    requires items != []
    ensures ListsIntent(items, id) <==> ListsIntent(items[..|items| - 1], id) || items[|items| - 1].intentId == id
  {
    var n := |items| - 1;
    if ListsIntent(items[..n], id) {
      var i :| 0 <= i < n && items[..n][i].intentId == id;
      assert items[i].intentId == id;
    }
    if ListsIntent(items, id) && items[n].intentId != id {
      var i :| 0 <= i < |items| && items[i].intentId == id;
      assert items[..n][i].intentId == id;
    }
  }

  lemma ListsRowStep(rows: seq<StoredRow>, id: string)
    requires rows != []
    ensures ListsExample(rows, id) <==> ListsExample(rows[..|rows| - 1], id) || rows[|rows| - 1].exampleId == Some(id)
  {
    var n := |rows| - 1;
    if ListsExample(rows[..n], id) {
      var i :| 0 <= i < n && rows[..n][i].exampleId == Some(id);
      assert rows[i].exampleId == Some(id);
    }
    if ListsExample(rows, id) && rows[n].exampleId != Some(id) {
      var i :| 0 <= i < |rows| && rows[i].exampleId == Some(id);
      assert rows[..n][i].exampleId == Some(id);
    }
  }

  /** A draft with the item's fields, changed by the actor now, and made by whoever made the intent before, if any. */
  predicate IsDraft(i: Intent, before: Option<Intent>, item: Item, actor: string, now: int) {
    && i.status == Draft && i.fields == item.fields
    && i.updatedBy == actor && i.updatedAt == now
    && i.createdBy == (if before.Some? then before.value.createdBy else actor)
    && i.createdAt == (if before.Some? then before.value.createdAt else now)
  }

  /** An example as the row stores it, not approved, without embedding or test case, made by the actor now. */
  predicate IsRestored(e: Example, service: string, row: StoredRow, actor: string, now: int) {
    && e.serviceId == service && e.intentId == row.intentId && e.exampleType == row.exampleType
    && e.envelope == row.envelope && e.textMasked == row.textMasked
    && !e.approved && e.embedding == None && e.testCaseId == None && e.source == "catalog_version_load"
    && e.createdBy == actor && e.createdAt == now
  }

  lemma DraftedIsDraft(existing: Option<Intent>, item: Item, actor: string, now: int)
    ensures IsDraft(Drafted(existing, item, actor, now), existing, item, actor, now)
  {
  }

  lemma RestoredIsRestored(row: StoredRow, service: string, actor: string, now: int)
    ensures IsRestored(Restored(row, service, actor, now), service, row, actor, now)
  {
  }

  /** The intent a key has after drafting the items. */
  function IntentAfter(c: Catalog, service: string, items: seq<Item>, k: (string, string), actor: string,
                       now: int): Option<Intent> {
    if k.0 == service && ListsIntent(items, k.1)
    then Some(Drafted(IntentAt(c, service, k.1), LastItem(items, k.1), actor, now))
    else IntentAt(c, k.0, k.1)
  }

  lemma DraftItemsMeaning(c: Catalog, service: string, items: seq<Item>, actor: string, now: int)
    requires DraftItems(c, service, items, actor, now).Ok?
    ensures var after := DraftItems(c, service, items, actor, now).value;
            && after.examples == c.examples
            && (UniqueRoutes(c) ==> UniqueRoutes(after))
            && (forall k: (string, string) ::
                  IntentAt(after, k.0, k.1) == IntentAfter(c, service, items, k, actor, now))
            && forall id :: ListsIntent(items, id) ==>
                 && IntentAt(after, service, id).Some?
                 && IsDraft(IntentAt(after, service, id).value, IntentAt(c, service, id), LastItem(items, id), actor,
                            now)
  {
    DraftItemsParts(c, service, items, actor, now);
    hide DraftItems, ListsIntent, LastItem, Drafted, IsDraft, UniqueRoutes;
    forall id | ListsIntent(items, id)
      ensures IntentAt(DraftItems(c, service, items, actor, now).value, service, id).Some?
      ensures IsDraft(IntentAt(DraftItems(c, service, items, actor, now).value, service, id).value,
                      IntentAt(c, service, id), LastItem(items, id), actor, now)
    {
      assert (service, id).0 == service && (service, id).1 == id;
      DraftedIsDraft(IntentAt(c, service, id), LastItem(items, id), actor, now);
    }
  }

  lemma {:induction false} DraftItemsParts(c: Catalog, service: string, items: seq<Item>, actor: string, now: int)
    requires DraftItems(c, service, items, actor, now).Ok?
    ensures var after := DraftItems(c, service, items, actor, now).value;
            && after.examples == c.examples
            && (UniqueRoutes(c) ==> UniqueRoutes(after))
            && forall k: (string, string) :: IntentAt(after, k.0, k.1) == IntentAfter(c, service, items, k, actor, now)
  {
    hide RouteHeldByOther, UniqueRoutes;
    if items != [] {
      var n := |items| - 1;
      DraftItemsParts(c, service, items[..n], actor, now);
      var before := DraftItems(c, service, items[..n], actor, now).value;
      DraftItemKeepsRoutes(before, service, items[n], actor, now);
      forall k: (string, string)
        ensures IntentAt(DraftItems(c, service, items, actor, now).value, k.0, k.1)
                == IntentAfter(c, service, items, k, actor, now)
      {
        ListsStep(items, k.1);
        assert k == (k.0, k.1);
      }
    }
  }

  lemma DraftItemKeepsRoutes(c: Catalog, service: string, item: Item, actor: string, now: int)
    requires DraftItem(c, service, item, actor, now).Ok?
    ensures UniqueRoutes(c) ==> UniqueRoutes(DraftItem(c, service, item, actor, now).value)
  {
  }

  lemma {:induction false} RestoreRowsMeaning(c: Catalog, service: string, rows: seq<StoredRow>, actor: string,
                                              now: int)
    requires RestoreRows(c, service, rows, actor, now).Ok?
    ensures var after := RestoreRows(c, service, rows, actor, now).value;
            && after.intents == c.intents
            && (forall x :: x in after.examples <==> x in c.examples || ListsExample(rows, x))
            && (forall x :: x in c.examples && !ListsExample(rows, x) ==> after.examples[x] == c.examples[x])
            && (forall x :: ListsExample(rows, x) ==>
                  && after.examples[x] == Restored(LastRow(rows, x), service, actor, now)
                  && IsRestored(after.examples[x], service, LastRow(rows, x), actor, now))
            && (forall x :: x in c.examples && ListsExample(rows, x) ==> c.examples[x].serviceId == service)
            && (forall row :: row in rows && row.exampleId.Some? ==> (service, row.intentId) in c.intents)
  {
    hide Restored, IsRestored;
    if rows != [] {
      var n := |rows| - 1;
      RestoreRowsMeaning(c, service, rows[..n], actor, now);
      forall x ensures ListsExample(rows, x) <==> ListsExample(rows[..n], x) || rows[n].exampleId == Some(x) {
        ListsRowStep(rows, x);
      }
      hide ListsExample;
      assert forall row :: row in rows <==> row == rows[n] || row in rows[..n];
      RestoredService(rows[n], service, actor, now);
      RestoredIsRestored(rows[n], service, actor, now);
    }
  }

  lemma RestoredService(row: StoredRow, service: string, actor: string, now: int)
    ensures Restored(row, service, actor, now).serviceId == service
  {
  }
}
