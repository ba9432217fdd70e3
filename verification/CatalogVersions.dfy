/**
 * A catalog version and what it was created from (versions/catalogs.py): the snapshot and the stored
 * rows tell the content of a service, and loading a version restores just that.
 */
module CatalogVersions {
  import opened Wrappers
  import opened CatalogDraft
  import opened CatalogTheorems
  import Baseline

  // ---------------------------------------------------------------------------
  // The snapshot
  // ---------------------------------------------------------------------------

  predicate Ascending(items: seq<Item>) {
    forall i, j :: 0 <= i < j < |items| ==>
      items[i].intentId != items[j].intentId && Baseline.LexLe(items[i].intentId, items[j].intentId)
  }

  /** The examples of an intent, approved or not, as a snapshot shows them. */
  function Shown(c: Catalog, service: string, id: string): set<ShownExample> {
    set x | x in c.examples && c.examples[x].serviceId == service && c.examples[x].intentId == id
      :: ShownExample(x, c.examples[x].exampleType, c.examples[x].textMasked)
  }

  /** The service's intents by id, whatever their status, each with its fields and its examples. */
  ghost predicate SnapshotOf(c: Catalog, service: string, items: seq<Item>) {
    && Ascending(items)
    && (forall id :: ListsIntent(items, id) <==> (service, id) in c.intents)
    && (forall i :: 0 <= i < |items| ==>
          && (service, items[i].intentId) in c.intents
          && items[i].fields == c.intents[(service, items[i].intentId)].fields
          && items[i].examples == Shown(c, service, items[i].intentId))
  }

  /** A catalog has one snapshot. */
  lemma SnapshotIsUnique(c: Catalog, service: string, a: seq<Item>, b: seq<Item>)
    requires SnapshotOf(c, service, a) && SnapshotOf(c, service, b)
    ensures a == b
  {
    hide Shown, ListsIntent, Ascending;
    forall item ensures item in a <==> item in b {
      ListedItem(c, service, a, b, item);
      ListedItem(c, service, b, a, item);
    }
    AscendingIsCanonical(a, b);
  }

  lemma ListedItem(c: Catalog, service: string, a: seq<Item>, b: seq<Item>, item: Item)
    requires SnapshotOf(c, service, a) && SnapshotOf(c, service, b)
    ensures item in a ==> item in b
  {
    hide Ascending, Shown;
    if item in a {
      var i :| 0 <= i < |a| && a[i] == item;
      assert ListsIntent(a, item.intentId);
      var j :| 0 <= j < |b| && b[j].intentId == item.intentId;
      assert b[j] == item;
    }
  }

  lemma {:induction false} AscendingIsCanonical(a: seq<Item>, b: seq<Item>)
    requires Ascending(a) && Ascending(b) && forall item :: item in a <==> item in b
    ensures a == b
  {
    hide Baseline.LexLe;
    assert b != [] ==> b[0] in a;
    if a != [] {
      assert a[0] in b;
      SameFirst(a, b);
      forall item ensures item in a[1..] <==> item in b[1..] {
        TailMember(a, item);
        TailMember(b, item);
      }
      AscendingIsCanonical(a[1..], b[1..]);
      assert a == [a[0]] + a[1..] && b == [b[0]] + b[1..];
    }
  }

  lemma TailMember(a: seq<Item>, item: Item)
    requires Ascending(a) && a != []
    ensures item in a[1..] <==> item in a && item != a[0]
  {
    hide Baseline.LexLe;
  }

  lemma SameFirst(a: seq<Item>, b: seq<Item>)
    requires Ascending(a) && Ascending(b) && a != [] && b != [] && a[0] in b && b[0] in a
    ensures a[0] == b[0]
  {
    hide Baseline.LexLe;
    var i :| 0 <= i < |b| && b[i] == a[0];
    var j :| 0 <= j < |a| && a[j] == b[0];
    Baseline.LexIsTotalOrder(a[0].intentId, b[0].intentId, "");
  }

  /** The stored examples of an intent, as a snapshot shows them. */
  function StoredFor(rows: seq<StoredRow>, id: string): set<ShownExample> {
    set i | 0 <= i < |rows| && rows[i].exampleId.Some? && LastRow(rows, rows[i].exampleId.value).intentId == id
      :: ShownExample(rows[i].exampleId.value, LastRow(rows, rows[i].exampleId.value).exampleType,
                      LastRow(rows, rows[i].exampleId.value).textMasked)
  }

  /**
   * Where the stored rows are just the snapshot's examples, a loaded snapshot is the snapshot of
   * what it makes of the service.
   */
  lemma SnapshotRoundTrip(c: Catalog, service: string, v: Version, actor: string, now: int)
    requires Valid(c) && Ascending(v.items) && Load(c, service, Some(v), actor, now).Ok?
    requires forall i :: 0 <= i < |v.items| ==> v.items[i].examples == StoredFor(v.rows, v.items[i].intentId)
    ensures SnapshotOf(Load(c, service, Some(v), actor, now).value, service, v.items)
  {
    hide Load, ListsIntent, ListsExample, LastItem, LastRow, UniqueRoutes, Baseline.LexLe, Shown, StoredFor;
    var loaded := Load(c, service, Some(v), actor, now).value;
    LoadMeaning(c, service, v, actor, now);
    forall i | 0 <= i < |v.items|
      ensures (service, v.items[i].intentId) in loaded.intents
      ensures v.items[i].fields == loaded.intents[(service, v.items[i].intentId)].fields
      ensures v.items[i].examples == Shown(loaded, service, v.items[i].intentId)
    {
      LastOfDistinct(v.items, i);
      ShownIsStored(loaded, service, v.rows, v.items[i].intentId, actor, now);
    }
  }

  lemma ShownIsStored(loaded: Catalog, service: string, rows: seq<StoredRow>, id: string, actor: string, now: int)
    requires forall x :: InService(loaded, service, x) <==> ListsExample(rows, x)
    requires forall x :: ListsExample(rows, x) ==>
               x in loaded.examples && loaded.examples[x] == Restored(LastRow(rows, x), service, actor, now)
    ensures Shown(loaded, service, id) == StoredFor(rows, id)
  {
    hide LastRow;
    forall e ensures e in Shown(loaded, service, id) <==> e in StoredFor(rows, id) {
      if e in Shown(loaded, service, id) {
        var x :| x in loaded.examples && loaded.examples[x].serviceId == service && loaded.examples[x].intentId == id
                 && e == ShownExample(x, loaded.examples[x].exampleType, loaded.examples[x].textMasked);
        assert InService(loaded, service, x) && ListsExample(rows, x);
        var i :| 0 <= i < |rows| && rows[i].exampleId == Some(x);
        assert e == ShownExample(rows[i].exampleId.value, LastRow(rows, x).exampleType, LastRow(rows, x).textMasked);
      }
      if e in StoredFor(rows, id) {
        var i :| 0 <= i < |rows| && rows[i].exampleId.Some? && LastRow(rows, rows[i].exampleId.value).intentId == id
                 && e == ShownExample(rows[i].exampleId.value, LastRow(rows, rows[i].exampleId.value).exampleType,
                                      LastRow(rows, rows[i].exampleId.value).textMasked);
        var x := rows[i].exampleId.value;
        assert ListsExample(rows, x);
        assert x in loaded.examples;
      }
    }
  }

  // ---------------------------------------------------------------------------
  // Creating a version, and loading it back
  // ---------------------------------------------------------------------------

  /** The row a version stores for an example. */
  function RowOf(x: string, e: Example): StoredRow {
    StoredRow(Some(x), e.intentId, e.exampleType, e.envelope, e.textMasked)
  }

  /** One row for each example of the service. */
  ghost predicate RowsOf(c: Catalog, service: string, rows: seq<StoredRow>) {
    && (forall i, j :: 0 <= i < j < |rows| ==> rows[i].exampleId != rows[j].exampleId)
    && (forall i :: 0 <= i < |rows| ==>
          && rows[i].exampleId.Some? && InService(c, service, rows[i].exampleId.value)
          && rows[i] == RowOf(rows[i].exampleId.value, c.examples[rows[i].exampleId.value]))
    && (forall x :: InService(c, service, x) ==> ListsExample(rows, x))
  }

  /** The version was created from this catalog: its snapshot, and a row with the envelope of each example. */
  ghost predicate CreatedFrom(c: Catalog, service: string, v: Version) {
    SnapshotOf(c, service, v.items) && RowsOf(c, service, v.rows)
  }

  /** What a version records of a service: the fields of its intents, and its examples with their envelopes. */
  ghost predicate SameContent(a: Catalog, b: Catalog, service: string) {
    && (forall id :: (service, id) in a.intents <==> (service, id) in b.intents)
    && (forall id :: (service, id) in a.intents ==> a.intents[(service, id)].fields == b.intents[(service, id)].fields)
    && (forall x :: InService(a, service, x) <==> InService(b, service, x))
    && (forall x :: InService(a, service, x) ==> RowOf(x, a.examples[x]) == RowOf(x, b.examples[x]))
  }

  /** A version tells exactly the content it was created from. */
  lemma VersionIsContent(a: Catalog, b: Catalog, service: string, v: Version)
    requires CreatedFrom(a, service, v)
    ensures CreatedFrom(b, service, v) <==> SameContent(a, b, service)
  {
    hide Ascending;
    if CreatedFrom(b, service, v) {
      SameFields(a, b, service, v.items);
      SameRows(a, b, service, v.rows);
    }
    if SameContent(a, b, service) {
      forall id ensures Shown(a, service, id) == Shown(b, service, id) {
        ShownByContent(a, b, service, id);
      }
    }
  }

  lemma SameFields(a: Catalog, b: Catalog, service: string, items: seq<Item>)
    requires SnapshotOf(a, service, items) && SnapshotOf(b, service, items)
    ensures forall id :: (service, id) in a.intents <==> (service, id) in b.intents
    ensures forall id :: (service, id) in a.intents ==>
              a.intents[(service, id)].fields == b.intents[(service, id)].fields
  {
    hide Ascending, Shown;
    forall id | (service, id) in a.intents ensures a.intents[(service, id)].fields == b.intents[(service, id)].fields {
      assert ListsIntent(items, id);
      var i :| 0 <= i < |items| && items[i].intentId == id;
    }
  }

  lemma SameRows(a: Catalog, b: Catalog, service: string, rows: seq<StoredRow>)
    requires RowsOf(a, service, rows) && RowsOf(b, service, rows)
    ensures forall x :: InService(a, service, x) <==> InService(b, service, x)
    ensures forall x :: InService(a, service, x) ==> RowOf(x, a.examples[x]) == RowOf(x, b.examples[x])
  {
    forall x | InService(a, service, x) || InService(b, service, x)
      ensures InService(a, service, x) && InService(b, service, x) && RowOf(x, a.examples[x]) == RowOf(x, b.examples[x])
    {
      assert ListsExample(rows, x);
      var i :| 0 <= i < |rows| && rows[i].exampleId == Some(x);
    }
  }

  lemma ShownByContent(a: Catalog, b: Catalog, service: string, id: string)
    requires SameContent(a, b, service)
    ensures Shown(a, service, id) == Shown(b, service, id)
  {
    forall e ensures e in Shown(a, service, id) ==> e in Shown(b, service, id) {
      ShownInContent(a, b, service, id, e);
    }
    forall e ensures e in Shown(b, service, id) ==> e in Shown(a, service, id) {
      ShownInContent(b, a, service, id, e);
    }
  }

  lemma ShownInContent(a: Catalog, b: Catalog, service: string, id: string, e: ShownExample)
    requires SameContent(a, b, service)
    ensures e in Shown(a, service, id) ==> e in Shown(b, service, id)
  {
    if e in Shown(a, service, id) {
      var x :| x in a.examples && a.examples[x].serviceId == service && a.examples[x].intentId == id
               && e == ShownExample(x, a.examples[x].exampleType, a.examples[x].textMasked);
      assert InService(a, service, x) && InService(b, service, x);
      assert RowOf(x, a.examples[x]) == RowOf(x, b.examples[x]);
    }
  }

  lemma {:induction false} LastOfDistinctRows(rows: seq<StoredRow>, i: nat)
    requires i < |rows| && rows[i].exampleId.Some?
    requires forall j, k :: 0 <= j < k < |rows| ==> rows[j].exampleId != rows[k].exampleId
    ensures ListsExample(rows, rows[i].exampleId.value) && LastRow(rows, rows[i].exampleId.value) == rows[i]
  {
    var n := |rows| - 1;
    if i < n {
      LastOfDistinctRows(rows[..n], i);
    }
  }

  /** The rows of a created version are just the examples its snapshot shows. */
  lemma CreatedRows(c: Catalog, service: string, rows: seq<StoredRow>, id: string)
    requires RowsOf(c, service, rows)
    ensures StoredFor(rows, id) == Shown(c, service, id)
  {
    hide LastRow;
    forall i | 0 <= i < |rows| ensures LastRow(rows, rows[i].exampleId.value) == rows[i] {
      LastOfDistinctRows(rows, i);
    }
    forall e ensures e in StoredFor(rows, id) <==> e in Shown(c, service, id) {
      if e in Shown(c, service, id) {
        var x :| x in c.examples && c.examples[x].serviceId == service && c.examples[x].intentId == id
                 && e == ShownExample(x, c.examples[x].exampleType, c.examples[x].textMasked);
        assert InService(c, service, x) && ListsExample(rows, x);
        var i :| 0 <= i < |rows| && rows[i].exampleId == Some(x);
        assert e == ShownExample(rows[i].exampleId.value, rows[i].exampleType, rows[i].textMasked);
      }
      if e in StoredFor(rows, id) {
        var i :| 0 <= i < |rows| && rows[i].exampleId.Some? && LastRow(rows, rows[i].exampleId.value).intentId == id
                 && e == ShownExample(rows[i].exampleId.value, LastRow(rows, rows[i].exampleId.value).exampleType,
                                      LastRow(rows, rows[i].exampleId.value).textMasked);
        assert InService(c, service, rows[i].exampleId.value);
      }
    }
  }

  /**
   * Whatever the tables hold by now, loading a version restores what it was created from: the same
   * intents with the same fields, the same examples with the same envelopes. A version created
   * right after the load is the same one again.
   */
  lemma LoadRestoresOrigin(origin: Catalog, c: Catalog, service: string, v: Version, actor: string, now: int)
    requires CreatedFrom(origin, service, v) && Valid(c) && Load(c, service, Some(v), actor, now).Ok?
    ensures var loaded := Load(c, service, Some(v), actor, now).value;
            SameContent(origin, loaded, service) && CreatedFrom(loaded, service, v)
  {
    hide Load, ListsIntent, ListsExample, Shown, StoredFor, SnapshotOf, Ascending, SameContent, RowsOf, UniqueRoutes;
    var loaded := Load(c, service, Some(v), actor, now).value;
    SnapshotParts(origin, service, v.items);
    forall i | 0 <= i < |v.items| ensures v.items[i].examples == StoredFor(v.rows, v.items[i].intentId) {
      CreatedRows(origin, service, v.rows, v.items[i].intentId);
    }
    SnapshotRoundTrip(c, service, v, actor, now);
    LoadMeaning(c, service, v, actor, now);
    RestoredRows(origin, loaded, service, v.rows, actor, now);
    VersionIsContent(origin, loaded, service, v);
  }

  lemma RestoredRows(origin: Catalog, loaded: Catalog, service: string, rows: seq<StoredRow>, actor: string, now: int)
    requires RowsOf(origin, service, rows)
    requires forall x :: InService(loaded, service, x) <==> ListsExample(rows, x)
    requires forall x :: ListsExample(rows, x) ==>
               x in loaded.examples && loaded.examples[x] == Restored(LastRow(rows, x), service, actor, now)
    ensures RowsOf(loaded, service, rows)
  {
    hide ListsExample, LastRow;
    forall i | 0 <= i < |rows|
      ensures InService(loaded, service, rows[i].exampleId.value)
      ensures rows[i] == RowOf(rows[i].exampleId.value, loaded.examples[rows[i].exampleId.value])
    {
      LastOfDistinctRows(rows, i);
    }
  }

  lemma SnapshotParts(c: Catalog, service: string, items: seq<Item>)
    requires SnapshotOf(c, service, items)
    ensures Ascending(items)
    ensures forall i :: 0 <= i < |items| ==> items[i].examples == Shown(c, service, items[i].intentId)
  {
  }

  /** No intent listed after this one holds its route key live. */
  ghost predicate LaterRoutesDiffer(c: Catalog, service: string, items: seq<Item>, i: nat)
    requires i < |items|
  {
    forall j :: i < j < |items| && (service, items[j].intentId) in c.intents ==>
      c.intents[(service, items[j].intentId)].fields.routeKey != items[i].fields.routeKey
  }

  /**
   * A created version loads exactly if no stored example that is still in the service hangs on an
   * intent the version lacks, no intent listed later holds live the route key of one listed
   * earlier, and no other service has taken an example's id.
   */
  lemma CreatedVersionLoadsIff(origin: Catalog, c: Catalog, service: string, v: Version, actor: string, now: int)
    requires Valid(origin) && CreatedFrom(origin, service, v)
    ensures Load(c, service, Some(v), actor, now).Ok? <==>
              && (forall x :: InService(origin, service, x) && InService(c, service, x) ==>
                    (service, c.examples[x].intentId) in origin.intents)
              && (forall i :: 0 <= i < |v.items| ==> LaterRoutesDiffer(c, service, v.items, i))
              && (forall x :: InService(origin, service, x) && x in c.examples ==> InService(c, service, x))
  {
    hide Load, ListsIntent, LastItem, RouteFreeInTurn, LaterRoutesDiffer, Ascending, Shown, UniqueRoutes, KeepIntents;
    LoadSucceedsIff(c, service, v, actor, now);
    forall x ensures InService(origin, service, x) <==> ListsExample(v.rows, x) {
      if ListsExample(v.rows, x) {
        var i :| 0 <= i < |v.rows| && v.rows[i].exampleId == Some(x);
      }
    }
    forall row | row in v.rows ensures row.exampleId.Some? && InService(origin, service, row.exampleId.value)
                                       && (service, row.intentId) in origin.intents {
      var i :| 0 <= i < |v.rows| && v.rows[i] == row;
    }
    forall x | InService(origin, service, x) ensures exists row :: row in v.rows && row.exampleId == Some(x) {
      var i :| 0 <= i < |v.rows| && v.rows[i].exampleId == Some(x);
      assert v.rows[i] in v.rows;
    }
    DistinctByOrder(v.items);
    forall i | 0 <= i < |v.items|
      ensures RouteFreeInTurn(KeepIntents(c, service, v.items), service, v.items, i) <==>
                LaterRoutesDiffer(c, service, v.items, i)
    {
      FreeInTurnIff(origin, c, service, v.items, i);
    }
    assert (forall row :: row in v.rows ==>
              && ListsIntent(v.items, row.intentId)
              && (row.exampleId.value in c.examples ==> c.examples[row.exampleId.value].serviceId == service))
      <==> (forall x :: InService(origin, service, x) && x in c.examples ==> InService(c, service, x));
    assert (forall x :: InService(c, service, x) && ListsExample(v.rows, x) ==>
            ListsIntent(v.items, c.examples[x].intentId))
      <==> (forall x :: InService(origin, service, x) && InService(c, service, x) ==>
              (service, c.examples[x].intentId) in origin.intents);
  }

  lemma DistinctByOrder(items: seq<Item>)
    requires Ascending(items)
    ensures DistinctItems(items)
  {
    hide Baseline.LexLe;
  }

  lemma FreeInTurnIff(origin: Catalog, c: Catalog, service: string, items: seq<Item>, i: nat)
    requires Valid(origin) && SnapshotOf(origin, service, items) && DistinctItems(items) && i < |items|
    ensures RouteFreeInTurn(KeepIntents(c, service, items), service, items, i) <==>
              LaterRoutesDiffer(c, service, items, i)
  {
    hide ListsIntent, LastItem, Ascending, Shown, UniqueRoutes;
    var trimmed := KeepIntents(c, service, items);
    forall j | 0 <= j < |items| && j != i
      ensures RouteAfter(trimmed, service, items[..i], items[j].intentId)
           == if j < i then Some(items[j].fields.routeKey)
              else if (service, items[j].intentId) in c.intents
              then Some(c.intents[(service, items[j].intentId)].fields.routeKey)
              else None
      ensures items[j].fields.routeKey != items[i].fields.routeKey
    {
      RouteInTurn(c, service, items, i, j);
      DifferentRoutes(origin, service, items[j].intentId, items[i].intentId);
    }
    forall id | !ListsIntent(items, id) ensures RouteAfter(trimmed, service, items[..i], id) == None {
      PrefixLists(items, i, id);
      assert (service, id).0 == service && (service, id).1 == id;
    }
    forall id | ListsIntent(items, id) ensures exists j :: 0 <= j < |items| && items[j].intentId == id {
      ListedAt(items, id);
    }
  }

  lemma ListedAt(items: seq<Item>, id: string)
    requires ListsIntent(items, id)
    ensures exists j :: 0 <= j < |items| && items[j].intentId == id
  {
  }

  lemma PrefixLists(items: seq<Item>, i: nat, id: string)
    requires i <= |items|
    ensures ListsIntent(items[..i], id) ==> ListsIntent(items, id)
  {
    if ListsIntent(items[..i], id) {
      var j :| 0 <= j < i && items[..i][j].intentId == id;
      assert items[j].intentId == id;
    }
  }

  lemma RouteInTurn(c: Catalog, service: string, items: seq<Item>, i: nat, j: nat)
    requires DistinctItems(items) && i < |items| && j < |items| && i != j
    ensures RouteAfter(KeepIntents(c, service, items), service, items[..i], items[j].intentId)
         == if j < i then Some(items[j].fields.routeKey)
            else if (service, items[j].intentId) in c.intents
            then Some(c.intents[(service, items[j].intentId)].fields.routeKey)
            else None
  {
    hide LastItem;
    var id := items[j].intentId;
    if j < i {
      assert items[..i][j] == items[j];
      LastOfDistinct(items[..i], j);
    } else {
      assert !ListsIntent(items[..i], id);
      assert ListsIntent(items, id) && (service, id).1 == id;
    }
  }

  /** Loading a version at once, before anything else changed, always succeeds and changes no content. */
  lemma LoadAtOnce(origin: Catalog, service: string, v: Version, actor: string, now: int)
    requires Valid(origin) && CreatedFrom(origin, service, v)
    ensures Load(origin, service, Some(v), actor, now).Ok?
    ensures SameContent(origin, Load(origin, service, Some(v), actor, now).value, service)
  {
    hide Load, ListsIntent, Ascending, Shown, UniqueRoutes, RowsOf;
    DistinctByOrder(v.items);
    forall i, j | 0 <= i < j < |v.items|
      ensures origin.intents[(service, v.items[j].intentId)].fields.routeKey != v.items[i].fields.routeKey
    {
      DifferentRoutes(origin, service, v.items[j].intentId, v.items[i].intentId);
    }
    assert forall i :: 0 <= i < |v.items| ==> LaterRoutesDiffer(origin, service, v.items, i);
    CreatedVersionLoadsIff(origin, origin, service, v, actor, now);
    LoadRestoresOrigin(origin, origin, service, v, actor, now);
  }
}
