/** What a load to draft makes of the catalog, when it succeeds, and when it does so again. */
module CatalogTheorems {
  import opened Wrappers
  import opened CatalogDraft

  // ---------------------------------------------------------------------------
  // What a load makes
  // ---------------------------------------------------------------------------

  predicate InService(c: Catalog, service: string, x: string) {
    x in c.examples && c.examples[x].serviceId == service
  }

  lemma KeepingKeeps(c: Catalog, service: string, v: Version)
    requires Valid(c) && !Blocked(KeepExamples(c, service, v.rows), service, v.items)
    ensures Valid(KeepIntents(KeepExamples(c, service, v.rows), service, v.items))
  {
    hide ListsIntent, ListsExample;
    var kept := KeepExamples(c, service, v.rows);
    var after := KeepIntents(kept, service, v.items);
    forall x | x in after.examples ensures (after.examples[x].serviceId, after.examples[x].intentId) in after.intents {
      assert x in c.examples && x in kept.examples;
    }
  }

  /**
   * After a load the service's intents are exactly the snapshot's, drafted, and its examples exactly
   * the stored ones, unapproved and without embedding. Other services are as before, and no
   * example refers to a missing intent.
   */
  lemma LoadMeaning(c: Catalog, service: string, v: Version, actor: string, now: int)
    requires Valid(c) && Load(c, service, Some(v), actor, now).Ok?
    ensures var after := Load(c, service, Some(v), actor, now).value;
            && Valid(after)
            && (forall id :: (service, id) in after.intents <==> ListsIntent(v.items, id))
            && (forall id :: ListsIntent(v.items, id) ==>
                  after.intents[(service, id)] == Drafted(IntentAt(c, service, id), LastItem(v.items, id), actor, now))
            && (forall x :: InService(after, service, x) <==> ListsExample(v.rows, x))
            && (forall x :: ListsExample(v.rows, x) ==>
                  x in after.examples && after.examples[x] == Restored(LastRow(v.rows, x), service, actor, now))
            && (forall k: (string, string) :: k.0 != service ==> IntentAt(after, k.0, k.1) == IntentAt(c, k.0, k.1))
            && (forall x :: x in c.examples && c.examples[x].serviceId != service ==>
                  x in after.examples && after.examples[x] == c.examples[x])
            && (forall x :: x in after.examples && after.examples[x].serviceId != service ==>
                  x in c.examples && after.examples[x] == c.examples[x])
    ensures var after := Load(c, service, Some(v), actor, now).value;
            && (forall id :: ListsIntent(v.items, id) ==>
                  IsDraft(after.intents[(service, id)], IntentAt(c, service, id), LastItem(v.items, id), actor, now))
            && (forall x :: ListsExample(v.rows, x) ==>
                  IsRestored(after.examples[x], service, LastRow(v.rows, x), actor, now))
  {
    hide ListsIntent, ListsExample, UniqueRoutes, Drafted, Restored, IsDraft, IsRestored, LastItem, LastRow;
    LoadedParts(c, service, v, actor, now);
    forall id | ListsIntent(v.items, id)
      ensures IsDraft(Drafted(IntentAt(c, service, id), LastItem(v.items, id), actor, now), IntentAt(c, service, id),
                      LastItem(v.items, id), actor, now)
    {
      DraftedIsDraft(IntentAt(c, service, id), LastItem(v.items, id), actor, now);
    }
    forall x | ListsExample(v.rows, x)
      ensures IsRestored(Restored(LastRow(v.rows, x), service, actor, now), service, LastRow(v.rows, x), actor, now)
    {
      RestoredIsRestored(LastRow(v.rows, x), service, actor, now);
    }
  }

  lemma LoadedParts(c: Catalog, service: string, v: Version, actor: string, now: int)
    requires Valid(c) && Load(c, service, Some(v), actor, now).Ok?
    ensures var after := Load(c, service, Some(v), actor, now).value;
            && Valid(after)
            && (forall id :: (service, id) in after.intents <==> ListsIntent(v.items, id))
            && (forall id :: ListsIntent(v.items, id) ==>
                  after.intents[(service, id)] == Drafted(IntentAt(c, service, id), LastItem(v.items, id), actor, now))
            && (forall x :: InService(after, service, x) <==> ListsExample(v.rows, x))
            && (forall x :: ListsExample(v.rows, x) ==>
                  x in after.examples && after.examples[x] == Restored(LastRow(v.rows, x), service, actor, now))
            && (forall k: (string, string) :: k.0 != service ==> IntentAt(after, k.0, k.1) == IntentAt(c, k.0, k.1))
            && (forall x :: x in c.examples && c.examples[x].serviceId != service ==>
                  x in after.examples && after.examples[x] == c.examples[x])
            && (forall x :: x in after.examples && after.examples[x].serviceId != service ==>
                  x in c.examples && after.examples[x] == c.examples[x])
  {
    hide ListsIntent, ListsExample, UniqueRoutes, Drafted;
    var kept := KeepExamples(c, service, v.rows);
    var trimmed := KeepIntents(kept, service, v.items);
    KeepingKeeps(c, service, v);
    DraftItemsMeaning(trimmed, service, v.items, actor, now);
    var drafted := DraftItems(trimmed, service, v.items, actor, now).value;
    RestoreRowsMeaning(drafted, service, v.rows, actor, now);
    var after := RestoreRows(drafted, service, v.rows, actor, now).value;
    LoadedIntents(c, service, v, actor, now, trimmed, after);
    LoadedExamples(c, service, v, actor, now, kept, after);
    LoadedReferential(service, v, actor, now, trimmed, drafted, after);
    assert UniqueRoutes(after) by { SameRoutes(drafted, after); }
  }

  lemma SameRoutes(c: Catalog, after: Catalog)
    requires UniqueRoutes(c) && after.intents == c.intents
    ensures UniqueRoutes(after)
  {
  }

  lemma LoadedIntents(c: Catalog, service: string, v: Version, actor: string, now: int, trimmed: Catalog,
                      after: Catalog)
    requires trimmed == KeepIntents(KeepExamples(c, service, v.rows), service, v.items)
    requires forall k: (string, string) ::
               IntentAt(after, k.0, k.1) == IntentAfter(trimmed, service, v.items, k, actor, now)
    ensures forall id :: (service, id) in after.intents <==> ListsIntent(v.items, id)
    ensures forall id :: ListsIntent(v.items, id) ==>
              after.intents[(service, id)] == Drafted(IntentAt(c, service, id), LastItem(v.items, id), actor, now)
    ensures forall k: (string, string) :: k.0 != service ==> IntentAt(after, k.0, k.1) == IntentAt(c, k.0, k.1)
  {
    hide ListsIntent, LastItem, Drafted;
    forall id
      ensures (service, id) in after.intents <==> ListsIntent(v.items, id)
      ensures ListsIntent(v.items, id) ==>
                after.intents[(service, id)] == Drafted(IntentAt(c, service, id), LastItem(v.items, id), actor, now)
    {
      assert IntentAt(after, (service, id).0, (service, id).1)
             == IntentAfter(trimmed, service, v.items, (service, id), actor, now);
    }
  }

  lemma LoadedExamples(c: Catalog, service: string, v: Version, actor: string, now: int, kept: Catalog, after: Catalog)
    requires kept == KeepExamples(c, service, v.rows)
    requires forall x :: x in after.examples <==> x in kept.examples || ListsExample(v.rows, x)
    requires forall x :: x in kept.examples && !ListsExample(v.rows, x) ==> after.examples[x] == kept.examples[x]
    requires forall x :: ListsExample(v.rows, x) ==>
              after.examples[x] == Restored(LastRow(v.rows, x), service, actor, now)
    requires forall x :: x in kept.examples && ListsExample(v.rows, x) ==> kept.examples[x].serviceId == service
    ensures forall x :: InService(after, service, x) <==> ListsExample(v.rows, x)
    ensures forall x :: x in c.examples && c.examples[x].serviceId != service ==>
              x in after.examples && after.examples[x] == c.examples[x]
    ensures forall x :: x in after.examples && after.examples[x].serviceId != service ==>
              x in c.examples && after.examples[x] == c.examples[x]
  {
    hide ListsExample, LastRow;
  }

  lemma LoadedReferential(service: string, v: Version, actor: string, now: int, trimmed: Catalog,
                          drafted: Catalog, after: Catalog)
    requires Referential(trimmed) && drafted.examples == trimmed.examples && after.intents == drafted.intents
    requires forall k: (string, string) ::
               IntentAt(drafted, k.0, k.1) == IntentAfter(trimmed, service, v.items, k, actor, now)
    requires forall x :: x in after.examples <==> x in drafted.examples || ListsExample(v.rows, x)
    requires forall x :: x in drafted.examples && !ListsExample(v.rows, x) ==> after.examples[x] == drafted.examples[x]
    requires forall x :: ListsExample(v.rows, x) ==>
              after.examples[x] == Restored(LastRow(v.rows, x), service, actor, now)
    requires forall row :: row in v.rows && row.exampleId.Some? ==> (service, row.intentId) in drafted.intents
    ensures Referential(after)
  {
    hide ListsExample, ListsIntent, LastRow, LastItem, Drafted;
    forall x | x in after.examples ensures (after.examples[x].serviceId, after.examples[x].intentId) in after.intents {
      if ListsExample(v.rows, x) {
        var row := LastRow(v.rows, x);
        assert row in v.rows && row.exampleId == Some(x);
      } else {
        var k := (trimmed.examples[x].serviceId, trimmed.examples[x].intentId);
        assert k in trimmed.intents;
        assert IntentAt(drafted, k.0, k.1).Some?;
      }
    }
  }

  // ---------------------------------------------------------------------------
  // When it succeeds
  // ---------------------------------------------------------------------------

  /** The route key an intent of the service has once these items are drafted. */
  function RouteAfter(c: Catalog, service: string, items: seq<Item>, id: string): Option<string> {
    if ListsIntent(items, id) then Some(LastItem(items, id).fields.routeKey)
    else if (service, id) in c.intents then Some(c.intents[(service, id)].fields.routeKey)
    else None
  }

  /** When its turn comes, an item's route key is nobody else's. */
  ghost predicate RouteFreeInTurn(c: Catalog, service: string, items: seq<Item>, i: nat)
    requires i < |items|
  {
    forall id :: id != items[i].intentId ==> RouteAfter(c, service, items[..i], id) != Some(items[i].fields.routeKey)
  }

  lemma RouteHeldMeaning(c: Catalog, service: string, items: seq<Item>, actor: string, now: int, id: string,
                         route: string)
    requires DraftItems(c, service, items, actor, now).Ok?
    ensures RouteHeldByOther(DraftItems(c, service, items, actor, now).value, service, id, route) <==>
              exists other :: other != id && RouteAfter(c, service, items, other) == Some(route)
  {
    hide ListsIntent, LastItem, UniqueRoutes;
    DraftItemsMeaning(c, service, items, actor, now);
    var after := DraftItems(c, service, items, actor, now).value;
    forall other
      ensures RouteAfter(c, service, items, other)
           == if (service, other) in after.intents then Some(after.intents[(service, other)].fields.routeKey) else None
    {
      assert IntentAt(after, (service, other).0, (service, other).1)
          == IntentAfter(c, service, items, (service, other), actor, now);
    }
    if RouteHeldByOther(after, service, id, route) {
      var k :| k in after.intents && k.0 == service && k.1 != id && after.intents[k].fields.routeKey == route;
      assert k == (service, k.1);
      assert RouteAfter(c, service, items, k.1) == Some(route);
      assert exists other :: other != id && RouteAfter(c, service, items, other) == Some(route);
    }
    if other :| other != id && RouteAfter(c, service, items, other) == Some(route) {
      var k := (service, other);
      assert k in after.intents && k.0 == service && k.1 != id && after.intents[k].fields.routeKey == route;
      assert RouteHeldByOther(after, service, id, route);
    }
  }

  lemma {:induction false} DraftItemsSucceedsIff(c: Catalog, service: string, items: seq<Item>, actor: string, now: int)
    ensures DraftItems(c, service, items, actor, now).Ok? <==>
              forall i :: 0 <= i < |items| ==> RouteFreeInTurn(c, service, items, i)
  {
    hide RouteAfter, RouteHeldByOther;
    if items != [] {
      var n := |items| - 1;
      DraftItemsSucceedsIff(c, service, items[..n], actor, now);
      forall i | 0 <= i < n ensures RouteFreeInTurn(c, service, items[..n], i) <==>
          RouteFreeInTurn(c, service, items, i) {
        assert items[..n][..i] == items[..i];
      }
      if DraftItems(c, service, items[..n], actor, now).Ok? {
        RouteHeldMeaning(c, service, items[..n], actor, now, items[n].intentId, items[n].fields.routeKey);
        assert RouteFreeInTurn(c, service, items, n) <==> DraftItems(c, service, items, actor, now).Ok?;
      } else {
        var i :| 0 <= i < n && !RouteFreeInTurn(c, service, items[..n], i);
        assert !RouteFreeInTurn(c, service, items, i);
      }
    }
  }

  predicate RowFits(c: Catalog, service: string, row: StoredRow) {
    row.exampleId.Some? ==>
      && (service, row.intentId) in c.intents
      && (row.exampleId.value in c.examples ==> c.examples[row.exampleId.value].serviceId == service)
  }

  lemma {:induction false} RestoreRowsSucceedsIff(c: Catalog, service: string, rows: seq<StoredRow>,
                                                  actor: string, now: int)
    ensures RestoreRows(c, service, rows, actor, now).Ok? <==> forall row :: row in rows ==> RowFits(c, service, row)
  {
    if rows != [] {
      var n := |rows| - 1;
      RestoreRowsSucceedsIff(c, service, rows[..n], actor, now);
      assert forall row :: row in rows <==> row == rows[n] || row in rows[..n];
      if RestoreRows(c, service, rows[..n], actor, now).Ok? {
        LastRowFits(c, service, rows, actor, now);
      }
    }
  }

  lemma LastRowFits(c: Catalog, service: string, rows: seq<StoredRow>, actor: string, now: int)
    requires rows != [] && RestoreRows(c, service, rows[..|rows| - 1], actor, now).Ok?
    ensures RestoreRow(RestoreRows(c, service, rows[..|rows| - 1], actor, now).value, service,
                       rows[|rows| - 1], actor, now).Ok?
            <==> RowFits(c, service, rows[|rows| - 1])
  {
    hide RestoreRows;
    var n := |rows| - 1;
    RestoreRowsMeaning(c, service, rows[..n], actor, now);
  }

  /** What a load needs, and all it needs. */
  ghost predicate Loadable(c: Catalog, service: string, v: Version) {
    && (forall x :: InService(c, service, x) && ListsExample(v.rows, x) ==>
          ListsIntent(v.items, c.examples[x].intentId))
    && (forall i :: 0 <= i < |v.items| ==> RouteFreeInTurn(KeepIntents(c, service, v.items), service, v.items, i))
    && (forall row :: row in v.rows && row.exampleId.Some? ==>
          && ListsIntent(v.items, row.intentId)
          && (row.exampleId.value in c.examples ==> c.examples[row.exampleId.value].serviceId == service))
  }

  /**
   * A load succeeds exactly if no example that stays hangs on an intent that goes, each snapshot
   * intent finds its route key free when its turn comes, and every stored example names an intent
   * of the snapshot and an id no other service uses.
   */
  lemma LoadSucceedsIff(c: Catalog, service: string, v: Version, actor: string, now: int)
    ensures Load(c, service, Some(v), actor, now).Ok? <==> Loadable(c, service, v)
  {
    hide ListsIntent, ListsExample, RouteFreeInTurn, DraftItems, RestoreRows, UniqueRoutes;
    var kept := KeepExamples(c, service, v.rows);
    var trimmed := KeepIntents(kept, service, v.items);
    BlockedMeaning(c, service, v);
    DraftItemsSucceedsIff(trimmed, service, v.items, actor, now);
    RoutesIgnoreExamples(c, service, v);
    if DraftItems(trimmed, service, v.items, actor, now).Ok? {
      var drafted := DraftItems(trimmed, service, v.items, actor, now).value;
      RestoreRowsSucceedsIff(drafted, service, v.rows, actor, now);
      DraftItemsMeaning(trimmed, service, v.items, actor, now);
      RowsFit(c, service, v, actor, now, kept, trimmed, drafted);
    }
  }

  lemma BlockedMeaning(c: Catalog, service: string, v: Version)
    ensures !Blocked(KeepExamples(c, service, v.rows), service, v.items) <==>
              forall x :: InService(c, service, x) && ListsExample(v.rows, x) ==>
                  ListsIntent(v.items, c.examples[x].intentId)
  {
    hide ListsIntent, ListsExample;
    var kept := KeepExamples(c, service, v.rows);
    forall x ensures InService(kept, service, x) <==> InService(c, service, x) && ListsExample(v.rows, x) {
    }
    if !Blocked(kept, service, v.items) {
      forall x | InService(c, service, x) && ListsExample(v.rows, x)
        ensures ListsIntent(v.items, c.examples[x].intentId)
      {
        assert x in kept.examples;
      }
    }
  }

  lemma RoutesIgnoreExamples(c: Catalog, service: string, v: Version)
    ensures forall i :: 0 <= i < |v.items| ==>
              (RouteFreeInTurn(KeepIntents(KeepExamples(c, service, v.rows), service, v.items), service, v.items, i)
               <==> RouteFreeInTurn(KeepIntents(c, service, v.items), service, v.items, i))
  {
    hide ListsIntent, LastItem;
    var a, b := KeepIntents(KeepExamples(c, service, v.rows), service, v.items), KeepIntents(c, service, v.items);
    assert a.intents == b.intents;
    assert forall items, id :: RouteAfter(a, service, items, id) == RouteAfter(b, service, items, id);
  }

  lemma RowsFit(c: Catalog, service: string, v: Version, actor: string, now: int, kept: Catalog,
                trimmed: Catalog, drafted: Catalog)
    requires kept == KeepExamples(c, service, v.rows) && trimmed == KeepIntents(kept, service, v.items)
    requires drafted.examples == trimmed.examples
    requires forall k: (string, string) ::
               IntentAt(drafted, k.0, k.1) == IntentAfter(trimmed, service, v.items, k, actor, now)
    ensures (forall row :: row in v.rows ==> RowFits(drafted, service, row)) <==>
              forall row :: row in v.rows && row.exampleId.Some? ==>
                && ListsIntent(v.items, row.intentId)
                && (row.exampleId.value in c.examples ==> c.examples[row.exampleId.value].serviceId == service)
  {
    hide ListsIntent, LastItem, Drafted;
    forall row | row in v.rows && row.exampleId.Some?
      ensures RowFits(drafted, service, row) <==>
                && ListsIntent(v.items, row.intentId)
                && (row.exampleId.value in c.examples ==> c.examples[row.exampleId.value].serviceId == service)
    {
      var k := (service, row.intentId);
      assert IntentAt(drafted, k.0, k.1) == IntentAfter(trimmed, service, v.items, k, actor, now);
      var i :| 0 <= i < |v.rows| && v.rows[i] == row;
      assert ListsExample(v.rows, row.exampleId.value);
    }
  }

  /** Two live intents whose route keys the snapshot swaps: both states are fine, but the load fails halfway. */
  lemma SwappedRoutesFail(c: Catalog, service: string, a: Item, b: Item, actor: string, now: int)
    requires a.intentId != b.intentId && a.fields.routeKey != b.fields.routeKey
    requires (service, a.intentId) in c.intents && c.intents[(service, a.intentId)].fields.routeKey == b.fields.routeKey
    requires (service, b.intentId) in c.intents && c.intents[(service, b.intentId)].fields.routeKey == a.fields.routeKey
    requires forall x :: !InService(c, service, x)
    ensures Load(c, service, Some(Version([a, b], [])), actor, now) == Err(RouteTaken)
  {
    var v := Version([a, b], []);
    var kept := KeepExamples(c, service, v.rows);
    var trimmed := KeepIntents(kept, service, v.items);
    assert forall x :: x in kept.examples ==> kept.examples[x].serviceId != service;
    assert ListsIntent(v.items, v.items[0].intentId) && ListsIntent(v.items, v.items[1].intentId);
    assert (service, b.intentId) in trimmed.intents && (service, b.intentId).0 == service
           && (service, b.intentId).1 != a.intentId;
    assert RouteHeldByOther(trimmed, service, a.intentId, a.fields.routeKey);
    assert v.items[..1] == [a];
    assert DraftItems(trimmed, service, [], actor, now) == Ok(trimmed);
    assert [a][..0] == [];
    assert DraftItems(trimmed, service, [a], actor, now) == Err(RouteTaken);
  }

  // ---------------------------------------------------------------------------
  // Loading again
  // ---------------------------------------------------------------------------

  predicate DistinctItems(items: seq<Item>) {
    forall i, j :: 0 <= i < j < |items| ==> items[i].intentId != items[j].intentId
  }

  lemma {:induction false} LastOfDistinct(items: seq<Item>, i: nat)
    requires DistinctItems(items) && i < |items|
    ensures ListsIntent(items, items[i].intentId) && LastItem(items, items[i].intentId) == items[i]
  {
    var n := |items| - 1;
    if i < n {
      LastOfDistinct(items[..n], i);
    }
  }

  /** Equal but for who changed it last and when. */
  predicate SameIntent(a: Intent, b: Intent) {
    a == b.(updatedBy := a.updatedBy, updatedAt := a.updatedAt)
  }

  predicate SameExample(a: Example, b: Example) {
    a == b.(createdBy := a.createdBy, createdAt := a.createdAt)
  }

  predicate SameCatalog(a: Catalog, b: Catalog) {
    && a.intents.Keys == b.intents.Keys && a.examples.Keys == b.examples.Keys
    && (forall k :: k in a.intents ==> SameIntent(a.intents[k], b.intents[k]))
    && (forall x :: x in a.examples ==> SameExample(a.examples[x], b.examples[x]))
  }

  /** The route key an intent has when, in loading a snapshot again, i items are drafted. */
  function RouteOnReload(items: seq<Item>, i: nat, id: string): Option<string>
    requires i < |items|
  {
    if ListsIntent(items[..i], id) then Some(LastItem(items[..i], id).fields.routeKey)
    else if ListsIntent(items, id) then Some(LastItem(items, id).fields.routeKey)
    else None
  }

  /** No item asks for the route key another intent has, or has ended with, by then. */
  ghost predicate Reloadable(items: seq<Item>) {
    forall i :: 0 <= i < |items| ==> ReloadableAt(items, i)
  }

  ghost predicate ReloadableAt(items: seq<Item>, i: nat)
    requires i < |items|
  {
    forall id :: id != items[i].intentId ==> RouteOnReload(items, i, id) != Some(items[i].fields.routeKey)
  }

  lemma RouteAfterLoad(c: Catalog, service: string, items: seq<Item>, i: nat, id: string)
    requires i < |items|
    requires forall x :: (service, x) in c.intents <==> ListsIntent(items, x)
    requires forall x :: ListsIntent(items, x) ==> c.intents[(service, x)].fields == LastItem(items, x).fields
    ensures RouteAfter(KeepIntents(c, service, items), service, items[..i], id) == RouteOnReload(items, i, id)
  {
    hide ListsIntent, LastItem;
    assert (service, id).1 == id;
  }

  lemma RoutesFreeIffReloadable(c: Catalog, service: string, items: seq<Item>)
    requires forall x :: (service, x) in c.intents <==> ListsIntent(items, x)
    requires forall x :: ListsIntent(items, x) ==> c.intents[(service, x)].fields == LastItem(items, x).fields
    ensures (forall i :: 0 <= i < |items| ==> RouteFreeInTurn(KeepIntents(c, service, items), service, items, i))
       <==> Reloadable(items)
  {
    hide RouteAfter, RouteOnReload, ListsIntent, LastItem, KeepIntents;
    forall i | 0 <= i < |items|
      ensures RouteFreeInTurn(KeepIntents(c, service, items), service, items, i) <==> ReloadableAt(items, i)
    {
      forall id
        ensures RouteAfter(KeepIntents(c, service, items), service, items[..i], id) == RouteOnReload(items, i, id)
      {
        RouteAfterLoad(c, service, items, i, id);
      }
    }
  }

  /**
   * Loading a snapshot again succeeds exactly if no item asks for a route key another intent has by
   * then, which can be read off the snapshot; and it changes nothing but who did it last, and when.
   */
  lemma SecondLoad(c: Catalog, service: string, v: Version, actor: string, now: int, again: string, later: int)
    requires Valid(c) && Load(c, service, Some(v), actor, now).Ok?
    ensures var once := Load(c, service, Some(v), actor, now).value;
            var twice := Load(once, service, Some(v), again, later);
            && (twice.Ok? <==> Reloadable(v.items))
            && (twice.Ok? ==> SameCatalog(twice.value, once))
  {
    hide Load, ListsIntent, ListsExample, LastItem, LastRow, RouteFreeInTurn, UniqueRoutes, Reloadable;
    var once := Load(c, service, Some(v), actor, now).value;
    LoadMeaning(c, service, v, actor, now);
    LoadSucceedsIff(c, service, v, actor, now);
    RoutesFreeIffReloadable(once, service, v.items);
    ReloadableRows(c, service, v, once, actor, now);
    LoadSucceedsIff(once, service, v, again, later);
    if Load(once, service, Some(v), again, later).Ok? {
      LoadMeaning(once, service, v, again, later);
      LoadedTwice(c, service, v, once, Load(once, service, Some(v), again, later).value, actor, now, again, later);
    }
  }

  /** A snapshot of different intents, as the program takes them, can be loaded any number of times. */
  lemma DistinctIsReloadable(c: Catalog, service: string, v: Version, actor: string, now: int)
    requires Valid(c) && DistinctItems(v.items) && Load(c, service, Some(v), actor, now).Ok?
    ensures Reloadable(v.items)
  {
    hide Load, ListsIntent, LastItem, UniqueRoutes;
    var once := Load(c, service, Some(v), actor, now).value;
    LoadMeaning(c, service, v, actor, now);
    forall i, id | 0 <= i < |v.items| && id != v.items[i].intentId
      ensures RouteOnReload(v.items, i, id) != Some(v.items[i].fields.routeKey)
    {
      LastOfDistinct(v.items, i);
      LastOfPrefix(v.items, i, id);
      if ListsIntent(v.items, id) {
        DifferentRoutes(once, service, v.items[i].intentId, id);
      }
    }
  }

  lemma LastOfPrefix(items: seq<Item>, i: nat, id: string)
    requires DistinctItems(items) && i < |items|
    ensures ListsIntent(items[..i], id) ==> ListsIntent(items, id) && LastItem(items[..i], id) == LastItem(items, id)
  {
    hide LastItem;
    if ListsIntent(items[..i], id) {
      var j :| 0 <= j < i && items[..i][j].intentId == id;
      LastOfDistinct(items[..i], j);
      LastOfDistinct(items, j);
      assert items[j].intentId == id;
    }
  }

  lemma DifferentRoutes(c: Catalog, service: string, a: string, b: string)
    requires UniqueRoutes(c) && a != b && (service, a) in c.intents && (service, b) in c.intents
    ensures c.intents[(service, a)].fields.routeKey != c.intents[(service, b)].fields.routeKey
  {
    assert (service, a).1 == a && (service, b).1 == b;
  }

  /**
   * One that lists an intent twice, first with a route key that another one ends with, loads into
   * an empty service once, and then never again.
   */
  lemma RepeatedIntentLoadsOnce(service: string, first: Item, again: Item, other: Item, actor: string, now: int,
                                later: int)
    requires first.intentId == again.intentId != other.intentId
    requires first.fields.routeKey == other.fields.routeKey != again.fields.routeKey
    ensures var v := Some(Version([first, again, other], []));
            var once := Load(Catalog(map[], map[]), service, v, actor, now);
            once.Ok? && Load(once.value, service, v, actor, later) == Err(RouteTaken)
  {
    hide Load, LastItem, ListsIntent;
    var empty, items := Catalog(map[], map[]), [first, again, other];
    var v := Version(items, []);
    forall i | 0 <= i < |items| ensures RouteFreeInTurn(KeepIntents(empty, service, items), service, items, i) {
      RoutesInTurn(service, items, i);
    }
    LoadSucceedsIff(empty, service, v, actor, now);
    var once := Load(empty, service, Some(v), actor, now).value;
    OtherTakesFirst(items);
    SecondLoad(empty, service, v, actor, now, actor, later);
    OnlyRouteTaken(once, service, v, actor, later);
  }

  lemma RoutesInTurn(service: string, items: seq<Item>, i: nat)
    requires |items| == 3 && i < 3 && items[0].intentId == items[1].intentId != items[2].intentId
    requires items[0].fields.routeKey == items[2].fields.routeKey != items[1].fields.routeKey
    ensures RouteFreeInTurn(KeepIntents(Catalog(map[], map[]), service, items), service, items, i)
  {
    forall id | id != items[i].intentId
      ensures RouteAfter(KeepIntents(Catalog(map[], map[]), service, items), service, items[..i], id)
           != Some(items[i].fields.routeKey)
    {
      if ListsIntent(items[..i], id) {
        assert i == 2 && items[..2][1].intentId == id;
        assert LastItem(items[..2], id) == items[1];
      }
    }
  }

  lemma OtherTakesFirst(items: seq<Item>)
    requires |items| == 3 && items[0].intentId != items[2].intentId
    requires items[0].fields.routeKey == items[2].fields.routeKey
    ensures !Reloadable(items)
  {
    var id := items[2].intentId;
    assert ListsIntent(items, id) && LastItem(items, id) == items[2];
    assert !ListsIntent(items[..0], id);
    assert RouteOnReload(items, 0, id) == Some(items[0].fields.routeKey);
    assert !ReloadableAt(items, 0);
  }

  /** With no stored example, and the listed intents there, a refusal can only be about a route key. */
  lemma OnlyRouteTaken(c: Catalog, service: string, v: Version, actor: string, now: int)
    requires v.rows == [] && Load(c, service, Some(v), actor, now).Err?
    ensures Load(c, service, Some(v), actor, now) == Err(RouteTaken)
  {
    hide RouteHeldByOther;
    var kept := KeepExamples(c, service, v.rows);
    assert !Blocked(kept, service, v.items);
    DraftRefusal(KeepIntents(kept, service, v.items), service, v.items, actor, now);
  }

  lemma {:induction false} DraftRefusal(c: Catalog, service: string, items: seq<Item>, actor: string, now: int)
    ensures DraftItems(c, service, items, actor, now).Err? ==>
              DraftItems(c, service, items, actor, now) == Err(RouteTaken)
  {
    if items != [] {
      DraftRefusal(c, service, items[..|items| - 1], actor, now);
    }
  }

  lemma ReloadableRows(c: Catalog, service: string, v: Version, once: Catalog, actor: string, now: int)
    requires Loadable(c, service, v)
    requires forall x :: InService(once, service, x) <==> ListsExample(v.rows, x)
    requires forall x :: ListsExample(v.rows, x) ==>
              x in once.examples && once.examples[x] == Restored(LastRow(v.rows, x), service, actor, now)
    ensures forall x :: InService(once, service, x) && ListsExample(v.rows, x) ==>
              ListsIntent(v.items, once.examples[x].intentId)
    ensures forall row :: row in v.rows && row.exampleId.Some? ==>
              && ListsIntent(v.items, row.intentId)
              && (row.exampleId.value in once.examples ==> once.examples[row.exampleId.value].serviceId == service)
  {
    hide ListsIntent, LastRow, RouteFreeInTurn;
    forall row | row in v.rows && row.exampleId.Some? ensures ListsExample(v.rows, row.exampleId.value) {
      var i :| 0 <= i < |v.rows| && v.rows[i] == row;
    }
    forall x | ListsExample(v.rows, x) ensures ListsIntent(v.items, once.examples[x].intentId) {
      assert LastRow(v.rows, x) in v.rows;
    }
  }

  lemma LoadedTwice(c: Catalog, service: string, v: Version, once: Catalog, twice: Catalog,
                    actor: string, now: int, again: string, later: int)
    requires forall id :: (service, id) in once.intents <==> ListsIntent(v.items, id)
    requires forall id :: (service, id) in twice.intents <==> ListsIntent(v.items, id)
    requires forall id :: ListsIntent(v.items, id) ==>
               once.intents[(service, id)] == Drafted(IntentAt(c, service, id), LastItem(v.items, id), actor, now)
    requires forall id :: ListsIntent(v.items, id) ==>
               twice.intents[(service, id)] == Drafted(IntentAt(once, service, id), LastItem(v.items, id), again, later)
    requires forall k: (string, string) :: k.0 != service ==> IntentAt(twice, k.0, k.1) == IntentAt(once, k.0, k.1)
    requires forall x :: InService(once, service, x) <==> ListsExample(v.rows, x)
    requires forall x :: InService(twice, service, x) <==> ListsExample(v.rows, x)
    requires forall x :: ListsExample(v.rows, x) ==>
              x in once.examples && once.examples[x] == Restored(LastRow(v.rows, x), service, actor, now)
    requires forall x :: ListsExample(v.rows, x) ==>
              x in twice.examples && twice.examples[x] == Restored(LastRow(v.rows, x), service, again, later)
    requires forall x :: x in once.examples && once.examples[x].serviceId != service ==>
               x in twice.examples && twice.examples[x] == once.examples[x]
    requires forall x :: x in twice.examples && twice.examples[x].serviceId != service ==>
               x in once.examples && twice.examples[x] == once.examples[x]
    ensures SameCatalog(twice, once)
  {
    hide ListsIntent, ListsExample, LastItem, LastRow;
    forall k: (string, string) ensures k in twice.intents <==> k in once.intents {
      if k.0 == service {
        assert k == (service, k.1);
      } else {
        assert k == (k.0, k.1);
        assert IntentAt(twice, k.0, k.1) == IntentAt(once, k.0, k.1);
      }
    }
    forall k | k in twice.intents ensures SameIntent(twice.intents[k], once.intents[k]) {
      if k.0 == service {
        assert k == (service, k.1) && ListsIntent(v.items, k.1);
      } else {
        assert k == (k.0, k.1);
        assert IntentAt(twice, k.0, k.1) == IntentAt(once, k.0, k.1);
      }
    }
    forall x ensures x in twice.examples <==> x in once.examples {
      if x in twice.examples {
        assert InService(twice, service, x) <==> ListsExample(v.rows, x);
      }
      if x in once.examples {
        assert InService(once, service, x) <==> ListsExample(v.rows, x);
      }
    }
    forall x | x in twice.examples ensures SameExample(twice.examples[x], once.examples[x]) {
      assert InService(twice, service, x) <==> ListsExample(v.rows, x);
    }
  }
}
