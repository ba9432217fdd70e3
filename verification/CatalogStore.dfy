/**
 * Creating a version and loading one to draft, as they run: loops over live tables, rolled back where
 * one is refused.
 */
module CatalogStore {
  import opened Wrappers
  import opened CatalogDraft
  import opened CatalogTheorems
  import opened CatalogVersions
  import Baseline

  class Tables {
    var intents: map<(string, string), Intent>
    var examples: map<string, Example>

    constructor ()
      ensures State() == Catalog(map[], map[])
    {
      intents, examples := map[], map[];
    }

    function State(): Catalog
      reads this
    {
      Catalog(intents, examples)
    }

    method Rollback(saved: Catalog)
      modifies this
      ensures State() == saved
    {
      intents, examples := saved.intents, saved.examples;
    }

    /** The program's query for the intents of a service: each once, by id. */
    ghost predicate ListsIntents(service: string, listed: seq<string>)
      reads this
    {
      && (forall i, j :: 0 <= i < j < |listed| ==> listed[i] != listed[j] && Baseline.LexLe(listed[i], listed[j]))
      && (forall id :: id in listed <==> (service, id) in intents)
    }

    /** And the one for its examples, each once, intent by intent. */
    ghost predicate ListsExamples(service: string, listed: seq<string>)
      reads this
    {
      && (forall i, j :: 0 <= i < j < |listed| ==> listed[i] != listed[j])
      && (forall x :: x in listed <==> InService(State(), service, x))
    }

    /** The snapshot of the listed intents, and a row for each listed example. */
    method CreateCatalogVersion(service: string, listed: seq<string>, exampleIds: seq<string>) returns (v: Version)
      requires ListsIntents(service, listed) && ListsExamples(service, exampleIds)
      ensures CreatedFrom(State(), service, v)
    {
      hide Shown, Baseline.LexLe;
      var items := [];
      for i := 0 to |listed|
        invariant |items| == i
        invariant forall k :: 0 <= k < i ==>
                    (service, listed[k]) in intents
                    && items[k] == Item(listed[k], intents[(service, listed[k])].fields,
                                        Shown(State(), service, listed[k]))
      {
        assert listed[i] in listed;
        items := items + [Item(listed[i], intents[(service, listed[i])].fields, Shown(State(), service, listed[i]))];
      }
      var rows := [];
      for i := 0 to |exampleIds|
        invariant |rows| == i
        invariant forall k :: 0 <= k < i ==>
                    exampleIds[k] in examples && rows[k] == RowOf(exampleIds[k], examples[exampleIds[k]])
      {
        assert exampleIds[i] in exampleIds;
        rows := rows + [RowOf(exampleIds[i], examples[exampleIds[i]])];
      }
      forall id ensures ListsIntent(items, id) <==> (service, id) in intents {
        assert id in listed <==> exists i :: 0 <= i < |items| && items[i].intentId == id;
      }
      forall x ensures InService(State(), service, x) <==> ListsExample(rows, x) {
        assert x in exampleIds <==> exists i :: 0 <= i < |rows| && rows[i].exampleId == Some(x);
      }
      return Version(items, rows);
    }

    /** Deletes the service's examples that the version does not store. */
    method DeleteExamples(service: string, rows: seq<StoredRow>)
      modifies this`examples
      ensures State() == KeepExamples(old(State()), service, rows)
    {
      hide ListsExample;
      ghost var c := State();
      var rest := set x | x in examples && examples[x].serviceId == service;
      while rest != {}
        invariant forall x :: x in rest ==> x in c.examples && c.examples[x].serviceId == service
        invariant examples == map x | x in c.examples
                    && (c.examples[x].serviceId == service ==> x in rest || ListsExample(rows, x)) :: c.examples[x]
        decreases |rest|
      {
        var x :| x in rest;
        if !ListsExample(rows, x) {
          examples := examples - {x};
        }
        rest := rest - {x};
      }
    }

    /** Deletes the service's intents that the snapshot does not list; one that is referred to stops it. */
    method DeleteIntents(service: string, items: seq<Item>) returns (r: Result<(), LoadError>)
      requires Referential(State())
      modifies this`intents
      ensures Blocked(old(State()), service, items) ==> r == Err(StillReferenced)
      ensures !Blocked(old(State()), service, items) ==>
                r == Ok(()) && State() == KeepIntents(old(State()), service, items)
    {
      hide ListsIntent, KeptSoFar, ReferredInRest;
      ghost var c := State();
      var rest := set k | k in intents && k.0 == service;
      NothingDeletedYet(c, service, items, rest);
      while rest != {}
        invariant forall k :: k in rest ==> k in c.intents && k.0 == service
        invariant KeptSoFar(c, service, items, rest, intents) && ReferredInRest(c, service, items, rest)
        decreases |rest|
      {
        var k :| k in rest;
        if !ListsIntent(items, k.1) {
          if exists x :: x in examples && examples[x].serviceId == service && examples[x].intentId == k.1 {
            return Err(StillReferenced);
          }
        }
        OneMoreIntent(c, service, items, rest, intents, k);
        if !ListsIntent(items, k.1) {
          intents := intents - {k};
        }
        rest := rest - {k};
      }
      AllDecided(c, service, items, intents);
      return Ok(());
    }

    /** Creates or updates the intents of the snapshot, one after the other. */
    method DraftAll(service: string, items: seq<Item>, actor: string, now: int) returns (r: Result<(), LoadError>)
      modifies this`intents
      ensures DraftItems(old(State()), service, items, actor, now).Ok? ==>
                r == Ok(()) && State() == DraftItems(old(State()), service, items, actor, now).value
      ensures DraftItems(old(State()), service, items, actor, now).Err? ==>
                r == Err(DraftItems(old(State()), service, items, actor, now).error)
    {
      hide RouteHeldByOther;
      ghost var c := State();
      for i := 0 to |items|
        invariant DraftItems(c, service, items[..i], actor, now) == Ok(State()) && examples == c.examples
      {
        assert items[..i + 1][..i] == items[..i];
        var item := items[i];
        if RouteHeldByOther(State(), service, item.intentId, item.fields.routeKey) {
          DraftStopsAt(c, service, items, actor, now, i);
          return Err(RouteTaken);
        }
        var key := (service, item.intentId);
        var existing := if key in intents then Some(intents[key]) else None;
        intents := intents[key := Drafted(existing, item, actor, now)];
      }
      assert items[..|items|] == items;
      return Ok(());
    }

    /** Creates or updates the stored examples, one after the other. */
    method RestoreAll(service: string, rows: seq<StoredRow>, actor: string, now: int) returns (r: Result<(), LoadError>)
      modifies this`examples
      ensures RestoreRows(old(State()), service, rows, actor, now).Ok? ==>
                r == Ok(()) && State() == RestoreRows(old(State()), service, rows, actor, now).value
      ensures RestoreRows(old(State()), service, rows, actor, now).Err? ==>
                r == Err(RestoreRows(old(State()), service, rows, actor, now).error)
    {
      ghost var c := State();
      for i := 0 to |rows|
        invariant RestoreRows(c, service, rows[..i], actor, now) == Ok(State()) && intents == c.intents
      {
        assert rows[..i + 1][..i] == rows[..i];
        var row := rows[i];
        if row.exampleId.None? {
          continue;
        }
        var id := row.exampleId.value;
        if id in examples && examples[id].serviceId != service {
          RestoreStopsAt(c, service, rows, actor, now, i);
          return Err(ExampleIdTaken);
        }
        if (service, row.intentId) !in intents {
          RestoreStopsAt(c, service, rows, actor, now, i);
          return Err(NoSuchIntent);
        }
        examples := examples[id := Restored(row, service, actor, now)];
      }
      assert rows[..|rows|] == rows;
      return Ok(());
    }

    method LoadCatalogVersionToDraft(service: string, version: Option<Version>, actor: string, now: int)
      returns (r: Result<(), LoadError>)
      requires Referential(State())
      modifies this
      ensures match Load(old(State()), service, version, actor, now)
              case Ok(after) => r == Ok(()) && State() == after
              case Err(e) => r == Err(e) && State() == old(State())
    {
      hide DraftItems, RestoreRows, Blocked, KeepExamples, KeepIntents;
      if version.None? {
        return Err(NotFound);
      }
      var saved, v := State(), version.value;
      DeleteExamples(service, v.rows);
      StaysReferential(saved, service, v.rows);
      r := DeleteIntents(service, v.items);
      if r.Err? {
        Rollback(saved);
        return;
      }
      r := DraftAll(service, v.items, actor, now);
      if r.Err? {
        Rollback(saved);
        return;
      }
      r := RestoreAll(service, v.rows, actor, now);
      if r.Err? {
        Rollback(saved);
      }
    }
  }

  /** The intents not yet decided on are there, and of the others those that the snapshot lists. */
  ghost predicate KeptSoFar(c: Catalog, service: string, items: seq<Item>, rest: set<(string, string)>,
                            intents: map<(string, string), Intent>)
  {
    forall k ::
      && (k in intents <==> k in c.intents && (k.0 == service ==> k in rest || ListsIntent(items, k.1)))
      && (k in intents ==> k in c.intents && intents[k] == c.intents[k])
  }

  /** An unlisted intent that an example refers to is not decided on yet. */
  ghost predicate ReferredInRest(c: Catalog, service: string, items: seq<Item>, rest: set<(string, string)>) {
    forall x :: x in c.examples && c.examples[x].serviceId == service && !ListsIntent(items, c.examples[x].intentId) ==>
      (service, c.examples[x].intentId) in rest
  }

  lemma NothingDeletedYet(c: Catalog, service: string, items: seq<Item>, rest: set<(string, string)>)
    requires Referential(c) && rest == set k | k in c.intents && k.0 == service
    ensures KeptSoFar(c, service, items, rest, c.intents) && ReferredInRest(c, service, items, rest)
  {
    hide ListsIntent;
  }

  lemma OneMoreIntent(c: Catalog, service: string, items: seq<Item>, rest: set<(string, string)>,
                      intents: map<(string, string), Intent>, k: (string, string))
    requires k in rest && k in c.intents && k.0 == service
    requires KeptSoFar(c, service, items, rest, intents) && ReferredInRest(c, service, items, rest)
    requires ListsIntent(items, k.1)
             || forall x :: x in c.examples && c.examples[x].serviceId == service ==> c.examples[x].intentId != k.1
    ensures KeptSoFar(c, service, items, rest - {k}, if ListsIntent(items, k.1) then intents else intents - {k})
    ensures ReferredInRest(c, service, items, rest - {k})
  {
    hide ListsIntent;
    forall x | x in c.examples && c.examples[x].serviceId == service && !ListsIntent(items, c.examples[x].intentId)
      ensures (service, c.examples[x].intentId) in rest - {k}
    {
      assert (service, c.examples[x].intentId).1 == c.examples[x].intentId;
    }
  }

  lemma AllDecided(c: Catalog, service: string, items: seq<Item>, intents: map<(string, string), Intent>)
    requires KeptSoFar(c, service, items, {}, intents) && ReferredInRest(c, service, items, {})
    ensures intents == KeepIntents(c, service, items).intents && !Blocked(c, service, items)
  {
    hide ListsIntent;
  }

  lemma StaysReferential(c: Catalog, service: string, rows: seq<StoredRow>)
    requires Referential(c)
    ensures Referential(KeepExamples(c, service, rows))
  {
  }

  /** The first refusal decides. */
  lemma {:induction false} DraftStopsAt(c: Catalog, service: string, items: seq<Item>, actor: string, now: int, i: nat)
    requires i < |items| && DraftItems(c, service, items[..i + 1], actor, now).Err?
    ensures DraftItems(c, service, items, actor, now) == DraftItems(c, service, items[..i + 1], actor, now)
  {
    hide DraftItem;
    if i + 1 == |items| {
      assert items[..i + 1] == items;
    } else {
      var n := |items| - 1;
      assert items[..n][..i + 1] == items[..i + 1];
      DraftStopsAt(c, service, items[..n], actor, now, i);
    }
  }

  lemma {:induction false} RestoreStopsAt(c: Catalog, service: string, rows: seq<StoredRow>, actor: string,
                                          now: int, i: nat)
    requires i < |rows| && RestoreRows(c, service, rows[..i + 1], actor, now).Err?
    ensures RestoreRows(c, service, rows, actor, now) == RestoreRows(c, service, rows[..i + 1], actor, now)
  {
    hide RestoreRow;
    if i + 1 == |rows| {
      assert rows[..i + 1] == rows;
    } else {
      var n := |rows| - 1;
      assert rows[..n][..i + 1] == rows[..i + 1];
      RestoreStopsAt(c, service, rows[..n], actor, now, i);
    }
  }
}
