/** Erasing raw queries past their retention (ops/retention.py, db/repositories.py). */
module Retention {
  import opened Wrappers
  import opened Encryption
  import opened RawText
  import opened Rewrap
  import opened RawTextRepository
  import RewrapTheorems

  const SECONDS_PER_DAY := 86400

  /** Rows that still hold anything to erase. */
  predicate Redactable(row: Row, service: string) {
    row.serviceId == Some(service) && row.deletion.None? && row.raw.AnyMaterial()
  }

  function Eligible(service: string, cutoff: int): Selector {
    row => Redactable(row, service) && row.createdAt < cutoff
  }

  function Redacts(service: string, traceIds: set<string>): Selector {
    row => Redactable(row, service) && row.id in traceIds
  }

  function AlreadyRedacted(service: string, cutoff: int): Selector {
    (row: Row) => row.serviceId == Some(service) && row.deletion.Some? && row.createdAt < cutoff
  }

  function RedactRow(row: Row, service: string, traceIds: set<string>, d: Deletion): Row {
    if Redacts(service, traceIds)(row) then row.(raw := NO_RAW, deletion := Some(d)) else row
  }

  function RedactRows(rows: seq<Row>, service: string, traceIds: set<string>, d: Deletion): (after: seq<Row>)
    ensures |after| == |rows| && forall i :: 0 <= i < |rows| ==> after[i] == RedactRow(rows[i], service, traceIds, d)
  {
    if rows == [] then []
    else RedactRows(rows[..|rows| - 1], service, traceIds, d) + [RedactRow(rows[|rows| - 1], service, traceIds, d)]
  }

  /** The ids of the selected rows, in table order. */
  function IdsOf(sel: Selector, rows: seq<Row>): (ids: seq<string>)
    ensures |ids| == CountRows(sel, rows)
  {
    if rows == [] then []
    else IdsOf(sel, rows[..|rows| - 1]) + if sel(rows[|rows| - 1]) then [rows[|rows| - 1].id] else []
  }

  // ---------------------------------------------------------------------------
  // The two steps as they run
  // ---------------------------------------------------------------------------

  datatype RetentionError = NegativeAge | BadLimit

  datatype Plan = Plan(eligibleTraceIds: seq<string>, alreadyRedacted: nat)

  /** The ids of the first rows a plan selects. */
  function PlannedIds(rows: seq<Row>, service: string, cutoff: int, limit: nat): (ids: seq<string>)
    ensures |ids| == |Chosen(Eligible(service, cutoff), rows, limit)|
  {
    var chosen := Chosen(Eligible(service, cutoff), rows, limit);
    seq(|chosen|, j requires 0 <= j < |chosen| => rows[chosen[j]].id)
  }

  predicate DistinctIds(rows: seq<Row>) {
    forall i, j :: 0 <= i < j < |rows| ==> rows[i].id != rows[j].id
  }

  /** A log of the service from before the cutoff that was not redacted and holds anything to erase. */
  predicate Outdated(row: Row, service: string, cutoff: int) {
    row.serviceId == Some(service) && row.deletion == None && row.raw != NO_RAW && row.createdAt < cutoff
  }

  lemma EligibleMeaning(row: Row, service: string, cutoff: int)
    ensures Eligible(service, cutoff)(row) <==> Outdated(row, service, cutoff)
  {
  }

  /**
   * The first eligible rows: as many as the limit allows, each once, in table order, and no eligible
   * row before one of them left out.
   */
  ghost predicate FirstEligible(rows: seq<Row>, service: string, cutoff: int, limit: nat, ids: seq<string>) {
    && |ids| == RewrapTheorems.Min(limit, |set i | 0 <= i < |rows| && Outdated(rows[i], service, cutoff)|)
    && (forall i, j :: 0 <= i < j < |ids| ==> ids[i] != ids[j])
    && (forall id :: id in ids ==>
          exists i :: 0 <= i < |rows| && rows[i].id == id && Outdated(rows[i], service, cutoff))
    && (forall i, j :: 0 <= i < j < |rows| && Outdated(rows[i], service, cutoff) && rows[j].id in ids ==>
          rows[i].id in ids)
    && (forall a, b, i, j :: (0 <= a < b < |ids| && 0 <= i < |rows| && 0 <= j < |rows|
                              && rows[i].id == ids[a] && rows[j].id == ids[b]) ==> i < j)
  }

  lemma PlannedLeavesNoneOut(rows: seq<Row>, service: string, cutoff: int, limit: nat, i: nat, j: nat)
    requires DistinctIds(rows) && i < j < |rows| && Eligible(service, cutoff)(rows[i])
    requires rows[j].id in PlannedIds(rows, service, cutoff, limit)
    ensures rows[i].id in PlannedIds(rows, service, cutoff, limit)
  {
    hide Redactable, Chosen;
    var sel := Eligible(service, cutoff);
    var chosen, ids := Chosen(sel, rows, limit), PlannedIds(rows, service, cutoff, limit);
    var b :| 0 <= b < |ids| && ids[b] == rows[j].id;
    assert chosen[b] == j;
    RewrapTheorems.ChosenLeavesNoneOut(sel, rows, limit, i, j);
    var a :| 0 <= a < |chosen| && chosen[a] == i;
    assert ids[a] == rows[i].id;
  }

  lemma PlannedAreFirst(rows: seq<Row>, service: string, cutoff: int, limit: nat)
    requires DistinctIds(rows)
    ensures FirstEligible(rows, service, cutoff, limit, PlannedIds(rows, service, cutoff, limit))
  {
    hide Redactable, Chosen;
    var sel := Eligible(service, cutoff);
    var chosen, ids := Chosen(sel, rows, limit), PlannedIds(rows, service, cutoff, limit);
    RewrapTheorems.ChosenIsFirst(sel, rows, limit);
    forall row ensures sel(row) <==> Outdated(row, service, cutoff) {
      EligibleMeaning(row, service, cutoff);
    }
    hide Outdated, Eligible;
    CountRowsMeaning(sel, rows);
    assert (set i | 0 <= i < |rows| && sel(rows[i])) == set i | 0 <= i < |rows| && Outdated(rows[i], service, cutoff);
    forall i, j | 0 <= i < j < |rows| && sel(rows[i]) && rows[j].id in ids ensures rows[i].id in ids {
      PlannedLeavesNoneOut(rows, service, cutoff, limit, i, j);
    }
    forall id | id in ids ensures exists i :: 0 <= i < |rows| && rows[i].id == id && sel(rows[i]) {
      var a :| 0 <= a < |ids| && ids[a] == id;
      assert rows[chosen[a]].id == id;
    }
  }

  lemma RedactedAreCounted(rows: seq<Row>, service: string, cutoff: int)
    ensures CountRows(AlreadyRedacted(service, cutoff), rows)
         == |set i | 0 <= i < |rows| && rows[i].serviceId == Some(service) && rows[i].deletion.Some?
                     && rows[i].createdAt < cutoff|
  {
    var sel := AlreadyRedacted(service, cutoff);
    CountRowsMeaning(sel, rows);
    assert (set i | 0 <= i < |rows| && sel(rows[i]))
        == set i | 0 <= i < |rows| && rows[i].serviceId == Some(service) && rows[i].deletion.Some?
                   && rows[i].createdAt < cutoff;
  }

  method PlanRedaction(repository: Repository, service: string, olderThanDays: int, limit: int, now: int)
    returns (r: Result<Plan, RetentionError>)
    ensures var cutoff := now - olderThanDays * SECONDS_PER_DAY;
            r == if olderThanDays < 0 then Err(NegativeAge)
                 else if limit < 1 then Err(BadLimit)
                 else Ok(Plan(PlannedIds(repository.View().logs, service, cutoff, limit),
                              CountRows(AlreadyRedacted(service, cutoff), repository.View().logs)))
    ensures r.Ok? && DistinctIds(repository.View().logs) ==>
              FirstEligible(repository.View().logs, service, now - olderThanDays * 86400, limit,
                            r.value.eligibleTraceIds)
    ensures r.Ok? ==>
              var logs := repository.View().logs;
              r.value.alreadyRedacted
              == |set i | 0 <= i < |logs| && logs[i].serviceId == Some(service) && logs[i].deletion.Some?
                          && logs[i].createdAt < now - olderThanDays * 86400|
  {
    hide PlannedIds, FirstEligible;
    if olderThanDays < 0 {
      return Err(NegativeAge);
    }
    if limit < 1 {
      return Err(BadLimit);
    }
    var cutoff := now - olderThanDays * SECONDS_PER_DAY;
    var rows := repository.View().logs;
    RedactedAreCounted(rows, service, cutoff);
    if DistinctIds(rows) {
      PlannedAreFirst(rows, service, cutoff, limit);
    }
    return Ok(Plan(PlannedIds(rows, service, cutoff, limit), CountRows(AlreadyRedacted(service, cutoff), rows)));
  }

  function Audits(ids: seq<string>, actorId: string, service: string, now: int): seq<AuditLog> {
    seq(|ids|, i requires 0 <= i < |ids| => AuditLog("runtime_log.raw_query_redacted", actorId, service, ids[i], now))
  }

  /** Erases the listed logs that still hold anything, and writes one audit row for each of them. */
  method ApplyRedaction(repository: Repository, service: string, traceIds: seq<string>, actorId: string,
                        reason: string, now: int)
    returns (count: nat)
    requires repository.Valid()
    modifies repository`auditLogs, repository.logs
    ensures var ids := (set id | id in traceIds);
            && repository.View() == Store(old(repository.View().examples),
                 RedactRows(old(repository.View().logs), service, ids, Deletion(now, actorId, reason)))
            && count == CountRows(Redacts(service, ids), old(repository.View().logs))
            && repository.auditLogs == old(repository.auditLogs)
                 + Audits(IdsOf(Redacts(service, ids), old(repository.View().logs)), actorId, service, now)
  {
    hide RuntimeLog.View, IntentExample.View, Redacts, RedactRows, IdsOf, Audits, LogViews, ExampleViews;
    var ids := set id | id in traceIds;
    var redacted := EraseMatching(repository, service, ids, Deletion(now, actorId, reason));
    InsertAudits(repository, redacted, actorId, service, now);
    count := |redacted|;
  }

  method InsertAudits(repository: Repository, ids: seq<string>, actorId: string, service: string, now: int)
    modifies repository`auditLogs
    ensures repository.auditLogs == old(repository.auditLogs) + Audits(ids, actorId, service, now)
  {
    for i := 0 to |ids|
      invariant repository.auditLogs == old(repository.auditLogs) + Audits(ids[..i], actorId, service, now)
    {
      repository.auditLogs :=
        repository.auditLogs + [AuditLog("runtime_log.raw_query_redacted", actorId, service, ids[i], now)];
      assert Audits(ids[..i + 1], actorId, service, now)
          == Audits(ids[..i], actorId, service, now)
             + [AuditLog("runtime_log.raw_query_redacted", actorId, service, ids[i], now)];
    }
    assert ids[..|ids|] == ids;
  }

  lemma IdsStep(sel: Selector, rows: seq<Row>)
    requires rows != []
    ensures IdsOf(sel, rows) ==
            IdsOf(sel, rows[..|rows| - 1]) + if sel(rows[|rows| - 1]) then [rows[|rows| - 1].id] else []
  {
  }

  /** The first n logs are redacted where they match, the others as they were. */
  ghost predicate ErasedUpTo(logs: seq<RuntimeLog>, rows: seq<Row>, service: string, ids: set<string>,
                             d: Deletion, n: nat)
    requires |logs| == |rows| && n <= |rows|
    reads logs
  {
    && (forall j :: 0 <= j < n ==> logs[j].View() == RedactRow(rows[j], service, ids, d))
    && (forall j :: n <= j < |rows| ==> logs[j].View() == rows[j])
  }

  method EraseNext(logs: seq<RuntimeLog>, ghost rows: seq<Row>, service: string, ids: set<string>, d: Deletion, n: nat)
    returns (erased: bool)
    requires Distinct(logs) && |logs| == |rows| && n < |rows| && ErasedUpTo(logs, rows, service, ids, d, n)
    modifies logs[n]
    ensures ErasedUpTo(logs, rows, service, ids, d, n + 1)
    ensures erased == Redacts(service, ids)(rows[n])
  {
    hide RuntimeLog.View, Redacts;
    erased := Redacts(service, ids)(logs[n].View());
    if erased {
      logs[n].EraseRawQuery(d);
    }
  }

  /** The bulk update: the rows it matched are returned by their ids. */
  method EraseMatching(repository: Repository, service: string, ids: set<string>,
                       d: Deletion) returns (redacted: seq<string>)
    requires repository.Valid()
    modifies repository.logs
    ensures redacted == IdsOf(Redacts(service, ids), old(repository.View().logs))
    ensures LogViews(repository.logs) == RedactRows(old(repository.View().logs), service, ids, d)
  {
    hide RuntimeLog.View, Redacts, ErasedUpTo, LogViews, RedactRows, ExampleViews;
    ghost var rows := LogViews(repository.logs);
    redacted := [];
    ErasedMeaning(repository.logs, rows, service, ids, d);
    for i := 0 to |repository.logs|
      invariant redacted == IdsOf(Redacts(service, ids), rows[..i])
      invariant ErasedUpTo(repository.logs, rows, service, ids, d, i)
    {
      hide IdsOf;
      IdsStep(Redacts(service, ids), rows[..i + 1]);
      assert rows[..i + 1][..i] == rows[..i];
      var id := repository.logs[i].traceId;
      assert rows[i].id == id by { IdIsKept(repository.logs, rows, service, ids, d, i); }
      var erased := EraseNext(repository.logs, rows, service, ids, d, i);
      if erased {
        redacted := redacted + [id];
      }
    }
    assert rows[..|rows|] == rows;
    ErasedMeaning(repository.logs, rows, service, ids, d);
  }

  lemma ErasedMeaning(logs: seq<RuntimeLog>, rows: seq<Row>, service: string, ids: set<string>, d: Deletion)
    requires |logs| == |rows|
    ensures LogViews(logs) == rows ==> ErasedUpTo(logs, rows, service, ids, d, 0)
    ensures ErasedUpTo(logs, rows, service, ids, d, |rows|) ==> LogViews(logs) == RedactRows(rows, service, ids, d)
  {
    hide RuntimeLog.View, RedactRow;
  }

  lemma IdIsKept(logs: seq<RuntimeLog>, rows: seq<Row>, service: string, ids: set<string>, d: Deletion, n: nat)
    requires |logs| == |rows| && n < |rows| && ErasedUpTo(logs, rows, service, ids, d, n)
    ensures rows[n].id == logs[n].traceId
  {
    assert logs[n].View() == rows[n];
  }

  // ---------------------------------------------------------------------------
  // What a redaction keeps and gains
  // ---------------------------------------------------------------------------

  /** A planned id is the id of a chosen row, and of no other. */
  lemma PlannedIffChosen(rows: seq<Row>, service: string, cutoff: int, limit: nat, i: nat)
    requires DistinctIds(rows) && i < |rows|
    ensures Redacts(service, set id | id in PlannedIds(rows, service, cutoff, limit))(rows[i])
            <==> i in Chosen(Eligible(service, cutoff), rows, limit)
  {
    hide Redactable;
    var chosen, ids := Chosen(Eligible(service, cutoff), rows, limit), PlannedIds(rows, service, cutoff, limit);
    if rows[i].id in ids {
      var j :| 0 <= j < |ids| && ids[j] == rows[i].id;
      assert chosen[j] == i;
    }
    if i in chosen {
      var j :| 0 <= j < |chosen| && chosen[j] == i;
      assert ids[j] == rows[i].id;
    }
  }

  lemma {:induction false} CountOfChosen(mark: Selector, sel: Selector, rows: seq<Row>, limit: nat)
    requires forall i :: 0 <= i < |rows| ==> (mark(rows[i]) <==> i in Chosen(sel, rows, limit))
    ensures CountRows(mark, rows) == |Chosen(sel, rows, limit)|
  {
    if rows != [] {
      var n := |rows| - 1;
      var before := Chosen(sel, rows[..n], limit);
      forall i | 0 <= i < n ensures mark(rows[..n][i]) <==> i in before {
        assert mark(rows[i]) <==> i in Chosen(sel, rows, limit);
      }
      CountOfChosen(mark, sel, rows[..n], limit);
      assert mark(rows[n]) <==> n in Chosen(sel, rows, limit);
      assert n !in before;
    }
  }

  lemma {:induction false} EligibleAfter(rows: seq<Row>, service: string, cutoff: int, ids: set<string>, d: Deletion)
    requires forall row :: row in rows && Redacts(service, ids)(row) ==> Eligible(service, cutoff)(row)
    ensures CountRows(Eligible(service, cutoff), RedactRows(rows, service, ids, d))
            + CountRows(Redacts(service, ids), rows)
         == CountRows(Eligible(service, cutoff), rows)
  {
    if rows != [] {
      var n := |rows| - 1;
      EligibleAfter(rows[..n], service, cutoff, ids, d);
      assert rows[n] in rows;
      assert RedactRows(rows, service, ids, d)[..n] == RedactRows(rows[..n], service, ids, d);
    }
  }

  /** Applying a plan erases exactly the planned rows: the eligible rows shrink by their number. */
  lemma PlanIsApplied(rows: seq<Row>, service: string, cutoff: int, limit: nat, d: Deletion)
    requires DistinctIds(rows)
    ensures var planned := PlannedIds(rows, service, cutoff, limit);
            var ids := set id | id in planned;
            && CountRows(Redacts(service, ids), rows) == |planned|
            && CountRows(Eligible(service, cutoff), RedactRows(rows, service, ids, d)) + |planned|
               == CountRows(Eligible(service, cutoff), rows)
  {
    hide Redactable;
    var sel, ids := Eligible(service, cutoff), set id | id in PlannedIds(rows, service, cutoff, limit);
    forall i | 0 <= i < |rows| ensures Redacts(service, ids)(rows[i]) <==> i in Chosen(sel, rows, limit) {
      PlannedIffChosen(rows, service, cutoff, limit, i);
    }
    CountOfChosen(Redacts(service, ids), sel, rows, limit);
    forall row | row in rows && Redacts(service, ids)(row) ensures sel(row) {
      var i :| 0 <= i < |rows| && rows[i] == row;
    }
    EligibleAfter(rows, service, cutoff, ids, d);
  }

  /** Redaction keeps the writers' invariant; redacting again the same ids erases nothing. */
  lemma RedactionKeepsRow(row: Row, service: string, ids: set<string>, d: Deletion)
    requires WellFormed(RuntimeLogs, row)
    ensures var after := RedactRow(row, service, ids, d);
            && WellFormed(RuntimeLogs, after)
            && after == (if row.serviceId == Some(service) && row.deletion == None && row.raw != NO_RAW && row.id in ids
                         then Row(row.id, row.serviceId, row.createdAt, NO_RAW, Some(d)) else row)
            && RedactRow(after, service, ids, d) == after
            && (after.deletion.Some? ==> ReadEnvelope(after.raw).None?)
            && (after != row ==> row.id in ids && row.serviceId == Some(service) && after.deletion == Some(d))
  {
  }
}
