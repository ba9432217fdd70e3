/** What every run of governed steps keeps. */
module GovernanceTheorems {
  import opened Wrappers
  import opened Governance

  // ---------------------------------------------------------------------------
  // The invariant
  // ---------------------------------------------------------------------------

  predicate Tokened(status: Status) {
    status.TokenIssued? || status.Viewed? || status.Expired?
  }

  /** Whoever decided a request is not who asked; only the right kinds of request go further. */
  predicate RequestOk(r: Request) {
    && (r.status.Pending? ==> r.decidedBy.None?)
    && (!r.status.Pending? ==> r.decidedBy.Some? && r.decidedBy.value != r.requestedBy)
    && (Tokened(r.status) ==> r.resourceType == "raw_query" && r.action == "decrypt")
    && (r.status.Activated? ==> r.resourceType == "release" && r.action == "activate")
  }

  /** A token belongs to its request, tells its status, and is viewed only while it is valid. */
  predicate TokenOk(t: Token, r: Request) {
    && t.serviceId == r.serviceId && t.traceId == r.resourceId
    && Tokened(r.status)
    && (t.viewedAt.Some? <==> r.status.Viewed?)
    && (r.status.TokenIssued? ==> t.expiredAt.None?)
    && (r.status.Expired? ==> t.expiredAt.Some?)
    && (t.viewedAt.Some? ==> t.viewedAt.value < t.expiresAt)
    && t.issuedAt < t.expiresAt <= t.issuedAt + MAX_TTL
  }

  function TokenedRequests(g: Gov): set<string> {
    set id | id in g.requests && Tokened(g.requests[id].status)
  }

  function TokenOwners(g: Gov): set<string> {
    set h | h in g.tokens :: g.tokens[h].requestId
  }

  function ViewedRequests(g: Gov): set<string> {
    set id | id in g.requests && g.requests[id].status.Viewed?
  }

  function ViewedTokens(g: Gov): set<string> {
    set h | h in g.tokens && g.tokens[h].viewedAt.Some?
  }

  function ViewAudits(audits: seq<Audit>): nat {
    if audits == [] then 0
    else ViewAudits(audits[..|audits| - 1]) + if audits[|audits| - 1].event.QueryViewed? then 1 else 0
  }

  ghost predicate RequestsOk(g: Gov) {
    forall id :: id in g.requests ==> RequestOk(g.requests[id])
  }

  ghost predicate TokensOk(g: Gov) {
    forall h :: h in g.tokens ==>
        g.tokens[h].requestId in g.requests && TokenOk(g.tokens[h], g.requests[g.tokens[h].requestId])
  }

  /** A request has one token exactly if its status says so, and never two. */
  ghost predicate OneTokenEach(g: Gov) {
    && (forall h, k :: h in g.tokens && k in g.tokens && g.tokens[h].requestId == g.tokens[k].requestId ==> h == k)
    && TokenOwners(g) == TokenedRequests(g)
  }

  ghost predicate ViewsBalance(g: Gov) {
    |ViewedRequests(g)| == |ViewedTokens(g)| == ViewAudits(g.audits)
  }

  predicate SameSlot(a: Release, b: Release) {
    a.active && b.active && a.serviceId == b.serviceId && a.environment == b.environment
  }

  ghost predicate OneActive(g: Gov) {
    forall v, w :: v in g.releases && w in g.releases && SameSlot(g.releases[v], g.releases[w]) ==> v == w
  }

  ghost predicate Inv(g: Gov) {
    RequestsOk(g) && TokensOk(g) && OneTokenEach(g) && ViewsBalance(g) && OneActive(g)
  }

  // ---------------------------------------------------------------------------
  // Every operation keeps it
  // ---------------------------------------------------------------------------

  lemma AuditedCount(g: Gov, event: Event, actor: Actor, service: string, target: string, now: int)
    ensures ViewAudits(Audited(g, event, actor, service, target, now).audits)
         == ViewAudits(g.audits) + if event.QueryViewed? then 1 else 0
  {
    var after := Audited(g, event, actor, service, target, now);
    assert after.audits[..|g.audits|] == g.audits;
  }

  lemma AuditedKeeps(g: Gov, event: Event, actor: Actor, service: string, target: string, now: int)
    requires Inv(g) && !event.QueryViewed?
    ensures Inv(Audited(g, event, actor, service, target, now))
  {
    hide ViewAudits;
    AuditedCount(g, event, actor, service, target, now);
    var after := Audited(g, event, actor, service, target, now);
    assert TokenedRequests(after) == TokenedRequests(g) && TokenOwners(after) == TokenOwners(g);
    assert ViewedRequests(after) == ViewedRequests(g) && ViewedTokens(after) == ViewedTokens(g);
  }

  /** A request that is new, or changes between statuses without a token, disturbs nothing. */
  lemma UntokenedKeeps(g: Gov, id: string, r: Request)
    requires Inv(g) && RequestOk(r) && !Tokened(r.status)
    requires id in g.requests ==> !Tokened(g.requests[id].status)
    ensures Inv(g.(requests := g.requests[id := r]))
  {
    hide ViewAudits, RequestOk;
    var after := g.(requests := g.requests[id := r]);
    assert TokenedRequests(after) == TokenedRequests(g) && TokenOwners(after) == TokenOwners(g);
    forall h | h in after.tokens
      ensures after.tokens[h].requestId in after.requests
              && TokenOk(after.tokens[h], after.requests[after.tokens[h].requestId])
    {
      assert TokenOk(g.tokens[h], g.requests[g.tokens[h].requestId]);
    }
    assert ViewedRequests(after) == ViewedRequests(g) && ViewedTokens(after) == ViewedTokens(g);
  }

  /** A request and a token set together. */
  function SetBoth(g: Gov, hash: string, t: Token, id: string, r: Request): Gov {
    g.(requests := g.requests[id := r], tokens := g.tokens[hash := t])
  }

  /** What the invariant says of one token and its request. */
  lemma TokenAndRequest(g: Gov, hash: string)
    requires RequestsOk(g) && TokensOk(g) && hash in g.tokens
    ensures var id := g.tokens[hash].requestId;
            id in g.requests && RequestOk(g.requests[id]) && TokenOk(g.tokens[hash], g.requests[id])
  {
    hide RequestOk, TokenOk;
  }

  /** The token of a request changes with it, or is new with it; all others stay as they are. */
  lemma SetBothKeepsRecords(g: Gov, hash: string, t: Token, id: string, r: Request)
    requires RequestsOk(g) && TokensOk(g)
    requires forall h :: h in g.tokens && h != hash ==> g.tokens[h].requestId != id
    requires t.requestId == id && RequestOk(r) && TokenOk(t, r)
    ensures RequestsOk(SetBoth(g, hash, t, id, r)) && TokensOk(SetBoth(g, hash, t, id, r))
  {
    hide RequestOk, TokenOk;
    var after := SetBoth(g, hash, t, id, r);
    forall h | h in after.tokens
      ensures after.tokens[h].requestId in after.requests
              && TokenOk(after.tokens[h], after.requests[after.tokens[h].requestId])
    {
      if h != hash {
        assert g.tokens[h].requestId in g.requests && TokenOk(g.tokens[h], g.requests[g.tokens[h].requestId]);
      }
    }
  }

  lemma SetBothKeepsOwners(g: Gov, hash: string, t: Token, id: string, r: Request)
    requires OneTokenEach(g) && t.requestId == id && Tokened(r.status)
    requires hash in g.tokens ==> g.tokens[hash].requestId == id
    requires forall h :: h in g.tokens && h != hash ==> g.tokens[h].requestId != id
    ensures OneTokenEach(SetBoth(g, hash, t, id, r))
  {
    var after := SetBoth(g, hash, t, id, r);
    assert TokenedRequests(after) == TokenedRequests(g) + {id};
    forall x ensures x in TokenOwners(after) <==> x in TokenOwners(g) || x == id {
      if x in TokenOwners(g) {
        var h :| h in g.tokens && g.tokens[h].requestId == x;
        assert after.tokens[h].requestId == x;
      }
      assert after.tokens[hash].requestId == id;
    }
  }

  /** Of a request without a token none is found, and of a token no other has its request. */
  lemma NoOtherToken(g: Gov, hash: string, id: string)
    requires OneTokenEach(g) && id in g.requests
    requires if hash in g.tokens then g.tokens[hash].requestId == id else !Tokened(g.requests[id].status)
    ensures forall h :: h in g.tokens && h != hash ==> g.tokens[h].requestId != id
  {
    forall h | h in g.tokens && h != hash ensures g.tokens[h].requestId != id {
      assert g.tokens[h].requestId in TokenOwners(g);
      assert id in TokenedRequests(g) ==> Tokened(g.requests[id].status);
    }
  }

  lemma IssueKeeps(g: Gov, id: string, hash: string, expiresAt: int, issuedBy: string, now: int)
    requires Inv(g) && id in g.requests && expiresAt <= now + MAX_TTL
    requires Issue(g, id, hash, expiresAt, issuedBy, now).Ok?
    ensures Inv(Issue(g, id, hash, expiresAt, issuedBy, now).value)
  {
    hide ViewAudits, Blank, OneTokenEach, TokensOk, OneActive;
    var r := g.requests[id];
    var t := Token(id, r.serviceId, r.resourceId, expiresAt, issuedBy, now, None, None);
    var after := SetBoth(g, hash, t, id, r.(status := TokenIssued));
    assert after == Issue(g, id, hash, expiresAt, issuedBy, now).value;
    assert RequestOk(r);
    NoOtherToken(g, hash, id);
    SetBothKeepsRecords(g, hash, t, id, r.(status := TokenIssued));
    SetBothKeepsOwners(g, hash, t, id, r.(status := TokenIssued));
    assert ViewedRequests(after) == ViewedRequests(g) && ViewedTokens(after) == ViewedTokens(g);
    SameReleases(g, after);
  }

  lemma SameReleases(g: Gov, after: Gov)
    requires OneActive(g) && after.releases == g.releases
    ensures OneActive(after)
  {
  }

  /** Using a token: one more viewed request, one more viewed token, one more view in the audit log. */
  lemma ConsumeKeeps(g: Gov, hash: string, service: string, trace: string, actor: Actor, now: int)
    requires Inv(g) && Consumable(g, hash, service, trace, now)
    ensures Inv(Audited(Consume(g, hash, now), QueryViewed, actor, service, trace, now))
  {
    hide ViewAudits, OneTokenEach, TokensOk, RequestsOk, OneActive, ViewedRequests, ViewedTokens;
    TokenAndRequest(g, hash);
    var id, t := g.tokens[hash].requestId, g.tokens[hash].(viewedAt := Some(now));
    var r := g.requests[id].(status := Viewed);
    var used := SetBoth(g, hash, t, id, r);
    assert used == Consume(g, hash, now);
    ChangedTokenKeeps(g, hash, t, id, r);
    AuditedCount(used, QueryViewed, actor, service, trace, now);
    var after := Audited(used, QueryViewed, actor, service, trace, now);
    SameRecords(used, after);
    ViewedGrow(g, hash, t, id, r);
  }

  lemma ViewedGrow(g: Gov, hash: string, t: Token, id: string, r: Request)
    requires hash in g.tokens && g.tokens[hash].viewedAt.None? && t.viewedAt.Some?
    requires id in g.requests && !g.requests[id].status.Viewed? && r.status.Viewed?
    ensures |ViewedRequests(SetBoth(g, hash, t, id, r))| == |ViewedRequests(g)| + 1
    ensures |ViewedTokens(SetBoth(g, hash, t, id, r))| == |ViewedTokens(g)| + 1
  {
    var after := SetBoth(g, hash, t, id, r);
    assert ViewedRequests(after) == ViewedRequests(g) + {id};
    assert ViewedTokens(after) == ViewedTokens(g) + {hash};
  }

  lemma ChangedTokenKeeps(g: Gov, hash: string, t: Token, id: string, r: Request)
    requires RequestsOk(g) && TokensOk(g) && OneTokenEach(g) && OneActive(g)
    requires hash in g.tokens && g.tokens[hash].requestId == id && id in g.requests
    requires t.requestId == id && RequestOk(r) && TokenOk(t, r)
    ensures var after := SetBoth(g, hash, t, id, r);
            RequestsOk(after) && TokensOk(after) && OneTokenEach(after) && OneActive(after)
  {
    hide OneTokenEach, TokensOk, RequestsOk, OneActive, RequestOk;
    NoOtherToken(g, hash, id);
    SetBothKeepsRecords(g, hash, t, id, r);
    SetBothKeepsOwners(g, hash, t, id, r);
    SameReleases(g, SetBoth(g, hash, t, id, r));
  }

  /** An audit row more leaves the records as they are. */
  lemma SameRecords(g: Gov, after: Gov)
    requires after == g.(audits := after.audits)
    ensures RequestsOk(after) == RequestsOk(g) && TokensOk(after) == TokensOk(g)
    ensures OneTokenEach(after) == OneTokenEach(g) && OneActive(after) == OneActive(g)
    ensures ViewedRequests(after) == ViewedRequests(g) && ViewedTokens(after) == ViewedTokens(g)
  {
    assert TokenedRequests(after) == TokenedRequests(g) && TokenOwners(after) == TokenOwners(g);
    assert ViewedRequests(after) == ViewedRequests(g) && ViewedTokens(after) == ViewedTokens(g);
  }

  lemma ExpireKeeps(g: Gov, hash: string, service: string, trace: string, now: int)
    requires Inv(g) && Expirable(g, hash, service, trace, now)
    ensures Inv(ExpireToken(g, hash, now))
  {
    hide ViewAudits, OneTokenEach, TokensOk, RequestsOk, OneActive;
    TokenAndRequest(g, hash);
    var id, t := g.tokens[hash].requestId, g.tokens[hash].(expiredAt := Some(now));
    var r := g.requests[id].(status := Expired);
    var after := SetBoth(g, hash, t, id, r);
    assert after == ExpireToken(g, hash, now);
    ChangedTokenKeeps(g, hash, t, id, r);
    assert ViewedRequests(after) == ViewedRequests(g) && ViewedTokens(after) == ViewedTokens(g);
  }

  /** A request the sweep expires is that of the due token: a request has only one. */
  lemma SweptWithItsToken(g: Gov, h: string, now: int)
    requires OneTokenEach(g) && h in g.tokens
    ensures SweptRequest(g, g.tokens[h].requestId, now) <==> Due(g.tokens[h], now)
  {
  }

  lemma SweptRecords(g: Gov, now: int)
    requires RequestsOk(g) && TokensOk(g) && OneTokenEach(g)
    ensures RequestsOk(Sweep(g, now)) && TokensOk(Sweep(g, now))
  {
    hide SweptRequest, OneTokenEach, TokensOk, RequestsOk;
    var after := Sweep(g, now);
    forall h | h in after.tokens
      ensures after.tokens[h].requestId in after.requests
              && TokenOk(after.tokens[h], after.requests[after.tokens[h].requestId])
    {
      TokenAndRequest(g, h);
      SweptWithItsToken(g, h, now);
    }
    forall id | id in g.requests ensures RequestOk(after.requests[id]) {
      RequestOf(g, id);
    }
    RecordsAre(after);
  }

  lemma RequestOf(g: Gov, id: string)
    requires RequestsOk(g) && id in g.requests
    ensures RequestOk(g.requests[id])
  {
  }

  lemma RecordsAre(g: Gov)
    requires forall id :: id in g.requests ==> RequestOk(g.requests[id])
    requires forall h :: h in g.tokens ==>
              g.tokens[h].requestId in g.requests && TokenOk(g.tokens[h], g.requests[g.tokens[h].requestId])
    ensures RequestsOk(g) && TokensOk(g)
  {
  }

  lemma SweptOwners(g: Gov, now: int)
    requires OneTokenEach(g)
    ensures OneTokenEach(Sweep(g, now))
    ensures ViewedRequests(Sweep(g, now)) == ViewedRequests(g) && ViewedTokens(Sweep(g, now)) == ViewedTokens(g)
  {
    hide SweptRequest;
    var after := Sweep(g, now);
    assert TokenedRequests(after) == TokenedRequests(g);
    forall x ensures x in TokenOwners(after) <==> x in TokenOwners(g) {
      if x in TokenOwners(g) {
        var h :| h in g.tokens && g.tokens[h].requestId == x;
        assert after.tokens[h].requestId == x;
      }
    }
  }

  lemma SweepKeeps(g: Gov, now: int)
    requires Inv(g)
    ensures Inv(Sweep(g, now))
  {
    hide ViewAudits, Sweep, OneTokenEach, TokensOk, RequestsOk, OneActive;
    SweptRecords(g, now);
    SweptOwners(g, now);
    SweepLeaves(g, now);
    SameReleases(g, Sweep(g, now));
  }

  lemma SweepLeaves(g: Gov, now: int)
    ensures Sweep(g, now).releases == g.releases && Sweep(g, now).audits == g.audits
  {
  }

  lemma SetActiveKeeps(g: Gov, version: string)
    requires Inv(g) && version in g.releases
    ensures Inv(SetActiveRelease(g, version))
  {
    hide ViewAudits, RequestOk, TokenOk;
    var after := SetActiveRelease(g, version);
    assert TokenedRequests(after) == TokenedRequests(g) && TokenOwners(after) == TokenOwners(g);
    assert ViewedRequests(after) == ViewedRequests(g) && ViewedTokens(after) == ViewedTokens(g);
  }
}
