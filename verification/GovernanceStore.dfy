/**
 * The governed records as one session sees them: changed step by step, refused midway, committed or
 * rolled back (db/repositories.py, api/admin_dependencies.py).
 */
module GovernanceStore {
  import opened Wrappers
  import opened Governance

  /** The sweep of some of the tokens. */
  function SweepSome(g: Gov, due: set<string>, now: int): Gov {
    g.(tokens := map h | h in g.tokens :: if h in due then g.tokens[h].(expiredAt := Some(now)) else g.tokens[h],
       requests := map id | id in g.requests ::
                     if OwnsOneOf(g, id, due) && g.requests[id].status == TokenIssued
                     then g.requests[id].(status := Expired) else g.requests[id])
  }

  predicate OwnsOneOf(g: Gov, id: string, due: set<string>) {
    exists h :: h in due && h in g.tokens && g.tokens[h].requestId == id
  }

  function DueTokens(g: Gov, now: int): set<string> {
    set h | h in g.tokens && Due(g.tokens[h], now)
  }

  lemma SweepOfDue(g: Gov, now: int)
    ensures SweepSome(g, DueTokens(g, now), now) == Sweep(g, now)
    ensures SweepSome(g, {}, now) == g
  {
    forall id ensures OwnsOneOf(g, id, DueTokens(g, now)) == SweptRequest(g, id, now) {
      if h :| h in g.tokens && g.tokens[h].requestId == id && Due(g.tokens[h], now) {
        assert h in DueTokens(g, now);
      }
    }
    assert SweepSome(g, DueTokens(g, now), now).requests == Sweep(g, now).requests;
    assert SweepSome(g, DueTokens(g, now), now).tokens == Sweep(g, now).tokens;
    assert SweepSome(g, {}, now).requests == g.requests && SweepSome(g, {}, now).tokens == g.tokens;
  }

  /** One more token swept: it is stamped, and its request expires if it still waits. */
  lemma SweepOneMore(g: Gov, due: set<string>, h: string, now: int)
    requires h in g.tokens && h !in due && g.tokens[h].requestId in g.requests
    ensures var before, after := SweepSome(g, due, now), SweepSome(g, due + {h}, now);
            var id := g.tokens[h].requestId;
            && after.tokens == before.tokens[h := before.tokens[h].(expiredAt := Some(now))]
            && after.requests == if before.requests[id].status == TokenIssued
                                 then before.requests[id := before.requests[id].(status := Expired)]
                                 else before.requests
  {
    var id := g.tokens[h].requestId;
    forall x ensures OwnsOneOf(g, x, due + {h}) <==> OwnsOneOf(g, x, due) || x == id {
      if OwnsOneOf(g, x, due) {
        var k :| k in due && k in g.tokens && g.tokens[k].requestId == x;
        assert k in due + {h};
      }
      assert h in due + {h};
    }
  }

  /** The records as the session has them by now, and as they were last committed. */
  class Store {
    var requests: map<string, Request>
    var tokens: map<string, Token>
    var releases: map<string, Release>
    var audits: seq<Audit>
    var committed: Gov

    constructor (releases: map<string, Release>)
      ensures committed == Gov(map[], map[], releases, []) && Clean()
    {
      requests, tokens, this.releases, audits := map[], map[], releases, [];
      committed := Gov(map[], map[], releases, []);
    }

    function State(): Gov
      reads this
    {
      Gov(requests, tokens, releases, audits)
    }

    /** Nothing is left uncommitted: between two calls. */
    predicate Clean()
      reads this
    {
      State() == committed
    }

    /** Every token's request is stored: the tokens' foreign key. */
    predicate Valid()
      reads this
    {
      forall h :: h in tokens ==> tokens[h].requestId in requests
    }

    method Commit()
      modifies this`committed
      ensures Clean() && State() == old(State())
    {
      committed := State();
    }

    /** What ends a session whose call raised an error. */
    method Rollback()
      modifies this`requests, this`tokens, this`releases, this`audits
      ensures Clean() && committed == old(committed)
    {
      requests, tokens, releases, audits := committed.requests, committed.tokens, committed.releases, committed.audits;
    }

    method InsertAudit(event: Event, actor: Actor, service: string, target: string, now: int)
      modifies this`audits
      ensures State() == Audited(old(State()), event, actor, service, target, now)
    {
      audits := audits + [Audit(event, actor.id, service, target, now)];
    }

    method CreateGovernedRequest(id: string, request: Request, reason: string) returns (r: Result<(), GovError>)
      modifies this`requests
      ensures match CreateRequest(old(State()), id, request, reason)
              case Ok(after) => r == Ok(()) && State() == after
              case Err(e) => r == Err(e) && State() == old(State())
    {
      if Blank(request.resourceId) || Blank(request.requestedBy) || Blank(reason) {
        return Err(Invalid);
      }
      if id in requests {
        return Err(Conflict);
      }
      requests := requests[id := request];
      return Ok(());
    }

    method ApproveRequest(id: string, decidedBy: string, reason: Option<string>, now: int)
      returns (r: Result<(), GovError>)
      requires id in requests
      modifies this`requests
      ensures match Decide(old(State()), id, true, decidedBy, reason, now)
              case Ok(after) => r == Ok(()) && State() == after
              case Err(e) => r == Err(e) && State() == old(State())
    {
      hide Blank;
      if requests[id].status != Pending {
        return Err(Conflict);
      }
      if Blank(decidedBy) {
        return Err(Conflict);
      }
      if requests[id].requestedBy == decidedBy {
        return Err(Forbidden);
      }
      requests := requests[id := requests[id].(status := Approved, decidedBy := Some(decidedBy),
                                               decidedAt := Some(now))];
      return Ok(());
    }

    /** The record says rejected before the reason is looked at; a blank one leaves it so, to be rolled back. */
    method RejectRequest(id: string, decidedBy: string, reason: string, now: int) returns (r: Result<(), GovError>)
      requires id in requests
      modifies this`requests
      ensures match Decide(old(State()), id, false, decidedBy, Some(reason), now)
              case Ok(after) => r == Ok(()) && State() == after
              case Err(e) =>
                && r == Err(e)
                && (State() != old(State()) <==> Decide(old(State()), id, false, decidedBy, Some("reason"), now).Ok?)
                && (State() != old(State()) ==>
                      Blank(reason) && State() == Decide(old(State()), id, false, decidedBy, Some("reason"), now).value)
    {
      assert !Blank("reason");
      hide Blank;
      if requests[id].status != Pending {
        return Err(Conflict);
      }
      if Blank(decidedBy) {
        return Err(Conflict);
      }
      if requests[id].requestedBy == decidedBy {
        return Err(Forbidden);
      }
      requests := requests[id := requests[id].(status := Rejected, decidedBy := Some(decidedBy),
                                               decidedAt := Some(now))];
      if Blank(reason) {
        assert State().requests[id] != old(State()).requests[id];
        return Err(Conflict);
      }
      return Ok(());
    }

    /** What is looked at before the status is assigned. */
    static predicate IssuesUpTo(request: Request, tokenHash: string, expiresAt: int, now: int) {
      && request.resourceType == "raw_query" && request.action == "decrypt" && request.status == Approved
      && !Blank(tokenHash) && expiresAt > now
    }

    /**
     * The request says token_issued before the issuer is looked at and before the database refuses
     * a hash it has already; either leaves it so, to be rolled back.
     */
    method IssueViewToken(id: string, tokenHash: string, expiresAt: int, issuedBy: string, now: int)
      returns (r: Result<(), GovError>)
      requires id in requests
      modifies this`requests, this`tokens
      ensures match Issue(old(State()), id, tokenHash, expiresAt, issuedBy, now)
              case Ok(after) => r == Ok(()) && State() == after
              case Err(e) =>
                && r == Err(e)
                && State() == (if IssuesUpTo(old(requests[id]), tokenHash, expiresAt, now)
                               then WithStatus(old(State()), id, TokenIssued) else old(State()))
                && (IssuesUpTo(old(requests[id]), tokenHash, expiresAt, now) ==>
                      Blank(issuedBy) || tokenHash in old(tokens))
    {
      hide Blank;
      if requests[id].resourceType != "raw_query" || requests[id].action != "decrypt" {
        return Err(Conflict);
      }
      if requests[id].status != Approved {
        return Err(Conflict);
      }
      if Blank(tokenHash) {
        return Err(Conflict);
      }
      if expiresAt <= now {
        return Err(Conflict);
      }
      requests := requests[id := requests[id].(status := TokenIssued)];
      if Blank(issuedBy) {
        return Err(Conflict);
      }
      if tokenHash in tokens {
        return Err(Conflict);
      }
      tokens := tokens[tokenHash := Token(id, requests[id].serviceId, requests[id].resourceId, expiresAt, issuedBy, now,
                                          None, None)];
      return Ok(());
    }

    method ConsumeViewToken(tokenHash: string, service: string, trace: string,
                            now: int) returns (requestId: Option<string>)
      modifies this`requests, this`tokens
      ensures if Consumable(old(State()), tokenHash, service, trace, now)
              then requestId == Some(old(tokens[tokenHash].requestId))
                  && State() == Consume(old(State()), tokenHash, now)
              else requestId == None && State() == old(State())
    {
      if !Consumable(State(), tokenHash, service, trace, now) {
        return None;
      }
      var id := tokens[tokenHash].requestId;
      tokens := tokens[tokenHash := tokens[tokenHash].(viewedAt := Some(now))];
      requests := requests[id := requests[id].(status := Viewed)];
      return Some(id);
    }

    method ExpireViewToken(tokenHash: string, service: string, trace: string,
                           now: int) returns (requestId: Option<string>)
      modifies this`requests, this`tokens
      ensures if Expirable(old(State()), tokenHash, service, trace, now)
              then requestId == Some(old(tokens[tokenHash].requestId))
                  && State() == ExpireToken(old(State()), tokenHash, now)
              else requestId == None && State() == old(State())
    {
      if !Expirable(State(), tokenHash, service, trace, now) {
        return None;
      }
      var id := tokens[tokenHash].requestId;
      tokens := tokens[tokenHash := tokens[tokenHash].(expiredAt := Some(now))];
      requests := requests[id := requests[id].(status := Expired)];
      return Some(id);
    }

    /** One token of the sweep: stamped, and its request expired if it still waits. */
    method StampExpired(h: string, ghost g: Gov, ghost done: set<string>, now: int)
      requires h in g.tokens && h !in done && g.tokens[h].requestId in g.requests
      requires State() == SweepSome(g, done, now)
      modifies this`requests, this`tokens
      ensures State() == SweepSome(g, done + {h}, now)
    {
      hide SweepSome;
      SweptKeys(g, done, now);
      SweepOneMore(g, done, h, now);
      var id := tokens[h].requestId;
      tokens := tokens[h := tokens[h].(expiredAt := Some(now))];
      if requests[id].status == TokenIssued {
        requests := requests[id := requests[id].(status := Expired)];
      }
      SweptKeys(g, done + {h}, now);
    }

    /** The sweep, token by token. */
    method ExpireViewTokens(now: int) returns (swept: set<string>)
      requires Valid()
      modifies this`requests, this`tokens
      ensures State() == Sweep(old(State()), now) && swept == DueTokens(old(State()), now)
    {
      hide Sweep, SweepSome;
      ghost var g := State();
      swept := DueTokens(State(), now);
      var rest := swept;
      SweepOfDue(g, now);
      assert swept - rest == {};
      while rest != {}
        invariant rest <= swept && State() == SweepSome(g, swept - rest, now)
        decreases |rest|
      {
        var h :| h in rest;
        StampExpired(h, g, swept - rest, now);
        assert swept - (rest - {h}) == (swept - rest) + {h};
        rest := rest - {h};
      }
      assert swept - rest == swept;
    }

    method SetActive(version: string)
      requires version in releases
      modifies this`releases
      ensures State() == SetActiveRelease(old(State()), version)
    {
      var target := releases[version];
      releases := map v | v in releases ::
        if releases[v].serviceId == target.serviceId && releases[v].environment == target.environment
        then releases[v].(active := false) else releases[v];
      releases := releases[version := releases[version].(active := true)];
      assert releases == SetActiveRelease(old(State()), version).releases;
    }
  }

  lemma SweptKeys(g: Gov, due: set<string>, now: int)
    ensures var after := SweepSome(g, due, now);
            && after.tokens.Keys == g.tokens.Keys && after.requests.Keys == g.requests.Keys
            && after.releases == g.releases && after.audits == g.audits
            && forall h :: h in g.tokens ==> after.tokens[h].requestId == g.tokens[h].requestId
  {
  }
}
