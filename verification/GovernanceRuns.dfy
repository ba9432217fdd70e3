/** Safety over whole runs of governed steps. */
module GovernanceRuns {
  import opened Wrappers
  import opened Governance
  import opened GovernanceTheorems

  lemma CreateKeeps(g: Gov, id: string, r: Request, reason: string)
    requires Inv(g) && r.status.Pending? && r.decidedBy.None?
    ensures CreateRequest(g, id, r, reason).Ok? ==> Inv(CreateRequest(g, id, r, reason).value)
  {
    hide Inv, Blank;
    if CreateRequest(g, id, r, reason).Ok? {
      UntokenedKeeps(g, id, r);
    }
  }

  lemma DecideKeeps(g: Gov, id: string, approve: bool, decidedBy: string, reason: Option<string>, now: int)
    requires Inv(g) && id in g.requests
    ensures var d := Decide(g, id, approve, decidedBy, reason, now);
            d.Ok? ==> Inv(d.value)
  {
    hide Inv, Blank;
    var d := Decide(g, id, approve, decidedBy, reason, now);
    if d.Ok? {
      UntokenedKeeps(g, id, d.value.requests[id]);
    }
  }

  lemma ActivateKeeps(g: Gov, id: string, version: string)
    requires Inv(g) && version in g.releases && id in g.requests
    requires g.requests[id].status == Approved
    requires g.requests[id].resourceType == "release" && g.requests[id].action == "activate"
    ensures Inv(WithStatus(SetActiveRelease(g, version), id, Activated))
  {
    hide OneTokenEach, TokensOk, ViewsBalance, OneActive;
    var active := SetActiveRelease(g, version);
    SetActiveKeeps(g, version);
    assert RequestOk(active.requests[id]);
    UntokenedKeeps(active, id, active.requests[id].(status := Activated));
  }

  lemma ViewStepsKeep(g: Gov, s: Step)
    requires Inv(g) && (s.call.CallRequestView? || s.call.CallDecideView? || s.call.CallIssueToken?
                        || s.call.CallDecryptQuery?)
    ensures Inv(Perform(g, s).after)
  {
    hide Inv, Blank, Actor.HasAnyRole, Audited, CreateRequest, Decide, Issue, Consume, ExpireToken;
    match s.call {
      case CallRequestView(id, trace, reason, known) =>
        var r := Request(s.service, "raw_query", trace, "decrypt", Pending, s.actor.id, s.now, None, None);
        CreateKeeps(g, id, r, reason);
        var created := CreateRequest(g, id, r, reason);
        if created.Ok? {
          AuditedKeeps(created.value, ViewRequested, s.actor, s.service, id, s.now);
        }
      case CallDecideView(id, approve, reason) =>
        if id in g.requests {
          DecideKeeps(g, id, approve, s.actor.id, reason, s.now);
          var decided := Decide(g, id, approve, s.actor.id, reason, s.now);
          if decided.Ok? {
            AuditedKeeps(decided.value, if approve then ViewApproved else ViewRejected, s.actor, s.service, id, s.now);
          }
        }
      case CallIssueToken(id, hash, ttl) =>
        if id in g.requests && 1 <= ttl <= MAX_TTL {
          var issued := Issue(g, id, hash, s.now + ttl, s.actor.id, s.now);
          if issued.Ok? {
            IssueKeeps(g, id, hash, s.now + ttl, s.actor.id, s.now);
            AuditedKeeps(issued.value, ViewTokenIssued, s.actor, s.service, id, s.now);
          }
        }
      case CallDecryptQuery(trace, presented, known, log) =>
        if presented.Some? {
          if Consumable(g, presented.value, s.service, trace, s.now) {
            ConsumeKeeps(g, presented.value, s.service, trace, s.actor, s.now);
          } else if Expirable(g, presented.value, s.service, trace, s.now) {
            ExpireKeeps(g, presented.value, s.service, trace, s.now);
            AuditedKeeps(ExpireToken(g, presented.value, s.now), ViewTokenExpired, s.actor, s.service,
                         g.tokens[presented.value].requestId, s.now);
          }
        }
    }
  }

  lemma PublishStepsKeep(g: Gov, s: Step)
    requires Inv(g) && (s.call.CallRequestPublish? || s.call.CallDecidePublish? || s.call.CallActivatePublish?
                        || s.call.CallActivateRelease? || s.call.CallSweep?)
    ensures Inv(Perform(g, s).after)
  {
    hide Inv, Blank, Actor.HasAnyRole, Audited, CreateRequest, Decide, SetActiveRelease, Sweep;
    match s.call {
      case CallRequestPublish(id, resourceType, resourceId, action, target, reason, known) =>
        var r := Request(s.service, resourceType, resourceId, action, Pending, s.actor.id, s.now, None, None);
        CreateKeeps(g, id, r, reason);
        var created := CreateRequest(g, id, r, reason);
        if created.Ok? {
          AuditedKeeps(created.value, PublishRequested, s.actor, s.service, id, s.now);
        }
      case CallDecidePublish(id, approve, reason) =>
        if id in g.requests {
          DecideKeeps(g, id, approve, s.actor.id, reason, s.now);
          var decided := Decide(g, id, approve, s.actor.id, reason, s.now);
          if decided.Ok? {
            var event := if approve then PublishApproved else PublishRejected;
            AuditedKeeps(decided.value, event, s.actor, s.service, id, s.now);
          }
        }
      case CallActivatePublish(id) =>
        if Perform(g, s).reply.Ok? {
          var version := g.requests[id].resourceId;
          ActivateKeeps(g, id, version);
          AuditedKeeps(WithStatus(SetActiveRelease(g, version), id, Activated), ReleaseActivated, s.actor, s.service,
                       version, s.now);
        }
      case CallActivateRelease(version, known) =>
        if Perform(g, s).reply.Ok? {
          SetActiveKeeps(g, version);
          AuditedKeeps(SetActiveRelease(g, version), ReleaseActivated, s.actor, s.service, version, s.now);
        }
      case CallSweep =>
        SweepKeeps(g, s.now);
    }
  }

  /** Every step, by anyone, with any arguments, keeps the invariant. */
  lemma StepKeeps(g: Gov, s: Step)
    requires Inv(g)
    ensures Inv(Perform(g, s).after)
  {
    hide Inv, Perform;
    match s.call {
      case CallRequestView(_, _, _, _) => ViewStepsKeep(g, s);
      case CallDecideView(_, _, _) => ViewStepsKeep(g, s);
      case CallIssueToken(_, _, _) => ViewStepsKeep(g, s);
      case CallDecryptQuery(_, _, _, _) => ViewStepsKeep(g, s);
      case _ => PublishStepsKeep(g, s);
    }
  }

  lemma {:induction false} RunKeeps(g: Gov, steps: seq<Step>)
    requires Inv(g)
    ensures Inv(After(g, steps))
  {
    hide Inv, Perform;
    if steps != [] {
      RunKeeps(g, steps[..|steps| - 1]);
      StepKeeps(After(g, steps[..|steps| - 1]), steps[|steps| - 1]);
    }
  }

  /** Where runs start: no request yet, and releases of which no two are active in one place. */
  ghost predicate Initial(g: Gov) {
    g.requests == map[] && g.tokens == map[] && ViewAudits(g.audits) == 0 && OneActive(g)
  }

  /**
   * In every reachable state: no request has two tokens; the views in the audit log, the requests
   * viewed and the tokens used are equally many; each use is before the token's end, which is at
   * most 900 seconds after its issue; and nobody decided their own request.
   */
  lemma SingleUseAndConservation(g: Gov, steps: seq<Step>)
    requires Initial(g)
    ensures var now := After(g, steps);
            && (forall h, k ::
                  h in now.tokens && k in now.tokens && now.tokens[h].requestId == now.tokens[k].requestId ==> h == k)
            && ViewAudits(now.audits) == |ViewedRequests(now)| == |ViewedTokens(now)|
            && (forall h :: h in now.tokens && now.tokens[h].viewedAt.Some? ==>
                  now.tokens[h].viewedAt.value < now.tokens[h].expiresAt <= now.tokens[h].issuedAt + MAX_TTL)
            && (forall id :: id in now.requests && !now.requests[id].status.Pending? ==>
                  now.requests[id].decidedBy.Some? && now.requests[id].decidedBy.value != now.requests[id].requestedBy)
            && OneActive(now)
  {
    hide After, ViewAudits;
    InitialInv(g);
    RunKeeps(g, steps);
    var now := After(g, steps);
    forall h | h in now.tokens
      ensures now.tokens[h].viewedAt.Some? ==>
                now.tokens[h].viewedAt.value < now.tokens[h].expiresAt <= now.tokens[h].issuedAt + MAX_TTL
    {
      TokenAndRequest(now, h);
    }
  }

  lemma InitialInv(g: Gov)
    requires Initial(g)
    ensures Inv(g)
  {
    assert TokenOwners(g) == {} && TokenedRequests(g) == {};
    assert ViewedRequests(g) == {} && ViewedTokens(g) == {};
  }

  // ---------------------------------------------------------------------------
  // One way only
  // ---------------------------------------------------------------------------

  /** The moves a single step can make. */
  predicate Edge(a: Request, b: Request) {
    && b == a.(status := b.status, decidedBy := b.decidedBy, decidedAt := b.decidedAt)
    && (a.status.Pending? || (b.decidedBy == a.decidedBy && b.decidedAt == a.decidedAt))
    && (|| a == b
        || (a.status.Pending? && (b.status.Approved? || b.status.Rejected?) && b.decidedBy.Some?
            && b.decidedBy.value != a.requestedBy)
        || (a.status.Approved? && b.status.TokenIssued? && a.resourceType == "raw_query" && a.action == "decrypt")
        || (a.status.Approved? && b.status.Activated? && a.resourceType == "release" && a.action == "activate")
        || (a.status.TokenIssued? && (b.status.Viewed? || b.status.Expired?)))
  }

  /** No request disappears, and each makes one of these moves or none. */
  predicate Moves(g: Gov, after: Gov) {
    forall x :: x in g.requests ==> x in after.requests && Edge(g.requests[x], after.requests[x])
  }

  lemma DecideMoves(g: Gov, id: string, approve: bool, decidedBy: string, reason: Option<string>, now: int)
    requires id in g.requests && Decide(g, id, approve, decidedBy, reason, now).Ok?
    ensures Moves(g, Decide(g, id, approve, decidedBy, reason, now).value)
  {
    hide Blank;
  }

  lemma IssueMoves(g: Gov, id: string, tokenHash: string, expiresAt: int, issuedBy: string, now: int)
    requires id in g.requests && Issue(g, id, tokenHash, expiresAt, issuedBy, now).Ok?
    ensures Moves(g, Issue(g, id, tokenHash, expiresAt, issuedBy, now).value)
  {
    hide Blank;
  }

  lemma TokenMoves(g: Gov, tokenHash: string, service: string, trace: string, now: int)
    requires Open(g, tokenHash, service, trace)
    ensures Moves(g, Consume(g, tokenHash, now)) && Moves(g, ExpireToken(g, tokenHash, now))
  {
  }

  lemma SweepMoves(g: Gov, now: int)
    ensures Moves(g, Sweep(g, now))
  {
    hide SweptRequest;
  }

  lemma StayMoves(g: Gov, after: Gov)
    requires forall x :: x in g.requests ==> x in after.requests && after.requests[x] == g.requests[x]
    ensures Moves(g, after)
  {
  }

  /** Whatever a step does to the requests, they move this way only. */
  lemma StepMoves(g: Gov, s: Step)
    ensures Moves(g, Perform(g, s).after)
  {
    hide Perform, Moves;
    if s.call.CallDecideView? || s.call.CallDecidePublish? {
      DecisionMoves(g, s);
    } else if s.call.CallIssueToken? || s.call.CallDecryptQuery? || s.call.CallSweep? {
      TokenStepMoves(g, s);
    } else {
      OtherStepMoves(g, s);
    }
  }

  lemma DecisionMoves(g: Gov, s: Step)
    requires s.call.CallDecideView? || s.call.CallDecidePublish?
    ensures Moves(g, Perform(g, s).after)
  {
    hide Blank, Actor.HasAnyRole, Decide, Edge;
    StayMoves(g, g);
    var x := s.call.requestId;
    if x in g.requests && Decide(g, x, s.call.approve, s.actor.id, s.call.reason, s.now).Ok? {
      DecideMoves(g, x, s.call.approve, s.actor.id, s.call.reason, s.now);
    }
  }

  lemma TokenStepMoves(g: Gov, s: Step)
    requires s.call.CallIssueToken? || s.call.CallDecryptQuery? || s.call.CallSweep?
    ensures Moves(g, Perform(g, s).after)
  {
    hide Blank, Actor.HasAnyRole, Issue, Consume, ExpireToken, Sweep, Edge;
    StayMoves(g, g);
    match s.call {
      case CallIssueToken(id, hash, ttl) =>
        if id in g.requests && Issue(g, id, hash, s.now + ttl, s.actor.id, s.now).Ok? {
          IssueMoves(g, id, hash, s.now + ttl, s.actor.id, s.now);
        }
      case CallDecryptQuery(trace, presented, known, log) =>
        if presented.Some? && Open(g, presented.value, s.service, trace) {
          TokenMoves(g, presented.value, s.service, trace, s.now);
        }
      case CallSweep =>
        SweepMoves(g, s.now);
    }
  }

  lemma OtherStepMoves(g: Gov, s: Step)
    requires s.call.CallRequestView? || s.call.CallRequestPublish? || s.call.CallActivatePublish?
             || s.call.CallActivateRelease?
    ensures Moves(g, Perform(g, s).after)
  {
    hide Blank, Actor.HasAnyRole, SetActiveRelease;
  }

  /** The states a request can still reach. */
  predicate Follows(a: Status, b: Status) {
    || a == b
    || a.Pending?
    || (a.Approved? && (b.TokenIssued? || b.Viewed? || b.Expired? || b.Activated?))
    || (a.TokenIssued? && (b.Viewed? || b.Expired?))
  }

  /** Along a run a request only moves forward, and keeps what was asked and who decided it. */
  lemma {:induction false} RequestsMoveForward(g: Gov, steps: seq<Step>, i: nat, id: string)
    requires i <= |steps| && id in After(g, steps[..i]).requests
    ensures id in After(g, steps).requests
    ensures var a, b := After(g, steps[..i]).requests[id], After(g, steps).requests[id];
            && Follows(a.status, b.status)
            && b == a.(status := b.status, decidedBy := b.decidedBy, decidedAt := b.decidedAt)
            && (!a.status.Pending? ==> b.decidedBy == a.decidedBy && b.decidedAt == a.decidedAt)
  {
    hide Perform;
    if i == |steps| {
      assert steps[..i] == steps;
    } else {
      var n := |steps| - 1;
      assert steps[..n][..i] == steps[..i];
      RequestsMoveForward(g, steps[..n], i, id);
      StepMoves(After(g, steps[..n]), steps[n]);
    }
  }

  // ---------------------------------------------------------------------------
  // Once only
  // ---------------------------------------------------------------------------

  predicate Used(g: Gov, hash: string) {
    hash in g.tokens && g.tokens[hash].viewedAt.Some?
  }

  lemma StepKeepsUsed(g: Gov, s: Step, hash: string)
    requires Used(g, hash)
    ensures Used(Perform(g, s).after, hash)
  {
    hide Blank, Actor.HasAnyRole;
  }

  lemma {:induction false} UsedStays(g: Gov, steps: seq<Step>, i: nat, hash: string)
    requires i <= |steps| && Used(After(g, steps[..i]), hash)
    ensures Used(After(g, steps), hash)
  {
    hide Perform, Used;
    if i == |steps| {
      assert steps[..i] == steps;
    } else {
      var n := |steps| - 1;
      assert steps[..n][..i] == steps[..i];
      UsedStays(g, steps[..n], i, hash);
      StepKeepsUsed(After(g, steps[..n]), steps[n], hash);
    }
  }

  /** A token that gave a raw query once never gives one again, to anyone. */
  lemma TokenServesOnce(g: Gov, steps: seq<Step>, i: nat, j: nat)
    requires i < j < |steps| && steps[i].call.CallDecryptQuery? && steps[j].call.CallDecryptQuery?
    requires steps[j].call.presented == steps[i].call.presented
    requires Perform(After(g, steps[..i]), steps[i]).reply.Ok?
    ensures Perform(After(g, steps[..j]), steps[j]).reply.Err?
  {
    hide Actor.HasAnyRole, Blank, After;
    var hash := steps[i].call.presented.value;
    assert steps[..i + 1][..i] == steps[..i] && steps[..j][..i + 1] == steps[..i + 1];
    assert Used(Perform(After(g, steps[..i]), steps[i]).after, hash);
    AfterOneMore(g, steps, i);
    UsedStays(g, steps[..j], i + 1, hash);
  }

  lemma AfterOneMore(g: Gov, steps: seq<Step>, i: nat)
    requires i < |steps|
    ensures After(g, steps[..i + 1]) == Perform(After(g, steps[..i]), steps[i]).after
  {
    assert steps[..i + 1][..i] == steps[..i];
  }

  /** A publish request activates its release at most once. */
  lemma RequestActivatesOnce(g: Gov, steps: seq<Step>, i: nat, j: nat)
    requires i < j < |steps| && steps[i].call.CallActivatePublish? && steps[j].call == steps[i].call
    requires Perform(After(g, steps[..i]), steps[i]).reply.Ok?
    ensures Perform(After(g, steps[..j]), steps[j]).reply.Err?
  {
    hide Actor.HasAnyRole, After;
    var id := steps[i].call.requestId;
    AfterOneMore(g, steps, i);
    assert steps[..j][..i + 1] == steps[..i + 1];
    RequestsMoveForward(g, steps[..j], i + 1, id);
  }

  /**
   * Whoever reads a raw query uses a token of a request that someone other than its author
   * approved, strictly before the token's end, and is that author or a system_admin.
   */
  lemma ViewTakesTwo(g: Gov, s: Step)
    requires Inv(g) && s.call.CallDecryptQuery? && Perform(g, s).reply.Ok?
    ensures s.call.presented.Some? && s.call.presented.value in g.tokens
    ensures var t := g.tokens[s.call.presented.value];
            && t.requestId in g.requests && t.viewedAt.None?
            && s.now < t.expiresAt <= t.issuedAt + MAX_TTL
            && var r := g.requests[t.requestId];
               && r.serviceId == s.service && r.resourceId == s.call.trace
               && r.resourceType == "raw_query" && r.action == "decrypt"
               && r.decidedBy.Some? && r.decidedBy.value != r.requestedBy
               && (s.actor.systemAdmin || s.actor.id == r.requestedBy)
  {
    hide OneTokenEach, ViewsBalance, OneActive, ViewAudits;
    TokenAndRequest(g, s.call.presented.value);
  }

  /**
   * The sweep: afterwards no request waits on a token past its end, nothing that was viewed is
   * un-viewed, and yet the used tokens past their end are stamped as expired as well.
   */
  lemma SweepMeaning(g: Gov, now: int)
    requires Inv(g)
    ensures var after := Sweep(g, now);
            && (forall h :: h in g.tokens ==>
                  && h in after.tokens
                  && (after.tokens[h].expiredAt.Some? <==> g.tokens[h].expiredAt.Some? || g.tokens[h].expiresAt <= now)
                  && after.tokens[h].viewedAt == g.tokens[h].viewedAt
                  && (g.tokens[h].requestId in g.requests && g.tokens[h].requestId in after.requests
                      && g.requests[g.tokens[h].requestId].status.TokenIssued? ==>
                        after.requests[g.tokens[h].requestId].status
                        == if g.tokens[h].expiresAt <= now then Expired else TokenIssued))
            && (forall id :: id in g.requests && !g.requests[id].status.TokenIssued? ==>
                  id in after.requests && after.requests[id] == g.requests[id])
  {
    hide ViewsBalance, OneActive, ViewAudits, SweptRequest;
    forall h | h in g.tokens
      ensures (SweptRequest(g, g.tokens[h].requestId, now) <==> Due(g.tokens[h], now))
              && g.tokens[h].requestId in g.requests && TokenOk(g.tokens[h], g.requests[g.tokens[h].requestId])
    {
      SweptWithItsToken(g, h, now);
      TokenAndRequest(g, h);
    }
  }

  /** Activating a release makes it the one active release of its service and environment. */
  lemma SetActiveMeaning(g: Gov, version: string, v: string)
    requires OneActive(g) && version in g.releases && v in g.releases
    ensures var after := SetActiveRelease(g, version);
            && OneActive(after) && v in after.releases
            && (after.releases[v].active <==>
                  v == version
                  || (g.releases[v].active
                      && !(g.releases[v].serviceId == g.releases[version].serviceId
                           && g.releases[v].environment == g.releases[version].environment)))
  {
  }

  /**
   * A token is issued only on a request another person approved, to its author or a system_admin, for 15
   * minutes at most.
   */
  lemma IssueTakesTwo(g: Gov, s: Step)
    requires Inv(g) && s.call.CallIssueToken? && Perform(g, s).reply.Ok?
    ensures var id, after := s.call.requestId, Perform(g, s).after;
            && id in g.requests && g.requests[id].status == Approved
            && g.requests[id].decidedBy.Some? && g.requests[id].decidedBy.value != g.requests[id].requestedBy
            && (s.actor.systemAdmin || s.actor.id == g.requests[id].requestedBy)
            && s.call.tokenHash !in g.tokens && s.call.tokenHash in after.tokens
            && after.tokens[s.call.tokenHash]
               == Token(id, g.requests[id].serviceId, g.requests[id].resourceId, s.now + s.call.ttl, s.actor.id, s.now,
                        None, None)
            && Open(after, s.call.tokenHash, g.requests[id].serviceId, g.requests[id].resourceId)
            && s.now < after.tokens[s.call.tokenHash].expiresAt <= s.now + MAX_TTL
  {
    hide OneTokenEach, TokensOk, ViewsBalance, OneActive, Blank;
    RequestOf(g, s.call.requestId);
  }

  /**
   * A publish request that activates was approved by someone other than its author, and its release is
   * then the active one.
   */
  lemma ActivationTakesTwo(g: Gov, s: Step)
    requires Inv(g) && s.call.CallActivatePublish? && Perform(g, s).reply.Ok?
    ensures var id, after := s.call.requestId, Perform(g, s).after;
            && id in g.requests && g.requests[id].serviceId == s.service
            && g.requests[id].decidedBy.Some? && g.requests[id].decidedBy.value != g.requests[id].requestedBy
            && s.actor.MayManageReleases(s.service)
            && var version := g.requests[id].resourceId;
               && version in after.releases && after.releases[version].active
               && after.releases[version].serviceId == s.service
               && forall v :: v in after.releases && SameSlot(after.releases[v], after.releases[version]) ==>
                   v == version
  {
    hide OneTokenEach, TokensOk, ViewsBalance, Actor.HasAnyRole;
    RequestOf(g, s.call.requestId);
  }

  /** A decision is made by someone with the right to decide, never by the author, and only once. */
  lemma DecisionTakesTwo(g: Gov, s: Step)
    requires (s.call.CallDecideView? || s.call.CallDecidePublish?) && Perform(g, s).reply.Ok?
    ensures var id, after := s.call.requestId, Perform(g, s).after;
            && id in g.requests && g.requests[id].status == Pending && g.requests[id].serviceId == s.service
            && g.requests[id].requestedBy != s.actor.id
            && (if s.call.CallDecideView? then s.actor.MayDecideView(s.service)
                else s.actor.MayDecidePublish(s.service))
            && id in after.requests && after.requests[id].decidedBy == Some(s.actor.id)
            && after.requests[id].status == if s.call.approve then Approved else Rejected
  {
    hide Blank, Actor.HasAnyRole;
  }
}
