/** What the audit log tells: a row for each step that did something, and of each request its whole story. */
module GovernanceAudit {
  import opened Wrappers
  import opened Governance

  // ---------------------------------------------------------------------------
  // One step
  // ---------------------------------------------------------------------------

  /** The one refusal that is committed: the presented token is found to have ended. */
  predicate Expires(g: Gov, s: Step) {
    && s.call.CallDecryptQuery? && s.call.serviceExists && s.call.presented.Some?
    && Expirable(g, s.call.presented.value, s.service, s.call.trace, s.now)
  }

  function RowOf(s: Step, event: Event, target: string): Audit {
    Audit(event, s.actor.id, s.service, target, s.now)
  }

  /** The row a step writes when it does something; the sweep writes none. */
  function AuditRow(g: Gov, s: Step): Option<Audit> {
    match s.call
    case CallRequestView(id, _, _, _) => Some(RowOf(s, ViewRequested, id))
    case CallDecideView(id, approve, _) => Some(RowOf(s, if approve then ViewApproved else ViewRejected, id))
    case CallIssueToken(id, _, _) => Some(RowOf(s, ViewTokenIssued, id))
    case CallDecryptQuery(trace, _, _, _) =>
      if Expires(g, s) then Some(RowOf(s, ViewTokenExpired, g.tokens[s.call.presented.value].requestId))
      else Some(RowOf(s, QueryViewed, trace))
    case CallRequestPublish(id, _, _, _, _, _, _) => Some(RowOf(s, PublishRequested, id))
    case CallDecidePublish(id, approve, _) => Some(RowOf(s, if approve then PublishApproved else PublishRejected, id))
    case CallActivatePublish(id) =>
      if id in g.requests then Some(RowOf(s, ReleaseActivated, g.requests[id].resourceId)) else None
    case CallActivateRelease(version, _) => Some(RowOf(s, ReleaseActivated, version))
    case CallSweep => None
  }

  /** No request, token or release but these is other than before, and none is gone. */
  predicate ChangesOnly(g: Gov, after: Gov, requests: set<string>, tokens: set<string>, releases: bool) {
    && g.requests.Keys <= after.requests.Keys <= g.requests.Keys + requests
    && (forall x :: x in g.requests && x !in requests ==> after.requests[x] == g.requests[x])
    && g.tokens.Keys <= after.tokens.Keys <= g.tokens.Keys + tokens
    && (forall h :: h in g.tokens && h !in tokens ==> after.tokens[h] == g.tokens[h])
    && after.releases.Keys == g.releases.Keys && (!releases ==> after.releases == g.releases)
  }

  /** The requests a step may change: the one it names, or the one its token belongs to. */
  function TouchedRequests(g: Gov, s: Step): set<string> {
    match s.call
    case CallRequestView(id, _, _, _) => {id}
    case CallDecideView(id, _, _) => {id}
    case CallIssueToken(id, _, _) => {id}
    case CallDecryptQuery(_, presented, _, _) =>
      if presented.Some? && presented.value in g.tokens then {g.tokens[presented.value].requestId} else {}
    case CallRequestPublish(id, _, _, _, _, _, _) => {id}
    case CallDecidePublish(id, _, _) => {id}
    case CallActivatePublish(id) => {id}
    case _ => {}
  }

  /** The tokens a step may change: the one it makes or the one it is presented. */
  function TouchedTokens(s: Step): set<string> {
    match s.call
    case CallIssueToken(_, hash, _) => {hash}
    case CallDecryptQuery(_, presented, _, _) => if presented.Some? then {presented.value} else {}
    case _ => {}
  }

  /**
   * Every step is all or nothing and leaves one row: a refusal changes nothing, but for a token
   * found to have ended; whatever else is done adds exactly one audit row, of its kind, by the
   * caller, and changes nothing but the request and the token it is about, or the active release.
   */
  lemma StepLeavesOneRow(g: Gov, s: Step)
    requires !s.call.CallSweep?
    ensures var o := Perform(g, s);
            if o.reply.Err? && !Expires(g, s) then o.after == g
            else
              && AuditRow(g, s).Some? && o.after.audits == g.audits + [AuditRow(g, s).value]
              && ChangesOnly(g, o.after, TouchedRequests(g, s), TouchedTokens(s),
                             s.call.CallActivatePublish? || s.call.CallActivateRelease?)
  {
    hide Blank, Actor.HasAnyRole, SetActiveRelease;
    if s.call.CallActivatePublish? || s.call.CallActivateRelease? {
      ActivationLeavesOneRow(g, s);
    }
  }

  lemma ActivationLeavesOneRow(g: Gov, s: Step)
    requires s.call.CallActivatePublish? || s.call.CallActivateRelease?
    ensures var o := Perform(g, s);
            if o.reply.Err? then o.after == g
            else
              && AuditRow(g, s).Some? && o.after.audits == g.audits + [AuditRow(g, s).value]
              && ChangesOnly(g, o.after, TouchedRequests(g, s), TouchedTokens(s), true)
  {
    hide Actor.HasAnyRole;
  }

  // ---------------------------------------------------------------------------
  // The story of a request
  // ---------------------------------------------------------------------------

  /** Rows whose target is a request. */
  predicate AboutRequest(a: Audit, id: string) {
    !a.event.QueryViewed? && !a.event.ReleaseActivated? && a.targetId == id
  }

  function Trail(audits: seq<Audit>, id: string): seq<Audit> {
    if audits == [] then []
    else
      var n := |audits| - 1;
      Trail(audits[..n], id) + if AboutRequest(audits[n], id) then [audits[n]] else []
  }

  lemma TrailStep(audits: seq<Audit>, a: Audit, id: string)
    ensures Trail(audits + [a], id) == Trail(audits, id) + if AboutRequest(a, id) then [a] else []
  {
    assert (audits + [a])[..|audits|] == audits;
  }

  function RequestedEvent(r: Request): Event {
    if r.resourceType == "raw_query" then ViewRequested else PublishRequested
  }

  function DecidedEvent(r: Request): Event {
    if r.resourceType == "raw_query" then (if r.status.Rejected? then ViewRejected else ViewApproved)
    else if r.status.Rejected? then PublishRejected else PublishApproved
  }

  /**
   * The rows about a request, in order: it was asked for, decided if it is no longer pending, by
   * whom and when it says; a token was issued if it says so, and at most then found to have ended.
   */
  predicate Told(id: string, r: Request, t: seq<Audit>) {
    && 1 <= |t| <= 4
    && t[0] == Audit(RequestedEvent(r), r.requestedBy, r.serviceId, id, r.requestedAt)
    && (|t| >= 2 <==> !r.status.Pending?)
    && (|t| >= 2 ==>
          && r.decidedBy.Some? && r.decidedAt.Some?
          && t[1] == Audit(DecidedEvent(r), r.decidedBy.value, r.serviceId, id, r.decidedAt.value))
    && (|t| >= 3 <==> r.status.TokenIssued? || r.status.Viewed? || r.status.Expired?)
    && (|t| >= 3 ==> t[2].event == ViewTokenIssued && t[2].serviceId == r.serviceId)
    && (|t| == 4 ==> t[3].event == ViewTokenExpired && t[3].serviceId == r.serviceId && r.status.Expired?)
  }

  /** And each token is the one its request's third row tells of. */
  predicate TokenTold(token: Token, t: seq<Audit>) {
    && |t| >= 3
    && t[2] == Audit(ViewTokenIssued, token.issuedBy, token.serviceId, token.requestId, token.issuedAt)
  }

  ghost predicate AuditInv(g: Gov) {
    && (forall id :: id in g.requests ==> Told(id, g.requests[id], Trail(g.audits, id)))
    && (forall id :: id !in g.requests ==> Trail(g.audits, id) == [])
    && (forall h :: h in g.tokens ==> TokenTold(g.tokens[h], Trail(g.audits, g.tokens[h].requestId)))
  }

  lemma CreationTells(g: Gov, s: Step, id: string, r: Request, reason: string, event: Event)
    requires AuditInv(g) && CreateRequest(g, id, r, reason).Ok? && r.status.Pending?
    requires event == RequestedEvent(r) && r.requestedBy == s.actor.id && r.serviceId == s.service
             && r.requestedAt == s.now
    ensures AuditInv(Audited(CreateRequest(g, id, r, reason).value, event, s.actor, s.service, id, s.now))
  {
    hide Blank, Told, TokenTold, Trail;
    var a := RowOf(s, event, id);
    forall x ensures Trail(g.audits + [a], x) == if x == id then Trail(g.audits, x) + [a] else Trail(g.audits, x) {
      TrailStep(g.audits, a, x);
    }
    assert Trail(g.audits, id) + [a] == [a];
    assert Told(id, r, [a]) by { FirstTold(id, r, a); }
    forall h | h in g.tokens ensures g.tokens[h].requestId in g.requests {
      TokenTrail(g, h);
    }
  }

  lemma FirstTold(id: string, r: Request, a: Audit)
    requires r.status.Pending? && a == Audit(RequestedEvent(r), r.requestedBy, r.serviceId, id, r.requestedAt)
    ensures Told(id, r, [a])
  {
  }

  lemma TokenTrail(g: Gov, h: string)
    requires AuditInv(g) && h in g.tokens
    ensures g.tokens[h].requestId in g.requests
    ensures TokenTold(g.tokens[h], Trail(g.audits, g.tokens[h].requestId))
  {
    hide Trail, Told;
  }

  /** A row more, about a request that changes with it; tokens are told of as before. */
  lemma RowTells(g: Gov, after: Gov, id: string, a: Audit)
    requires AuditInv(g) && id in g.requests && AboutRequest(a, id)
    requires after.audits == g.audits + [a] && after.requests.Keys == g.requests.Keys
    requires forall x :: x in g.requests && x != id ==> after.requests[x] == g.requests[x]
    requires Told(id, after.requests[id], Trail(g.audits, id) + [a])
    requires forall h :: h in after.tokens ==>
               TokenTold(after.tokens[h], Trail(g.audits, after.tokens[h].requestId))
               || (after.tokens[h].requestId == id && TokenTold(after.tokens[h], Trail(g.audits, id) + [a]))
    ensures AuditInv(after)
  {
    hide Told, Trail;
    forall x ensures Trail(after.audits, x) == if x == id then Trail(g.audits, x) + [a] else Trail(g.audits, x) {
      TrailStep(g.audits, a, x);
    }
  }

  predicate SameIssue(a: Token, b: Token) {
    b == a.(viewedAt := b.viewedAt, expiredAt := b.expiredAt)
  }

  /** A row about no request, or none, while requests change without their story changing. */
  lemma SilentTells(g: Gov, after: Gov)
    requires AuditInv(g) && after.requests.Keys == g.requests.Keys && after.tokens.Keys == g.tokens.Keys
    requires forall id :: Trail(after.audits, id) == Trail(g.audits, id)
    requires forall id :: id in g.requests && Told(id, g.requests[id], Trail(g.audits, id)) ==>
               Told(id, after.requests[id], Trail(g.audits, id))
    requires forall h :: h in g.tokens ==> SameIssue(g.tokens[h], after.tokens[h])
    ensures AuditInv(after)
  {
    hide Told, Trail;
  }

  lemma DecisionTells(g: Gov, s: Step)
    requires AuditInv(g) && (s.call.CallDecideView? || s.call.CallDecidePublish?) && Perform(g, s).reply.Ok?
    ensures AuditInv(Perform(g, s).after)
  {
    hide Blank, Actor.HasAnyRole, Trail, AuditInv, TokenTold;
    var id, after := s.call.requestId, Perform(g, s).after;
    StepLeavesOneRow(g, s);
    assert Told(id, g.requests[id], Trail(g.audits, id)) by { RequestTrail(g, id); }
    forall h | h in after.tokens ensures TokenTold(after.tokens[h], Trail(g.audits, after.tokens[h].requestId)) {
      TokenTrail(g, h);
    }
    RowTells(g, after, id, AuditRow(g, s).value);
  }

  lemma RequestTrail(g: Gov, id: string)
    requires AuditInv(g) && id in g.requests
    ensures Told(id, g.requests[id], Trail(g.audits, id))
  {
  }

  lemma IssueTells(g: Gov, s: Step)
    requires AuditInv(g) && s.call.CallIssueToken? && Perform(g, s).reply.Ok?
    ensures AuditInv(Perform(g, s).after)
  {
    hide Blank, Actor.HasAnyRole, Trail, AuditInv;
    var id, after := s.call.requestId, Perform(g, s).after;
    StepLeavesOneRow(g, s);
    assert Told(id, g.requests[id], Trail(g.audits, id)) by { RequestTrail(g, id); }
    forall h | h in after.tokens
      ensures TokenTold(after.tokens[h], Trail(g.audits, after.tokens[h].requestId))
              || (after.tokens[h].requestId == id
                  && TokenTold(after.tokens[h], Trail(g.audits, id) + [AuditRow(g, s).value]))
    {
      if h in g.tokens {
        TokenTrail(g, h);
      }
    }
    RowTells(g, after, id, AuditRow(g, s).value);
  }

  lemma ExpiryTells(g: Gov, s: Step)
    requires AuditInv(g) && Expires(g, s)
    ensures AuditInv(Perform(g, s).after)
  {
    hide Blank, Actor.HasAnyRole, Trail, AuditInv;
    var after := Perform(g, s).after;
    var id := g.tokens[s.call.presented.value].requestId;
    StepLeavesOneRow(g, s);
    assert Told(id, g.requests[id], Trail(g.audits, id)) by { RequestTrail(g, id); }
    forall h | h in after.tokens ensures TokenTold(after.tokens[h], Trail(g.audits, after.tokens[h].requestId)) {
      TokenTrail(g, h);
    }
    RowTells(g, after, id, AuditRow(g, s).value);
  }

  /** Views and activations add no row about a request, nor does the sweep. */
  lemma ViewTells(g: Gov, s: Step)
    requires AuditInv(g) && Perform(g, s).reply.Ok? && s.call.CallDecryptQuery?
    ensures AuditInv(Perform(g, s).after)
  {
    hide Blank, Actor.HasAnyRole, Trail, AuditInv;
    var after := Perform(g, s).after;
    RowAboutNone(g, s);
    SilentTells(g, after);
  }

  lemma ActivationTells(g: Gov, s: Step)
    requires AuditInv(g) && Perform(g, s).reply.Ok?
    requires s.call.CallActivatePublish? || s.call.CallActivateRelease?
    ensures AuditInv(Perform(g, s).after)
  {
    hide Blank, Actor.HasAnyRole, Trail, AuditInv, SetActiveRelease;
    var after := Perform(g, s).after;
    RowAboutNone(g, s);
    SilentTells(g, after);
  }

  lemma RowAboutNone(g: Gov, s: Step)
    requires Perform(g, s).reply.Ok?
    requires s.call.CallDecryptQuery? || s.call.CallActivatePublish? || s.call.CallActivateRelease?
    ensures forall id :: Trail(Perform(g, s).after.audits, id) == Trail(g.audits, id)
  {
    hide Perform, Trail, ChangesOnly;
    StepLeavesOneRow(g, s);
    var row := AuditRow(g, s).value;
    assert row.event.QueryViewed? || row.event.ReleaseActivated? by { NoExpiry(g, s); }
    forall id ensures Trail(Perform(g, s).after.audits, id) == Trail(g.audits, id) {
      TrailStep(g.audits, row, id);
    }
  }

  lemma NoExpiry(g: Gov, s: Step)
    requires Perform(g, s).reply.Ok?
    ensures !Expires(g, s)
  {
    hide Actor.HasAnyRole, Consume, ExpireToken, Audited;
  }

  lemma SweepTells(g: Gov, now: int)
    requires AuditInv(g)
    ensures AuditInv(Sweep(g, now))
  {
    hide Trail, AuditInv, SweptRequest;
    SilentTells(g, Sweep(g, now));
  }

  lemma StepTells(g: Gov, s: Step)
    requires AuditInv(g)
    ensures AuditInv(Perform(g, s).after)
  {
    hide Blank, Actor.HasAnyRole, AuditInv, Decide, Issue, SetActiveRelease, Sweep, Audited, Consumable, Expirable,
      Consume, ExpireToken;
    if s.call.CallSweep? {
      SweepTells(g, s.now);
    } else if Perform(g, s).reply.Ok? {
      SuccessTells(g, s);
    } else if Expires(g, s) {
      ExpiryTells(g, s);
    } else {
      StepLeavesOneRow(g, s);
    }
  }

  lemma SuccessTells(g: Gov, s: Step)
    requires AuditInv(g) && !s.call.CallSweep? && Perform(g, s).reply.Ok?
    ensures AuditInv(Perform(g, s).after)
  {
    hide Blank, Actor.HasAnyRole, AuditInv, Decide, Issue, SetActiveRelease, Audited, CreateRequest;
    match s.call {
      case CallRequestView(id, trace, reason, _) =>
        var r := Request(s.service, "raw_query", trace, "decrypt", Pending, s.actor.id, s.now, None, None);
        CreationTells(g, s, id, r, reason, ViewRequested);
      case CallRequestPublish(id, resourceType, resourceId, action, _, reason, _) =>
        var r := Request(s.service, resourceType, resourceId, action, Pending, s.actor.id, s.now, None, None);
        CreationTells(g, s, id, r, reason, PublishRequested);
      case CallDecideView(_, _, _) => DecisionTells(g, s);
      case CallDecidePublish(_, _, _) => DecisionTells(g, s);
      case CallIssueToken(_, _, _) => IssueTells(g, s);
      case CallDecryptQuery(_, _, _, _) => ViewTells(g, s);
      case _ => ActivationTells(g, s);
    }
  }

  /**
   * Over every run the audit log tells the story of every request there is, once and in order, with
   * who did it and when, and of no other: nothing done is missing in it, and nothing it says was not done.
   */
  lemma {:induction false} AuditLogTellsAll(g: Gov, steps: seq<Step>)
    requires g.requests == map[] && g.tokens == map[] && forall id :: Trail(g.audits, id) == []
    ensures AuditInv(After(g, steps))
  {
    hide AuditInv, Perform;
    if steps == [] {
      NothingToTell(g);
    } else {
      AuditLogTellsAll(g, steps[..|steps| - 1]);
      StepTells(After(g, steps[..|steps| - 1]), steps[|steps| - 1]);
    }
  }

  lemma NothingToTell(g: Gov)
    requires g.requests == map[] && g.tokens == map[] && forall id :: Trail(g.audits, id) == []
    ensures AuditInv(g)
  {
  }
}
