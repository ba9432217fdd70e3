/**
 * The governed endpoints as they run: checks, changes, an audit row and a commit; where anything
 * refuses, the session is rolled back (api/admin.py, api/admin_dependencies.py).
 */
module GovernedEndpoints {
  import opened Wrappers
  import opened Governance
  import opened GovernanceAudit
  import opened GovernanceStore

  /** All or nothing, and on the record: what every one of these calls leaves in the database. */
  predicate OneRow(before: Gov, after: Gov, reply: Result<string, GovError>, row: Audit, requests: set<string>,
                   tokens: set<string>, releases: bool)
  {
    if reply.Err? then after == before
    else after.audits == before.audits + [row] && ChangesOnly(before, after, requests, tokens, releases)
  }

  method CreateRawQueryViewRequest(store: Store, actor: Actor, requestId: string, service: string, trace: string,
                                   reason: string, known: bool, now: int)
    returns (reply: Result<string, GovError>)
    requires store.Clean()
    modifies store
    ensures store.Clean()
    ensures Outcome(store.committed, reply)
         == RequestView(old(store.committed), actor, requestId, service, trace, reason, known, now)
    ensures OneRow(old(store.committed), store.committed, reply,
                   Audit(ViewRequested, actor.id, service, requestId, now), {requestId}, {}, false)
  {
    hide Blank, Actor.HasAnyRole;
    if !actor.MayRequestView(service) {
      return Err(Forbidden);
    }
    if !known {
      return Err(NotFound);
    }
    var request := Request(service, "raw_query", trace, "decrypt", Pending, actor.id, now, None, None);
    var created := store.CreateGovernedRequest(requestId, request, reason);
    if created.Err? {
      store.Rollback();
      return Err(created.error);
    }
    store.InsertAudit(ViewRequested, actor, service, requestId, now);
    store.Commit();
    return Ok(requestId);
  }

  lemma DecidedOnly(g: Gov, id: string, approve: bool, decidedBy: string, reason: Option<string>, now: int)
    requires id in g.requests && Decide(g, id, approve, decidedBy, reason, now).Ok?
    ensures var after := Decide(g, id, approve, decidedBy, reason, now).value;
            after.audits == g.audits && ChangesOnly(g, after, {id}, {}, false)
  {
    hide Blank;
  }

  method ApproveRawQueryViewRequest(store: Store, actor: Actor, requestId: string, service: string,
                                    reason: Option<string>,
                                    now: int)
    returns (reply: Result<string, GovError>)
    requires store.Clean()
    modifies store
    ensures store.Clean()
    ensures Outcome(store.committed, reply)
         == DecideView(old(store.committed), actor, requestId, service, true, reason, now)
    ensures OneRow(old(store.committed), store.committed, reply,
                   Audit(ViewApproved, actor.id, service, requestId, now), {requestId}, {}, false)
  {
    hide Blank, Actor.HasAnyRole, Decide;
    if !actor.MayDecideView(service) {
      return Err(Forbidden);
    }
    if !IsViewRequest(store.State(), requestId, service) {
      return Err(NotFound);
    }
    var approved := store.ApproveRequest(requestId, actor.id, reason, now);
    if approved.Err? {
      store.Rollback();
      return Err(approved.error);
    }
    store.InsertAudit(ViewApproved, actor, service, requestId, now);
    store.Commit();
    DecidedOnly(old(store.committed), requestId, true, actor.id, reason, now);
    return Ok(requestId);
  }

  method RejectRawQueryViewRequest(store: Store, actor: Actor, requestId: string, service: string,
                                   reason: Option<string>,
                                   now: int)
    returns (reply: Result<string, GovError>)
    requires store.Clean()
    modifies store
    ensures store.Clean()
    ensures Outcome(store.committed, reply)
         == DecideView(old(store.committed), actor, requestId, service, false, reason, now)
    ensures OneRow(old(store.committed), store.committed, reply,
                   Audit(ViewRejected, actor.id, service, requestId, now), {requestId}, {}, false)
  {
    hide Blank, Actor.HasAnyRole, Decide;
    if reason.None? {
      return Err(Invalid);
    }
    if !actor.MayDecideView(service) {
      return Err(Forbidden);
    }
    if !IsViewRequest(store.State(), requestId, service) {
      return Err(NotFound);
    }
    var rejected := store.RejectRequest(requestId, actor.id, reason.value, now);
    if rejected.Err? {
      store.Rollback();
      return Err(rejected.error);
    }
    store.InsertAudit(ViewRejected, actor, service, requestId, now);
    store.Commit();
    DecidedOnly(old(store.committed), requestId, false, actor.id, reason, now);
    return Ok(requestId);
  }

  method IssueRawQueryViewToken(store: Store, actor: Actor, requestId: string, service: string, tokenHash: string,
                                ttl: int, now: int)
    returns (reply: Result<string, GovError>)
    requires store.Clean()
    modifies store
    ensures store.Clean()
    ensures Outcome(store.committed, reply)
         == IssueToken(old(store.committed), actor, requestId, service, tokenHash, ttl, now)
    ensures OneRow(old(store.committed), store.committed, reply,
                   Audit(ViewTokenIssued, actor.id, service, requestId, now), {requestId}, {tokenHash}, false)
  {
    hide Blank, Actor.HasAnyRole, Issue;
    if !(1 <= ttl <= MAX_TTL) {
      return Err(Invalid);
    }
    if !IsViewRequest(store.State(), requestId, service) {
      return Err(NotFound);
    }
    if !actor.MayUseToken(store.requests[requestId]) {
      return Err(Forbidden);
    }
    var issued := store.IssueViewToken(requestId, tokenHash, now + ttl, actor.id, now);
    if issued.Err? {
      store.Rollback();
      return Err(issued.error);
    }
    store.InsertAudit(ViewTokenIssued, actor, service, requestId, now);
    store.Commit();
    IssuedOnly(old(store.committed), requestId, tokenHash, now + ttl, actor.id, now);
    return Ok(tokenHash);
  }

  lemma IssuedOnly(g: Gov, id: string, tokenHash: string, expiresAt: int, issuedBy: string, now: int)
    requires id in g.requests && Issue(g, id, tokenHash, expiresAt, issuedBy, now).Ok?
    ensures var after := Issue(g, id, tokenHash, expiresAt, issuedBy, now).value;
            after.audits == g.audits && ChangesOnly(g, after, {id}, {tokenHash}, false)
  {
    hide Blank;
  }

  /**
   * The token is consumed first, and a refusal after that undoes it, for nothing was committed; a
   * token found to have ended is marked so, and that is committed before the refusal.
   */
  method DecryptRawRuntimeQuery(store: Store, actor: Actor, service: string, trace: string, presented: Option<string>,
                                serviceExists: bool, log: LogRead, now: int)
    returns (reply: Result<string, GovError>)
    requires store.Clean()
    modifies store
    ensures store.Clean()
    ensures Outcome(store.committed, reply)
         == DecryptQuery(old(store.committed), actor, service, trace, presented, serviceExists, log, now)
  {
    hide Blank, Actor.HasAnyRole;
    if !serviceExists {
      return Err(NotFound);
    }
    if presented.None? {
      return Err(Forbidden);
    }
    var consumed := store.ConsumeViewToken(presented.value, service, trace, now);
    if consumed.None? {
      var expired := store.ExpireViewToken(presented.value, service, trace, now);
      if expired.Some? {
        store.InsertAudit(ViewTokenExpired, actor, service, expired.value, now);
        store.Commit();
      }
      return Err(Forbidden);
    }
    if !actor.MayUseToken(store.requests[consumed.value]) {
      store.Rollback();
      return Err(Forbidden);
    }
    match log {
      case NoLog =>
        store.Rollback();
        return Err(NotFound);
      case Unreadable =>
        store.Rollback();
        return Err(Unavailable);
      case Readable(query) =>
        store.InsertAudit(QueryViewed, actor, service, trace, now);
        store.Commit();
        return Ok(query);
    }
  }

  method CreatePublishRequest(store: Store, actor: Actor, requestId: string, service: string, resourceType: string,
                              resourceId: string, action: string, targetVersion: Option<string>, reason: string,
                              serviceExists: bool, now: int)
    returns (reply: Result<string, GovError>)
    requires store.Clean()
    modifies store
    ensures store.Clean()
    ensures Outcome(store.committed, reply)
         == RequestPublish(old(store.committed), actor, requestId, service, resourceType, resourceId, action,
                           targetVersion, reason, serviceExists, now)
    ensures OneRow(old(store.committed), store.committed, reply,
                   Audit(PublishRequested, actor.id, service, requestId, now), {requestId}, {}, false)
  {
    hide Blank, Actor.HasAnyRole;
    if !actor.MayManageReleases(service) {
      return Err(Forbidden);
    }
    if resourceType != "release" || action != "activate" {
      return Err(Invalid);
    }
    if targetVersion.Some? && targetVersion.value != resourceId {
      return Err(Invalid);
    }
    if !serviceExists || !ReleaseOf(store.State(), service, resourceId) {
      return Err(NotFound);
    }
    var request := Request(service, resourceType, resourceId, action, Pending, actor.id, now, None, None);
    var created := store.CreateGovernedRequest(requestId, request, reason);
    if created.Err? {
      store.Rollback();
      return Err(created.error);
    }
    store.InsertAudit(PublishRequested, actor, service, requestId, now);
    store.Commit();
    return Ok(requestId);
  }

  method ApprovePublishRequest(store: Store, actor: Actor, requestId: string, service: string, reason: Option<string>,
                               now: int)
    returns (reply: Result<string, GovError>)
    requires store.Clean()
    modifies store
    ensures store.Clean()
    ensures Outcome(store.committed, reply)
         == DecidePublish(old(store.committed), actor, requestId, service, true, reason, now)
    ensures OneRow(old(store.committed), store.committed, reply,
                   Audit(PublishApproved, actor.id, service, requestId, now), {requestId}, {}, false)
  {
    hide Blank, Actor.HasAnyRole, Decide;
    if !actor.MayDecidePublish(service) {
      return Err(Forbidden);
    }
    if !IsPublishRequest(store.State(), requestId, service) {
      return Err(NotFound);
    }
    var approved := store.ApproveRequest(requestId, actor.id, reason, now);
    if approved.Err? {
      store.Rollback();
      return Err(approved.error);
    }
    store.InsertAudit(PublishApproved, actor, service, requestId, now);
    store.Commit();
    DecidedOnly(old(store.committed), requestId, true, actor.id, reason, now);
    return Ok(requestId);
  }

  method RejectPublishRequest(store: Store, actor: Actor, requestId: string, service: string, reason: Option<string>,
                              now: int)
    returns (reply: Result<string, GovError>)
    requires store.Clean()
    modifies store
    ensures store.Clean()
    ensures Outcome(store.committed, reply)
         == DecidePublish(old(store.committed), actor, requestId, service, false, reason, now)
    ensures OneRow(old(store.committed), store.committed, reply,
                   Audit(PublishRejected, actor.id, service, requestId, now), {requestId}, {}, false)
  {
    hide Blank, Actor.HasAnyRole, Decide;
    if reason.None? {
      return Err(Invalid);
    }
    if !actor.MayDecidePublish(service) {
      return Err(Forbidden);
    }
    if !IsPublishRequest(store.State(), requestId, service) {
      return Err(NotFound);
    }
    var rejected := store.RejectRequest(requestId, actor.id, reason.value, now);
    if rejected.Err? {
      store.Rollback();
      return Err(rejected.error);
    }
    store.InsertAudit(PublishRejected, actor, service, requestId, now);
    store.Commit();
    DecidedOnly(old(store.committed), requestId, false, actor.id, reason, now);
    return Ok(requestId);
  }

  method ActivatePublishRequest(store: Store, actor: Actor, requestId: string, service: string, now: int)
    returns (reply: Result<string, GovError>)
    requires store.Clean()
    modifies store
    ensures store.Clean()
    ensures Outcome(store.committed, reply)
         == ActivatePublish(old(store.committed), actor, requestId, service, now)
    ensures reply.Ok? ==>
              && requestId in old(store.committed).requests
              && OneRow(old(store.committed), store.committed, reply,
                        Audit(ReleaseActivated, actor.id, service,
                              old(store.committed).requests[requestId].resourceId, now),
                        {requestId}, {}, true)
    ensures reply.Err? ==> store.committed == old(store.committed)
  {
    hide Actor.HasAnyRole, SetActiveRelease;
    if !actor.MayManageReleases(service) {
      return Err(Forbidden);
    }
    if !IsPublishRequest(store.State(), requestId, service) {
      return Err(NotFound);
    }
    var request := store.requests[requestId];
    if request.resourceType != "release" || request.action != "activate" {
      return Err(Invalid);
    }
    if request.status != Approved {
      return Err(Conflict);
    }
    if !ReleaseOf(store.State(), service, request.resourceId) {
      store.Rollback();
      return Err(NotFound);
    }
    ActivatedOnly(store.State(), request.resourceId);
    store.SetActive(request.resourceId);
    store.requests := store.requests[requestId := request.(status := Activated)];
    store.InsertAudit(ReleaseActivated, actor, service, request.resourceId, now);
    store.Commit();
    return Ok(request.resourceId);
  }

  lemma ActivatedOnly(g: Gov, version: string)
    requires version in g.releases
    ensures ChangesOnly(g, SetActiveRelease(g, version), {}, {}, true)
  {
  }

  /** Activation without a request: the program's other way to the same release. */
  method ActivateReleaseDirectly(store: Store, actor: Actor, service: string, version: string,
                                 serviceExists: bool, now: int)
    returns (reply: Result<string, GovError>)
    requires store.Clean()
    modifies store
    ensures store.Clean()
    ensures Outcome(store.committed, reply)
         == ActivateRelease(old(store.committed), actor, service, version, serviceExists, now)
    ensures OneRow(old(store.committed), store.committed, reply,
                   Audit(ReleaseActivated, actor.id, service, version, now), {}, {}, true)
  {
    hide Actor.HasAnyRole, SetActiveRelease;
    if !actor.MayManageReleases(service) {
      return Err(Forbidden);
    }
    if !serviceExists || !ReleaseOf(store.State(), service, version) {
      return Err(NotFound);
    }
    ActivatedOnly(store.State(), version);
    store.SetActive(version);
    store.InsertAudit(ReleaseActivated, actor, service, version, now);
    store.Commit();
    return Ok(version);
  }
}
