/**
 * Governed requests, single-use view tokens and release activation, as a state machine
 * (db/repositories.py, api/admin.py, versions/releases.py). Every endpoint is one transaction: a
 * step either commits its new state or leaves the old one.
 */
module Governance {
  import opened Wrappers
  import Encryption

  datatype Status = Pending | Approved | Rejected | Activated | TokenIssued | Viewed | Expired

  datatype Request = Request(
    serviceId: string,
    resourceType: string,
    resourceId: string,
    action: string,
    status: Status,
    requestedBy: string,
    requestedAt: int,
    decidedBy: Option<string>,
    decidedAt: Option<int>)

  /** A view token; the store keys it by its hash, which is unique. */
  datatype Token = Token(
    requestId: string,
    serviceId: string,
    traceId: string,
    expiresAt: int,
    issuedBy: string,
    issuedAt: int,
    viewedAt: Option<int>,
    expiredAt: Option<int>)

  datatype Release = Release(serviceId: string, environment: string, active: bool)

  datatype Event =
    | ViewRequested | ViewApproved | ViewRejected | ViewTokenIssued | ViewTokenExpired | QueryViewed
    | PublishRequested | PublishApproved | PublishRejected | ReleaseActivated

  datatype Audit = Audit(event: Event, actorId: string, serviceId: string, targetId: string, createdAt: int)

  datatype Gov = Gov(
    requests: map<string, Request>,
    tokens: map<string, Token>,
    releases: map<string, Release>,
    audits: seq<Audit>)

  datatype GovError = Forbidden | NotFound | Conflict | Invalid | Unavailable

  /** The committed state after an endpoint, and what it replies. */
  datatype Outcome = Outcome(after: Gov, reply: Result<string, GovError>)

  // ---------------------------------------------------------------------------
  // Who may do what
  // ---------------------------------------------------------------------------

  datatype Actor = Actor(
    id: string,
    systemAdmin: bool,
    allServices: bool,
    services: set<string>,
    serviceRoles: map<string, set<string>>)
  {
    predicate HasAnyRole(service: string, roles: set<string>) {
      systemAdmin || (service in serviceRoles && serviceRoles[service] * roles != {})
    }

    predicate MayRequestView(service: string) { HasAnyRole(service, {"service_operator", "auditor", "service_owner"}) }

    predicate MayDecideView(service: string) { HasAnyRole(service, {"auditor", "service_owner"}) }

    predicate MayManageReleases(service: string) { HasAnyRole(service, RELEASE_WRITE_ROLES) }

    predicate MayDecidePublish(service: string) { HasAnyRole(service, {"service_owner"}) }

    predicate MayUseToken(request: Request) {
      systemAdmin || (id == request.requestedBy && (allServices || request.serviceId in services))
    }
  }

  const RELEASE_WRITE_ROLES := {"service_owner"}

  predicate Blank(s: string) { Encryption.Strip(s) == "" }

  const MAX_TTL := 900

  // ---------------------------------------------------------------------------
  // The repository's operations
  // ---------------------------------------------------------------------------

  function WithStatus(g: Gov, requestId: string, status: Status): Gov
    requires requestId in g.requests
  {
    g.(requests := g.requests[requestId := g.requests[requestId].(status := status)])
  }

  function Audited(g: Gov, event: Event, actor: Actor, service: string, target: string, now: int): Gov {
    g.(audits := g.audits + [Audit(event, actor.id, service, target, now)])
  }

  function CreateRequest(g: Gov, requestId: string, request: Request, reason: string): Result<Gov, GovError> {
    if Blank(request.resourceId) || Blank(request.requestedBy) || Blank(reason) then Err(Invalid)
    else if requestId in g.requests then Err(Conflict)
    else Ok(g.(requests := g.requests[requestId := request]))
  }

  /** Approves or rejects: only a pending request, and never by its own author. */
  function Decide(g: Gov, requestId: string, approve: bool, decidedBy: string, reason: Option<string>, now: int)
    : Result<Gov, GovError>
    requires requestId in g.requests
  {
    var r := g.requests[requestId];
    if r.status != Pending then Err(Conflict)
    else if Blank(decidedBy) then Err(Conflict)
    else if r.requestedBy == decidedBy then Err(Forbidden)
    else if !approve && (reason.None? || Blank(reason.value)) then Err(Conflict)
    else
      var decided := r.(status := if approve then Approved else Rejected,
                        decidedBy := Some(decidedBy), decidedAt := Some(now));
      Ok(g.(requests := g.requests[requestId := decided]))
  }

  function Issue(g: Gov, requestId: string, tokenHash: string, expiresAt: int, issuedBy: string, now: int)
    : Result<Gov, GovError>
    requires requestId in g.requests
  {
    var r := g.requests[requestId];
    if r.resourceType != "raw_query" || r.action != "decrypt" then Err(Conflict)
    else if r.status != Approved then Err(Conflict)
    else if Blank(tokenHash) then Err(Conflict)
    else if expiresAt <= now then Err(Conflict)
    else if Blank(issuedBy) then Err(Conflict)
    else if tokenHash in g.tokens then Err(Conflict)
    else
      var token := Token(requestId, r.serviceId, r.resourceId, expiresAt, issuedBy, now, None, None);
      Ok(WithStatus(g, requestId, TokenIssued).(tokens := g.tokens[tokenHash := token]))
  }

  /** A token of this service and trace that is neither used nor expired and whose request waits for its use. */
  predicate Open(g: Gov, tokenHash: string, service: string, trace: string) {
    && tokenHash in g.tokens
    && var t := g.tokens[tokenHash];
       && t.serviceId == service && t.traceId == trace
       && t.viewedAt.None? && t.expiredAt.None?
       && t.requestId in g.requests && g.requests[t.requestId].status == TokenIssued
  }

  predicate Consumable(g: Gov, tokenHash: string, service: string, trace: string, now: int) {
    Open(g, tokenHash, service, trace) && g.tokens[tokenHash].expiresAt > now
  }

  predicate Expirable(g: Gov, tokenHash: string, service: string, trace: string, now: int) {
    Open(g, tokenHash, service, trace) && g.tokens[tokenHash].expiresAt <= now
  }

  function Consume(g: Gov, tokenHash: string, now: int): Gov
    requires tokenHash in g.tokens && g.tokens[tokenHash].requestId in g.requests
  {
    var t := g.tokens[tokenHash];
    WithStatus(g, t.requestId, Viewed).(tokens := g.tokens[tokenHash := t.(viewedAt := Some(now))])
  }

  function ExpireToken(g: Gov, tokenHash: string, now: int): Gov
    requires tokenHash in g.tokens && g.tokens[tokenHash].requestId in g.requests
  {
    var t := g.tokens[tokenHash];
    WithStatus(g, t.requestId, Expired).(tokens := g.tokens[tokenHash := t.(expiredAt := Some(now))])
  }

  /** Whether the sweep stamps a token: it does not look at the status or at views. */
  predicate Due(t: Token, now: int) {
    t.expiresAt <= now && t.expiredAt.None?
  }

  /** Requests whose token the sweep expires. */
  predicate SweptRequest(g: Gov, requestId: string, now: int) {
    exists h :: h in g.tokens && g.tokens[h].requestId == requestId && Due(g.tokens[h], now)
  }

  function Sweep(g: Gov, now: int): Gov {
    g.(tokens := map h | h in g.tokens ::
                   if Due(g.tokens[h], now) then g.tokens[h].(expiredAt := Some(now)) else g.tokens[h],
       requests := map id | id in g.requests ::
                     if SweptRequest(g, id, now) && g.requests[id].status == TokenIssued
                     then g.requests[id].(status := Expired) else g.requests[id])
  }

  /** Makes one release the only active one of its service and environment. */
  function SetActiveRelease(g: Gov, version: string): (after: Gov)
    requires version in g.releases
    ensures after == g.(releases := after.releases)
  {
    var target := g.releases[version];
    g.(releases := map v | v in g.releases ::
         if v == version then target.(active := true)
         else if g.releases[v].serviceId == target.serviceId && g.releases[v].environment == target.environment
         then g.releases[v].(active := false)
         else g.releases[v])
  }

  // ---------------------------------------------------------------------------
  // The endpoints
  // ---------------------------------------------------------------------------

  /** What the runtime log of the trace gives on decryption. */
  datatype LogRead = NoLog | Unreadable | Readable(query: string)

  predicate IsViewRequest(g: Gov, requestId: string, service: string) {
    && requestId in g.requests && g.requests[requestId].serviceId == service
    && g.requests[requestId].resourceType == "raw_query" && g.requests[requestId].action == "decrypt"
  }

  predicate IsPublishRequest(g: Gov, requestId: string, service: string) {
    && requestId in g.requests && g.requests[requestId].serviceId == service
    && g.requests[requestId].resourceType in {"intent", "example", "release"}
  }

  function RequestView(g: Gov, actor: Actor, requestId: string, service: string, trace: string, reason: string,
                       known: bool, now: int): Outcome
  {
    if !actor.MayRequestView(service) then Outcome(g, Err(Forbidden))
    else if !known then Outcome(g, Err(NotFound))
    else
      var request := Request(service, "raw_query", trace, "decrypt", Pending, actor.id, now, None, None);
      match CreateRequest(g, requestId, request, reason)
      case Err(e) => Outcome(g, Err(e))
      case Ok(created) => Outcome(Audited(created, ViewRequested, actor, service, requestId, now), Ok(requestId))
  }

  function DecideView(g: Gov, actor: Actor, requestId: string, service: string, approve: bool,
                      reason: Option<string>, now: int)
    : Outcome
  {
    if !approve && reason.None? then Outcome(g, Err(Invalid))
    else if !actor.MayDecideView(service) then Outcome(g, Err(Forbidden))
    else if !IsViewRequest(g, requestId, service) then Outcome(g, Err(NotFound))
    else
      match Decide(g, requestId, approve, actor.id, reason, now)
      case Err(e) => Outcome(g, Err(e))
      case Ok(decided) =>
        var event := if approve then ViewApproved else ViewRejected;
        Outcome(Audited(decided, event, actor, service, requestId, now), Ok(requestId))
  }

  function IssueToken(g: Gov, actor: Actor, requestId: string, service: string, tokenHash: string, ttl: int,
                      now: int): Outcome {
    if !(1 <= ttl <= MAX_TTL) then Outcome(g, Err(Invalid))
    else if !IsViewRequest(g, requestId, service) then Outcome(g, Err(NotFound))
    else if !actor.MayUseToken(g.requests[requestId]) then Outcome(g, Err(Forbidden))
    else
      match Issue(g, requestId, tokenHash, now + ttl, actor.id, now)
      case Err(e) => Outcome(g, Err(e))
      case Ok(issued) => Outcome(Audited(issued, ViewTokenIssued, actor, service, requestId, now), Ok(tokenHash))
  }

  /**
   * Uses a token. A failure after it was consumed rolls the consumption back; a token found expired
   * is marked so, and that is committed although the reply is a refusal.
   */
  function DecryptQuery(g: Gov, actor: Actor, service: string, trace: string, tokenHash: Option<string>,
                        serviceExists: bool, log: LogRead, now: int): Outcome
  {
    if !serviceExists then Outcome(g, Err(NotFound))
    else if tokenHash.None? then Outcome(g, Err(Forbidden))
    else
      var h := tokenHash.value;
      if Consumable(g, h, service, trace, now) then
        if !actor.MayUseToken(g.requests[g.tokens[h].requestId]) then Outcome(g, Err(Forbidden))
        else
          match log
          case NoLog => Outcome(g, Err(NotFound))
          case Unreadable => Outcome(g, Err(Unavailable))
          case Readable(query) =>
            Outcome(Audited(Consume(g, h, now), QueryViewed, actor, service, trace, now), Ok(query))
      else if Expirable(g, h, service, trace, now) then
        Outcome(Audited(ExpireToken(g, h, now), ViewTokenExpired, actor, service, g.tokens[h].requestId, now),
                Err(Forbidden))
      else Outcome(g, Err(Forbidden))
  }

  function RequestPublish(g: Gov, actor: Actor, requestId: string, service: string, resourceType: string,
                          resourceId: string,
                          action: string, targetVersion: Option<string>, reason: string, serviceExists: bool,
                          now: int): Outcome
  {
    if !actor.MayManageReleases(service) then Outcome(g, Err(Forbidden))
    else if resourceType != "release" || action != "activate" then Outcome(g, Err(Invalid))
    else if targetVersion.Some? && targetVersion.value != resourceId then Outcome(g, Err(Invalid))
    else if !serviceExists || !ReleaseOf(g, service, resourceId) then Outcome(g, Err(NotFound))
    else
      var request := Request(service, resourceType, resourceId, action, Pending, actor.id, now, None, None);
      match CreateRequest(g, requestId, request, reason)
      case Err(e) => Outcome(g, Err(e))
      case Ok(created) => Outcome(Audited(created, PublishRequested, actor, service, requestId, now), Ok(requestId))
  }

  predicate ReleaseOf(g: Gov, service: string, version: string) {
    version in g.releases && g.releases[version].serviceId == service
  }

  function DecidePublish(g: Gov, actor: Actor, requestId: string, service: string, approve: bool,
                         reason: Option<string>, now: int)
    : Outcome
  {
    if !approve && reason.None? then Outcome(g, Err(Invalid))
    else if !actor.MayDecidePublish(service) then Outcome(g, Err(Forbidden))
    else if !IsPublishRequest(g, requestId, service) then Outcome(g, Err(NotFound))
    else
      match Decide(g, requestId, approve, actor.id, reason, now)
      case Err(e) => Outcome(g, Err(e))
      case Ok(decided) =>
        var event := if approve then PublishApproved else PublishRejected;
        Outcome(Audited(decided, event, actor, service, requestId, now), Ok(requestId))
  }

  function ActivatePublish(g: Gov, actor: Actor, requestId: string, service: string, now: int): Outcome {
    if !actor.MayManageReleases(service) then Outcome(g, Err(Forbidden))
    else if !IsPublishRequest(g, requestId, service) then Outcome(g, Err(NotFound))
    else
      var r := g.requests[requestId];
      if r.resourceType != "release" || r.action != "activate" then Outcome(g, Err(Invalid))
      else if r.status != Approved then Outcome(g, Err(Conflict))
      else if !ReleaseOf(g, service, r.resourceId) then Outcome(g, Err(NotFound))
      else
        var activated := WithStatus(SetActiveRelease(g, r.resourceId), requestId, Activated);
        Outcome(Audited(activated, ReleaseActivated, actor, service, r.resourceId, now), Ok(r.resourceId))
  }

  /** Activation without a request, which the program also offers. */
  function ActivateRelease(g: Gov, actor: Actor, service: string, version: string, serviceExists: bool,
                           now: int): Outcome {
    if !actor.MayManageReleases(service) then Outcome(g, Err(Forbidden))
    else if !serviceExists || !ReleaseOf(g, service, version) then Outcome(g, Err(NotFound))
    else Outcome(Audited(SetActiveRelease(g, version), ReleaseActivated, actor, service, version, now), Ok(version))
  }

  // ---------------------------------------------------------------------------
  // Runs
  // ---------------------------------------------------------------------------

  datatype Call =
    | CallRequestView(requestId: string, trace: string, viewReason: string, known: bool)
    | CallDecideView(requestId: string, approve: bool, reason: Option<string>)
    | CallIssueToken(requestId: string, tokenHash: string, ttl: int)
    | CallDecryptQuery(trace: string, presented: Option<string>, serviceExists: bool, log: LogRead)
    | CallRequestPublish(requestId: string, resourceType: string, resourceId: string, action: string,
                         targetVersion: Option<string>, publishReason: string, serviceExists: bool)
    | CallDecidePublish(requestId: string, approve: bool, reason: Option<string>)
    | CallActivatePublish(requestId: string)
    | CallActivateRelease(version: string, serviceExists: bool)
    | CallSweep

  /** Anyone may call any endpoint at any time, with any arguments. */
  datatype Step = Step(actor: Actor, service: string, now: int, call: Call)

  function Perform(g: Gov, s: Step): Outcome {
    match s.call
    case CallRequestView(id, trace, reason, known) =>
      RequestView(g, s.actor, id, s.service, trace, reason, known, s.now)
    case CallDecideView(id, approve, reason) => DecideView(g, s.actor, id, s.service, approve, reason, s.now)
    case CallIssueToken(id, hash, ttl) => IssueToken(g, s.actor, id, s.service, hash, ttl, s.now)
    case CallDecryptQuery(trace, hash, serviceKnown, log) =>
      DecryptQuery(g, s.actor, s.service, trace, hash, serviceKnown, log, s.now)
    case CallRequestPublish(id, resourceType, resourceId, action, target, reason, serviceKnown) =>
      RequestPublish(g, s.actor, id, s.service, resourceType, resourceId, action, target, reason, serviceKnown, s.now)
    case CallDecidePublish(id, approve, reason) => DecidePublish(g, s.actor, id, s.service, approve, reason, s.now)
    case CallActivatePublish(id) => ActivatePublish(g, s.actor, id, s.service, s.now)
    case CallActivateRelease(version, serviceKnown) =>
      ActivateRelease(g, s.actor, s.service, version, serviceKnown, s.now)
    case CallSweep => Outcome(Sweep(g, s.now), Ok(""))
  }

  /** The states a run passes through, one after each step. */
  function After(g: Gov, steps: seq<Step>): Gov {
    if steps == [] then g
    else Perform(After(g, steps[..|steps| - 1]), steps[|steps| - 1]).after
  }
}
