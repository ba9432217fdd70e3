/** When each governed endpoint succeeds, and what it then leaves, in terms of roles, records and times. */
module GovernanceReplies {
  import opened Wrappers
  import opened Governance

  /** The caller is system_admin, or has one of these roles for the service. */
  predicate Holds(actor: Actor, service: string, roles: set<string>) {
    actor.systemAdmin || (service in actor.serviceRoles && exists r :: r in roles && r in actor.serviceRoles[service])
  }

  lemma HoldsMeaning(actor: Actor, service: string, roles: set<string>)
    ensures actor.HasAnyRole(service, roles) <==> Holds(actor, service, roles)
  {
    if service in actor.serviceRoles {
      assert actor.serviceRoles[service] * roles != {} <==>
             exists r :: r in roles && r in actor.serviceRoles[service] by {
        if r :| r in roles && r in actor.serviceRoles[service] {
          assert r in actor.serviceRoles[service] * roles;
        }
        if actor.serviceRoles[service] * roles != {} {
          var r :| r in actor.serviceRoles[service] * roles;
        }
      }
    }
  }

  /** A pending request of the caller's. */
  predicate IsNew(r: Request, s: Step, resourceType: string, resourceId: string, action: string) {
    && r.serviceId == s.service && r.resourceType == resourceType && r.resourceId == resourceId && r.action == action
    && r.status == Pending && r.requestedBy == s.actor.id && r.requestedAt == s.now
    && r.decidedBy == None && r.decidedAt == None
  }

  /**
   * A view may be asked for by an operator, auditor or owner of the service, for a log that is
   * there, with a reason; it is then pending.
   */
  lemma ViewRequestSucceedsIff(g: Gov, s: Step)
    requires s.call.CallRequestView?
    ensures var o, id := Perform(g, s), s.call.requestId;
            && (o.reply.Ok? <==>
                  && Holds(s.actor, s.service, {"service_operator", "auditor", "service_owner"}) && s.call.known
                  && !Blank(s.call.trace) && !Blank(s.actor.id) && !Blank(s.call.viewReason) && id !in g.requests)
            && (o.reply.Ok? ==>
                  && o.after.requests.Keys == g.requests.Keys + {id}
                  && IsNew(o.after.requests[id], s, "raw_query", s.call.trace, "decrypt"))
  {
    hide Blank, Actor.HasAnyRole, Holds;
    HoldsMeaning(s.actor, s.service, {"service_operator", "auditor", "service_owner"});
  }

  /** A publication may be asked for by an owner of the service, of a release that is there. */
  lemma PublishRequestSucceedsIff(g: Gov, s: Step)
    requires s.call.CallRequestPublish?
    ensures var o, id, c := Perform(g, s), s.call.requestId, s.call;
            && (o.reply.Ok? <==>
                  && Holds(s.actor, s.service, {"service_owner"})
                  && c.resourceType == "release" && c.action == "activate"
                  && (c.targetVersion == None || c.targetVersion == Some(c.resourceId)) && c.serviceExists
                  && c.resourceId in g.releases && g.releases[c.resourceId].serviceId == s.service
                  && !Blank(c.resourceId) && !Blank(s.actor.id) && !Blank(c.publishReason) && id !in g.requests)
            && (o.reply.Ok? ==>
                  && o.after.requests.Keys == g.requests.Keys + {id}
                  && IsNew(o.after.requests[id], s, "release", c.resourceId, "activate"))
  {
    hide Blank, Actor.HasAnyRole, Holds;
    HoldsMeaning(s.actor, s.service, {"service_owner"});
  }

  /**
   * A pending request is decided by another person: a view by an auditor or owner of the service, a
   * publication by an owner; a rejection needs a reason.
   */
  lemma DecisionSucceedsIff(g: Gov, s: Step)
    requires s.call.CallDecideView? || s.call.CallDecidePublish?
    ensures var o, id := Perform(g, s), s.call.requestId;
            && (o.reply.Ok? <==>
                  && id in g.requests && g.requests[id].serviceId == s.service && g.requests[id].status == Pending
                  && (if s.call.CallDecideView? then
                        Holds(s.actor, s.service, {"auditor", "service_owner"})
                        && g.requests[id].resourceType == "raw_query" && g.requests[id].action == "decrypt"
                      else
                        Holds(s.actor, s.service, {"service_owner"})
                        && g.requests[id].resourceType in {"intent", "example", "release"})
                  && !Blank(s.actor.id) && s.actor.id != g.requests[id].requestedBy
                  && (!s.call.approve ==> s.call.reason.Some? && !Blank(s.call.reason.value)))
            && (o.reply.Ok? ==>
                  && id in o.after.requests
                  && o.after.requests[id] == g.requests[id].(status := if s.call.approve then Approved else Rejected,
                                                             decidedBy := Some(s.actor.id), decidedAt := Some(s.now)))
  {
    hide Blank, Actor.HasAnyRole, Holds;
    HoldsMeaning(s.actor, s.service, {"auditor", "service_owner"});
    HoldsMeaning(s.actor, s.service, {"service_owner"});
  }

  /** Who may use a view request's token: its author, while they have the service, or a system_admin. */
  predicate Uses(actor: Actor, r: Request) {
    actor.systemAdmin || (actor.id == r.requestedBy && (actor.allServices || r.serviceId in actor.services))
  }

  /**
   * A token is issued on an approved view request, to its author or a system_admin, for a lifetime
   * of 1 to 900 seconds; it ends exactly so many seconds from now, and waits to be used.
   */
  lemma IssueSucceedsIff(g: Gov, s: Step)
    requires s.call.CallIssueToken?
    ensures var o, id, hash := Perform(g, s), s.call.requestId, s.call.tokenHash;
            && (o.reply.Ok? <==>
                  && 1 <= s.call.ttl <= 900
                  && id in g.requests && g.requests[id].serviceId == s.service
                  && g.requests[id].resourceType == "raw_query" && g.requests[id].action == "decrypt"
                  && Uses(s.actor, g.requests[id]) && g.requests[id].status == Approved
                  && !Blank(hash) && !Blank(s.actor.id) && hash !in g.tokens)
            && (o.reply.Ok? ==>
                  && o.reply.value == hash
                  && o.after.tokens == g.tokens[hash := Token(id, s.service, g.requests[id].resourceId,
                                                              s.now + s.call.ttl, s.actor.id, s.now, None, None)]
                  && id in o.after.requests && o.after.requests[id] == g.requests[id].(status := TokenIssued))
  {
    hide Blank, Actor.HasAnyRole;
  }

  /**
   * A raw query is shown for a token of this service and trace that has neither been used nor ended,
   * on a request that waits for it, to the request's author or a system_admin, if the log can be
   * read; token and request are then used up.
   */
  lemma ViewSucceedsIff(g: Gov, s: Step)
    requires s.call.CallDecryptQuery?
    ensures var o, c := Perform(g, s), s.call;
            && (o.reply.Ok? <==>
                  && c.serviceExists && c.presented.Some? && c.presented.value in g.tokens
                  && var t := g.tokens[c.presented.value];
                     && t.serviceId == s.service && t.traceId == c.trace && s.now < t.expiresAt
                     && t.viewedAt == None && t.expiredAt == None
                     && t.requestId in g.requests && g.requests[t.requestId].status == TokenIssued
                     && Uses(s.actor, g.requests[t.requestId]) && c.log.Readable?)
            && (o.reply.Ok? ==>
                  && o.reply.value == c.log.query
                  && c.presented.value in o.after.tokens
                  && o.after.tokens[c.presented.value] == g.tokens[c.presented.value].(viewedAt := Some(s.now))
                  && var id := g.tokens[c.presented.value].requestId;
                     id in o.after.requests && o.after.requests[id] == g.requests[id].(status := Viewed))
  {
    hide Blank, Actor.HasAnyRole;
  }

  /** A release is activated on an approved request for it, or without one, by an owner of the service. */
  lemma ActivationSucceedsIff(g: Gov, s: Step)
    requires s.call.CallActivatePublish? || s.call.CallActivateRelease?
    ensures var o := Perform(g, s);
            && (o.reply.Ok? <==>
                  && Holds(s.actor, s.service, {"service_owner"})
                  && if s.call.CallActivatePublish? then
                       && s.call.requestId in g.requests
                       && var r := g.requests[s.call.requestId];
                          && r.serviceId == s.service && r.resourceType == "release" && r.action == "activate"
                          && r.status == Approved
                          && r.resourceId in g.releases && g.releases[r.resourceId].serviceId == s.service
                     else
                       && s.call.serviceExists
                       && s.call.version in g.releases && g.releases[s.call.version].serviceId == s.service)
            && (o.reply.Ok? ==>
                  && o.reply.value in o.after.releases && o.after.releases[o.reply.value].active
                  && o.reply.value == (if s.call.CallActivatePublish? then g.requests[s.call.requestId].resourceId
                                       else s.call.version)
                  && (s.call.CallActivatePublish? ==>
                        && s.call.requestId in o.after.requests
                        && o.after.requests[s.call.requestId]
                           == g.requests[s.call.requestId].(status := Activated)))
  {
    hide Actor.HasAnyRole, Holds;
    HoldsMeaning(s.actor, s.service, {"service_owner"});
  }
}
