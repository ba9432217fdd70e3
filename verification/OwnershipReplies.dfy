/** When each ownership endpoint succeeds, and exactly what it then leaves of users, roles and directory. */
module OwnershipReplies {
  import opened Wrappers
  import opened Ownership
  import opened OwnershipTheorems

  lemma {:induction false} EnsureRolesSucceedIff(s: Admin, u: string, roles: seq<Role>)
    requires Inv(s) && u in s.users
    ensures EnsureRoles(s, u, roles).Ok? <==>
              (roles == [] || !Blank(u)) && (SystemAdmin in roles ==> !HeldByOther(s, u))
  {
    hide Inv, Blank;
    if roles != [] {
      var n := |roles| - 1;
      EnsureRolesSucceedIff(s, u, roles[..n]);
      assert forall r :: r in roles <==> r == roles[n] || r in roles[..n];
      if EnsureRoles(s, u, roles[..n]).Ok? {
        EnsureRolesMeaning(s, u, roles[..n]);
        EnsureLast(s, u, EnsureRoles(s, u, roles[..n]).value, roles[..n], roles[n]);
      }
    }
  }

  lemma EnsureLast(s: Admin, u: string, given: Admin, roles: seq<Role>, role: Role)
    requires Inv(s) && Inv(given) && given.users == s.users && u in s.users
    requires Holders(given) == if SystemAdmin in roles then {u} else Holders(s)
    requires SystemAdmin in roles ==> !HeldByOther(s, u)
    ensures EnsureRole(given, u, role).Ok? <==> !Blank(u) && (role == SystemAdmin ==> !HeldByOther(s, u))
  {
    hide Blank;
    if (u, SystemAdmin) in given.roles {
      assert u in Holders(given);
      OnlyHolder(given, u);
    }
    assert SystemAdmin !in roles ==> (HeldByOther(given, u) <==> HeldByOther(s, u));
  }

  lemma SortedIsEmpty(roles: set<Role>)
    ensures Sorted(roles) == [] <==> roles == {}
  {
    if Sorted(roles) != [] {
      assert Sorted(roles)[0] in Sorted(roles);
    }
    if r :| r in roles {
      assert r in Sorted(roles);
    }
  }

  /** A new user with its roles. */
  lemma CreatedIff(s: Admin, u: string, user: User, roles: seq<Role>)
    requires Inv(s)
    ensures var created := Created(s, u, user, roles);
            && (created.Ok? <==>
                  && u !in s.users && (forall v :: v in s.users ==> s.users[v].email != user.email)
                  && (roles == [] || !Blank(u)) && (SystemAdmin in roles ==> Holders(s) == {}))
            && (created.Ok? ==>
                  && created.value.users == s.users[u := user] && created.value.organization == s.organization
                  && forall x :: x in created.value.roles <==> x in s.roles || (x.0 == u && x.1 in roles))
  {
    hide EnsureRoles, Blank;
    if u !in s.users && !EmailTaken(s, user.email) {
      var created := CreateUser(s, u, user).value;
      assert Holders(created) == Holders(s) by { NewUserHoldsNothing(s, u, user); }
      assert Inv(created);
      EnsureRolesSucceedIff(created, u, roles);
      assert HeldByOther(created, u) <==> Holders(s) != {} by { HeldIfAny(s, created, u); }
      if EnsureRoles(created, u, roles).Ok? {
        EnsureRolesMeaning(created, u, roles);
      }
    }
  }

  lemma NewUserHoldsNothing(s: Admin, u: string, user: User)
    requires Stored(s) && u !in s.users
    ensures Holders(s.(users := s.users[u := user])) == Holders(s) && u !in Holders(s)
  {
    assert (u, SystemAdmin) !in s.roles;
  }

  lemma HeldIfAny(s: Admin, created: Admin, u: string)
    requires Holders(created) == Holders(s) && u !in s.users
    ensures HeldByOther(created, u) <==> Holders(s) != {}
  {
    if h :| h in Holders(s) {
      assert h in Holders(created) && h != u;
    }
  }

  /** Bootstrap succeeds once: without a holder, for a new user with a new e-mail. */
  lemma BootstrapSucceedsIff(s: Admin, u: string, email: string)
    requires Inv(s)
    ensures var o := Bootstrap(s, u, email);
            && (o.reply.Ok? <==>
                  && Holders(s) == {} && u !in s.users && !Blank(u)
                  && forall v :: v in s.users ==> s.users[v].email != email)
            && (o.reply.Ok? ==>
                  && o.after.users == s.users[u := User(email, Active, None)] && o.after.organization == s.organization
                  && o.after.roles == s.roles + {(u, SystemAdmin)})
  {
    hide Created, Inv, Blank;
    CreatedIff(s, u, User(email, Active, None), [SystemAdmin]);
    if Bootstrap(s, u, email).reply.Ok? {
      forall x: (string, Role) ensures x in Bootstrap(s, u, email).after.roles <==> x in s.roles + {(u, SystemAdmin)} {
        assert x == (x.0, x.1);
      }
    }
  }

  /**
   * Startup succeeds where nobody else holds the role: it gives it to the user with the configured
   * e-mail, who is created if there is none.
   */
  lemma StartupSucceedsIff(s: Admin, freshId: string, email: string)
    requires Inv(s)
    ensures var o := Startup(s, freshId, email);
            && (o.reply.Ok? <==>
                  if EmailTaken(s, email) then Holders(s) <= {UserOf(s, email)} && !Blank(UserOf(s, email))
                  else Holders(s) == {} && freshId !in s.users && !Blank(freshId))
            && (o.reply.Ok? ==>
                  && o.after.organization == s.organization
                  && o.after.users == (if EmailTaken(s, email) then s.users
                                       else s.users[freshId := User(email, Active, None)])
                  && forall x :: x in o.after.roles <==>
                       x in s.roles || x == (if EmailTaken(s, email) then UserOf(s, email) else freshId, SystemAdmin))
  {
    hide Created, Inv, Blank;
    if EmailTaken(s, email) {
      var u := UserOf(s, email);
      assert HeldByOther(s, u) <==> !(Holders(s) <= {u});
    } else {
      CreatedIff(s, freshId, User(email, Active, None), [SystemAdmin]);
      forall x: (string, Role) ensures x.0 == freshId && x.1 in [SystemAdmin] <==> x == (freshId, SystemAdmin) {
      }
    }
  }

  /**
   * A managed user is created by a system_admin for an active directory entry that nobody is linked
   * to, with a new e-mail and exactly the roles asked for; system_admin only where nobody has it.
   */
  lemma CreateManagedSucceedsIff(s: Admin, context: Context, u: string, email: string, status: UserStatus,
                                 organizationUser: string, roles: set<Role>)
    requires Inv(s)
    ensures var o := CreateManaged(s, context, u, email, status, organizationUser, roles);
            && (o.reply.Ok? <==>
                  && context.systemAdmin
                  && organizationUser in s.organization && s.organization[organizationUser]
                  && (forall v :: v in s.users ==>
                        s.users[v].organizationUser != Some(organizationUser) && s.users[v].email != email)
                  && u !in s.users && (roles != {} ==> !Blank(u)) && (SystemAdmin in roles ==> Holders(s) == {}))
            && (o.reply.Ok? ==>
                  && o.after.users == s.users[u := User(email, status, Some(organizationUser))]
                  && o.after.organization == s.organization
                  && forall x :: x in o.after.roles <==> x in s.roles || (x.0 == u && x.1 in roles))
  {
    hide Created, Inv, Blank, Sorted;
    SortedIsEmpty(roles);
    CreatedIff(s, u, User(email, status, Some(organizationUser)), Sorted(roles));
  }

  /**
   * An access request is approved by a system_admin, for a directory id that is new: entry, active
   * account and the role of an application_admin.
   */
  lemma ApproveAccessSucceedsIff(s: Admin, context: Context, decidable: bool, u: string, email: string,
                                 organizationUser: string)
    requires Inv(s)
    ensures var o := ApproveAccess(s, context, decidable, u, email, organizationUser);
            && (o.reply.Ok? <==>
                  && context.systemAdmin && decidable && organizationUser !in s.organization
                  && u !in s.users && !Blank(u) && forall v :: v in s.users ==> s.users[v].email != email)
            && (o.reply.Ok? ==>
                  && o.after.users == s.users[u := User(email, Active, Some(organizationUser))]
                  && o.after.organization == s.organization[organizationUser := true]
                  && forall x :: x in o.after.roles <==> x in s.roles || x == (u, ApplicationAdmin))
  {
    hide Created, Blank;
    var linked := s.(organization := s.organization[organizationUser := true]);
    assert Holders(linked) == Holders(s);
    CreatedIff(linked, u, User(email, Active, Some(organizationUser)), [ApplicationAdmin]);
    if ApproveAccess(s, context, decidable, u, email, organizationUser).reply.Ok? {
      forall x: (string, Role) ensures x.0 == u && x.1 in [ApplicationAdmin] <==> x == (u, ApplicationAdmin) {
      }
    }
  }

  /** A linked directory entry is there and active, if there is a link. */
  predicate LinkUsable(s: Admin, u: string)
    requires u in s.users
  {
    match s.users[u].organizationUser
    case None => true
    case Some(o) => o in s.organization && s.organization[o]
  }

  /**
   * A transfer succeeds for the holder themselves, to another user who can log in and is an
   * application_admin.
   */
  lemma TransferSucceedsIff(s: Admin, context: Context, source: string, target: string)
    requires Inv(s)
    ensures Transfer(s, context, source, target).reply.Ok? <==>
              && context.systemAdmin && context.actorId == source && source != target
              && source in s.users && target in s.users
              && s.users[target].status == Active && LinkUsable(s, target)
              && (source, SystemAdmin) in s.roles && (target, ApplicationAdmin) in s.roles
              && !Blank(source) && !Blank(target)
  {
    hide Blank;
    if source in s.users && (source, SystemAdmin) in s.roles {
      assert source in Holders(s);
      OnlyHolder(s, source);
      var deleted := DeleteRole(s, source, SystemAdmin);
      forall v ensures v !in Holders(deleted) {
        assert v in Holders(deleted) ==> v in Holders(s) && v != source;
      }
      if !Blank(source) {
        EnsureRoleMeaning(deleted, source, ApplicationAdmin);
        assert Holders(EnsureRole(deleted, source, ApplicationAdmin).value) == {};
      }
    }
  }

  /**
   * A patch succeeds for a system_admin, on a user who is there, with an e-mail nobody else has, a
   * usable link where the account is to be active, no system_admin where somebody else has it, and
   * none taken from oneself that no other eligible user has.
   */
  lemma PatchSucceedsIff(s: Admin, context: Context, u: string, status: Option<UserStatus>, email: Option<string>,
                         roles: Option<set<Role>>)
    requires Inv(s)
    ensures Patch(s, context, u, status, email, roles).reply.Ok? <==>
              && context.systemAdmin && u in s.users
              && (status == Some(Active) ==> LinkUsable(s, u))
              && (email.Some? ==> forall v :: v in s.users && v != u ==> s.users[v].email != email.value)
              && (roles.Some? && SystemAdmin in roles.value ==> Holders(s) <= {u})
              && (roles.Some? && !(roles.value <= RolesOf(s, u)) ==> !Blank(u))
              && (u == context.actorId && u in Holders(s) && |EligibleHolders(s)| <= 1 ==>
                    && !(status == Some(Disabled) && s.users[u].status == Active)
                    && (roles.Some? ==> SystemAdmin in roles.value))
  {
    hide Sorted, DeleteRoles, Blank, EnsureRoles, EligibleHolders;
    if u in s.users {
      assert u in Holders(s) <==> (u, SystemAdmin) in s.roles;
      assert HeldByOther(s, u) <==> !(Holders(s) <= {u});
      if u in Holders(s) {
        OnlyHolder(s, u);
      }
      var updated := UpdateUser(s, u, status, email);
      if updated.Ok? && roles.Some? {
        UpdatedMeaning(s, u, status, email);
        var granted := roles.value - RolesOf(s, u);
        SortedIsEmpty(granted);
        forall r | r in roles.value ensures r in RolesOf(s, u) || r in granted {
        }
        EnsureRolesSucceedIff(updated.value, u, Sorted(granted));
      }
    }
  }

  /** What a patch leaves: of the user the new status and e-mail, where given, and exactly the roles given. */
  lemma PatchLeaves(s: Admin, context: Context, u: string, status: Option<UserStatus>, email: Option<string>,
                    roles: Option<set<Role>>)
    requires Inv(s)
    ensures var o := Patch(s, context, u, status, email, roles);
            if o.reply.Err? then o.after == s
            else
              && u in s.users && o.after.organization == s.organization
              && o.after.users == s.users[u := User(if email.Some? then email.value else s.users[u].email,
                                                    if status.Some? then status.value else s.users[u].status,
                                                    s.users[u].organizationUser)]
              && forall v, r: Role :: (v, r) in o.after.roles <==>
                   if v == u && roles.Some? then r in roles.value else (v, r) in s.roles
  {
    hide Sorted, DeleteRoles, Blank, EnsureRoles, EligibleHolders, HeldByOther;
    var o := Patch(s, context, u, status, email, roles);
    if o.reply.Ok? && roles.Some? {
      UpdatedMeaning(s, u, status, email);
      var updated := UpdateUser(s, u, status, email).value;
      var granted, revoked := Sorted(roles.value - RolesOf(s, u)), Sorted(RolesOf(s, u) - roles.value);
      EnsureRolesMeaning(updated, u, granted);
      DeleteRolesMeaning(EnsureRoles(updated, u, granted).value, u, revoked);
    }
  }
}
