/** One holder at most, and never none again: what every ownership step and every run keeps. */
module OwnershipTheorems {
  import opened Wrappers
  import opened Ownership

  ghost predicate Inv(s: Admin) {
    Stored(s) && OneHolder(s)
  }

  // ---------------------------------------------------------------------------
  // The repository's operations
  // ---------------------------------------------------------------------------

  lemma EnsureRoleMeaning(s: Admin, u: string, role: Role)
    requires Inv(s) && u in s.users && EnsureRole(s, u, role).Ok?
    ensures var after := EnsureRole(s, u, role).value;
            && Inv(after) && after.users == s.users && after.organization == s.organization
            && after.roles == s.roles + {(u, role)}
            && Holders(after) == if role == SystemAdmin then {u} else Holders(s)
  {
    hide Blank;
    var after := EnsureRole(s, u, role).value;
    assert after.roles == s.roles + {(u, role)};
    forall v | v in Holders(after) ensures v in Holders(s) || (v == u && role == SystemAdmin) {
      assert (v, SystemAdmin) in after.roles;
    }
    forall v | v in Holders(s) ensures v in Holders(after) {
    }
    if role == SystemAdmin {
      assert u in Holders(after);
      forall v | v in Holders(s) ensures v == u {
        assert (u, role) in s.roles ==> u in Holders(s);
      }
    }
  }

  lemma {:induction false} EnsureRolesMeaning(s: Admin, u: string, roles: seq<Role>)
    requires Inv(s) && u in s.users && EnsureRoles(s, u, roles).Ok?
    ensures var after := EnsureRoles(s, u, roles).value;
            && Inv(after) && after.users == s.users && after.organization == s.organization
            && (forall x :: x in after.roles <==> x in s.roles || (x.0 == u && x.1 in roles))
            && Holders(after) == if SystemAdmin in roles then {u} else Holders(s)
  {
    hide Inv, EnsureRole;
    if roles != [] {
      var n := |roles| - 1;
      EnsureRolesMeaning(s, u, roles[..n]);
      EnsureRoleMeaning(EnsureRoles(s, u, roles[..n]).value, u, roles[n]);
      assert forall r :: r in roles <==> r == roles[n] || r in roles[..n];
    }
  }

  lemma {:induction false} DeleteRolesMeaning(s: Admin, u: string, roles: seq<Role>)
    ensures var after := DeleteRoles(s, u, roles);
            && after.users == s.users && after.organization == s.organization
            && forall x :: x in after.roles <==> x in s.roles && !(x.0 == u && x.1 in roles)
  {
    if roles != [] {
      var n := |roles| - 1;
      DeleteRolesMeaning(s, u, roles[..n]);
      assert forall r :: r in roles <==> r == roles[n] || r in roles[..n];
    }
  }

  /** A new user, with its roles: nobody else changes, and system_admin goes to it only if nobody had it. */
  lemma CreatedMeaning(s: Admin, u: string, user: User, roles: seq<Role>)
    requires Inv(s) && Created(s, u, user, roles).Ok?
    ensures var after := Created(s, u, user, roles).value;
            && Inv(after) && u !in s.users && after.users == s.users[u := user] && after.organization == s.organization
            && Holders(after) == (if SystemAdmin in roles then {u} else Holders(s))
            && (SystemAdmin in roles ==> Holders(s) == {})
  {
    hide EnsureRoles;
    var created := CreateUser(s, u, user).value;
    forall r ensures (u, r) !in s.roles {
    }
    assert Holders(created) == Holders(s);
    EnsureRolesMeaning(created, u, roles);
    if SystemAdmin in roles {
      OthersBlockSystemAdmin(created, u, roles);
    }
  }

  lemma {:induction false} OthersBlockSystemAdmin(s: Admin, u: string, roles: seq<Role>)
    requires Inv(s) && u in s.users && EnsureRoles(s, u, roles).Ok? && SystemAdmin in roles
    ensures !HeldByOther(s, u)
  {
    hide Inv;
    var n := |roles| - 1;
    EnsureRolesMeaning(s, u, roles[..n]);
    if SystemAdmin in roles[..n] {
      OthersBlockSystemAdmin(s, u, roles[..n]);
    } else {
      var given := EnsureRoles(s, u, roles[..n]).value;
      assert Holders(given) == Holders(s);
      if (u, SystemAdmin) in s.roles {
        assert u in Holders(s);
        OnlyHolder(s, u);
      }
    }
  }

  lemma OnlyHolder(s: Admin, u: string)
    requires Inv(s) && u in Holders(s)
    ensures Holders(s) == {u} && !HeldByOther(s, u)
  {
  }

  // ---------------------------------------------------------------------------
  // The endpoints
  // ---------------------------------------------------------------------------

  /** The caller's session is current: who calls as system_admin is the eligible holder right now. */
  predicate Current(s: Admin, context: Context) {
    context.systemAdmin ==> context.actorId in EligibleHolders(s)
  }

  lemma BootstrapMeaning(s: Admin, u: string, email: string)
    requires Inv(s)
    ensures var o := Bootstrap(s, u, email);
            && Inv(o.after)
            && (o.reply.Ok? ==> Holders(s) == {} && EligibleHolders(o.after) == Holders(o.after) == {u})
            && (o.reply.Err? ==> o.after == s)
  {
    hide Created, Inv;
    if Bootstrap(s, u, email).reply.Ok? {
      CreatedMeaning(s, u, User(email, Active, None), [SystemAdmin]);
    }
  }

  /** Startup never moves the role; it may give it, even to a user who cannot log in. */
  lemma StartupMeaning(s: Admin, freshId: string, email: string)
    requires Inv(s)
    ensures var o := Startup(s, freshId, email);
            && Inv(o.after)
            && (o.reply.Err? ==> o.after == s)
            && (o.reply.Ok? ==>
                  && |Holders(o.after)| == 1
                  && (Holders(s) != {} ==>
                        Holders(o.after) == Holders(s) && EligibleHolders(o.after) == EligibleHolders(s)))
  {
    hide Created, Inv, EnsureRole;
    var o := Startup(s, freshId, email);
    if o.reply.Ok? {
      if EmailTaken(s, email) {
        var u := UserOf(s, email);
        EnsureRoleMeaning(s, u, SystemAdmin);
        if h :| h in Holders(s) {
          assert h == u;
        }
      } else {
        CreatedMeaning(s, freshId, User(email, Active, None), [SystemAdmin]);
      }
    }
  }

  /**
   * With no holder yet, startup succeeds unless an id is unusable, and it leaves nobody who holds
   * the role and can log in exactly if the configured e-mail belongs to somebody who cannot log in.
   */
  lemma StartupLocksOutIff(s: Admin, freshId: string, email: string)
    requires Inv(s) && Holders(s) == {}
    ensures var o := Startup(s, freshId, email);
            && (o.reply.Ok? <==>
                  if EmailTaken(s, email) then !Blank(UserOf(s, email)) else freshId !in s.users && !Blank(freshId))
            && (o.reply.Ok? ==>
                  (EligibleHolders(o.after) == {} <==> EmailTaken(s, email) && !Eligible(s, UserOf(s, email))))
  {
    hide Blank, Inv;
    var o := Startup(s, freshId, email);
    if EmailTaken(s, email) {
      if o.reply.Ok? {
        var u := UserOf(s, email);
        EnsureRoleMeaning(s, u, SystemAdmin);
        assert Holders(o.after) == {u};
        assert u in EligibleHolders(o.after) <==> Eligible(s, u);
      }
    } else {
      StartupCreates(s, freshId, email);
    }
  }

  lemma StartupCreates(s: Admin, freshId: string, email: string)
    requires Inv(s) && Holders(s) == {} && !EmailTaken(s, email)
    ensures var created := Created(s, freshId, User(email, Active, None), [SystemAdmin]);
            && (created.Ok? <==> freshId !in s.users && !Blank(freshId))
            && (created.Ok? ==> freshId in EligibleHolders(created.value))
  {
    hide Blank, Inv, EnsureRole;
    var user, one := User(email, Active, None), [SystemAdmin];
    if freshId !in s.users {
      var created := CreateUser(s, freshId, user).value;
      assert EnsureRoles(created, freshId, []) == Ok(created);
      assert one[..0] == [];
      assert EnsureRoles(created, freshId, one) == EnsureRole(created, freshId, SystemAdmin);
      FreshMayHold(s, freshId, user);
      if Created(s, freshId, user, one).Ok? {
        CreatedMeaning(s, freshId, user, one);
      }
    }
  }

  lemma FreshMayHold(s: Admin, u: string, user: User)
    requires Inv(s) && Holders(s) == {} && u !in s.users && !EmailTaken(s, user.email)
    ensures EnsureRole(CreateUser(s, u, user).value, u, SystemAdmin).Ok? <==> !Blank(u)
  {
    hide Blank;
    var created := CreateUser(s, u, user).value;
    assert forall v :: v in Holders(created) ==> v in s.users ==> v in Holders(s);
    assert (u, SystemAdmin) !in s.roles;
  }

  /** Both ways of not being able to log in happen: a disabled account, and one whose directory entry is off. */
  lemma StartupPicksLockedOutUser() returns (disabled: Admin, switchedOff: Admin)
    ensures Inv(disabled) && Holders(disabled) == {} && disabled.users == map["u" := User("e", Disabled, None)]
    ensures Inv(switchedOff) && Holders(switchedOff) == {}
    ensures switchedOff.users == map["u" := User("e", Active, Some("o"))]
    ensures switchedOff.organization == map["o" := false]
    ensures LockedOutAtStartup(disabled) && LockedOutAtStartup(switchedOff)
  {
    disabled := Admin(map["u" := User("e", Disabled, None)], {}, map[]);
    switchedOff := Admin(map["u" := User("e", Active, Some("o"))], {}, map["o" := false]);
    assert !Blank("u");
    LockedOut(disabled);
    LockedOut(switchedOff);
  }

  ghost predicate LockedOutAtStartup(s: Admin) {
    forall freshId ::
      var o := Startup(s, freshId, "e");
      o.reply.Ok? && Holders(o.after) == {"u"} && EligibleHolders(o.after) == {}
  }

  lemma LockedOut(s: Admin)
    requires Inv(s) && Holders(s) == {} && s.users.Keys == {"u"} && s.users["u"].email == "e" && !Eligible(s, "u")
    ensures LockedOutAtStartup(s)
  {
    hide Inv, EnsureRole;
    assert !Blank("u");
    assert "u" in s.users && EmailTaken(s, "e") && UserOf(s, "e") == "u";
    forall freshId
      ensures var o := Startup(s, freshId, "e");
              o.reply.Ok? && Holders(o.after) == {"u"} && EligibleHolders(o.after) == {}
    {
      StartupLocksOutIff(s, freshId, "e");
      EnsureRoleMeaning(s, "u", SystemAdmin);
    }
  }

  /** Creating users never touches the holder: with one there, asking for system_admin fails as a whole. */
  lemma CreateManagedMeaning(s: Admin, context: Context, u: string, email: string, status: UserStatus,
                             organizationUser: string,
                             roles: set<Role>)
    requires Inv(s)
    ensures var o := CreateManaged(s, context, u, email, status, organizationUser, roles);
            && Inv(o.after)
            && (Holders(s) != {} ==> Holders(o.after) == Holders(s) && EligibleHolders(o.after) == EligibleHolders(s))
            && (Holders(s) != {} && SystemAdmin in roles ==> o.reply.Err? && o.after == s)
  {
    hide Created, Inv;
    if CreateManaged(s, context, u, email, status, organizationUser, roles).reply.Ok? {
      CreatedMeaning(s, u, User(email, status, Some(organizationUser)), Sorted(roles));
    }
  }

  lemma ApproveAccessMeaning(s: Admin, context: Context, decidable: bool, u: string, email: string,
                             organizationUser: string)
    requires Inv(s)
    ensures var o := ApproveAccess(s, context, decidable, u, email, organizationUser);
            && Inv(o.after) && Holders(o.after) == Holders(s)
            && EligibleHolders(s) <= EligibleHolders(o.after)
  {
    hide Created;
    var linked := s.(organization := s.organization[organizationUser := true]);
    if ApproveAccess(s, context, decidable, u, email, organizationUser).reply.Ok? {
      assert Holders(linked) == Holders(s);
      CreatedMeaning(linked, u, User(email, Active, Some(organizationUser)), [ApplicationAdmin]);
    }
  }

  // --- Patch ---

  lemma PatchedMeaning(s: Admin, u: string, status: Option<UserStatus>, email: Option<string>, roles: Option<set<Role>>)
    requires Inv(s) && u in s.users && Patched(s, u, status, email, roles).Ok?
    requires !(Grants(s, u, roles) && HeldByOther(s, u))
    ensures var after := Patched(s, u, status, email, roles).value;
            && Inv(after) && after.organization == s.organization && after.users.Keys == s.users.Keys
            && (forall v :: v in s.users && v != u ==> after.users[v] == s.users[v])
            && after.users[u].organizationUser == s.users[u].organizationUser
            && after.users[u].status == (if status.Some? then status.value else s.users[u].status)
            && Holders(after) == if Grants(s, u, roles) then {u}
                                 else if Revokes(s, u, roles) then Holders(s) - {u} else Holders(s)
  {
    hide EnsureRoles, DeleteRoles, Sorted, Inv, HeldByOther;
    var updated := UpdateUser(s, u, status, email).value;
    UpdatedMeaning(s, u, status, email);
    if roles.Some? {
      var granted, revoked := Sorted(roles.value - RolesOf(s, u)), Sorted(RolesOf(s, u) - roles.value);
      EnsureRolesMeaning(updated, u, granted);
      var given := EnsureRoles(updated, u, granted).value;
      DeleteRolesMeaning(given, u, revoked);
      PatchedHolders(s, u, roles.value, updated, given, DeleteRoles(given, u, revoked));
    }
  }

  lemma UpdatedMeaning(s: Admin, u: string, status: Option<UserStatus>, email: Option<string>)
    requires Inv(s) && u in s.users && UpdateUser(s, u, status, email).Ok?
    ensures Inv(UpdateUser(s, u, status, email).value)
    ensures Holders(UpdateUser(s, u, status, email).value) == Holders(s)
  {
    assert Holders(UpdateUser(s, u, status, email).value) == Holders(s);
  }

  lemma PatchedHolders(s: Admin, u: string, roles: set<Role>, updated: Admin, given: Admin, after: Admin)
    requires Inv(given) && u in s.users && updated.users.Keys == s.users.Keys && Holders(updated) == Holders(s)
    requires updated.roles == s.roles && after.users == given.users == updated.users
    requires Holders(given) == if SystemAdmin in roles && (u, SystemAdmin) !in s.roles then {u} else Holders(s)
    requires forall x :: x in after.roles <==> x in given.roles && !(x.0 == u && x.1 !in roles && x in s.roles)
    requires forall x :: x in given.roles <==> x in s.roles || (x.0 == u && x.1 in roles)
    ensures Inv(after)
    ensures Holders(after) == if Grants(s, u, Some(roles)) then {u}
                              else if Revokes(s, u, Some(roles)) then Holders(s) - {u} else Holders(s)
  {
    forall v ensures v in Holders(after) <==> v in Holders(given) && !(v == u && Revokes(s, u, Some(roles))) {
    }
  }

  /**
   * A patch never moves, loses or locks out the holder: the caller is the one holder, so patching
   * themselves they meet the guard, and patching anyone else they cannot touch the role.
   */
  lemma PatchKeepsHolder(s: Admin, context: Context, u: string, status: Option<UserStatus>, email: Option<string>,
                         roles: Option<set<Role>>)
    requires Inv(s) && Current(s, context)
    ensures var o := Patch(s, context, u, status, email, roles);
            Inv(o.after) && Holders(o.after) == Holders(s) && EligibleHolders(o.after) == EligibleHolders(s)
  {
    hide Patched;
    var o := Patch(s, context, u, status, email, roles);
    if o.reply.Ok? {
      var actor := context.actorId;
      OnlyHolder(s, actor);
      assert EligibleHolders(s) == {actor};
      PatchedMeaning(s, u, status, email, roles);
      if u != actor {
        assert actor in Holders(s) && u !in Holders(s);
      }
      assert Holders(o.after) == Holders(s);
      assert Eligible(o.after, actor);
    }
  }

  /** Somebody else, admitted as system_admin, patches the holder, and nothing the patch asks for is refused. */
  predicate PatchesHolder(s: Admin, context: Context, u: string, status: Option<UserStatus>, email: Option<string>,
                          roles: Option<set<Role>>)
  {
    && context.systemAdmin && u in Holders(s) && u != context.actorId
    && (email.Some? ==> forall v :: v in s.users && v != u ==> s.users[v].email != email.value)
    && (status == Some(Active) && s.users[u].organizationUser.Some? ==>
          OrganizationActive(s, s.users[u].organizationUser.value))
    && (roles.Some? && ApplicationAdmin in roles.value && (u, ApplicationAdmin) !in s.roles ==> !Blank(u))
  }

  /** And leaves the role out. */
  predicate TakesRole(s: Admin, context: Context, u: string, status: Option<UserStatus>, email: Option<string>,
                      roles: Option<set<Role>>)
  {
    PatchesHolder(s, context, u, status, email, roles) && roles.Some? && SystemAdmin !in roles.value
  }

  /** What a patch of the holder by somebody else needs to succeed, read off before the call. */
  lemma PatchOfHolderSucceedsIff(s: Admin, context: Context, u: string, status: Option<UserStatus>,
                                 email: Option<string>,
                                 roles: Option<set<Role>>)
    requires Inv(s) && u in Holders(s) && u != context.actorId
    ensures Patch(s, context, u, status, email, roles).reply.Ok? <==> PatchesHolder(s, context, u, status, email, roles)
  {
    hide Sorted, DeleteRoles, Blank, Inv, HeldByOther;
    var updated := UpdateUser(s, u, status, email);
    if updated.Ok? && roles.Some? {
      var granted := Sorted(roles.value - RolesOf(s, u));
      forall r | r in granted ensures r == ApplicationAdmin && (u, r) !in s.roles {
        assert r != SystemAdmin;
      }
      GrantsToHolder(updated.value, u, granted);
      assert granted != [] ==> granted[0] in granted;
      assert ApplicationAdmin in granted <==> ApplicationAdmin in roles.value && (u, ApplicationAdmin) !in s.roles;
    }
  }

  lemma {:induction false} GrantsToHolder(s: Admin, u: string, roles: seq<Role>)
    requires forall r :: r in roles ==> r == ApplicationAdmin && (u, r) !in s.roles
    ensures EnsureRoles(s, u, roles).Ok? <==> roles == [] || !Blank(u)
  {
    hide Blank, HeldByOther;
    if roles != [] {
      var n := |roles| - 1;
      forall r | r in roles[..n] ensures r == ApplicationAdmin && (u, r) !in s.roles {
        assert r in roles;
      }
      GrantsToHolder(s, u, roles[..n]);
      assert roles[n] in roles;
    }
  }

  /** A patch takes the role from the one holder exactly if it is of this kind; otherwise it leaves the role alone. */
  lemma PatchLosesHolderIff(s: Admin, context: Context, u: string, status: Option<UserStatus>, email: Option<string>,
                            roles: Option<set<Role>>)
    requires Inv(s) && Holders(s) != {}
    ensures var o := Patch(s, context, u, status, email, roles);
            Holders(o.after) == if TakesRole(s, context, u, status, email, roles) then {} else Holders(s)
  {
    hide Patched, PatchesHolder, Blank;
    PatchesTheHolder(s, context, u, status, email, roles);
    var h :| h in Holders(s);
    OnlyHolder(s, h);
    if u == h {
      assert EligibleHolders(s) == {} || EligibleHolders(s) == {h};
      assert u == context.actorId ==> SelfLast(s, context, u);
    }
    if u == h && u != context.actorId {
      PatchOfHolderSucceedsIff(s, context, u, status, email, roles);
    }
    if Patch(s, context, u, status, email, roles).reply.Ok? {
      PatchedMeaning(s, u, status, email, roles);
    }
  }

  /**
   * And a caller whose session is no longer current can do so: the guard looks at patches of
   * oneself only, so someone who has just handed the role over may still take it from the new holder.
   */
  lemma StaleCallerLosesHolder(s: Admin, context: Context, holder: string)
    requires Inv(s) && holder in Holders(s) && context.systemAdmin && context.actorId != holder
    ensures var o := Patch(s, context, holder, None, None, Some({}));
            o.reply.Ok? && Holders(o.after) == {}
  {
    hide Patch, Inv, Blank;
    PatchOfHolderSucceedsIff(s, context, holder, None, None, Some({}));
    PatchLosesHolderIff(s, context, holder, None, None, Some({}));
  }

  // --- The guard without uniqueness ---

  lemma {:induction false} EnsureRolesTouchesOnly(s: Admin, u: string, roles: seq<Role>)
    requires EnsureRoles(s, u, roles).Ok?
    ensures var after := EnsureRoles(s, u, roles).value;
            && after.users == s.users && after.organization == s.organization
            && forall x :: x in after.roles <==> x in s.roles || (x.0 == u && x.1 in roles)
  {
    hide Blank, HeldByOther;
    if roles != [] {
      var n := |roles| - 1;
      EnsureRolesTouchesOnly(s, u, roles[..n]);
      assert forall r :: r in roles <==> r == roles[n] || r in roles[..n];
    }
  }

  lemma PatchTouchesOnly(s: Admin, u: string, status: Option<UserStatus>, email: Option<string>,
                         roles: Option<set<Role>>)
    requires u in s.users && Patched(s, u, status, email, roles).Ok?
    ensures var after := Patched(s, u, status, email, roles).value;
            && after.organization == s.organization && after.users.Keys == s.users.Keys
            && (forall v :: v in s.users && v != u ==> after.users[v] == s.users[v])
            && (forall x :: x in after.roles && x.0 != u <==> x in s.roles && x.0 != u)
            && after.users[u].organizationUser == s.users[u].organizationUser
            && after.users[u].status == (if status.Some? then status.value else s.users[u].status)
            && ((u, SystemAdmin) in s.roles && !Revokes(s, u, roles) ==> (u, SystemAdmin) in after.roles)
  {
    hide EnsureRoles, DeleteRoles;
    var updated := UpdateUser(s, u, status, email).value;
    if roles.Some? {
      var granted, revoked := Sorted(roles.value - RolesOf(s, u)), Sorted(RolesOf(s, u) - roles.value);
      EnsureRolesTouchesOnly(updated, u, granted);
      DeleteRolesMeaning(EnsureRoles(updated, u, granted).value, u, revoked);
    }
  }

  /**
   * The guard does not even need uniqueness: however many hold the role, a patch by a current
   * holder leaves someone who holds it and can log in.
   */
  lemma GuardLeavesAHolder(s: Admin, context: Context, u: string, status: Option<UserStatus>, email: Option<string>,
                           roles: Option<set<Role>>)
    requires Current(s, context) && Patch(s, context, u, status, email, roles).reply.Ok?
    ensures EligibleHolders(Patch(s, context, u, status, email, roles).after) != {}
  {
    hide Patched;
    var actor, after := context.actorId, Patch(s, context, u, status, email, roles).after;
    PatchTouchesOnly(s, u, status, email, roles);
    var keeper := if u == actor then Keeper(s, actor) else actor;
    if keeper == u {
      assert EligibleHolders(s) == {actor};
      assert SelfLast(s, context, u);
    }
    assert keeper in EligibleHolders(after);
  }

  /** Another eligible holder than this one, if there is one. */
  ghost function Keeper(s: Admin, actor: string): (v: string)
    requires actor in EligibleHolders(s)
    ensures v in EligibleHolders(s)
    ensures v == actor ==> EligibleHolders(s) == {actor}
  {
    if exists v :: v in EligibleHolders(s) && v != actor then
      var v :| v in EligibleHolders(s) && v != actor;
      v
    else actor
  }

  // --- Transfer ---

  /** A transfer moves the role from the caller to the target, who can log in; the two swap their roles. */
  lemma TransferMeaning(s: Admin, context: Context, source: string, target: string)
    requires Inv(s)
    ensures var o := Transfer(s, context, source, target);
            && Inv(o.after)
            && (o.reply.Err? ==> o.after == s)
            && (o.reply.Ok? ==>
                  && source != target && Holders(s) == {source}
                  && Holders(o.after) == EligibleHolders(o.after) == {target}
                  && o.after.users == s.users
                  && o.after.roles == s.roles - {(source, SystemAdmin), (target, ApplicationAdmin)}
                                      + {(source, ApplicationAdmin), (target, SystemAdmin)})
  {
    hide EnsureRole;
    var o := Transfer(s, context, source, target);
    if o.reply.Ok? {
      OnlyHolder(s, source);
      var deleted := DeleteRole(s, source, SystemAdmin);
      assert Holders(deleted) <= Holders(s) && source !in Holders(deleted);
      EnsureRoleMeaning(deleted, source, ApplicationAdmin);
      var demoted := EnsureRole(deleted, source, ApplicationAdmin).value;
      EnsureRoleMeaning(demoted, target, SystemAdmin);
      var promoted := EnsureRole(demoted, target, SystemAdmin).value;
      assert Holders(o.after) == Holders(promoted);
    }
  }

  // ---------------------------------------------------------------------------
  // Runs
  // ---------------------------------------------------------------------------

  datatype Step =
    | StepBootstrap(userId: string, email: string)
    | StepStartup(userId: string, email: string)
    | StepCreate(context: Context, userId: string, email: string, newStatus: UserStatus, organizationUser: string,
                 given: set<Role>)
    | StepApprove(context: Context, decidable: bool, userId: string, email: string, organizationUser: string)
    | StepPatch(context: Context, userId: string, status: Option<UserStatus>, newEmail: Option<string>,
                roles: Option<set<Role>>)
    | StepTransfer(context: Context, source: string, target: string)
    | StepOrganization(organizationUser: string, active: bool)

  ghost function Perform(s: Admin, step: Step): Outcome {
    match step
    case StepBootstrap(u, email) => Bootstrap(s, u, email)
    case StepStartup(u, email) => Startup(s, u, email)
    case StepCreate(context, u, email, status, o, roles) => CreateManaged(s, context, u, email, status, o, roles)
    case StepApprove(context, decidable, u, email, o) => ApproveAccess(s, context, decidable, u, email, o)
    case StepPatch(context, u, status, email, roles) => Patch(s, context, u, status, email, roles)
    case StepTransfer(context, source, target) => Transfer(s, context, source, target)
    case StepOrganization(o, active) => SwitchOrganizationUser(s, o, active)
  }

  /** The one kind of step that leaves nobody with the role. */
  predicate Loses(s: Admin, step: Step) {
    step.StepPatch? && TakesRole(s, step.context, step.userId, step.status, step.newEmail, step.roles)
  }

  lemma PatchKeepsInv(s: Admin, context: Context, u: string, status: Option<UserStatus>, email: Option<string>,
                      roles: Option<set<Role>>)
    requires Inv(s)
    ensures Inv(Patch(s, context, u, status, email, roles).after)
  {
    hide Inv, Patched, SelfLast, HeldByOther;
    if Patch(s, context, u, status, email, roles).reply.Ok? {
      PatchedMeaning(s, u, status, email, roles);
    }
  }

  /** One holder at most after every step, whoever calls. */
  lemma StepKeepsInv(s: Admin, step: Step)
    requires Inv(s)
    ensures Inv(Perform(s, step).after)
  {
    hide Inv, Bootstrap, Startup, CreateManaged, ApproveAccess, Patch, Transfer;
    match step {
      case StepBootstrap(u, email) => BootstrapMeaning(s, u, email);
      case StepStartup(u, email) => StartupMeaning(s, u, email);
      case StepCreate(context, u, email, status, o, roles) =>
        CreateManagedMeaning(s, context, u, email, status, o, roles);
      case StepApprove(context, decidable, u, email, o) => ApproveAccessMeaning(s, context, decidable, u, email, o);
      case StepPatch(context, u, status, email, roles) =>
        PatchKeepsInv(s, context, u, status, email, roles);
      case StepTransfer(context, source, target) => TransferMeaning(s, context, source, target);
      case StepOrganization(o, active) => SwitchKeepsHolder(s, o, active);
    }
  }

  /**
   * Where there is a holder, a step leaves none exactly if it is a patch that takes the role from
   * them; any other step keeps the holder, except that a transfer moves the role to its target.
   */
  lemma StepLosesHolderIff(s: Admin, step: Step)
    requires Inv(s) && Holders(s) != {}
    ensures Holders(Perform(s, step).after)
         == if Loses(s, step) then {}
            else if step.StepTransfer? && Perform(s, step).reply.Ok? then {step.target}
            else Holders(s)
  {
    hide Inv, Bootstrap, Startup, CreateManaged, ApproveAccess, Patch, Transfer, TakesRole;
    match step {
      case StepBootstrap(u, email) => BootstrapStops(s, u, email);
      case StepStartup(u, email) => StartupMeaning(s, u, email);
      case StepCreate(context, u, email, status, o, roles) =>
        CreateManagedMeaning(s, context, u, email, status, o, roles);
      case StepApprove(context, decidable, u, email, o) => ApproveAccessMeaning(s, context, decidable, u, email, o);
      case StepPatch(context, u, status, email, roles) => PatchLosesHolderIff(s, context, u, status, email, roles);
      case StepTransfer(context, source, target) => TransferMeaning(s, context, source, target);
      case StepOrganization(o, active) => SwitchKeepsHolder(s, o, active);
    }
  }

  /** A patch by a caller whose session is current is never of that kind. */
  lemma CurrentCallerTakesNothing(s: Admin, context: Context, u: string, status: Option<UserStatus>,
                                  email: Option<string>, roles: Option<set<Role>>)
    requires Inv(s) && Current(s, context)
    ensures !TakesRole(s, context, u, status, email, roles)
  {
    if context.systemAdmin && u in Holders(s) {
      OnlyHolder(s, context.actorId);
    }
  }

  /** The steps after which the holder can no longer log in, or is none. */
  predicate LocksOut(s: Admin, step: Step) {
    match step
    case StepPatch(context, u, status, email, roles) =>
      && PatchesHolder(s, context, u, status, email, roles)
      && (status == Some(Disabled) || (roles.Some? && SystemAdmin !in roles.value))
    case StepOrganization(o, active) =>
      !active && o in s.organization && exists h :: h in Holders(s) && s.users[h].organizationUser == Some(o)
    case _ => false
  }

  /**
   * Where the holder can log in, a step leaves nobody who holds the role and can log in exactly if it is
   * one of these.
   */
  lemma StepLocksOutIff(s: Admin, step: Step)
    requires Inv(s) && EligibleHolders(s) != {}
    ensures EligibleHolders(Perform(s, step).after) == {} <==> LocksOut(s, step)
  {
    hide Inv, Bootstrap, Startup, CreateManaged, ApproveAccess, Patch, Transfer, PatchesHolder;
    var h :| h in EligibleHolders(s);
    OnlyHolder(s, h);
    match step {
      case StepBootstrap(u, email) => BootstrapStops(s, u, email);
      case StepStartup(u, email) => StartupMeaning(s, u, email);
      case StepCreate(context, u, email, status, o, roles) =>
        CreateManagedMeaning(s, context, u, email, status, o, roles);
      case StepApprove(context, decidable, u, email, o) => ApproveAccessMeaning(s, context, decidable, u, email, o);
      case StepPatch(context, u, status, email, roles) => PatchLocksOutIff(s, context, u, status, email, roles, h);
      case StepTransfer(context, source, target) => TransferMeaning(s, context, source, target);
      case StepOrganization(o, active) =>
        if o in s.organization {
          SwitchLocksOutIff(s, o, active, h);
        }
    }
  }

  lemma PatchLocksOutIff(s: Admin, context: Context, u: string, status: Option<UserStatus>, email: Option<string>,
                         roles: Option<set<Role>>, h: string)
    requires Inv(s) && h in EligibleHolders(s)
    ensures EligibleHolders(Patch(s, context, u, status, email, roles).after) == {} <==>
              && PatchesHolder(s, context, u, status, email, roles)
              && (status == Some(Disabled) || (roles.Some? && SystemAdmin !in roles.value))
  {
    hide Patched, PatchesHolder, Blank;
    OnlyHolder(s, h);
    assert EligibleHolders(s) == {h};
    var o := Patch(s, context, u, status, email, roles);
    PatchLosesHolderIff(s, context, u, status, email, roles);
    PatchesTheHolder(s, context, u, status, email, roles);
    if u == h && u != context.actorId {
      PatchOfHolderSucceedsIff(s, context, u, status, email, roles);
    }
    if o.reply.Ok? {
      PatchedMeaning(s, u, status, email, roles);
    }
    assert h in EligibleHolders(o.after) <==> h in Holders(o.after) && Eligible(o.after, h);
  }

  lemma PatchesTheHolder(s: Admin, context: Context, u: string, status: Option<UserStatus>, email: Option<string>,
                         roles: Option<set<Role>>)
    ensures PatchesHolder(s, context, u, status, email, roles) ==>
              context.systemAdmin && u in Holders(s) && u != context.actorId
  {
  }

  lemma BootstrapStops(s: Admin, u: string, email: string)
    ensures Holders(s) != {} ==> Bootstrap(s, u, email).after == s
  {
  }

  lemma SwitchKeepsHolder(s: Admin, o: string, active: bool)
    requires Inv(s)
    ensures Inv(SwitchOrganizationUser(s, o, active).after)
    ensures Holders(SwitchOrganizationUser(s, o, active).after) == Holders(s)
  {
    assert Holders(SwitchOrganizationUser(s, o, active).after) == Holders(s);
  }

  /** What the organization directory can do: it locks the holder out exactly if it switches off their entry. */
  lemma SwitchLocksOutIff(s: Admin, o: string, active: bool, h: string)
    requires Inv(s) && h in EligibleHolders(s) && o in s.organization
    ensures EligibleHolders(SwitchOrganizationUser(s, o, active).after) == {} <==>
              !active && s.users[h].organizationUser == Some(o)
  {
    OnlyHolder(s, h);
    var after := SwitchOrganizationUser(s, o, active).after;
    assert Holders(after) == {h};
    assert h in EligibleHolders(after) <==> Eligible(after, h);
  }

  ghost function After(s: Admin, steps: seq<Step>): Admin {
    if steps == [] then s
    else Perform(After(s, steps[..|steps| - 1]), steps[|steps| - 1]).after
  }

  /** Whatever is called, by whomever: never more than one holder. */
  lemma {:induction false} RunKeepsInv(s: Admin, steps: seq<Step>)
    requires Inv(s)
    ensures Inv(After(s, steps))
  {
    hide Inv, Perform;
    if steps == [] {
    } else {
      var n := |steps| - 1;
      RunKeepsInv(s, steps[..n]);
      StepKeepsInv(After(s, steps[..n]), steps[n]);
    }
  }

  lemma RunStep(s: Admin, steps: seq<Step>, k: nat)
    requires Inv(s) && k < |steps|
    ensures Inv(After(s, steps[..k]))
    ensures After(s, steps[..k + 1]) == Perform(After(s, steps[..k]), steps[k]).after
  {
    hide Inv, Perform;
    assert steps[..k + 1][..k] == steps[..k];
    RunKeepsInv(s, steps[..k]);
  }

  /**
   * Once there is a holder, there is one at every later moment of a run exactly if no step of it
   * is a patch that takes the role from the holder.
   */
  lemma RunKeepsHolderIff(s: Admin, steps: seq<Step>, i: nat)
    requires Inv(s) && i <= |steps| && Holders(After(s, steps[..i])) != {}
    ensures (forall k :: i <= k <= |steps| ==> Holders(After(s, steps[..k])) != {})
       <==> (forall k :: i <= k < |steps| ==> !Loses(After(s, steps[..k]), steps[k]))
  {
    hide Inv, Perform, Holders, Loses, After;
    if forall k :: i <= k <= |steps| ==> Holders(After(s, steps[..k])) != {} {
      forall k | i <= k < |steps| ensures !Loses(After(s, steps[..k]), steps[k]) {
        RunStep(s, steps, k);
        StepLosesHolderIff(After(s, steps[..k]), steps[k]);
        assert Holders(After(s, steps[..k + 1])) != {};
      }
    }
    if forall k :: i <= k < |steps| ==> !Loses(After(s, steps[..k]), steps[k]) {
      forall k | i <= k <= |steps| ensures Holders(After(s, steps[..k])) != {} {
        StillHeld(s, steps, i, k);
      }
    }
  }

  lemma {:induction false} StillHeld(s: Admin, steps: seq<Step>, i: nat, k: nat)
    requires Inv(s) && i <= k <= |steps| && Holders(After(s, steps[..i])) != {}
    requires forall j :: i <= j < k ==> !Loses(After(s, steps[..j]), steps[j])
    ensures Holders(After(s, steps[..k])) != {}
  {
    hide Inv, Perform, Holders, Loses, After;
    if k == i {
    } else {
      StillHeld(s, steps, i, k - 1);
      RunStep(s, steps, k - 1);
      StepLosesHolderIff(After(s, steps[..k - 1]), steps[k - 1]);
    }
  }
}
