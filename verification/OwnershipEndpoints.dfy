/** The ownership endpoints over the store: never two holders at any flush, nothing left of a refusal. */
module OwnershipEndpoints {
  import opened Wrappers
  import opened Ownership
  import opened OwnershipTheorems
  import opened OwnershipStore

  /** Creates a user with roles, or leaves nothing behind. */
  method CreateWithRoles(store: AdminStore, u: string, user: User, roles: seq<Role>)
    returns (r: Result<(), AdminError>)
    requires Inv(store.State())
    modifies store`users, store`roles, store`flushes
    ensures Created(old(store.State()), u, user, roles).Ok? ==>
              r == Ok(()) && store.State() == Created(old(store.State()), u, user, roles).value
    ensures Created(old(store.State()), u, user, roles).Err? ==>
              r == Err(Created(old(store.State()), u, user, roles).error)
    ensures store.FlushedWell() && Inv(store.State()) && store.organization == old(store.organization)
  {
    hide Inv, EnsureRoles;
    var created := store.InsertUser(u, user);
    if created.Err? {
      return Err(created.error);
    }
    r := store.GiveRoles(u, roles);
  }

  method BootstrapAdmin(store: AdminStore, u: string, email: string) returns (reply: Result<(), AdminError>)
    requires Inv(store.State())
    modifies store
    ensures Outcome(store.State(), reply) == Bootstrap(old(store.State()), u, email)
    ensures store.FlushedWell()
  {
    hide Inv, Created;
    var saved := store.State();
    if Holders(store.State()) != {} {
      return Err(Conflict);
    }
    if EmailTaken(store.State(), email) {
      return Err(Conflict);
    }
    reply := CreateWithRoles(store, u, User(email, Active, None), [SystemAdmin]);
    if reply.Err? {
      store.Rollback(saved);
    }
  }

  method ConfigureStartupSystemAdmin(store: AdminStore, freshId: string,
                                     email: string) returns (reply: Result<(), AdminError>)
    requires Inv(store.State())
    modifies store
    ensures Outcome(store.State(), reply) == Startup(old(store.State()), freshId, email)
    ensures store.FlushedWell()
  {
    hide Created, EnsureRole;
    var saved := store.State();
    if !EmailTaken(store.State(), email) {
      if Holders(store.State()) != {} {
        return Err(ServerError);
      }
      reply := CreateWithRoles(store, freshId, User(email, Active, None), [SystemAdmin]);
    } else {
      var u :| u in store.users && store.users[u].email == email;
      assert u == UserOf(store.State(), email);
      if HeldByOther(store.State(), u) {
        return Err(ServerError);
      }
      reply := store.GiveRole(u, SystemAdmin);
    }
    if reply.Err? {
      store.Rollback(saved);
    }
  }

  method CreateManagedAdminUser(store: AdminStore, context: Context, u: string, email: string, status: UserStatus,
                                organizationUser: string, roles: set<Role>)
    returns (reply: Result<(), AdminError>)
    requires Inv(store.State())
    modifies store
    ensures Outcome(store.State(), reply)
         == CreateManaged(old(store.State()), context, u, email, status, organizationUser, roles)
    ensures store.FlushedWell()
  {
    hide Inv, Created;
    var saved := store.State();
    if !context.systemAdmin {
      return Err(Forbidden);
    }
    if organizationUser !in store.organization {
      return Err(NotFound);
    }
    if !store.organization[organizationUser] {
      return Err(Conflict);
    }
    if exists v :: v in store.users && store.users[v].organizationUser == Some(organizationUser) {
      return Err(Conflict);
    }
    if EmailTaken(store.State(), email) {
      return Err(Conflict);
    }
    reply := CreateWithRoles(store, u, User(email, status, Some(organizationUser)), Sorted(roles));
    if reply.Err? {
      store.Rollback(saved);
    }
  }

  method ApproveAdminAccessRequest(store: AdminStore, context: Context, decidable: bool, u: string, email: string,
                                   organizationUser: string)
    returns (reply: Result<(), AdminError>)
    requires Inv(store.State())
    modifies store
    ensures Outcome(store.State(), reply)
         == ApproveAccess(old(store.State()), context, decidable, u, email, organizationUser)
    ensures store.FlushedWell()
  {
    hide Created;
    var saved := store.State();
    if !context.systemAdmin {
      return Err(Forbidden);
    }
    if !decidable || organizationUser in store.organization {
      return Err(Conflict);
    }
    if EmailTaken(store.State(), email) {
      return Err(Conflict);
    }
    store.organization := store.organization[organizationUser := true];
    assert Holders(store.State()) == Holders(saved);
    store.Flush();
    reply := CreateWithRoles(store, u, User(email, Active, Some(organizationUser)), [ApplicationAdmin]);
    if reply.Err? {
      store.Rollback(saved);
    }
  }

  method PatchManagedAdminUser(store: AdminStore, context: Context, u: string, status: Option<UserStatus>,
                               email: Option<string>, desired: Option<set<Role>>)
    returns (reply: Result<(), AdminError>)
    requires Inv(store.State())
    modifies store
    ensures Outcome(store.State(), reply) == Patch(old(store.State()), context, u, status, email, desired)
    ensures store.FlushedWell()
  {
    hide Inv, Patched, SelfLast, HeldByOther;
    var saved := store.State();
    if !context.systemAdmin {
      return Err(Forbidden);
    }
    if u !in store.users {
      return Err(NotFound);
    }
    var current, linked := RolesOf(store.State(), u), store.users[u].organizationUser;
    if status == Some(Active) && linked.Some? {
      if linked.value !in store.organization {
        return Err(NotFound);
      }
      if !store.organization[linked.value] {
        return Err(Conflict);
      }
    }
    if status == Some(Disabled) && store.users[u].status == Active && SelfLast(store.State(), context, u) {
      return Err(Conflict);
    }
    if desired.Some? {
      if SystemAdmin in desired.value - current && HeldByOther(store.State(), u) {
        return Err(TransferRequired);
      }
      if SystemAdmin in current - desired.value && SelfLast(store.State(), context, u) {
        return Err(Conflict);
      }
    }
    reply := ApplyPatch(store, u, status, email, desired);
    if reply.Err? {
      store.Rollback(saved);
    }
  }

  /** The changes of a patch that passed its checks: the user's fields, then roles given, then roles taken. */
  method ApplyPatch(store: AdminStore, u: string, status: Option<UserStatus>, email: Option<string>,
                    desired: Option<set<Role>>)
    returns (r: Result<(), AdminError>)
    requires Inv(store.State()) && u in store.users
    modifies store`users, store`roles, store`flushes
    ensures Patched(old(store.State()), u, status, email, desired).Ok? ==>
              r == Ok(()) && store.State() == Patched(old(store.State()), u, status, email, desired).value
    ensures Patched(old(store.State()), u, status, email, desired).Err? ==>
              r == Err(Patched(old(store.State()), u, status, email, desired).error)
    ensures store.FlushedWell() && Inv(store.State())
  {
    hide Inv, EnsureRoles, DeleteRoles;
    var current := RolesOf(store.State(), u);
    r := store.ChangeUser(u, status, email);
    if r.Err? || desired.None? {
      return;
    }
    r := store.GiveRoles(u, Sorted(desired.value - current));
    if r.Err? {
      return;
    }
    store.TakeRoles(u, Sorted(current - desired.value));
  }

  method TransferSystemAdmin(store: AdminStore, context: Context, source: string, target: string)
    returns (reply: Result<(), AdminError>)
    requires Inv(store.State())
    modifies store
    ensures Outcome(store.State(), reply) == Transfer(old(store.State()), context, source, target)
    ensures store.FlushedWell()
  {
    hide Inv, EnsureRole;
    var saved := store.State();
    if !context.systemAdmin {
      return Err(Forbidden);
    }
    if context.actorId != source || source == target {
      return Err(Conflict);
    }
    if source !in store.users || target !in store.users {
      return Err(NotFound);
    }
    if store.users[target].status != Active {
      return Err(Conflict);
    }
    var linked := store.users[target].organizationUser;
    if linked.Some? && linked.value !in store.organization {
      return Err(NotFound);
    }
    if linked.Some? && !store.organization[linked.value] {
      return Err(Conflict);
    }
    if (source, SystemAdmin) !in store.roles || (target, ApplicationAdmin) !in store.roles {
      return Err(Conflict);
    }
    reply := SwapRoles(store, source, target);
    if reply.Err? {
      store.Rollback(saved);
    }
  }

  /** The role is taken from the source before the target gets it, so that no flush sees two holders. */
  method SwapRoles(store: AdminStore, source: string, target: string) returns (r: Result<(), AdminError>)
    requires Inv(store.State()) && source in store.users && target in store.users
    modifies store`roles, store`flushes
    ensures Transferred(old(store.State()), source, target).Ok? ==>
              r == Ok(()) && store.State() == Transferred(old(store.State()), source, target).value
    ensures Transferred(old(store.State()), source, target).Err? ==>
              r == Err(Transferred(old(store.State()), source, target).error)
    ensures store.FlushedWell()
  {
    hide Inv, EnsureRole;
    store.TakeRole(source, SystemAdmin);
    r := store.GiveRole(source, ApplicationAdmin);
    assert store.FlushedWell();
    if r.Err? {
      return;
    }
    r := store.GiveRole(target, SystemAdmin);
    assert store.FlushedWell();
    if r.Err? {
      return;
    }
    store.TakeRole(target, ApplicationAdmin);
  }
}
