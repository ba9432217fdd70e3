/**
 * The ownership operations as they run: users and roles changed step by step, each change flushed
 * to the database, everything undone where a later step is refused.
 */
module OwnershipStore {
  import opened Wrappers
  import opened Ownership
  import opened OwnershipTheorems

  class AdminStore {
    var users: map<string, User>
    var roles: set<(string, Role)>
    var organization: map<string, bool>
    /** The states that were flushed, where the database checks its constraints. */
    ghost var flushes: seq<Admin>

    constructor (organization: map<string, bool>)
      ensures State() == Admin(map[], {}, organization) && flushes == []
    {
      users, roles, this.organization, flushes := map[], {}, organization, [];
    }

    function State(): Admin
      reads this
    {
      Admin(users, roles, organization)
    }

    /** The latest flushes kept the constraints, and no earlier one is forgotten. */
    twostate predicate FlushedWell()
      reads this
    {
      && |old(flushes)| <= |flushes| && flushes[..|old(flushes)|] == old(flushes)
      && forall i :: |old(flushes)| <= i < |flushes| ==> Inv(flushes[i])
    }

    ghost method Flush()
      requires Inv(State())
      modifies this`flushes
      ensures flushes == old(flushes) + [State()]
    {
      flushes := flushes + [State()];
    }

    method Rollback(saved: Admin)
      modifies this`users, this`roles, this`organization
      ensures State() == saved
    {
      users, roles, organization := saved.users, saved.roles, saved.organization;
    }

    method InsertUser(u: string, user: User) returns (r: Result<(), AdminError>)
      requires Inv(State())
      modifies this`users, this`flushes
      ensures match CreateUser(old(State()), u, user)
              case Ok(after) => r == Ok(()) && State() == after
              case Err(e) => r == Err(e) && State() == old(State())
      ensures FlushedWell() && Inv(State())
    {
      if u in users || EmailTaken(State(), user.email) {
        return Err(Conflict);
      }
      ghost var before := State();
      users := users[u := user];
      assert Holders(State()) == Holders(before);
      Flush();
      return Ok(());
    }

    method GiveRole(u: string, role: Role) returns (r: Result<(), AdminError>)
      requires Inv(State()) && u in users
      modifies this`roles, this`flushes
      ensures match EnsureRole(old(State()), u, role)
              case Ok(after) => r == Ok(()) && State() == after
              case Err(e) => r == Err(e) && State() == old(State())
      ensures FlushedWell() && Inv(State())
    {
      hide Blank, Inv;
      if Blank(u) {
        return Err(ServerError);
      }
      if (u, role) in roles {
        return Ok(());
      }
      if role == SystemAdmin && HeldByOther(State(), u) {
        return Err(ServerError);
      }
      EnsureRoleMeaning(State(), u, role);
      roles := roles + {(u, role)};
      Flush();
      return Ok(());
    }

    method TakeRole(u: string, role: Role)
      requires Inv(State())
      modifies this`roles, this`flushes
      ensures State() == DeleteRole(old(State()), u, role)
      ensures FlushedWell() && Inv(State())
    {
      ghost var before := State();
      if (u, role) in roles {
        roles := roles - {(u, role)};
        assert Holders(State()) <= Holders(before);
        Flush();
      } else {
        assert roles == roles - {(u, role)};
      }
    }

    /** Gives the roles one after the other; the first refusal ends it. */
    method GiveRoles(u: string, given: seq<Role>) returns (r: Result<(), AdminError>)
      requires Inv(State()) && u in users
      modifies this`roles, this`flushes
      ensures EnsureRoles(old(State()), u, given).Ok? ==>
                r == Ok(()) && State() == EnsureRoles(old(State()), u, given).value
      ensures EnsureRoles(old(State()), u, given).Err? ==> r == Err(EnsureRoles(old(State()), u, given).error)
      ensures FlushedWell() && Inv(State())
    {
      hide Inv, EnsureRole;
      ghost var s := State();
      for i := 0 to |given|
        invariant EnsureRoles(s, u, given[..i]) == Ok(State())
        invariant FlushedWell() && Inv(State())
      {
        assert given[..i + 1][..i] == given[..i];
        var one := GiveRole(u, given[i]);
        if one.Err? {
          StopsAt(s, u, given, i);
          return Err(one.error);
        }
      }
      assert given[..|given|] == given;
      return Ok(());
    }

    method TakeRoles(u: string, taken: seq<Role>)
      requires Inv(State())
      modifies this`roles, this`flushes
      ensures State() == DeleteRoles(old(State()), u, taken)
      ensures FlushedWell() && Inv(State())
    {
      hide Inv, DeleteRole;
      ghost var s := State();
      for i := 0 to |taken|
        invariant State() == DeleteRoles(s, u, taken[..i])
        invariant FlushedWell() && Inv(State())
      {
        assert taken[..i + 1][..i] == taken[..i];
        TakeRole(u, taken[i]);
      }
      assert taken[..|taken|] == taken;
    }

    method ChangeUser(u: string, status: Option<UserStatus>, email: Option<string>) returns (r: Result<(), AdminError>)
      requires Inv(State()) && u in users
      modifies this`users, this`flushes
      ensures match UpdateUser(old(State()), u, status, email)
              case Ok(after) => r == Ok(()) && State() == after
              case Err(e) => r == Err(e) && State() == old(State())
      ensures FlushedWell() && Inv(State())
    {
      if email.Some? && exists v :: v in users && v != u && users[v].email == email.value {
        return Err(Conflict);
      }
      UpdatedMeaning(State(), u, status, email);
      var user := users[u];
      users := users[u := user.(status := if status.Some? then status.value else user.status,
                                email := if email.Some? then email.value else user.email)];
      Flush();
      return Ok(());
    }
  }

  /** Where one role is refused, so are all longer lists. */
  lemma {:induction false} StopsAt(s: Admin, u: string, given: seq<Role>, i: nat)
    requires i < |given| && EnsureRoles(s, u, given[..i + 1]).Err?
    ensures EnsureRoles(s, u, given) == EnsureRoles(s, u, given[..i + 1])
  {
    if i + 1 == |given| {
      assert given[..i + 1] == given;
    } else {
      var n := |given| - 1;
      assert given[..n][..i + 1] == given[..i + 1];
      StopsAt(s, u, given[..n], i);
    }
  }
}
