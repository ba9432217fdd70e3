/**
 * Who holds system_admin: bootstrap, startup provisioning, managed users and transfer
 * (db/repositories.py, api/admin.py, api/admin_auth.py, security/admin_provisioning.py).
 */
module Ownership {
  import opened Wrappers
  import Encryption

  datatype Role = ApplicationAdmin | SystemAdmin

  datatype UserStatus = Active | Disabled

  /** An admin user; the e-mail is the normalised one, which is unique. */
  datatype User = User(email: string, status: UserStatus, organizationUser: Option<string>)

  datatype Admin = Admin(users: map<string, User>, roles: set<(string, Role)>, organization: map<string, bool>)

  datatype AdminError = Forbidden | NotFound | Conflict | TransferRequired | ServerError

  datatype Outcome = Outcome(after: Admin, reply: Result<(), AdminError>)

  /** Who calls, as the session said when the call was admitted. */
  datatype Context = Context(actorId: string, systemAdmin: bool)

  function Holders(s: Admin): set<string> {
    set u | u in s.users && (u, SystemAdmin) in s.roles
  }

  /** Whether a user may log in. */
  predicate Eligible(s: Admin, u: string) {
    && u in s.users && s.users[u].status == Active
    && (s.users[u].organizationUser.None? || OrganizationActive(s, s.users[u].organizationUser.value))
  }

  predicate OrganizationActive(s: Admin, o: string) {
    o in s.organization && s.organization[o]
  }

  function EligibleHolders(s: Admin): set<string> {
    set u | u in Holders(s) && Eligible(s, u)
  }

  predicate EmailTaken(s: Admin, email: string) {
    exists u :: u in s.users && s.users[u].email == email
  }

  /** Keys and constraints of the tables, except that one user at most holds system_admin. */
  predicate Stored(s: Admin) {
    && (forall x :: x in s.roles ==> x.0 in s.users)
    && (forall u, v :: u in s.users && v in s.users && s.users[u].email == s.users[v].email ==> u == v)
  }

  predicate OneHolder(s: Admin) {
    forall u, v :: u in Holders(s) && v in Holders(s) ==> u == v
  }

  predicate Blank(text: string) {
    Encryption.Strip(text) == ""
  }

  // ---------------------------------------------------------------------------
  // The repository's operations
  // ---------------------------------------------------------------------------

  function CreateUser(s: Admin, u: string, user: User): Result<Admin, AdminError> {
    if u in s.users || EmailTaken(s, user.email) then Err(Conflict)
    else Ok(s.(users := s.users[u := user]))
  }

  predicate HeldByOther(s: Admin, u: string) {
    exists h :: h in Holders(s) && h != u
  }

  /** Gives a role unless it is there; system_admin only if nobody else holds it. */
  function EnsureRole(s: Admin, u: string, role: Role): Result<Admin, AdminError> {
    if Blank(u) then Err(ServerError)
    else if (u, role) in s.roles then Ok(s)
    else if role == SystemAdmin && HeldByOther(s, u) then Err(ServerError)
    else Ok(s.(roles := s.roles + {(u, role)}))
  }

  function DeleteRole(s: Admin, u: string, role: Role): Admin {
    s.(roles := s.roles - {(u, role)})
  }

  function EnsureRoles(s: Admin, u: string, roles: seq<Role>): Result<Admin, AdminError> {
    if roles == [] then Ok(s)
    else
      var given :- EnsureRoles(s, u, roles[..|roles| - 1]);
      EnsureRole(given, u, roles[|roles| - 1])
  }

  function DeleteRoles(s: Admin, u: string, roles: seq<Role>): Admin {
    if roles == [] then s
    else DeleteRole(DeleteRoles(s, u, roles[..|roles| - 1]), u, roles[|roles| - 1])
  }

  /** Roles in the order of their names. */
  function Sorted(roles: set<Role>): (r: seq<Role>)
    ensures forall x :: x in r <==> x in roles
  {
    var r := (if ApplicationAdmin in roles then [ApplicationAdmin] else [])
             + (if SystemAdmin in roles then [SystemAdmin] else []);
    assert forall x: Role :: x in r <==> x in roles by {
      forall x: Role ensures x in r <==> x in roles {
        if x == ApplicationAdmin {
          assert ApplicationAdmin in r <==> ApplicationAdmin in roles;
        } else {
          assert SystemAdmin in r <==> SystemAdmin in roles;
        }
      }
    }
    r
  }

  function RolesOf(s: Admin, u: string): (roles: set<Role>)
    ensures forall r :: r in roles <==> (u, r) in s.roles
  {
    set r: Role | (u, r) in s.roles
  }

  // ---------------------------------------------------------------------------
  // The endpoints
  // ---------------------------------------------------------------------------

  function Keep(s: Admin, r: Result<Admin, AdminError>): Outcome {
    match r
    case Ok(after) => Outcome(after, Ok(()))
    case Err(e) => Outcome(s, Err(e))
  }

  function Bootstrap(s: Admin, u: string, email: string): Outcome {
    if Holders(s) != {} then Outcome(s, Err(Conflict))
    else if EmailTaken(s, email) then Outcome(s, Err(Conflict))
    else Keep(s, Created(s, u, User(email, Active, None), [SystemAdmin]))
  }

  /** A user created with roles, or nothing. */
  function Created(s: Admin, u: string, user: User, roles: seq<Role>): Result<Admin, AdminError> {
    var created :- CreateUser(s, u, user);
    EnsureRoles(created, u, roles)
  }

  ghost function UserOf(s: Admin, email: string): (u: string)
    requires EmailTaken(s, email)
    ensures u in s.users && s.users[u].email == email
  {
    var u :| u in s.users && s.users[u].email == email;
    u
  }

  /** Provisioning at startup, for the configured e-mail; the password is not part of the state. */
  ghost function Startup(s: Admin, freshId: string, email: string): Outcome {
    if !EmailTaken(s, email) then
      if Holders(s) != {} then Outcome(s, Err(ServerError))
      else Keep(s, Created(s, freshId, User(email, Active, None), [SystemAdmin]))
    else
      var u := UserOf(s, email);
      if HeldByOther(s, u) then Outcome(s, Err(ServerError))
      else Keep(s, EnsureRole(s, u, SystemAdmin))
  }

  function CreateManaged(s: Admin, context: Context, u: string, email: string, status: UserStatus,
                         organizationUser: string,
                         roles: set<Role>): Outcome
  {
    if !context.systemAdmin then Outcome(s, Err(Forbidden))
    else if organizationUser !in s.organization then Outcome(s, Err(NotFound))
    else if !s.organization[organizationUser] then Outcome(s, Err(Conflict))
    else if exists v :: v in s.users && s.users[v].organizationUser == Some(organizationUser)
    then Outcome(s, Err(Conflict))
    else if EmailTaken(s, email) then Outcome(s, Err(Conflict))
    else Keep(s, Created(s, u, User(email, status, Some(organizationUser)), Sorted(roles)))
  }

  /** Approving an access request: a new organization user, and an application_admin linked to it. */
  function ApproveAccess(s: Admin, context: Context, decidable: bool, u: string, email: string,
                         organizationUser: string): Outcome {
    if !context.systemAdmin then Outcome(s, Err(Forbidden))
    else if !decidable || organizationUser in s.organization then Outcome(s, Err(Conflict))
    else if EmailTaken(s, email) then Outcome(s, Err(Conflict))
    else
      var linked := s.(organization := s.organization[organizationUser := true]);
      Keep(s, Created(linked, u, User(email, Active, Some(organizationUser)), [ApplicationAdmin]))
  }

  /** The guard of a patch: nobody takes from themselves what no other eligible user has. */
  predicate SelfLast(s: Admin, context: Context, u: string) {
    u == context.actorId && (u, SystemAdmin) in s.roles && |EligibleHolders(s)| <= 1
  }

  function UpdateUser(s: Admin, u: string, status: Option<UserStatus>, email: Option<string>): Result<Admin, AdminError>
    requires u in s.users
  {
    var user := s.users[u];
    if email.Some? && exists v :: v in s.users && v != u && s.users[v].email == email.value then Err(Conflict)
    else
      Ok(s.(users := s.users[u := user.(status := if status.Some? then status.value else user.status,
                                        email := if email.Some? then email.value else user.email)]))
  }

  /** The checks of a patch, in order. */
  function PatchRefusal(s: Admin, context: Context, u: string, status: Option<UserStatus>, roles: Option<set<Role>>)
    : Option<AdminError>
  {
    if !context.systemAdmin then Some(Forbidden)
    else if u !in s.users then Some(NotFound)
    else if status == Some(Active) && s.users[u].organizationUser.Some?
            && s.users[u].organizationUser.value !in s.organization then Some(NotFound)
    else if status == Some(Active) && s.users[u].organizationUser.Some?
            && !s.organization[s.users[u].organizationUser.value] then Some(Conflict)
    else if status == Some(Disabled) && s.users[u].status == Active && SelfLast(s, context, u) then Some(Conflict)
    else if Grants(s, u, roles) && HeldByOther(s, u) then Some(TransferRequired)
    else if Revokes(s, u, roles) && SelfLast(s, context, u) then Some(Conflict)
    else None
  }

  predicate Grants(s: Admin, u: string, roles: Option<set<Role>>) {
    roles.Some? && SystemAdmin in roles.value && (u, SystemAdmin) !in s.roles
  }

  predicate Revokes(s: Admin, u: string, roles: Option<set<Role>>) {
    roles.Some? && SystemAdmin !in roles.value && (u, SystemAdmin) in s.roles
  }

  function Patch(s: Admin, context: Context, u: string, status: Option<UserStatus>, email: Option<string>,
                 roles: Option<set<Role>>): Outcome
  {
    var refusal := PatchRefusal(s, context, u, status, roles);
    if refusal.Some? then Outcome(s, Err(refusal.value))
    else Keep(s, Patched(s, u, status, email, roles))
  }

  function Patched(s: Admin, u: string, status: Option<UserStatus>, email: Option<string>, roles: Option<set<Role>>)
    : Result<Admin, AdminError>
    requires u in s.users
  {
    var updated :- UpdateUser(s, u, status, email);
    if roles.None? then Ok(updated)
    else
      var given :- EnsureRoles(updated, u, Sorted(roles.value - RolesOf(s, u)));
      Ok(DeleteRoles(given, u, Sorted(RolesOf(s, u) - roles.value)))
  }

  function Transfer(s: Admin, context: Context, source: string, target: string): Outcome {
    if !context.systemAdmin then Outcome(s, Err(Forbidden))
    else if context.actorId != source || source == target then Outcome(s, Err(Conflict))
    else if source !in s.users || target !in s.users then Outcome(s, Err(NotFound))
    else if s.users[target].status != Active then Outcome(s, Err(Conflict))
    else if s.users[target].organizationUser.Some? && s.users[target].organizationUser.value !in s.organization
    then Outcome(s, Err(NotFound))
    else if s.users[target].organizationUser.Some? && !s.organization[s.users[target].organizationUser.value]
    then Outcome(s, Err(Conflict))
    else if (source, SystemAdmin) !in s.roles || (target, ApplicationAdmin) !in s.roles then Outcome(s, Err(Conflict))
    else Keep(s, Transferred(s, source, target))
  }

  function Transferred(s: Admin, source: string, target: string): Result<Admin, AdminError> {
    var demoted :- EnsureRole(DeleteRole(s, source, SystemAdmin), source, ApplicationAdmin);
    var promoted :- EnsureRole(demoted, target, SystemAdmin);
    Ok(DeleteRole(promoted, target, ApplicationAdmin))
  }

  /** The organization directory switches a user on or off without looking at the roles. */
  function SwitchOrganizationUser(s: Admin, o: string, active: bool): Outcome {
    if o !in s.organization then Outcome(s, Err(NotFound))
    else Outcome(s.(organization := s.organization[o := active]), Ok(()))
  }
}
