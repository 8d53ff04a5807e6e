/** User accounts: self-registration, password change, profile and role
    updates, deactivation and deletion. The password encoder is a pair of
    functions supplied by the caller. */
module UserService {
  import opened Wrappers
  import opened Text
  import opened Domain

  /** The account fields a registration request carries. */
  datatype Registration = Registration(
    username: string,
    email: string,
    password: string,
    fullName: Option<string>,
    roles: Option<set<UserRole>>,
    projectCode: Option<string>,
    active: Option<bool>)

  datatype ProfileUpdate = ProfileUpdate(fullName: Option<string>, email: Option<string>)

  /** A registered account and, when a project code came with it, the code
      of the project the new user asks to join. */
  datatype Registered = Registered(store: Store, id: nat, joinCode: Option<string>)

  const MsgUsernameExists := "Username already exists!"
  const MsgEmailExists := "Email already exists!"
  const MsgNoRole := "Selection must be done!"
  const MsgOneRole := "Exactly one role must be selected."
  const MsgNoAdmin := "System Admin accounts cannot be self-registered."
  const MsgWrongPassword := "Current password is incorrect"
  const MsgSamePassword := "New password must be different from the current password"
  const MsgRolesRequired := "At least one role must be provided"

  function UserIdNotFound(id: nat): Error {
    Runtime("User not found with id: " + NatToString(id))
  }

  function UsernameNotFound(username: string): Error {
    Runtime("User not found with username: " + username)
  }

  // ---------------------------------------------------------------- register

  /** What `registerUser` accepts: a fresh username and email and exactly
      one role, which is not SYSTEM_ADMIN. */
  predicate RegistrationAccepted(st: Store, req: Registration) {
    && !UsernameTaken(st, req.username)
    && !EmailTaken(st, req.email)
    && req.roles.Some? && |req.roles.value| == 1
    && SystemAdmin !in req.roles.value
  }

  /** `registerUser`: the checks run in source order; the stored password is
      the encoder's output, and a join is requested exactly when the project
      code is not empty after trimming. */
  function Register(st: Store, req: Registration, encode: string -> string): (r: Result<Registered, Error>)
    ensures UsernameTaken(st, req.username) ==> r == Failure(Runtime(MsgUsernameExists))
    ensures !UsernameTaken(st, req.username) && EmailTaken(st, req.email) ==> r == Failure(Runtime(MsgEmailExists))
    ensures (!UsernameTaken(st, req.username) && !EmailTaken(st, req.email)
             && (req.roles.None? || req.roles.value == {})) ==> r == Failure(Runtime(MsgNoRole))
    ensures (!UsernameTaken(st, req.username) && !EmailTaken(st, req.email)
             && req.roles.Some? && req.roles.value != {} && |req.roles.value| != 1) ==> r == Failure(Runtime(MsgOneRole))
    ensures (!UsernameTaken(st, req.username) && !EmailTaken(st, req.email)
             && req.roles.Some? && |req.roles.value| == 1 && SystemAdmin in req.roles.value) ==> r == Failure(Runtime(MsgNoAdmin))
    ensures r.Success? <==> RegistrationAccepted(st, req)
    ensures r.Success? ==>
      var Registered(st', id, join) := r.value;
      && id == st.nextUserId && st'.nextUserId == id + 1
      && id in st'.users && st'.users == st.users[id := st'.users[id]]
      && st'.users[id].username == req.username && st'.users[id].email == req.email
      && st'.users[id].password == encode(req.password)
      && st'.users[id].roles == req.roles.value
      && st'.users[id].fullName == req.fullName
      && (req.active.None? ==> st'.users[id].active)
      && (req.active.Some? ==> st'.users[id].active == req.active.value)
      && (join.Some? <==> req.projectCode.Some? && JavaTrim(req.projectCode.value) != [])
      && (join.Some? ==> join == req.projectCode)
      && st'.projects == st.projects && st'.stories == st.stories && st'.plans == st.plans
      && st'.memberRows == st.memberRows
      && st' == st.(users := st'.users, nextUserId := id + 1)
  {
    if UsernameTaken(st, req.username) then Failure(Runtime(MsgUsernameExists))
    else if EmailTaken(st, req.email) then Failure(Runtime(MsgEmailExists))
    else if req.roles.None? || req.roles.value == {} then Failure(Runtime(MsgNoRole))
    else if |req.roles.value| != 1 then Failure(Runtime(MsgOneRole))
    else if SystemAdmin in req.roles.value then Failure(Runtime(MsgNoAdmin))
    else
      var id := st.nextUserId;
      var user := User(req.username, req.email, encode(req.password), req.fullName, req.roles.value, req.active.GetOr(true));
      var join := if req.projectCode.Some? && JavaTrim(req.projectCode.value) != [] then req.projectCode else None;
      Success(Registered(st.(users := st.users[id := user], nextUserId := id + 1), id, join))
  }

  /** On a store whose ids all came from the counters, registration takes
      an id no user has yet and keeps every id below its counter. */
  lemma RegisterAllocatesFreshId(st: Store, req: Registration, encode: string -> string)
    requires IdsBelowCounters(st)
    requires Register(st, req, encode).Success?
    ensures st.nextUserId !in st.users
    ensures var st' := Register(st, req, encode).value.store;
      && st'.users - {st.nextUserId} == st.users
      && IdsBelowCounters(st')
  {
  }

  /** A registered account can be found under its username afterwards. */
  lemma RegisteredIsFindable(st: Store, req: Registration, encode: string -> string)
    requires Register(st, req, encode).Success?
    ensures var reg := Register(st, req, encode).value;
      FindByUsername(reg.store, req.username) == Some(reg.id)
  {
    var reg := Register(st, req, encode).value;
    var ids := set x | x in reg.store.users && reg.store.users[x].username == req.username;
    assert ids == {reg.id};
  }

  /** Registration never creates a system administrator. */
  lemma RegisterNeverAdmin(st: Store, req: Registration, encode: string -> string)
    requires Register(st, req, encode).Success?
    ensures var reg := Register(st, req, encode).value;
      SystemAdmin !in reg.store.users[reg.id].roles && |reg.store.users[reg.id].roles| == 1
  {
  }

  // ---------------------------------------------------------------- password

  /** `changePassword`: the user must exist, the current password must match
      the stored hash, and the new password must differ from the current
      one; then only the stored hash changes. */
  function ChangePassword(st: Store, username: string, current: string, newPassword: string,
                          encode: string -> string, matches: (string, string) -> bool): (r: Result<Store, Error>)
    ensures FindByUsername(st, username).None? ==> r == Failure(UsernameNotFound(username))
    ensures r.Success? <==>
      && FindByUsername(st, username).Some?
      && matches(current, st.users[FindByUsername(st, username).value].password)
      && current != newPassword
    ensures (FindByUsername(st, username).Some?
             && !matches(current, st.users[FindByUsername(st, username).value].password)) ==>
      r == Failure(Runtime(MsgWrongPassword))
    ensures r.Success? ==>
      var id := FindByUsername(st, username).value;
      r.value == st.(users := st.users[id := st.users[id].(password := encode(newPassword))])
  {
    match FindByUsername(st, username)
    case None => Failure(UsernameNotFound(username))
    case Some(id) =>
      if !matches(current, st.users[id].password) then Failure(Runtime(MsgWrongPassword))
      else if current == newPassword then Failure(Runtime(MsgSamePassword))
      else Success(st.(users := st.users[id := st.users[id].(password := encode(newPassword))]))
  }

  /** With an encoder whose hashes match their own input, the new password
      is the one that passes the current-password check afterwards, and the
      old one no longer needs to. */
  lemma PasswordChangeTakesEffect(st: Store, username: string, current: string, newPassword: string,
                                  encode: string -> string, matches: (string, string) -> bool)
    requires forall p :: matches(p, encode(p))
    requires ChangePassword(st, username, current, newPassword, encode, matches).Success?
    ensures var st' := ChangePassword(st, username, current, newPassword, encode, matches).value;
      && FindByUsername(st', username) == FindByUsername(st, username)
      && matches(newPassword, st'.users[FindByUsername(st', username).value].password)
  {
    var st' := ChangePassword(st, username, current, newPassword, encode, matches).value;
    var id := FindByUsername(st, username).value;
    SameNamesSameLookup(st, st', username);
  }

  /** Lookups by username see only the usernames. */
  lemma SameNamesSameLookup(st: Store, st': Store, username: string)
    requires st.users.Keys == st'.users.Keys
    requires forall id :: id in st.users ==> st'.users[id].username == st.users[id].username
    ensures FindByUsername(st', username) == FindByUsername(st, username)
  {
    var ids := set id | id in st.users && st.users[id].username == username;
    var ids' := set id | id in st'.users && st'.users[id].username == username;
    assert ids == ids';
    assert FindByUsername(st, username) == (if ids == {} then None else Some(Least(ids)));
    assert FindByUsername(st', username) == (if ids' == {} then None else Some(Least(ids')));
  }

  // ---------------------------------------------------------------- profile

  /** `findByEmail` on a unique column; should two rows share an email the
      least id is taken. */
  function FindByEmail(st: Store, email: string): (r: Option<nat>)
    ensures r.Some? ==> r.value in st.users && st.users[r.value].email == email
    ensures r.None? <==> !EmailTaken(st, email)
  {
    var ids := set id | id in st.users && st.users[id].email == email;
    if ids == {} then
      assert forall id :: id in st.users ==> id in ids || st.users[id].email != email;
      None
    else Some(Least(ids))
  }

  /** `updateUserProfile`: the full name is set whenever given; the email
      only when given and non-empty, and only if no other user owns it. */
  function UpdateProfile(st: Store, username: string, dto: ProfileUpdate): (r: Result<Store, Error>)
    ensures FindByUsername(st, username).None? ==> r == Failure(UsernameNotFound(username))
    ensures r.Success? <==>
      && FindByUsername(st, username).Some?
      && (dto.email.Some? && dto.email.value != [] ==>
            FindByEmail(st, dto.email.value).None? || FindByEmail(st, dto.email.value) == FindByUsername(st, username))
    ensures r.Failure? && FindByUsername(st, username).Some? ==> r.error == Runtime(MsgEmailExists)
    ensures r.Success? ==>
      var id := FindByUsername(st, username).value;
      var u := st.users[id];
      r.value == st.(users := st.users[id := u.(
        fullName := if dto.fullName.Some? then dto.fullName else u.fullName,
        email := if dto.email.Some? && dto.email.value != [] then dto.email.value else u.email)])
  {
    match FindByUsername(st, username)
    case None => Failure(UsernameNotFound(username))
    case Some(id) =>
      var u := st.users[id];
      var u1 := if dto.fullName.Some? then u.(fullName := dto.fullName) else u;
      if dto.email.Some? && dto.email.value != [] then
        var owner := FindByEmail(st, dto.email.value);
        if owner.Some? && owner.value != id then Failure(Runtime(MsgEmailExists))
        else Success(st.(users := st.users[id := u1.(email := dto.email.value)]))
      else Success(st.(users := st.users[id := u1]))
  }

  /** With unique emails, a new email is refused exactly when a different
      account already has it; re-submitting one's own email is accepted. */
  lemma UpdateProfileEmailRule(st: Store, username: string, dto: ProfileUpdate)
    requires forall a, b :: a in st.users && b in st.users && st.users[a].email == st.users[b].email ==> a == b
    requires FindByUsername(st, username).Some?
    requires dto.email.Some? && dto.email.value != []
    ensures UpdateProfile(st, username, dto).Failure? <==>
      exists other :: other in st.users && other != FindByUsername(st, username).value
        && st.users[other].email == dto.email.value
  {
    var id := FindByUsername(st, username).value;
    var owner := FindByEmail(st, dto.email.value);
    if owner.Some? && owner.value != id {
      assert st.users[owner.value].email == dto.email.value;
    }
  }

  // ---------------------------------------------------------------- roles

  /** `updateUserRoles`: an unknown user fails first, then a missing or empty
      role set; otherwise the roles are replaced wholesale. */
  function UpdateRoles(st: Store, id: nat, roles: Option<set<UserRole>>): (r: Result<Store, Error>)
    ensures id !in st.users ==> r == Failure(UserIdNotFound(id))
    ensures id in st.users && (roles.None? || roles.value == {}) ==> r == Failure(Runtime(MsgRolesRequired))
    ensures r.Success? <==> id in st.users && roles.Some? && roles.value != {}
    ensures r.Success? ==> r.value == st.(users := st.users[id := st.users[id].(roles := roles.value)])
  {
    if id !in st.users then Failure(UserIdNotFound(id))
    else if roles.None? || roles.value == {} then Failure(Runtime(MsgRolesRequired))
    else Success(st.(users := st.users[id := st.users[id].(roles := roles.value)]))
  }

  /** The result does not depend on the roles the user had before: two
      replacements in a row leave what the second alone would. */
  lemma UpdateRolesLastWins(st: Store, id: nat, first: set<UserRole>, second: set<UserRole>)
    requires UpdateRoles(st, id, Some(first)).Success?
    requires second != {}
    ensures UpdateRoles(UpdateRoles(st, id, Some(first)).value, id, Some(second))
         == UpdateRoles(st, id, Some(second))
  {
    var st1 := UpdateRoles(st, id, Some(first)).value;
    assert st1.users[id := st1.users[id].(roles := second)] == st.users[id := st.users[id].(roles := second)];
  }

  // ---------------------------------------------------------------- deactivate

  /** `deactivateUser`: only the active flag changes, to false. */
  function Deactivate(st: Store, id: nat): (r: Result<Store, Error>)
    ensures r.Success? <==> id in st.users
    ensures id !in st.users ==> r == Failure(UserIdNotFound(id))
    ensures r.Success? ==> r.value == st.(users := st.users[id := st.users[id].(active := false)])
  {
    if id !in st.users then Failure(UserIdNotFound(id))
    else Success(st.(users := st.users[id := st.users[id].(active := false)]))
  }

  lemma DeactivateIdempotent(st: Store, id: nat)
    requires id in st.users
    ensures Deactivate(Deactivate(st, id).value, id) == Deactivate(st, id)
  {
    var st1 := Deactivate(st, id).value;
    assert st1.users[id := st1.users[id].(active := false)] == st1.users;
  }

  // ---------------------------------------------------------------- delete

  /** `None` in place of a reference to user `id`. */
  function Unref(ref: Option<nat>, id: nat): (r: Option<nat>)
    ensures r != Some(id)
    ensures ref != Some(id) ==> r == ref
  {
    if ref == Some(id) then None else ref
  }

  /** `deleteUser`: the user leaves every project's member table, every
      story and plan reference to them becomes null, and the account is
      removed. The project role rows are not touched. */
  function DeleteUser(st: Store, id: nat): (r: Result<Store, Error>)
    ensures r.Success? <==> id in st.users
    ensures id !in st.users ==> r == Failure(UserIdNotFound(id))
    ensures r.Success? ==>
      && r.value.users == st.users - {id}
      && r.value.memberRows == st.memberRows
      && r.value.projects.Keys == st.projects.Keys
      && (forall p :: p in st.projects ==> r.value.projects[p] == st.projects[p].(members := st.projects[p].members - {id}))
      && r.value.stories.Keys == st.stories.Keys
      && (forall s :: s in st.stories ==>
            r.value.stories[s] == st.stories[s].(createdBy := Unref(st.stories[s].createdBy, id),
                                                 assignedTo := Unref(st.stories[s].assignedTo, id)))
      && r.value.plans.Keys == st.plans.Keys
      && (forall p :: p in st.plans ==> r.value.plans[p] == st.plans[p].(createdBy := Unref(st.plans[p].createdBy, id)))
  {
    if id !in st.users then Failure(UserIdNotFound(id))
    else
      var projects := map p | p in st.projects :: st.projects[p].(members := st.projects[p].members - {id});
      var stories := map s | s in st.stories ::
        st.stories[s].(createdBy := Unref(st.stories[s].createdBy, id), assignedTo := Unref(st.stories[s].assignedTo, id));
      var plans := map p | p in st.plans :: st.plans[p].(createdBy := Unref(st.plans[p].createdBy, id));
      Success(st.(users := st.users - {id}, projects := projects, stories := stories, plans := plans))
  }

  /** After deletion nothing in the store but the role rows refers to the
      user, and every reference to another user is kept. */
  lemma DeleteLeavesNoReference(st: Store, id: nat, other: nat)
    requires DeleteUser(st, id).Success?
    requires other != id
    ensures var st' := DeleteUser(st, id).value;
      && id !in st'.users
      && (forall p :: p in st'.projects ==> id !in st'.projects[p].members)
      && (forall s :: s in st'.stories ==> st'.stories[s].createdBy != Some(id) && st'.stories[s].assignedTo != Some(id))
      && (forall p :: p in st'.plans ==> st'.plans[p].createdBy != Some(id))
      && (forall p :: p in st.projects ==> (other in st'.projects[p].members <==> other in st.projects[p].members))
      && (forall s :: s in st.stories ==>
            (st'.stories[s].createdBy == Some(other) <==> st.stories[s].createdBy == Some(other)))
  {
  }
}
