/** The project-level permission checks used in method-security
    expressions. The user lookup, the membership rows and the system-admin
    test are the store's; what makes an account a system administrator is
    not part of this model and is a parameter. */
module MethodSecurity {
  import opened Wrappers
  import opened Domain

  /** The message `UserRole.valueOf` raises for an unknown name. */
  function NoSuchRole(name: string): Error {
    IllegalArgument("No enum constant com.asu.ser515.agiletool.models.UserRole." + name)
  }

  /** `UserRole.valueOf`, failing as Java does. */
  function ValueOf(name: string): (r: Result<UserRole, Error>)
    ensures r.Success? <==> ParseRole(name).Some?
    ensures r.Success? ==> RoleName(r.value) == name
    ensures r.Failure? ==> r.error == NoSuchRole(name)
  {
    match ParseRole(name)
    case Some(role) => Success(role)
    case None => Failure(NoSuchRole(name))
  }

  /** The roles a user holds in a project, one per membership row. */
  function ProjectRoles(st: Store, projectId: nat, userId: nat): (r: set<UserRole>)
    ensures forall role :: role in r <==> MemberRow(projectId, userId, role) in st.memberRows
  {
    set row | row in st.memberRows && row.projectId == projectId && row.userId == userId :: row.role
  }

  /** `hasRoleInProject`: false for an unknown user, true for a system
      admin, otherwise whether the named role is among the user's project
      roles; an unknown role name throws. */
  function HasRoleInProject(st: Store, username: string, projectId: nat, roleName: string,
                            isAdmin: User -> bool): (r: Result<bool, Error>)
    ensures FindByUsername(st, username).None? ==> r == Success(false)
    ensures (FindByUsername(st, username).Some? && isAdmin(st.users[FindByUsername(st, username).value])) ==>
      r == Success(true)
    ensures (FindByUsername(st, username).Some? && !isAdmin(st.users[FindByUsername(st, username).value])) ==>
      && (r.Failure? <==> ParseRole(roleName).None?)
      && (r.Success? ==>
            (r.value <==> MemberRow(projectId, FindByUsername(st, username).value, ParseRole(roleName).value) in st.memberRows))
  {
    match FindByUsername(st, username)
    case None => Success(false)
    case Some(id) =>
      if isAdmin(st.users[id]) then Success(true)
      else
        var role :- ValueOf(roleName);
        Success(role in ProjectRoles(st, projectId, id))
  }

  /** The verdict of the `hasAnyRoleInProject` loop over `names`: names are
      parsed in order and the first one held answers true. */
  function AnyRoleVerdict(names: seq<string>, roles: set<UserRole>): Result<bool, Error> {
    if |names| == 0 then Success(false)
    else
      match ValueOf(names[0])
      case Failure(e) => Failure(e)
      case Success(role) => if role in roles then Success(true) else AnyRoleVerdict(names[1..], roles)
  }

  /** A name that ends the loop: not a role, or a role that is held. */
  predicate Decides(roles: set<UserRole>, name: string) {
    ParseRole(name).None? || ParseRole(name).value in roles
  }

  /** The position at which the loop stops: the first deciding name, or the
      end of the list. */
  function FirstDecisive(names: seq<string>, roles: set<UserRole>): (d: nat)
    ensures d <= |names|
    ensures forall j :: 0 <= j < d ==> !Decides(roles, names[j])
    ensures d < |names| ==> Decides(roles, names[d])
  {
    if |names| == 0 then 0
    else if Decides(roles, names[0]) then 0
    else 1 + FirstDecisive(names[1..], roles)
  }

  /** The loop answers at its stopping position: false when it ran off the
      end, an IllegalArgumentException for a name that is not a role, and
      true for a held role. */
  lemma {:induction false} AnyRoleVerdictMeaning(names: seq<string>, roles: set<UserRole>)
    ensures var d := FirstDecisive(names, roles);
      AnyRoleVerdict(names, roles) ==
        if d == |names| then Success(false)
        else if ParseRole(names[d]).None? then Failure(NoSuchRole(names[d]))
        else Success(true)
  {
    if |names| > 0 && !Decides(roles, names[0]) {
      AnyRoleVerdictMeaning(names[1..], roles);
    }
  }

  /** The loop answers false exactly when no name decides it. */
  lemma VerdictFalseMeaning(names: seq<string>, roles: set<UserRole>)
    ensures AnyRoleVerdict(names, roles) == Success(false) <==>
      forall j :: 0 <= j < |names| ==> !Decides(roles, names[j])
  {
    AnyRoleVerdictMeaning(names, roles);
  }

  /** One iteration: the verdict from position `k` is the first name's
      answer, or the verdict from `k + 1`. */
  lemma VerdictStep(names: seq<string>, roles: set<UserRole>, k: nat)
    requires k < |names|
    ensures ValueOf(names[k]).Failure? ==> AnyRoleVerdict(names[k..], roles) == Failure(ValueOf(names[k]).error)
    ensures ValueOf(names[k]).Success? && ValueOf(names[k]).value in roles ==>
      AnyRoleVerdict(names[k..], roles) == Success(true)
    ensures ValueOf(names[k]).Success? && ValueOf(names[k]).value !in roles ==>
      AnyRoleVerdict(names[k..], roles) == AnyRoleVerdict(names[k + 1..], roles)
  {
    assert names[k..][1..] == names[k + 1..];
  }

  /** The loop of `hasAnyRoleInProject`, iteration by iteration. */
  method AnyRoleLoop(names: seq<string>, roles: set<UserRole>) returns (r: Result<bool, Error>)
    ensures r == AnyRoleVerdict(names, roles)
  {
    var k := 0;
    while k < |names|
      invariant 0 <= k <= |names|
      invariant AnyRoleVerdict(names, roles) == AnyRoleVerdict(names[k..], roles)
    {
      VerdictStep(names, roles, k);
      var role := ValueOf(names[k]);
      if role.Failure? {
        return Failure(role.error);
      }
      if role.value in roles {
        return Success(true);
      }
      k := k + 1;
    }
    assert names[k..] == [];
    return Success(false);
  }

  /** `hasAnyRoleInProject`: false for an unknown user, true for a system
      admin, otherwise the verdict of the loop over the user's project roles. */
  method HasAnyRoleInProject(st: Store, username: string, projectId: nat, roleNames: seq<string>,
                             isAdmin: User -> bool) returns (r: Result<bool, Error>)
    ensures r == AnyRoleInProject(st, username, projectId, roleNames, isAdmin)
    ensures FindByUsername(st, username).None? ==> r == Success(false)
    ensures (FindByUsername(st, username).Some? && !isAdmin(st.users[FindByUsername(st, username).value])
             && roleNames == []) ==> r == Success(false)
  {
    var found := FindByUsername(st, username);
    if found.None? {
      return Success(false);
    }
    if isAdmin(st.users[found.value]) {
      return Success(true);
    }
    r := AnyRoleLoop(roleNames, ProjectRoles(st, projectId, found.value));
  }

  /** The same check as a function, for stating properties about it. */
  function AnyRoleInProject(st: Store, username: string, projectId: nat, roleNames: seq<string>,
                            isAdmin: User -> bool): Result<bool, Error> {
    match FindByUsername(st, username)
    case None => Success(false)
    case Some(id) =>
      if isAdmin(st.users[id]) then Success(true)
      else AnyRoleVerdict(roleNames, ProjectRoles(st, projectId, id))
  }

  /** `isMemberOfProject`: false for an unknown user, true for a system
      admin, otherwise whether a membership row links the user to the project. */
  function IsMemberOfProject(st: Store, username: string, projectId: nat, isAdmin: User -> bool): (r: bool)
    ensures FindByUsername(st, username).None? ==> !r
    ensures (FindByUsername(st, username).Some? && !isAdmin(st.users[FindByUsername(st, username).value])) ==>
      (r <==> exists row :: row in st.memberRows && row.projectId == projectId
                && row.userId == FindByUsername(st, username).value)
  {
    match FindByUsername(st, username)
    case None => false
    case Some(id) => isAdmin(st.users[id]) || ProjectRoles(st, projectId, id) != {}
  }

  /** With a single valid role name, the any-role check answers as the
      single-role check does. */
  lemma {:induction false} SingleRoleAgreement(st: Store, username: string, projectId: nat, roleName: string,
                                               isAdmin: User -> bool)
    requires ParseRole(roleName).Some?
    ensures AnyRoleInProject(st, username, projectId, [roleName], isAdmin)
         == HasRoleInProject(st, username, projectId, roleName, isAdmin)
  {
    var found := FindByUsername(st, username);
    if found.Some? && !isAdmin(st.users[found.value]) {
      var roles := ProjectRoles(st, projectId, found.value);
      assert [roleName][1..] == [];
      assert AnyRoleVerdict([roleName][1..], roles) == Success(false);
    }
  }

  /** A role held in the project makes the any-role check succeed as soon
      as it is listed, whatever follows it, even a name that is not a role. */
  lemma MatchShortCircuits(names: seq<string>, roles: set<UserRole>, role: UserRole, rest: seq<string>)
    requires role in roles
    requires forall j :: 0 <= j < |names| ==> ParseRole(names[j]).Some? && ParseRole(names[j]).value !in roles
    ensures AnyRoleVerdict(names + [RoleName(role)] + rest, roles) == Success(true)
  {
    var all := names + [RoleName(role)] + rest;
    assert all[|names|] == RoleName(role);
    assert forall j :: 0 <= j < |names| ==> all[j] == names[j];
    AnyRoleVerdictMeaning(all, roles);
    assert FirstDecisive(all, roles) == |names|;
  }

  /** When every listed name is a role, the check answers whether some
      listed role is held; an empty list answers false. */
  lemma AnyRoleOfValidNames(names: seq<string>, roles: set<UserRole>)
    requires forall j :: 0 <= j < |names| ==> ParseRole(names[j]).Some?
    ensures AnyRoleVerdict(names, roles) ==
      Success(exists i :: 0 <= i < |names| && ParseRole(names[i]).value in roles)
  {
    AnyRoleVerdictMeaning(names, roles);
    var d := FirstDecisive(names, roles);
    if d < |names| {
      assert ParseRole(names[d]).value in roles;
    }
  }

  /** A system admin passes all three checks for every project and role name. */
  lemma AdminPassesAll(st: Store, username: string, projectId: nat, roleName: string, roleNames: seq<string>,
                       isAdmin: User -> bool)
    requires FindByUsername(st, username).Some? && isAdmin(st.users[FindByUsername(st, username).value])
    ensures HasRoleInProject(st, username, projectId, roleName, isAdmin) == Success(true)
    ensures AnyRoleInProject(st, username, projectId, roleNames, isAdmin) == Success(true)
    ensures IsMemberOfProject(st, username, projectId, isAdmin)
  {
  }
}
