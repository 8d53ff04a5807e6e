/** The client's role-based permission predicates. Roles travel as their
    enum constant names; a missing role list is `None`. */
module RoleUtils {
  import opened Wrappers
  import opened Domain

  /** Whether any of `allowed` occurs in `roles`, scanning `allowed` in order. */
  function SomeIncluded(allowed: seq<string>, roles: seq<string>): (r: bool)
    ensures r <==> exists i :: 0 <= i < |allowed| && allowed[i] in roles
  {
    if |allowed| == 0 then false
    else allowed[0] in roles || SomeIncluded(allowed[1..], roles)
  }

  /** `hasAnyRole`: false for a missing or empty role list, otherwise
      whether the two lists share a role. */
  function HasAnyRole(userRoles: Option<seq<string>>, allowed: seq<string>): (r: bool)
    ensures userRoles.None? || userRoles.value == [] ==> !r
    ensures r <==> userRoles.Some? && exists i, j :: 0 <= i < |allowed| && 0 <= j < |userRoles.value|
                                                     && allowed[i] == userRoles.value[j]
  {
    if userRoles.None? || |userRoles.value| == 0 then false
    else SomeIncluded(allowed, userRoles.value)
  }

  /** Granting more roles never withdraws a permission. */
  lemma HasAnyRoleMonotone(fewer: seq<string>, more: seq<string>, allowed: seq<string>)
    requires forall j :: 0 <= j < |fewer| ==> fewer[j] in more
    requires HasAnyRole(Some(fewer), allowed)
    ensures HasAnyRole(Some(more), allowed)
  {
    var i, j :| 0 <= i < |allowed| && 0 <= j < |fewer| && allowed[i] == fewer[j];
    var k :| 0 <= k < |more| && more[k] == fewer[j];
  }

  const PO := RoleName(ProductOwner)
  const SM := RoleName(ScrumMaster)
  const Dev := RoleName(Developer)
  const SA := RoleName(SystemAdmin)

  function CanManageStories(roles: Option<seq<string>>): bool {
    HasAnyRole(roles, [PO, SA])
  }

  function CanEstimateStories(roles: Option<seq<string>>): bool {
    HasAnyRole(roles, [Dev, SM, PO, SA])
  }

  function CanUpdateStoryStatus(roles: Option<seq<string>>): bool {
    HasAnyRole(roles, [Dev, SM, PO, SA])
  }

  function CanMarkSprintReady(roles: Option<seq<string>>): bool {
    HasAnyRole(roles, [PO, SM, SA])
  }

  function CanLinkToReleasePlan(roles: Option<seq<string>>): bool {
    HasAnyRole(roles, [PO, SA])
  }

  /** Managing stories and linking them to release plans need the same
      roles: PRODUCT_OWNER or SYSTEM_ADMIN. Estimating and updating status
      also coincide, granted by any of the four roles. */
  lemma PermissionPairs(roles: Option<seq<string>>)
    ensures CanManageStories(roles) == CanLinkToReleasePlan(roles)
    ensures CanManageStories(roles) <==> roles.Some? && (PO in roles.value || SA in roles.value)
    ensures CanEstimateStories(roles) == CanUpdateStoryStatus(roles)
    ensures CanEstimateStories(roles) <==>
      roles.Some? && (Dev in roles.value || SM in roles.value || PO in roles.value || SA in roles.value)
  {
    if roles.Some? && (PO in roles.value || SA in roles.value) {
      var allowed := [PO, SA];
      if PO in roles.value {
        assert allowed[0] in roles.value;
      } else {
        assert allowed[1] in roles.value;
      }
    }
    if roles.Some? && (Dev in roles.value || SM in roles.value || PO in roles.value || SA in roles.value) {
      var allowed := [Dev, SM, PO, SA];
      assert allowed[0] in roles.value || allowed[1] in roles.value || allowed[2] in roles.value || allowed[3] in roles.value;
    }
  }

  /** Marking sprint-ready is open to the product owner, the scrum master and
      the system admin, and closed to a developer with no other role. */
  lemma SprintReadyRoles(roles: seq<string>)
    ensures CanMarkSprintReady(Some(roles)) <==> PO in roles || SM in roles || SA in roles
    ensures !CanMarkSprintReady(Some([Dev]))
  {
    var allowed := [PO, SM, SA];
    if PO in roles || SM in roles || SA in roles {
      assert allowed[0] in roles || allowed[1] in roles || allowed[2] in roles;
    }
  }

  /** SYSTEM_ADMIN on its own grants all five permissions. */
  lemma SystemAdminGrantsAll()
    ensures var roles := Some([SA]);
      && CanManageStories(roles) && CanEstimateStories(roles) && CanUpdateStoryStatus(roles)
      && CanMarkSprintReady(roles) && CanLinkToReleasePlan(roles)
  {
    assert [PO, SA][1] == [SA][0];
    assert [Dev, SM, PO, SA][3] == [SA][0];
    assert [PO, SM, SA][2] == [SA][0];
  }
}
