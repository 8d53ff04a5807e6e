/** The project-members page: the per-project role editor and member
    removal. Only the three project roles can be chosen. */
module ProjectMembers {
  import opened Wrappers
  import opened Text
  import opened Domain
  import opened RoleEditor
  import AccountManagement

  /** The role checklist: the project roles, without SYSTEM_ADMIN. */
  const Options: seq<RoleOption> := [
    RoleOption("PRODUCT_OWNER", "Product Owner"), RoleOption("SCRUM_MASTER", "Scrum Master"),
    RoleOption("DEVELOPER", "Developer")]

  /** Every choice is a role other than SYSTEM_ADMIN, and SYSTEM_ADMIN, not
      being a choice, is displayed as its raw code. */
  lemma OptionsAreProjectRoles()
    ensures forall i :: 0 <= i < |Options| ==>
      ParseRole(Options[i].value).Some? && ParseRole(Options[i].value).value != SystemAdmin
    ensures RoleLabel(Options, RoleName(SystemAdmin)) == RoleName(SystemAdmin)
  {
    assert RoleName(SystemAdmin) == "SYSTEM_ADMIN";
    assert ParseRole("PRODUCT_OWNER") == Some(ProductOwner);
    assert ParseRole("SCRUM_MASTER") == Some(ScrumMaster);
    assert ParseRole("DEVELOPER") == Some(Developer);
  }

  /** The editor's state and the page's messages. */
  datatype Editor = Editor(editingId: Option<int>, selected: seq<string>, error: Option<string>,
                           success: Option<string>)

  /** `handleEditRoles`: edit this member, starting from their project
      roles, with both messages cleared. */
  function EditRoles(s: Editor, userId: int, projectRoles: seq<string>): (r: Editor)
    ensures r.editingId == Some(userId) && r.selected == projectRoles
    ensures r.error.None? && r.success.None?
  {
    Editor(Some(userId), projectRoles, None, None)
  }

  /** `handleCancelEdit`: stop editing, drop the selection and the error;
      the success message stays. */
  function CancelEdit(s: Editor): (r: Editor)
    ensures r.editingId.None? && r.selected == [] && r.error.None?
    ensures r.success == s.success
  {
    s.(editingId := None, selected := [], error := None)
  }

  /** Cancelling after an edit clears everything the edit set. */
  lemma EditThenCancel(s: Editor, userId: int, roles: seq<string>)
    ensures CancelEdit(EditRoles(s, userId, roles)) == Editor(None, [], None, None)
  {
  }

  /** The PUT request that saves a member's roles. */
  datatype RolesRequest = RolesRequest(path: string, userId: int, roles: seq<string>)

  /** `handleUpdateRoles` up to the request. */
  function SaveRoles(s: Editor, projectId: int, userId: int): (r: (Editor, Option<RolesRequest>))
    ensures r.1.None? <==> |s.selected| == 0
    ensures r.1.None? ==> r.0 == s.(error := Some(MsgNoRole))
    ensures r.1.Some? ==> && r.1.value.path == "/api/projects/" + IntToString(projectId) + "/members/"
                                              + IntToString(userId) + "/roles"
                          && r.1.value.userId == userId && r.1.value.roles == s.selected
                          && r.0 == s.(error := None, success := None)
  {
    match SelectionError(s.selected)
    case Some(message) => (s.(error := Some(message)), None)
    case None =>
      var path := "/api/projects/" + IntToString(projectId) + "/members/" + IntToString(userId) + "/roles";
      (s.(error := None, success := None), Some(RolesRequest(path, userId, s.selected)))
  }

  /** The server's reply. */
  datatype Answer = Ok | Refused(text: string) | Thrown

  /** After the save reply: on success editing stops (the selection is
      kept) and the members are fetched again; otherwise the error shows. */
  function FinishSave(s: Editor, answer: Answer): (r: (Editor, bool))
    ensures r.1 <==> answer.Ok?
    ensures answer.Ok? ==> r.0 == s.(editingId := None, success := Some("User roles updated successfully"))
    ensures answer.Refused? ==>
      r.0 == s.(error := Some(if answer.text != "" then answer.text else "Failed to update roles"))
    ensures answer.Thrown? ==> r.0 == s.(error := Some("Failed to update roles"))
  {
    match answer
    case Ok => (s.(editingId := None, success := Some("User roles updated successfully")), true)
    case Refused(text) => (s.(error := Some(if text != "" then text else "Failed to update roles")), false)
    case Thrown => (s.(error := Some("Failed to update roles")), false)
  }

  /** What removing a member does: the DELETE path if confirmed, and the
      page's messages and refetch after the reply. */
  datatype Removal = Removal(request: Option<string>, error: Option<string>, success: Option<string>,
                             refetch: bool)

  /** `handleRemoveMember`. */
  function RemoveMember(s: Editor, projectId: int, userId: int, confirmed: bool, answer: Answer): (r: Removal)
    ensures !confirmed ==> r == Removal(None, s.error, s.success, false)
    ensures confirmed ==>
      r.request == Some("/api/projects/" + IntToString(projectId) + "/members/" + IntToString(userId))
    ensures r.refetch <==> confirmed && answer.Ok?
    ensures confirmed && answer.Ok? ==> r.success == Some("User removed from project successfully") && r.error.None?
    ensures confirmed && answer.Refused? ==>
      r.success.None? && r.error == Some(if answer.text != "" then answer.text else "Failed to remove member")
    ensures confirmed && answer.Thrown? ==> r.success.None? && r.error == Some("Failed to remove member")
  {
    if !confirmed then Removal(None, s.error, s.success, false)
    else
      var path := "/api/projects/" + IntToString(projectId) + "/members/" + IntToString(userId);
      match answer
      case Ok => Removal(Some(path), None, Some("User removed from project successfully"), true)
      case Refused(text) => Removal(Some(path), Some(if text != "" then text else "Failed to remove member"), None, false)
      case Thrown => Removal(Some(path), Some("Failed to remove member"), None, false)
  }

  /** The two role editors open an edit alike, on the same user with the
      same selection; only this page also clears both messages, while the
      account page keeps them. */
  lemma EditorsAgreeOnEdit(a: AccountManagement.Editor, s: Editor, userId: int, roles: seq<string>)
    ensures AccountManagement.EditRoles(a, userId, roles).editingId == EditRoles(s, userId, roles).editingId
    ensures AccountManagement.EditRoles(a, userId, roles).selected == EditRoles(s, userId, roles).selected
    ensures EditRoles(s, userId, roles).error.None? && EditRoles(s, userId, roles).success.None?
    ensures AccountManagement.EditRoles(a, userId, roles).error == a.error
    ensures AccountManagement.EditRoles(a, userId, roles).success == a.success
  {
  }

  /** Editing a member and saving sends the member's project roles
      unchanged when there are any, and is blocked otherwise. */
  lemma EditThenSave(s: Editor, projectId: int, userId: int, projectRoles: seq<string>)
    ensures var (after, request) := SaveRoles(EditRoles(s, userId, projectRoles), projectId, userId);
      && (request.Some? <==> |projectRoles| > 0)
      && (request.Some? ==> request.value.roles == projectRoles && request.value.userId == userId)
      && (request.None? ==> after.error == Some(MsgNoRole))
  {
  }

  /** A save followed by its reply: the members are fetched again exactly
      on success, which stops editing with no error showing and, unlike the
      account page, keeps the selection; after a failure saving again sends
      the same roles. */
  lemma SaveThenFinish(s: Editor, projectId: int, userId: int, answer: Answer)
    requires |s.selected| > 0
    ensures var (mid, request) := SaveRoles(s, projectId, userId);
      && request.Some?
      && (var (after, refetch) := FinishSave(mid, answer);
          && (refetch <==> answer.Ok?)
          && (answer.Ok? ==> after.editingId.None? && after.selected == s.selected && after.error.None?)
          && (!answer.Ok? ==> && after.editingId == s.editingId && after.error.Some?
                              && SaveRoles(after, projectId, userId).1 == request))
  {
  }

  /** A confirmed removal clears the old messages first: its outcome does
      not depend on what the page showed before. */
  lemma RemoveForgetsOldMessages(s: Editor, t: Editor, projectId: int, userId: int, answer: Answer)
    ensures RemoveMember(s, projectId, userId, true, answer) == RemoveMember(t, projectId, userId, true, answer)
  {
  }
}
