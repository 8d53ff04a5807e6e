/** The account page: the all-users list shown to a system administrator,
    and the role editor for one user at a time. */
module AccountManagement {
  import opened Wrappers
  import opened Text
  import opened RoleEditor
  import RoleUtils

  /** The role checklist, SYSTEM_ADMIN included. */
  const Options: seq<RoleOption> := [
    RoleOption("PRODUCT_OWNER", "Product Owner"), RoleOption("SCRUM_MASTER", "Scrum Master"),
    RoleOption("DEVELOPER", "Developer"), RoleOption("SYSTEM_ADMIN", "System Admin")]

  /** After the profile loads, the all-users list is fetched only for a
      user holding SYSTEM_ADMIN. */
  function LoadsAllUsers(roles: seq<string>): (r: bool)
    ensures r <==> exists i :: 0 <= i < |roles| && roles[i] == "SYSTEM_ADMIN"
  {
    "SYSTEM_ADMIN" in roles
  }

  /** The page's admin test is the client permission test for SYSTEM_ADMIN
      alone. */
  lemma LoadsAllUsersIsAdminCheck(roles: seq<string>)
    ensures LoadsAllUsers(roles) == RoleUtils.HasAnyRole(Some(roles), [RoleUtils.SA])
  {
    assert RoleUtils.SA == "SYSTEM_ADMIN";
    if LoadsAllUsers(roles) {
      var i :| 0 <= i < |roles| && roles[i] == "SYSTEM_ADMIN";
      assert [RoleUtils.SA][0] == roles[i];
    }
  }

  /** The role editor's state and the page's messages. */
  datatype Editor = Editor(editingId: Option<int>, selected: seq<string>, error: Option<string>,
                           success: Option<string>)

  /** `handleEditRoles`: edit this user, starting from a copy of their roles. */
  function EditRoles(s: Editor, userId: int, roles: seq<string>): (r: Editor)
    ensures r.editingId == Some(userId) && r.selected == roles
    ensures r.error == s.error && r.success == s.success
  {
    s.(editingId := Some(userId), selected := roles)
  }

  /** `handleCancelEdit`: stop editing and drop the selection. */
  function CancelEdit(s: Editor): (r: Editor)
    ensures r.editingId.None? && r.selected == []
    ensures r.error == s.error && r.success == s.success
  {
    s.(editingId := None, selected := [])
  }

  /** Editing and then cancelling leaves no trace of the edit. */
  lemma EditThenCancel(s: Editor, userId: int, roles: seq<string>)
    ensures CancelEdit(EditRoles(s, userId, roles)) == CancelEdit(s)
  {
  }

  /** What saving does before the network: refused with a message, or a
      PATCH of the selection. */
  datatype SaveStep =
    | Blocked(state: Editor)
    | Request(state: Editor, path: string, roles: seq<string>)

  /** `handleUpdateRoles` up to the request. */
  function SaveRoles(s: Editor, userId: int): (r: SaveStep)
    ensures r.Blocked? <==> |s.selected| == 0
    ensures r.Blocked? ==> r.state == s.(error := Some(MsgNoRole))
    ensures r.Request? ==> && r.path == "/api/users/" + IntToString(userId) + "/roles"
                           && r.roles == s.selected
                           && r.state == s.(error := None, success := None)
  {
    match SelectionError(s.selected)
    case Some(message) => Blocked(s.(error := Some(message)))
    case None => Request(s.(error := None, success := None), "/api/users/" + IntToString(userId) + "/roles", s.selected)
  }

  /** The server's reply to a save. */
  datatype Answer = Ok | Refused(text: string) | Thrown

  /** After the reply: on success the editor closes and the list is
      fetched again; otherwise the error is shown and editing goes on. */
  function FinishSave(s: Editor, answer: Answer): (r: (Editor, bool))
    ensures r.1 <==> answer.Ok?
    ensures answer.Ok? ==> r.0 == s.(editingId := None, selected := [], success := Some("User roles updated successfully!"))
    ensures answer.Refused? ==>
      r.0 == s.(error := Some(if answer.text != "" then answer.text else "Failed to update roles"))
    ensures answer.Thrown? ==> r.0 == s.(error := Some("Failed to update roles. Please try again."))
  {
    match answer
    case Ok => (s.(editingId := None, selected := [], success := Some("User roles updated successfully!")), true)
    case Refused(text) => (s.(error := Some(if text != "" then text else "Failed to update roles")), false)
    case Thrown => (s.(error := Some("Failed to update roles. Please try again.")), false)
  }

  /** A role code the checklist knows shows its label; any other code is
      shown as it is. */
  lemma LabelFallback(role: string)
    ensures role == "SCRUM_MASTER" ==> RoleLabel(Options, role) == "Scrum Master"
    ensures role !in ["PRODUCT_OWNER", "SCRUM_MASTER", "DEVELOPER", "SYSTEM_ADMIN"] ==> RoleLabel(Options, role) == role
  {
    if role == "SCRUM_MASTER" {
      assert Options[0].value != role;
      assert FindOption(Options, role) == Some(Options[1]);
    }
  }

  /** A save followed by its reply: the list is fetched again exactly on
      success, which closes the editor with no error showing; after a
      failure the editor stays on the same user with the same selection, so
      saving again sends the same roles. */
  lemma SaveThenFinish(s: Editor, userId: int, answer: Answer)
    requires |s.selected| > 0
    ensures var step := SaveRoles(s, userId);
      && step.Request?
      && (var (after, refetch) := FinishSave(step.state, answer);
          && (refetch <==> answer.Ok?)
          && (answer.Ok? ==> after.editingId.None? && after.selected == [] && after.error.None?)
          && (!answer.Ok? ==> && after.editingId == s.editingId && after.selected == s.selected
                              && after.error.Some?
                              && SaveRoles(after, userId).Request?
                              && SaveRoles(after, userId).roles == s.selected))
  {
  }
}
