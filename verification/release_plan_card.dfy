/** The release-plan card: the status badge's class and label and the
    fallbacks for missing fields. Plans arrive as the server's JSON, so the
    status is a string and the optional texts are `Option`s. */
module ReleasePlanCard {
  import opened Wrappers
  import opened Text
  import ReleasePlanModal
  import ReleasePlanService
  import UserService
  import Domain

  /** The status codes the server sends. */
  const Codes: seq<string> := ["PLANNED", "IN_PROGRESS", "COMPLETED", "CANCELLED"]

  /** `getStatusColor`. */
  function StatusClass(status: string): (r: string)
    ensures status == "IN_PROGRESS" ==> r == "release-status-in-progress"
    ensures status == "COMPLETED" ==> r == "release-status-completed"
    ensures status == "CANCELLED" ==> r == "release-status-cancelled"
    ensures status !in {"IN_PROGRESS", "COMPLETED", "CANCELLED"} ==> r == "release-status-planned"
  {
    match status
    case "PLANNED" => "release-status-planned"
    case "IN_PROGRESS" => "release-status-in-progress"
    case "COMPLETED" => "release-status-completed"
    case "CANCELLED" => "release-status-cancelled"
    case _ => "release-status-planned"
  }

  /** The four codes get four different classes, and every other status
      looks planned. */
  lemma StatusClassesDistinct(other: string)
    requires other !in Codes
    ensures forall i, j :: 0 <= i < j < |Codes| ==> StatusClass(Codes[i]) != StatusClass(Codes[j])
    ensures StatusClass(other) == StatusClass("PLANNED")
  {
  }

  /** The server sends a plan's status as its enum constant name: every
      such name is one of the card's codes, and two statuses share a badge
      class exactly when they are the same status. */
  lemma ServerStatusesStyled(s: Domain.ReleaseStatus, t: Domain.ReleaseStatus)
    ensures Domain.ReleaseStatusName(s) in Codes
    ensures StatusClass(Domain.ReleaseStatusName(s)) == StatusClass(Domain.ReleaseStatusName(t)) <==> s == t
  {
  }

  /** `getStatusLabel`: the first underscore becomes a space. */
  function StatusLabel(status: string): (r: string)
    ensures |r| == |status|
    ensures '_' !in status ==> r == status
    ensures '_' in status ==> exists i :: (0 <= i < |status| && status[i] == '_' && r[i] == ' '
                                          && (forall j :: 0 <= j < |status| && j != i ==> r[j] == status[j])
                                          && (forall j :: 0 <= j < i ==> status[j] != '_'))
  {
    var r := ReplaceFirst(status, '_', ' ');
    if '_' in status then
      var i := FirstIndex(status, '_');
      assert forall j :: 0 <= j < |status| && j != i ==> r[j] == status[j];
      r
    else r
  }

  /** Only the first underscore is replaced: the rest of the status is
      kept as it is, later underscores included. */
  lemma StatusLabelFirstOnly(before: string, after: string)
    requires '_' !in before
    ensures StatusLabel(before + "_" + after) == before + " " + after
  {
    ReplaceFirstAfter(before, after, '_', ' ');
  }

  /** The name shown after "Created by". */
  function CreatorLabel(createdByUsername: Option<string>): (r: string)
    ensures Truthy(createdByUsername) ==> r == createdByUsername.value
    ensures !Truthy(createdByUsername) ==> r == "Unknown"
    ensures r != ""
  {
    if Truthy(createdByUsername) then createdByUsername.value else "Unknown"
  }

  /** The optional description and goals blocks: rendered only for a
      non-empty text. */
  function OptionalBlock(text: Option<string>): (r: Option<string>)
    ensures r.Some? <==> text.Some? && text.value != ""
    ensures r.Some? ==> r == text
  {
    if Truthy(text) then text else None
  }

  /** Against the server's plan response: a creator who still exists
      with a non-empty username is shown by name, and a plan without a
      creator shows "Unknown". */
  lemma CreatorShownFromResponse(st: Domain.Store, planId: nat)
    requires planId in st.plans
    ensures var p := st.plans[planId];
      var shown := CreatorLabel(ReleasePlanService.ToResponse(st, planId).createdByUsername);
      && (p.createdBy.Some? && p.createdBy.value in st.users && st.users[p.createdBy.value].username != "" ==>
            shown == st.users[p.createdBy.value].username)
      && (p.createdBy.None? ==> shown == "Unknown")
  {
  }

  /** After the plan's creator is deleted, the card for the plan shows
      "Unknown": deletion clears the plan's creator reference. */
  lemma DeletedCreatorShowsUnknown(st: Domain.Store, userId: nat, planId: nat)
    requires UserService.DeleteUser(st, userId).Success?
    requires planId in st.plans && st.plans[planId].createdBy == Some(userId)
    ensures var after := UserService.DeleteUser(st, userId).value;
      planId in after.plans
      && CreatorLabel(ReleasePlanService.ToResponse(after, planId).createdByUsername) == "Unknown"
  {
    var after := UserService.DeleteUser(st, userId).value;
    assert after.plans[planId].createdBy == UserService.Unref(Some(userId), userId);
  }

  /** The dialog stores a missing description or goals as "", and the card
      shows the same blocks for the stored text as for the original. */
  lemma OptionalBlockAfterDialog(text: Option<string>)
    ensures OptionalBlock(Some(ReleasePlanModal.OrEmpty(text))).Some? <==> OptionalBlock(text).Some?
    ensures OptionalBlock(text).Some? ==> OptionalBlock(Some(ReleasePlanModal.OrEmpty(text))) == OptionalBlock(text)
  {
  }
}
