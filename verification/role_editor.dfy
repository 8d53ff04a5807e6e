/** The role checklist shared by the account page and the project-members
    page: toggling a role in the selection, the empty-selection guard, and
    the label shown for a role code. */
module RoleEditor {
  import opened Wrappers
  import opened Seqs

  /** `toggleRole`: a selected role is removed, every occurrence of it;
      any other role is appended. */
  function ToggleRole(selected: seq<string>, role: string): (r: seq<string>)
    ensures role in r <==> role !in selected
    ensures role in selected ==> multiset(r) == multiset(selected)[role := 0]
    ensures role !in selected ==> r == selected + [role]
  {
    if role in selected then RemoveAll(selected, role) else selected + [role]
  }

  /** Toggling a role that was not selected, twice, restores the selection
      exactly. */
  lemma ToggleTwiceRestores(selected: seq<string>, role: string)
    requires role !in selected
    ensures ToggleRole(ToggleRole(selected, role), role) == selected
  {
    RemoveAppended(selected, role);
  }

  /** Toggling a role selected once, twice, gives the same roles with that
      role moved to the end. */
  lemma ToggleTwiceMovesToEnd(selected: seq<string>, role: string)
    requires multiset(selected)[role] == 1
    ensures ToggleRole(ToggleRole(selected, role), role) == RemoveAll(selected, role) + [role]
    ensures multiset(ToggleRole(ToggleRole(selected, role), role)) == multiset(selected)
  {
    var once := ToggleRole(selected, role);
    assert role in selected;
    assert role !in once;
    assert multiset(once + [role]) == multiset(selected)[role := 0] + multiset{role};
  }

  /** Toggling one role leaves every other role's count alone. */
  lemma ToggleKeepsOthers(selected: seq<string>, role: string, other: string)
    requires other != role
    ensures multiset(ToggleRole(selected, role))[other] == multiset(selected)[other]
  {
  }

  const MsgNoRole := "At least one role must be selected"

  /** The save guard: an empty selection is refused with a message. */
  function SelectionError(selected: seq<string>): (r: Option<string>)
    ensures r.Some? <==> |selected| == 0
    ensures r.Some? ==> r.value == MsgNoRole
  {
    if |selected| == 0 then Some(MsgNoRole) else None
  }

  /** A checklist entry: the role code and its label. */
  datatype RoleOption = RoleOption(value: string, caption: string)

  /** The first option with the given code, if any (`Array.find`). */
  function FindOption(options: seq<RoleOption>, role: string): (r: Option<RoleOption>)
    ensures r.Some? ==> r.value.value == role
    ensures r.Some? ==> exists i :: (0 <= i < |options| && options[i] == r.value
                                    && forall j :: 0 <= j < i ==> options[j].value != role)
    ensures r.None? <==> forall i :: 0 <= i < |options| ==> options[i].value != role
  {
    if |options| == 0 then None
    else if options[0].value == role then Some(options[0])
    else FindOption(options[1..], role)
  }

  /** `find(...)?.label || role`: the option's label, or the code itself
      when no option has that code or the label is empty. */
  function RoleLabel(options: seq<RoleOption>, role: string): (r: string)
    ensures FindOption(options, role).None? ==> r == role
    ensures FindOption(options, role).Some? && FindOption(options, role).value.caption != "" ==>
      r == FindOption(options, role).value.caption
    ensures r != "" || role == ""
  {
    match FindOption(options, role)
    case Some(o) => if o.caption != "" then o.caption else role
    case None => role
  }
}
