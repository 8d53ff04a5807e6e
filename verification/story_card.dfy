/** A board card: the sprint-ready drag gate, the drag payload, the edit
    trigger, and linking the story to a release plan from a prompt. The
    prompt's answer and the server's reply are inputs. */
module StoryCard {
  import opened Wrappers
  import opened Text

  // ---------------------------------------------------------------- drag

  /** `Boolean(isSprintReady)` after the prop's default: a card whose
      `isSprintReady` is not given counts as sprint-ready. */
  function IsDraggable(isSprintReady: Option<bool>): (r: bool)
    ensures r <==> isSprintReady != Some(false)
  {
    isSprintReady.GetOr(true)
  }

  const LockedTooltip := "Mark Sprint Ready to move this story"

  /** The `data-tooltip` attribute: only a locked card carries one. */
  function Tooltip(draggable: bool): (r: Option<string>)
    ensures r.Some? <==> !draggable
    ensures r.Some? ==> r.value == LockedTooltip
  {
    if draggable then None else Some(LockedTooltip)
  }

  /** The classes of the card's root element, as a set of tokens. */
  function CardClasses(draggable: bool, tags: seq<string>): (r: set<string>)
    ensures "story-card" in r
    ensures "draggable-card" in r <==> draggable
    ensures "locked-card" in r <==> !draggable
    ensures "tooltipped" in r <==> !draggable
    ensures "mvp-card" in r <==> "MVP" in tags
    ensures |r| == (if draggable then 2 else 3) + (if "MVP" in tags then 1 else 0)
  {
    {"story-card"}
    + (if draggable then {"draggable-card"} else {"locked-card", "tooltipped"})
    + (if "MVP" in tags then {"mvp-card"} else {})
  }

  /** What a drag start does: whether the browser's drag is cancelled, the
      'text/plain' payload, the allowed effect, and the `onDragStart`
      notification (story id, allowed). */
  datatype DragStart = DragStart(cancelled: bool, payload: Option<string>, effect: Option<string>,
                                 notified: (int, bool))

  /** The `onDragStart` handler of a card. */
  function StartDrag(id: int, isSprintReady: Option<bool>): (r: DragStart)
    ensures r.cancelled <==> isSprintReady == Some(false)
    ensures r.cancelled ==> r.payload.None? && r.effect.None?
    ensures !r.cancelled ==> r.payload == Some(IntToString(id)) && r.effect == Some("move")
    ensures r.notified == (id, !r.cancelled)
  {
    if !IsDraggable(isSprintReady) then DragStart(true, None, None, (id, false))
    else DragStart(false, Some(IntToString(id)), Some("move"), (id, true))
  }

  /** The card says it is locked exactly when a drag from it is cancelled,
      and the class list agrees. */
  lemma LockedIffCancelled(id: int, isSprintReady: Option<bool>, tags: seq<string>)
    ensures var draggable := IsDraggable(isSprintReady);
      && (Tooltip(draggable).Some? <==> StartDrag(id, isSprintReady).cancelled)
      && ("locked-card" in CardClasses(draggable, tags) <==> StartDrag(id, isSprintReady).cancelled)
  {
  }

  /** The menu button opens the editor only when an `onEdit` handler is
      given and the id is truthy, so a story with id 0 cannot be edited
      from its card. */
  function OpensEditor(hasOnEdit: bool, id: int): (r: bool)
    ensures r ==> hasOnEdit
    ensures hasOnEdit ==> (r <==> id != 0)
  {
    hasOnEdit && id != 0
  }

  /** With a handler, a click opens the editor exactly when the card's drag
      payload is not the text "0": the two handlers read the same id. */
  lemma EditorOpensUnlessPayloadZero(id: int)
    ensures OpensEditor(true, id) <==> StartDrag(id, Some(true)).payload != Some("0")
  {
    if id < 0 {
      assert IntToString(id)[0] == '-';
    } else if IntToString(id) == "0" {
      assert NatToString(0) == "0";
      NatToStringInjective(id, 0);
    }
  }

  // ---------------------------------------------------------------- release link

  const MsgIdentifierRequired := "Release Plan identifier is required"
  const MsgLinkFailed := "Failed to link story to release plan"
  const MsgLinkError := "Could not link story to release plan"
  const MsgLinked := "Story linked to release plan successfully"

  /** What the link button does with the prompt's answer (`None` when the
      prompt was cancelled). */
  datatype LinkStep =
    | Ignored
    | Alerted(message: string)
    | Request(path: string, releasePlanId: string)

  /** The request path of a card's link call. */
  function LinkPath(id: int): string {
    "/api/stories/" + IntToString(id) + "/release-plan"
  }

  /** The prompt stage: a cancelled or empty answer does nothing, an
      all-whitespace answer alerts, and anything else is sent trimmed. */
  function LinkPrompt(id: int, input: Option<string>): (r: LinkStep)
    ensures r.Ignored? <==> !Truthy(input)
    ensures r.Alerted? <==> Truthy(input) && forall i :: 0 <= i < |input.value| ==> IsJsWhitespace(input.value[i])
    ensures r.Alerted? ==> r.message == MsgIdentifierRequired
    ensures r.Request? ==> r.path == LinkPath(id) && r.releasePlanId == JsTrim(input.value)
  {
    TrimEmptyIff(if input.Some? then input.value else "", IsJsWhitespace);
    if !Truthy(input) then Ignored
    else if JsTrim(input.value) == [] then Alerted(MsgIdentifierRequired)
    else Request(LinkPath(id), JsTrim(input.value))
  }

  /** The identifier sent is non-empty, has no surrounding whitespace, and
      is the answer with only its surrounding whitespace taken off. */
  lemma {:induction false} SentIdentifierIsClean(id: int, input: Option<string>)
    requires LinkPrompt(id, input).Request?
    ensures var sent := LinkPrompt(id, input).releasePlanId;
      && sent != []
      && JsTrim(sent) == sent
      && exists a, b :: 0 <= a <= b <= |input.value| && input.value[a..b] == sent
                        && (forall i :: 0 <= i < a ==> IsJsWhitespace(input.value[i]))
                        && (forall i :: b <= i < |input.value| ==> IsJsWhitespace(input.value[i]))
  {
    var s := input.value;
    TrimIdempotent(s, IsJsWhitespace);
    var a, b := TrimBounds(s, IsJsWhitespace);
  }

  /** The server's reply to the link request: an HTTP answer (its success
      flag, its text, and the plan key and name in its JSON), or an error
      thrown by the call or by reading its body. */
  datatype LinkAnswer =
    | Answered(ok: bool, text: string, planKey: Option<string>, planName: Option<string>)
    | Thrown(message: string)

  /** The plan the card shows as linked. */
  datatype Linked = Linked(key: Option<string>, name: Option<string>)

  /** The card after the reply: the linked plan, the alert shown, and
      whether `onLinked` was called. */
  datatype LinkDone = LinkDone(linked: Linked, alert: string, notified: bool)

  /** Completing the link request. */
  function CompleteLink(before: Linked, answer: LinkAnswer): (r: LinkDone)
    ensures r.notified <==> answer.Answered? && answer.ok
    ensures r.notified ==> r.linked == Linked(answer.planKey, answer.planName) && r.alert == MsgLinked
    ensures !r.notified ==> r.linked == before
    ensures answer.Answered? && !answer.ok ==> r.alert == (if answer.text == "" then MsgLinkFailed else answer.text)
    ensures answer.Thrown? ==> r.alert == (if answer.message == "" then MsgLinkError else answer.message)
    ensures r.alert != ""
  {
    match answer
    case Answered(ok, text, key, name) =>
      if ok then LinkDone(Linked(key, name), MsgLinked, true)
      else LinkDone(before, if text == "" then MsgLinkFailed else text, false)
    case Thrown(message) =>
      LinkDone(before, if message == "" then MsgLinkError else message, false)
  }

  /** The button's label. */
  function LinkLabel(linked: Linked): (r: string)
    ensures r == "Linked to Release" <==> Truthy(linked.key)
    ensures r == "Link Release" <==> !Truthy(linked.key)
  {
    if Truthy(linked.key) then "Linked to Release" else "Link Release"
  }

  /** After a successful link the label says linked exactly when the reply
      carried a non-empty plan key; a failed link leaves the label as it was. */
  lemma LinkLabelAfterReply(before: Linked, answer: LinkAnswer)
    ensures answer.Answered? && answer.ok ==>
      (LinkLabel(CompleteLink(before, answer).linked) == "Linked to Release" <==> Truthy(answer.planKey))
    ensures !(answer.Answered? && answer.ok) ==>
      LinkLabel(CompleteLink(before, answer).linked) == LinkLabel(before)
  {
  }
}
