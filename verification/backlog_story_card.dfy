/** A backlog story card: its colour classes, the estimate guard, and the
    optimistic star and sprint-ready toggles with rollback. Each toggle is a
    click, which flips the flag at once and issues a request, followed by
    the request's completion. */
module BacklogStoryCard {
  import opened Wrappers
  import opened Text
  import UserStoryService
  import Domain

  /** `getPriorityColor`. */
  function PriorityClass(priority: string): (r: string)
    ensures priority in {"low", "medium", "high", "critical"} ==> r == "priority-" + priority
    ensures priority !in {"low", "medium", "high", "critical"} ==> r == "priority-medium"
  {
    if priority == "low" then "priority-low"
    else if priority == "medium" then "priority-medium"
    else if priority == "high" then "priority-high"
    else if priority == "critical" then "priority-critical"
    else "priority-medium"
  }

  /** The class always names one of the four known priorities, and that
      name maps back to the same class. */
  lemma PriorityClassNamesPriority(priority: string)
    ensures var c := PriorityClass(priority);
      && |c| > 9 && c[..9] == "priority-"
      && c[9..] in {"low", "medium", "high", "critical"}
      && PriorityClass(c[9..]) == c
  {
  }

  /** Distinct known priorities get distinct classes; every other value
      looks like "medium". */
  lemma PriorityClassSeparates(p: string, q: string)
    requires p in {"low", "medium", "high", "critical"} && q in {"low", "medium", "high", "critical"}
    ensures PriorityClass(p) == PriorityClass(q) <==> p == q
  {
    assert ("priority-" + p)[9..] == p;
    assert ("priority-" + q)[9..] == q;
  }

  /** `getStatusColor`: substring tests on the lower-cased status, in the
      order progress, todo, backlog, done. */
  function StatusClass(status: string): (r: string)
    ensures Contains(Lower(status), "progress") ==> r == "status-in-progress"
    ensures !Contains(Lower(status), "progress") && Contains(Lower(status), "todo") ==> r == "status-todo"
    ensures (!Contains(Lower(status), "progress") && !Contains(Lower(status), "todo")
             && Contains(Lower(status), "backlog")) ==> r == "status-backlog"
    ensures (!Contains(Lower(status), "progress") && !Contains(Lower(status), "todo")
             && !Contains(Lower(status), "backlog") && Contains(Lower(status), "done")) ==> r == "status-done"
    ensures r in {"status-in-progress", "status-todo", "status-backlog", "status-done"}
  {
    var s := Lower(status);
    if Contains(s, "progress") then "status-in-progress"
    else if Contains(s, "todo") then "status-todo"
    else if Contains(s, "backlog") then "status-backlog"
    else if Contains(s, "done") then "status-done"
    else "status-todo"
  }

  /** The class does not depend on letter case: upper- or lower-casing the
      status first gives the same class. */
  lemma StatusClassIgnoresCase(status: string)
    ensures StatusClass(Upper(status)) == StatusClass(status)
    ensures StatusClass(Lower(status)) == StatusClass(status)
  {
    assert Lower(Upper(status)) == Lower(status);
    assert Lower(Lower(status)) == Lower(status);
  }

  /** The lower-cased text holds the lower-cased word wherever the word
      occurs. */
  lemma WordSurvivesLower(before: string, word: string, after: string)
    ensures OccursAt(Lower(before + word + after), Lower(word), |before|)
  {
    var s := before + word + after;
    assert Lower(s)[|before|..|before| + |word|] == Lower(word);
  }

  /** "progress" anywhere, in any case, wins over the other words: the
      first test decides. */
  lemma ProgressWins(before: string, after: string)
    ensures StatusClass(before + "progress" + after) == "status-in-progress"
  {
    WordSurvivesLower(before, "progress", after);
    assert Lower("progress") == "progress";
  }

  // ---------------------------------------------------------------- estimate

  const MsgPointsPositive := "Story points must be greater than zero"
  const MsgEstimateFailed := "Could not update estimation"

  /** What saving an estimate leads to: refused locally, or the request
      (its story points) and the card's points and error after it. */
  datatype EstimateResult =
    | Rejected(message: string)
    | Sent(requested: int, points: int, error: Option<string>)

  /** `updateEstimation`, given the server's answer: `answered` tells
      whether a 2xx answer came back, and `serverPoints` is the story points
      it carried, if any. */
  function UpdateEstimation(points: int, answered: bool, serverPoints: Option<int>): (r: EstimateResult)
    ensures points <= 0 <==> r.Rejected?
    ensures r.Rejected? ==> r.message == MsgPointsPositive
    ensures r.Sent? ==> r.requested == points
    ensures r.Sent? && answered ==> r.error.None? && r.points == serverPoints.GetOr(points)
    ensures r.Sent? && !answered ==> r.error == Some(MsgEstimateFailed) && r.points == points
  {
    if points <= 0 then Rejected(MsgPointsPositive)
    else if answered then Sent(points, serverPoints.GetOr(points), None)
    else Sent(points, points, Some(MsgEstimateFailed))
  }

  /** Against the server: when the update is accepted, the answer carries
      the stored estimate, so the card shows exactly the points the user
      entered, with no error. */
  lemma EstimateShowsStored(st: Domain.Store, id: nat, points: int, username: string)
    requires points > 0
    requires UserStoryService.UpdateEstimation(st, id, points, username).Success?
    ensures var stored := UserStoryService.UpdateEstimation(st, id, points, username).value;
      && id in stored.stories
      && UpdateEstimation(points, true, stored.stories[id].storyPoints) == Sent(points, points, None)
  {
  }

  // ---------------------------------------------------------------- toggles

  /** The card's flags and in-flight markers. */
  datatype CardState = CardState(isStarred: bool, isSprintReady: bool, togglingStar: bool, togglingSprint: bool)

  /** The state a card starts in: a missing flag reads as false. */
  function InitialState(isStarred: Option<bool>, isSprintReady: Option<bool>): (s: CardState)
    ensures s.isStarred <==> isStarred == Some(true)
    ensures s.isSprintReady <==> isSprintReady == Some(true)
    ensures !s.togglingStar && !s.togglingSprint
  {
    CardState(isStarred == Some(true), isSprintReady == Some(true), false, false)
  }

  /** A star click: ignored while a star toggle is in flight; otherwise the
      star flips at once and a request for the flipped value goes out. */
  function ClickStar(s: CardState): (r: (CardState, Option<bool>))
    ensures s.togglingStar ==> r == (s, None)
    ensures !s.togglingStar ==> r.1 == Some(!s.isStarred) && r.0 == s.(isStarred := !s.isStarred, togglingStar := true)
  {
    if s.togglingStar then (s, None)
    else (s.(isStarred := !s.isStarred, togglingStar := true), Some(!s.isStarred))
  }

  /** The star request completed: on success the server's `isStarred`
      (missing reads as false), on failure the value before the click. */
  function CompleteStar(s: CardState, requested: bool, ok: bool, serverStarred: Option<bool>): (r: CardState)
    ensures !r.togglingStar
    ensures ok ==> r.isStarred == (serverStarred == Some(true))
    ensures !ok ==> r.isStarred == !requested
    ensures r.isSprintReady == s.isSprintReady && r.togglingSprint == s.togglingSprint
  {
    s.(isStarred := if ok then serverStarred == Some(true) else !requested, togglingStar := false)
  }

  /** A failed star toggle leaves the card exactly as it was before the click. */
  lemma StarRollback(s: CardState, serverStarred: Option<bool>)
    requires !s.togglingStar
    ensures var (mid, req) := ClickStar(s);
      req.Some? && CompleteStar(mid, req.value, false, serverStarred) == s
  {
  }

  /** A successful star toggle adopts the server's value, whatever the click flipped. */
  lemma StarAdoptsServer(s: CardState, starred: bool)
    requires !s.togglingStar
    ensures var (mid, req) := ClickStar(s);
      req.Some? && CompleteStar(mid, req.value, true, Some(starred)).isStarred == starred
  {
  }

  /** A sprint-ready click: ignored without permission or while one is in
      flight; otherwise the flag flips at once and a request goes out. */
  function ClickSprintReady(s: CardState, canEdit: bool): (r: (CardState, Option<bool>))
    ensures (!canEdit || s.togglingSprint) ==> r == (s, None)
    ensures canEdit && !s.togglingSprint ==>
      r.1 == Some(!s.isSprintReady) && r.0 == s.(isSprintReady := !s.isSprintReady, togglingSprint := true)
  {
    if !canEdit || s.togglingSprint then (s, None)
    else (s.(isSprintReady := !s.isSprintReady, togglingSprint := true), Some(!s.isSprintReady))
  }

  /** The sprint-ready request completed: the server's `sprintReady` on
      success, the value before the click on failure. */
  function CompleteSprintReady(s: CardState, requested: bool, ok: bool, serverReady: Option<bool>): (r: CardState)
    ensures !r.togglingSprint
    ensures ok ==> r.isSprintReady == (serverReady == Some(true))
    ensures !ok ==> r.isSprintReady == !requested
    ensures r.isStarred == s.isStarred && r.togglingStar == s.togglingStar
  {
    s.(isSprintReady := if ok then serverReady == Some(true) else !requested, togglingSprint := false)
  }

  /** A failed sprint-ready toggle is undone completely. */
  lemma SprintReadyRollback(s: CardState, canEdit: bool, serverReady: Option<bool>)
    requires canEdit && !s.togglingSprint
    ensures var (mid, req) := ClickSprintReady(s, canEdit);
      req.Some? && CompleteSprintReady(mid, req.value, false, serverReady) == s
  {
  }

  /** The star and sprint-ready toggles do not touch each other's state. */
  lemma TogglesIndependent(s: CardState, canEdit: bool)
    ensures ClickStar(s).0.isSprintReady == s.isSprintReady && ClickStar(s).0.togglingSprint == s.togglingSprint
    ensures ClickSprintReady(s, canEdit).0.isStarred == s.isStarred
    ensures ClickSprintReady(s, canEdit).0.togglingStar == s.togglingStar
  {
  }

  /** The sprint-ready button's tooltip. */
  function SprintReadyTooltip(canEdit: bool, isSprintReady: bool): (r: string)
    ensures !canEdit ==> r == "Access Denied"
    ensures canEdit ==> r == if isSprintReady then "Mark as not sprint-ready" else "Mark as sprint-ready"
  {
    if canEdit then (if isSprintReady then "Mark as not sprint-ready" else "Mark as sprint-ready")
    else "Access Denied"
  }

  /** With permission and no toggle in flight, the tooltip offers "Mark as
      sprint-ready" exactly when a click would request true, and after the
      click it offers the opposite. Without permission it reads "Access
      Denied" and a click requests nothing. */
  lemma TooltipNamesTheClick(s: CardState, canEdit: bool)
    requires !s.togglingSprint
    ensures canEdit ==>
      (SprintReadyTooltip(canEdit, s.isSprintReady) == "Mark as sprint-ready"
       <==> ClickSprintReady(s, canEdit).1 == Some(true))
    ensures canEdit ==>
      SprintReadyTooltip(canEdit, ClickSprintReady(s, canEdit).0.isSprintReady)
      != SprintReadyTooltip(canEdit, s.isSprintReady)
    ensures SprintReadyTooltip(canEdit, s.isSprintReady) == "Access Denied"
      <==> ClickSprintReady(s, canEdit).1.None?
  {
  }
}
