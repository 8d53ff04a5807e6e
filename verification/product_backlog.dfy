/** The product backlog view: story selection, the sprint-ready split of
    the selection, the Jira connection form, the export run and its
    redirect, and the merge of a card's update into the local list. Each
    export request's outcome is an input. */
module ProductBacklog {
  import opened Wrappers
  import opened Text
  import opened Seqs

  /** A story as the view holds it; optional members are `None` when undefined. */
  datatype ClientStory = ClientStory(
    id: int,
    title: string,
    points: Option<int>,
    tags: Option<seq<string>>,
    isMvp: Option<bool>,
    isStarred: Option<bool>,
    isSprintReady: Option<bool>)

  /** JavaScript truthiness of an optional flag. */
  predicate Flag(b: Option<bool>) {
    b == Some(true)
  }

  // ---------------------------------------------------------------- selection

  /** The selection toggle: checking appends the id, unchecking removes
      every occurrence of it. */
  function ToggleSelection(selected: seq<int>, id: int, checked: bool): (r: seq<int>)
    ensures checked ==> r == selected + [id]
    ensures !checked ==> id !in r && multiset(r) == multiset(selected)[id := 0]
    ensures checked <==> id in r
  {
    if checked then selected + [id] else RemoveAll(selected, id)
  }

  /** Unchecking a story that was checked once restores the selection that
      preceded the check. */
  lemma CheckThenUncheck(selected: seq<int>, id: int)
    requires id !in selected
    ensures ToggleSelection(ToggleSelection(selected, id, true), id, false) == selected
  {
    RemoveAppended(selected, id);
  }

  predicate Selected(selected: seq<int>, s: ClientStory) {
    s.id in selected
  }

  predicate Ready(s: ClientStory) {
    Flag(s.isSprintReady)
  }

  predicate NotReady(s: ClientStory) {
    !Flag(s.isSprintReady)
  }

  /** The selected stories, in the order of the local list. */
  function SelectedStories(local: seq<ClientStory>, selected: seq<int>): (r: seq<ClientStory>)
    ensures forall s :: s in r <==> s in local && s.id in selected
  {
    Keep(local, s => Selected(selected, s))
  }

  function ReadySelections(local: seq<ClientStory>, selected: seq<int>): seq<ClientStory> {
    Keep(SelectedStories(local, selected), Ready)
  }

  function NotReadySelections(local: seq<ClientStory>, selected: seq<int>): seq<ClientStory> {
    Keep(SelectedStories(local, selected), NotReady)
  }

  /** The two lists split the selection: each is an ordered subsequence of
      it, every story lands in exactly one of them according to its flag,
      and together they hold each selected story as often as the selection. */
  lemma SplitOfSelection(local: seq<ClientStory>, selected: seq<int>)
    ensures var sel := SelectedStories(local, selected);
      var ready := ReadySelections(local, selected);
      var notReady := NotReadySelections(local, selected);
      && Subsequence(ready, sel) && Subsequence(notReady, sel)
      && multiset(ready) + multiset(notReady) == multiset(sel)
      && (forall s :: s in ready <==> s in sel && Flag(s.isSprintReady))
      && (forall s :: s in notReady <==> s in sel && !Flag(s.isSprintReady))
  {
    var sel := SelectedStories(local, selected);
    KeepSubsequence(sel, Ready);
    KeepSubsequence(sel, NotReady);
    KeepPartition(sel, Ready, NotReady);
  }

  /** The export button is enabled when something is selected and no
      selected story is not sprint-ready. */
  predicate ExportEnabled(local: seq<ClientStory>, selected: seq<int>) {
    |selected| > 0 && |NotReadySelections(local, selected)| == 0
  }

  /** With the button enabled, every selected story present in the list is
      sprint-ready and is exported. */
  lemma EnabledExportsAllSelected(local: seq<ClientStory>, selected: seq<int>)
    requires ExportEnabled(local, selected)
    ensures forall s :: s in local && s.id in selected ==> Flag(s.isSprintReady) && s in ReadySelections(local, selected)
  {
    SplitOfSelection(local, selected);
  }

  // ---------------------------------------------------------------- form

  datatype JiraForm = JiraForm(baseUrl: string, userEmail: string, apiToken: string, projectKey: string)

  const EmptyForm := JiraForm("", "", "", "")

  /** A required field: non-empty after trimming. */
  predicate Filled(s: string) {
    JsTrim(s) != []
  }

  /** The form is complete when all four fields are filled. */
  predicate FormComplete(f: JiraForm) {
    Filled(f.baseUrl) && Filled(f.userEmail) && Filled(f.apiToken) && Filled(f.projectKey)
  }

  /** A character that is not ECMAScript whitespace. */
  predicate HasVisible(s: string) {
    exists i :: 0 <= i < |s| && !IsJsWhitespace(s[i])
  }

  /** A field passes exactly when it has a character that is not
      ECMAScript whitespace; the empty form is never complete. */
  lemma FormCompleteIff(f: JiraForm)
    ensures FormComplete(f) <==>
      HasVisible(f.baseUrl) && HasVisible(f.userEmail) && HasVisible(f.apiToken) && HasVisible(f.projectKey)
  {
    FilledIff(f.baseUrl);
    FilledIff(f.userEmail);
    FilledIff(f.apiToken);
    FilledIff(f.projectKey);
  }

  lemma FilledIff(s: string)
    ensures Filled(s) <==> HasVisible(s)
  {
    JsTrimNonEmptyIff(s);
  }

  /** The form as the export button resets it is never complete. */
  lemma EmptyFormIncomplete()
    ensures !FormComplete(EmptyForm)
  {
    FilledIff("");
  }

  // ---------------------------------------------------------------- export run

  /** What one export request did: a 2xx answer with its optional URLs, a
      non-2xx answer with its body text, or a thrown error with its message. */
  datatype ExportOutcome =
    | Exported(browseUrl: Option<string>, selfUrl: Option<string>)
    | Refused(body: string)
    | Thrown(message: string)

  /** The message the run records for a failed request. */
  function FailureMessage(id: int, o: ExportOutcome): (m: string)
    requires !o.Exported?
    ensures |m| > 0
  {
    var thrown := if o.Refused? then
      (if |o.body| > 0 then o.body else "Failed to export story #" + IntToString(id) + " to Jira")
      else o.message;
    if |thrown| > 0 then thrown else "Failed to export stories to Jira."
  }

  /** The stories sent, the answers collected and the error, if any. */
  datatype Run = Run(sent: seq<int>, answers: seq<ExportOutcome>, error: Option<string>)

  /** The export loop: stories one at a time, in order, stopping at the
      first failure. `outcomes[k]` is what the k-th request does. */
  function ExportRun(stories: seq<ClientStory>, outcomes: seq<ExportOutcome>): Run
    requires |outcomes| == |stories|
  {
    if |stories| == 0 then Run([], [], None)
    else if !outcomes[0].Exported? then Run([stories[0].id], [], Some(FailureMessage(stories[0].id, outcomes[0])))
    else
      var rest := ExportRun(stories[1..], outcomes[1..]);
      Run([stories[0].id] + rest.sent, [outcomes[0]] + rest.answers, rest.error)
  }

  /** The run sends a prefix of the stories' ids in order. Without a failure
      it sends all of them and collects every answer; otherwise it stops
      right after the first failing request and records that request's
      message. */
  lemma ExportRunMeaning(stories: seq<ClientStory>, outcomes: seq<ExportOutcome>)
    requires |outcomes| == |stories|
    ensures var r := ExportRun(stories, outcomes);
      && |r.sent| <= |stories|
      && (forall i :: 0 <= i < |r.sent| ==> r.sent[i] == stories[i].id)
      && (r.error.None? <==> forall k :: 0 <= k < |outcomes| ==> outcomes[k].Exported?)
      && (r.error.None? ==> |r.sent| == |stories| && r.answers == outcomes)
      && (r.error.Some? ==>
            && 0 < |r.sent|
            && !outcomes[|r.sent| - 1].Exported?
            && (forall k :: 0 <= k < |r.sent| - 1 ==> outcomes[k].Exported?)
            && r.error == Some(FailureMessage(stories[|r.sent| - 1].id, outcomes[|r.sent| - 1])))
  {
    ExportRunSent(stories, outcomes);
    ExportRunClean(stories, outcomes);
    ExportRunStop(stories, outcomes);
  }

  /** The ids sent are a prefix of the stories', in order. */
  lemma {:induction false} ExportRunSent(stories: seq<ClientStory>, outcomes: seq<ExportOutcome>)
    requires |outcomes| == |stories|
    ensures var r := ExportRun(stories, outcomes);
      && |r.sent| <= |stories|
      && (forall i :: 0 <= i < |r.sent| ==> r.sent[i] == stories[i].id)
  {
    if |stories| > 0 && outcomes[0].Exported? {
      ExportRunSent(stories[1..], outcomes[1..]);
    }
  }

  /** The run ends without an error exactly when every request succeeds,
      and then every story is sent and every answer kept. */
  lemma {:induction false} ExportRunClean(stories: seq<ClientStory>, outcomes: seq<ExportOutcome>)
    requires |outcomes| == |stories|
    ensures var r := ExportRun(stories, outcomes);
      && (r.error.None? <==> forall k :: 0 <= k < |outcomes| ==> outcomes[k].Exported?)
      && (r.error.None? ==> |r.sent| == |stories| && r.answers == outcomes)
  {
    if |stories| > 0 && outcomes[0].Exported? {
      ExportRunClean(stories[1..], outcomes[1..]);
      assert forall k :: 1 <= k < |outcomes| ==> outcomes[k] == outcomes[1..][k - 1];
      assert outcomes == [outcomes[0]] + outcomes[1..];
    }
  }

  /** A failed run stops right after the first failing request, with that
      request's message. */
  lemma {:induction false} ExportRunStop(stories: seq<ClientStory>, outcomes: seq<ExportOutcome>)
    requires |outcomes| == |stories|
    ensures var r := ExportRun(stories, outcomes);
      r.error.Some? ==>
        && 0 < |r.sent| <= |stories|
        && !outcomes[|r.sent| - 1].Exported?
        && (forall k :: 0 <= k < |r.sent| - 1 ==> outcomes[k].Exported?)
        && r.error == Some(FailureMessage(stories[|r.sent| - 1].id, outcomes[|r.sent| - 1]))
  {
    if |stories| > 0 && outcomes[0].Exported? {
      ExportRunStop(stories[1..], outcomes[1..]);
      ExportRunSent(stories[1..], outcomes[1..]);
      assert forall k :: 1 <= k < |outcomes| ==> outcomes[k] == outcomes[1..][k - 1];
      assert forall k :: 1 <= k < |stories| ==> stories[k] == stories[1..][k - 1];
    }
  }

  /** A run preceded by requests already sent and answered. */
  function After(sent: seq<int>, answers: seq<ExportOutcome>, rest: Run): Run {
    Run(sent + rest.sent, answers + rest.answers, rest.error)
  }

  /** One step of the run from position `k`. */
  lemma ExportRunFrom(stories: seq<ClientStory>, outcomes: seq<ExportOutcome>, k: nat)
    requires |outcomes| == |stories| && k < |stories|
    ensures !outcomes[k].Exported? ==>
      ExportRun(stories[k..], outcomes[k..]) == Run([stories[k].id], [], Some(FailureMessage(stories[k].id, outcomes[k])))
    ensures outcomes[k].Exported? ==>
      ExportRun(stories[k..], outcomes[k..]) == After([stories[k].id], [outcomes[k]], ExportRun(stories[k + 1..], outcomes[k + 1..]))
  {
    assert stories[k..][1..] == stories[k + 1..];
    assert outcomes[k..][1..] == outcomes[k + 1..];
  }

  /** The loop as the component runs it. */
  method ExportLoop(stories: seq<ClientStory>, outcomes: seq<ExportOutcome>) returns (r: Run)
    requires |outcomes| == |stories|
    ensures r == ExportRun(stories, outcomes)
  {
    var sent: seq<int> := [];
    var answers: seq<ExportOutcome> := [];
    var k := 0;
    assert stories[0..] == stories && outcomes[0..] == outcomes;
    while k < |stories|
      invariant 0 <= k <= |stories|
      invariant ExportRun(stories, outcomes) == After(sent, answers, ExportRun(stories[k..], outcomes[k..]))
    {
      ExportRunFrom(stories, outcomes, k);
      if !outcomes[k].Exported? {
        assert answers + [] == answers;
        return Run(sent + [stories[k].id], answers, Some(FailureMessage(stories[k].id, outcomes[k])));
      }
      assert sent + ([stories[k].id] + ExportRun(stories[k + 1..], outcomes[k + 1..]).sent)
          == (sent + [stories[k].id]) + ExportRun(stories[k + 1..], outcomes[k + 1..]).sent;
      assert answers + ([outcomes[k]] + ExportRun(stories[k + 1..], outcomes[k + 1..]).answers)
          == (answers + [outcomes[k]]) + ExportRun(stories[k + 1..], outcomes[k + 1..]).answers;
      sent := sent + [stories[k].id];
      answers := answers + [outcomes[k]];
      k := k + 1;
    }
    assert stories[k..] == [] && outcomes[k..] == [];
    assert sent + [] == sent && answers + [] == answers;
    return Run(sent, answers, None);
  }

  /** The first answer whose browse URL is truthy, else the first whose self
      URL is truthy. */
  function RedirectUrl(answers: seq<ExportOutcome>): (r: Option<string>)
    requires forall k :: 0 <= k < |answers| ==> answers[k].Exported?
    ensures r.Some? ==> |r.value| > 0
    ensures (exists k :: 0 <= k < |answers| && Truthy(answers[k].browseUrl)) ==>
      (r.Some? && (exists k :: 0 <= k < |answers| && answers[k].browseUrl == r
                           && forall j :: 0 <= j < k ==> !Truthy(answers[j].browseUrl)))
    ensures r.None? <==> forall k :: 0 <= k < |answers| ==> !Truthy(answers[k].browseUrl) && !Truthy(answers[k].selfUrl)
    ensures (forall k :: 0 <= k < |answers| ==> !Truthy(answers[k].browseUrl)) && r.Some? ==>
      exists k :: 0 <= k < |answers| && answers[k].selfUrl == r
                  && forall j :: 0 <= j < k ==> !Truthy(answers[j].selfUrl)
  {
    match FirstTruthy(answers, true)
    case Some(k) => answers[k].browseUrl
    case None =>
      match FirstTruthy(answers, false)
      case Some(k) => answers[k].selfUrl
      case None => None
  }

  /** The first answer with a truthy browse URL (`browse`) or self URL. */
  function FirstTruthy(answers: seq<ExportOutcome>, browse: bool): (r: Option<nat>)
    requires forall k :: 0 <= k < |answers| ==> answers[k].Exported?
    ensures r.Some? ==>
      && r.value < |answers|
      && Truthy(if browse then answers[r.value].browseUrl else answers[r.value].selfUrl)
      && forall j :: 0 <= j < r.value ==> !Truthy(if browse then answers[j].browseUrl else answers[j].selfUrl)
    ensures r.None? ==> forall j :: 0 <= j < |answers| ==> !Truthy(if browse then answers[j].browseUrl else answers[j].selfUrl)
  {
    if |answers| == 0 then None
    else if Truthy(if browse then answers[0].browseUrl else answers[0].selfUrl) then Some(0)
    else
      match FirstTruthy(answers[1..], browse)
      case None => None
      case Some(k) => Some(k + 1)
  }

  /** What pressing Confirm leads to. */
  datatype ConfirmResult =
    | Ignored
    | FormError(message: string)
    | Finished(run: Run, target: Option<string>)

  const MsgFormIncomplete := "Please fill in all required Jira connection details."

  /** `handleConfirmExport`: nothing without a sprint-ready selection or while
      an export runs; an incomplete form only sets its error; otherwise the
      run, and after a run without error the redirect target: the configured
      URL when it is non-empty after trimming, else the answers' URL. */
  function ConfirmExport(local: seq<ClientStory>, selected: seq<int>, isExporting: bool, form: JiraForm,
                         outcomes: seq<ExportOutcome>, configuredUrl: Option<string>): (r: ConfirmResult)
    requires |outcomes| == |ReadySelections(local, selected)|
    ensures (|ReadySelections(local, selected)| == 0 || isExporting) ==> r == Ignored
    ensures r.FormError? <==> |ReadySelections(local, selected)| > 0 && !isExporting && !FormComplete(form)
    ensures r.FormError? ==> r.message == MsgFormIncomplete
    ensures r.Finished? ==> r.run == ExportRun(ReadySelections(local, selected), outcomes)
    ensures r.Finished? && r.run.error.Some? ==> r.target.None?
    ensures |ReadySelections(local, selected)| > 0 && !isExporting && FormComplete(form) ==> r.Finished?
    ensures r.Finished? && r.run.error.None? ==>
      r.run.answers == outcomes && forall k :: 0 <= k < |outcomes| ==> outcomes[k].Exported?
    ensures (r.Finished? && r.run.error.None? && configuredUrl.Some? && JsTrim(configuredUrl.value) != []) ==>
      r.target == Some(JsTrim(configuredUrl.value))
    ensures (r.Finished? && r.run.error.None? && !(configuredUrl.Some? && JsTrim(configuredUrl.value) != [])) ==>
      r.target == RedirectUrl(r.run.answers)
  {
    var ready := ReadySelections(local, selected);
    if |ready| == 0 || isExporting then Ignored
    else if !FormComplete(form) then FormError(MsgFormIncomplete)
    else
      var run := ExportRun(ready, outcomes);
      ExportRunMeaning(ready, outcomes);
      if run.error.Some? then Finished(run, None)
      else
        var env := if configuredUrl.Some? then Some(JsTrim(configuredUrl.value)) else None;
        Finished(run, if Truthy(env) then env else RedirectUrl(run.answers))
  }

  /** The answers' redirect, level by level: the browse URL of the first
      answer that has one; else the self URL of the first answer that has
      one; else none. */
  lemma {:induction false} RedirectLevels(answers: seq<ExportOutcome>)
    requires forall k :: 0 <= k < |answers| ==> answers[k].Exported?
    ensures forall i :: (0 <= i < |answers| && Truthy(answers[i].browseUrl)
                         && (forall j :: 0 <= j < i ==> !Truthy(answers[j].browseUrl))) ==>
                        RedirectUrl(answers) == answers[i].browseUrl
    ensures forall i :: (0 <= i < |answers| && Truthy(answers[i].selfUrl)
                         && (forall j :: 0 <= j < |answers| ==> !Truthy(answers[j].browseUrl))
                         && (forall j :: 0 <= j < i ==> !Truthy(answers[j].selfUrl))) ==>
                        RedirectUrl(answers) == answers[i].selfUrl
    ensures (forall j :: 0 <= j < |answers| ==> !Truthy(answers[j].browseUrl) && !Truthy(answers[j].selfUrl)) ==>
      RedirectUrl(answers).None?
  {
    forall i | 0 <= i < |answers| && Truthy(answers[i].browseUrl)
                && (forall j :: 0 <= j < i ==> !Truthy(answers[j].browseUrl))
      ensures RedirectUrl(answers) == answers[i].browseUrl
    {
      FirstTruthyIs(answers, true, i);
    }
    forall i | 0 <= i < |answers| && Truthy(answers[i].selfUrl)
                && (forall j :: 0 <= j < |answers| ==> !Truthy(answers[j].browseUrl))
                && (forall j :: 0 <= j < i ==> !Truthy(answers[j].selfUrl))
      ensures RedirectUrl(answers) == answers[i].selfUrl
    {
      FirstTruthyIs(answers, false, i);
    }
  }

  /** After a clean export of a ready selection with a complete form, the
      target is the configured URL when it is non-empty after trimming, and
      otherwise the answers' redirect. */
  lemma RedirectOrder(local: seq<ClientStory>, selected: seq<int>, form: JiraForm,
                      outcomes: seq<ExportOutcome>, configuredUrl: Option<string>)
    requires |outcomes| == |ReadySelections(local, selected)| > 0
    requires FormComplete(form)
    requires forall k :: 0 <= k < |outcomes| ==> outcomes[k].Exported?
    ensures var r := ConfirmExport(local, selected, false, form, outcomes, configuredUrl);
      && r.Finished? && r.run.error.None?
      && (configuredUrl.Some? && JsTrim(configuredUrl.value) != [] ==> r.target == Some(JsTrim(configuredUrl.value)))
      && (!(configuredUrl.Some? && JsTrim(configuredUrl.value) != []) ==> r.target == RedirectUrl(outcomes))
  {
    ExportRunClean(ReadySelections(local, selected), outcomes);
  }

  /** The first truthy position is unique. */
  lemma FirstTruthyIs(answers: seq<ExportOutcome>, browse: bool, i: nat)
    requires forall k :: 0 <= k < |answers| ==> answers[k].Exported?
    requires i < |answers| && Truthy(if browse then answers[i].browseUrl else answers[i].selfUrl)
    requires forall j :: 0 <= j < i ==> !Truthy(if browse then answers[j].browseUrl else answers[j].selfUrl)
    ensures FirstTruthy(answers, browse) == Some(i)
  {
  }

  // ---------------------------------------------------------------- update merge

  /** A card's updated story as the server returns it; `None` is an absent
      or null member. Server and client spellings both occur. */
  datatype StoryUpdate = StoryUpdate(
    id: int,
    title: Option<string>,
    storyPoints: Option<int>,
    points: Option<int>,
    tags: Option<seq<string>>,
    mvp: Option<bool>,
    isMvp: Option<bool>,
    sprintReady: Option<bool>,
    isSprintReady: Option<bool>,
    isStarred: Option<bool>)

  /** `a ?? b`. */
  function Coalesce<T>(a: Option<T>, b: Option<T>): (r: Option<T>)
    ensures a.Some? ==> r == a
    ensures a.None? ==> r == b
  {
    if a.Some? then a else b
  }

  /** The merged story: the update spread over the old one, then points,
      tags and the three flags taken from the server spelling, else the
      client spelling, else the old value. */
  function MergeUpdate(s: ClientStory, u: StoryUpdate): (r: ClientStory)
    ensures r.id == u.id
    ensures u.storyPoints.Some? ==> r.points == u.storyPoints
    ensures u.storyPoints.None? && u.points.Some? ==> r.points == u.points
    ensures u.storyPoints.None? && u.points.None? ==> r.points == s.points
    ensures u.sprintReady.Some? ==> r.isSprintReady == u.sprintReady
    ensures u.sprintReady.None? && u.isSprintReady.Some? ==> r.isSprintReady == u.isSprintReady
    ensures u.sprintReady.None? && u.isSprintReady.None? ==> r.isSprintReady == s.isSprintReady
    ensures u.title.Some? ==> r.title == u.title.value
    ensures u.title.None? ==> r.title == s.title
    ensures u.tags.Some? ==> r.tags == u.tags
    ensures u.tags.None? ==> r.tags == s.tags
    ensures u.mvp.Some? ==> r.isMvp == u.mvp
    ensures u.mvp.None? && u.isMvp.Some? ==> r.isMvp == u.isMvp
    ensures u.mvp.None? && u.isMvp.None? ==> r.isMvp == s.isMvp
    ensures u.isStarred.Some? ==> r.isStarred == u.isStarred
    ensures u.isStarred.None? ==> r.isStarred == s.isStarred
  {
    ClientStory(
      u.id,
      u.title.GetOr(s.title),
      Coalesce(u.storyPoints, Coalesce(u.points, s.points)),
      Coalesce(u.tags, s.tags),
      Coalesce(u.mvp, Coalesce(u.isMvp, s.isMvp)),
      Coalesce(u.isStarred, s.isStarred),
      Coalesce(u.sprintReady, Coalesce(u.isSprintReady, s.isSprintReady)))
  }

  /** `onUpdate`: the stories with the update's id are merged, the rest kept. */
  function OnUpdate(local: seq<ClientStory>, u: StoryUpdate): (r: seq<ClientStory>)
    ensures |r| == |local|
    ensures forall i :: 0 <= i < |local| ==> r[i].id == local[i].id
    ensures forall i :: 0 <= i < |local| && local[i].id != u.id ==> r[i] == local[i]
    ensures forall i :: 0 <= i < |local| && local[i].id == u.id ==> r[i] == MergeUpdate(local[i], u)
  {
    seq(|local|, i requires 0 <= i < |local| => if local[i].id == u.id then MergeUpdate(local[i], u) else local[i])
  }

  /** Applying the same update twice leaves what applying it once does. */
  lemma OnUpdateIdempotent(local: seq<ClientStory>, u: StoryUpdate)
    ensures OnUpdate(OnUpdate(local, u), u) == OnUpdate(local, u)
  {
    var once := OnUpdate(local, u);
    var twice := OnUpdate(once, u);
    forall i | 0 <= i < |local|
      ensures twice[i] == once[i]
    {
      if local[i].id == u.id {
        assert twice[i] == MergeUpdate(MergeUpdate(local[i], u), u);
      }
    }
  }

  // ---------------------------------------------------------------- card checkbox

  /** A click on a card's checkbox: the story's id and the box's new state. */
  datatype Click = Click(id: int, checked: bool)

  /** The checkbox as the card is written: its `onChange` sets the card's
      own `isChecked` and nothing else. The card neither declares nor calls
      the `onToggleCheck` the backlog passes it, so the backlog's selection
      is returned as it was. The first component is the card's own flag. */
  function CheckboxAsWritten(selected: seq<int>, c: Click): (r: (bool, seq<int>))
    ensures r.0 == c.checked
    ensures r.1 == selected
  {
    (c.checked, selected)
  }

  /** The backlog's selection after a series of clicks, as written. */
  function ClicksAsWritten(selected: seq<int>, clicks: seq<Click>): seq<int> {
    if |clicks| == 0 then selected
    else ClicksAsWritten(CheckboxAsWritten(selected, clicks[0]).1, clicks[1..])
  }

  /** As written, no series of clicks selects anything: the selection stays
      empty, the export button stays disabled, and Confirm is ignored
      whatever the form says. */
  lemma {:induction false} CheckboxNeverSelects(local: seq<ClientStory>, clicks: seq<Click>, isExporting: bool,
                                                 form: JiraForm, configuredUrl: Option<string>)
    ensures ClicksAsWritten([], clicks) == []
    ensures !ExportEnabled(local, ClicksAsWritten([], clicks))
    ensures ConfirmExport(local, ClicksAsWritten([], clicks), isExporting, form, [], configuredUrl) == Ignored
  {
    if |clicks| > 0 {
      CheckboxNeverSelects(local, clicks[1..], isExporting, form, configuredUrl);
    }
    NothingSelected(local);
  }

  /** An empty selection selects no story. */
  lemma {:induction false} NothingSelected(local: seq<ClientStory>)
    ensures SelectedStories(local, []) == []
  {
    if |local| > 0 {
      NothingSelected(local[1..]);
    }
  }

  /** The checkbox as the backlog expects it: the click toggles the story in
      the backlog's selection through `onToggleCheck`. */
  function Checkbox(selected: seq<int>, c: Click): (r: seq<int>)
    ensures c.checked ==> c.id in r && multiset(r) == multiset(selected) + multiset{c.id}
    ensures !c.checked ==> c.id !in r && multiset(r) == multiset(selected)[c.id := 0]
  {
    ToggleSelection(selected, c.id, c.checked)
  }

  /** Selecting one id whose stories are all sprint-ready enables the
      export and leaves a ready story to send. */
  lemma OneReadySelected(local: seq<ClientStory>, story: ClientStory)
    requires story in local && Ready(story)
    requires forall s :: s in local && s.id == story.id ==> Ready(s)
    ensures ExportEnabled(local, [story.id])
    ensures |ReadySelections(local, [story.id])| > 0
  {
    var sel := SelectedStories(local, [story.id]);
    KeepNone(sel, NotReady);
    assert story in sel;
    var i :| 0 <= i < |sel| && sel[i] == story;
    assert sel[i] in Keep(sel, Ready);
  }

  /** With the corrected checkbox, checking one sprint-ready story enables
      the export, and Confirm with a complete form runs the export. */
  lemma CheckedReadyStoryExports(local: seq<ClientStory>, story: ClientStory, form: JiraForm,
                                 outcomes: seq<ExportOutcome>, configuredUrl: Option<string>)
    requires story in local && Ready(story)
    requires forall s :: s in local && s.id == story.id ==> Ready(s)
    requires FormComplete(form)
    requires |outcomes| == |ReadySelections(local, Checkbox([], Click(story.id, true)))|
    ensures ExportEnabled(local, Checkbox([], Click(story.id, true)))
    ensures ConfirmExport(local, Checkbox([], Click(story.id, true)), false, form, outcomes, configuredUrl).Finished?
  {
    assert Checkbox([], Click(story.id, true)) == [story.id];
    OneReadySelected(local, story);
  }
}
