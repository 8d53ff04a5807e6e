/** User stories: creation defaults and the story key, the project
    membership gate in front of every read and update, the visible-story
    listing, and the partial updates. */
module UserStoryService {
  import opened Wrappers
  import opened Text
  import opened Domain

  const GlobalKey := "GLOBAL"
  const GlobalProjectId: nat := 1
  const KeyPad: nat := 3

  const MsgTitleRequired := "Title is required"
  const MsgDescriptionRequired := "Description is required"
  const MsgStatusRequired := "Status is required"
  const MsgAccessDenied := "Access denied: You are not a member of this project"

  function UserNotFound(username: string): Error {
    IllegalState("User not found with username: " + username)
  }

  function ProjectNotFound(id: nat): Error {
    IllegalState("Project not found with ID: " + NatToString(id))
  }

  function StoryNotFound(id: nat): Error {
    IllegalArgument("User Story not found with id: " + NatToString(id))
  }

  // ---------------------------------------------------------------- membership

  /** The user is one of the project's members. */
  predicate IsMember(st: Store, username: string, projectId: nat) {
    && FindByUsername(st, username).Some?
    && projectId in st.projects
    && FindByUsername(st, username).value in st.projects[projectId].members
  }

  /** `checkProjectPermission` through `isUserProjectMember`: an unknown user
      or project is an illegal state, a non-member is refused. */
  function CheckPermission(st: Store, username: string, projectId: nat): (r: Result<(), Error>)
    ensures r.Success? <==> IsMember(st, username, projectId)
    ensures FindByUsername(st, username).None? ==> r == Failure(UserNotFound(username))
    ensures FindByUsername(st, username).Some? && projectId !in st.projects ==> r == Failure(ProjectNotFound(projectId))
    ensures FindByUsername(st, username).Some? && projectId in st.projects && !IsMember(st, username, projectId) ==>
      r == Failure(Security(MsgAccessDenied))
  {
    match FindByUsername(st, username)
    case None => Failure(UserNotFound(username))
    case Some(uid) =>
      if projectId !in st.projects then Failure(ProjectNotFound(projectId))
      else if uid !in st.projects[projectId].members then Failure(Security(MsgAccessDenied))
      else Success(())
  }

  /** The story is readable by the user: it has no project, or the user is a member of it. */
  predicate MayRead(st: Store, username: string, s: Story) {
    s.projectId.None? || IsMember(st, username, s.projectId.value)
  }

  /** `getStoryById`: the story must exist; a story with a project passes
      only the membership gate. */
  function GetStory(st: Store, id: nat, username: string): (r: Result<Story, Error>)
    ensures id !in st.stories ==> r == Failure(StoryNotFound(id))
    ensures r.Success? <==> id in st.stories && MayRead(st, username, st.stories[id])
    ensures r.Success? ==> r.value == st.stories[id]
    ensures (id in st.stories && st.stories[id].projectId.Some?
             && CheckPermission(st, username, st.stories[id].projectId.value).Failure?) ==>
      r == Failure(CheckPermission(st, username, st.stories[id].projectId.value).error)
    ensures id in st.stories && st.stories[id].projectId.None? ==> r == Success(st.stories[id])
  {
    if id !in st.stories then Failure(StoryNotFound(id))
    else
      var s := st.stories[id];
      if s.projectId.Some? then
        var _ :- CheckPermission(st, username, s.projectId.value);
        Success(s)
      else Success(s)
  }

  /** A member of a story's project is never refused; a known non-member of
      an existing project always is. */
  lemma GetStorySecurity(st: Store, id: nat, username: string)
    requires id in st.stories && st.stories[id].projectId.Some?
    requires FindByUsername(st, username).Some? && st.stories[id].projectId.value in st.projects
    ensures GetStory(st, id, username).Failure? <==> !IsMember(st, username, st.stories[id].projectId.value)
    ensures GetStory(st, id, username).Failure? ==> GetStory(st, id, username).error == Security(MsgAccessDenied)
  {
  }

  // ---------------------------------------------------------------- create

  /** The story key: the project's key, or "GLOBAL" when it has none, a dash
      and the id padded to three digits. */
  function StoryKey(projectKey: Option<string>, id: nat): (key: string)
    ensures var prefix := projectKey.GetOr(GlobalKey) + "-";
      && |key| >= |prefix| && key[..|prefix|] == prefix
      && AllDigits(key[|prefix|..]) && DigitsValue(key[|prefix|..]) == id
      && |key[|prefix|..]| >= KeyPad
  {
    var prefix := projectKey.GetOr(GlobalKey) + "-";
    var key := prefix + ZeroPad(id, KeyPad);
    assert key[|prefix|..] == ZeroPad(id, KeyPad);
    key
  }

  /** Within one project, distinct stories get distinct keys. */
  lemma StoryKeyInjective(projectKey: Option<string>, a: nat, b: nat)
    requires StoryKey(projectKey, a) == StoryKey(projectKey, b)
    ensures a == b
  {
    var prefix := projectKey.GetOr(GlobalKey) + "-";
    assert StoryKey(projectKey, a)[|prefix|..] == StoryKey(projectKey, b)[|prefix|..];
  }

  /** `create`: a non-blank title, then a non-blank description; a missing
      project id falls back to the global project, which must exist. The
      story takes the next id, status NEW, priority MEDIUM unless given,
      and the key built from its project's key. */
  function Create(st: Store, title: Option<string>, description: Option<string>,
                  acceptanceCriteria: Option<string>, businessValue: Option<int>,
                  priority: Option<StoryPriority>, projectId: Option<nat>): (r: Result<(Store, nat), Error>)
    ensures title.None? || IsBlank(title.value) ==> r == Failure(IllegalArgument(MsgTitleRequired))
    ensures (title.Some? && !IsBlank(title.value) && (description.None? || IsBlank(description.value))) ==>
      r == Failure(IllegalArgument(MsgDescriptionRequired))
    ensures r.Success? <==>
      && title.Some? && !IsBlank(title.value)
      && description.Some? && !IsBlank(description.value)
      && projectId.GetOr(GlobalProjectId) in st.projects
    ensures r.Success? ==>
      var (st', id) := r.value;
      var pid := projectId.GetOr(GlobalProjectId);
      && id == st.nextStoryId && st'.nextStoryId == id + 1
      && id in st'.stories && st'.stories == st.stories[id := st'.stories[id]]
      && st'.stories[id].title == title.value
      && st'.stories[id].description == description
      && st'.stories[id].acceptanceCriteria == acceptanceCriteria
      && st'.stories[id].businessValue == businessValue
      && st'.stories[id].priority == Some(priority.GetOr(Medium))
      && st'.stories[id].status == New
      && st'.stories[id].projectId == Some(pid)
      && st'.stories[id].storyKey == Some(StoryKey(st.projects[pid].projectKey, id))
      && !st'.stories[id].sprintReady && !st'.stories[id].isStarred && !st'.stories[id].isMvp
      && st'.stories[id].releasePlanId.None? && st'.stories[id].createdBy.None?
      && st'.stories[id].assignedTo.None? && st'.stories[id].storyPoints.None?
      && st'.stories[id].asA.None? && st'.stories[id].iWant.None? && st'.stories[id].soThat.None?
      && st'.users == st.users && st'.projects == st.projects && st'.plans == st.plans
      && st' == st.(stories := st'.stories, nextStoryId := id + 1)
  {
    if title.None? || IsBlank(title.value) then Failure(IllegalArgument(MsgTitleRequired))
    else if description.None? || IsBlank(description.value) then Failure(IllegalArgument(MsgDescriptionRequired))
    else
      var pid := projectId.GetOr(GlobalProjectId);
      if pid !in st.projects then Failure(ProjectNotFound(pid))
      else
        var id := st.nextStoryId;
        var s := NewStory().(
          projectId := Some(pid), title := title.value, description := description,
          acceptanceCriteria := acceptanceCriteria, businessValue := businessValue,
          priority := Some(priority.GetOr(Medium)), status := New,
          storyKey := Some(StoryKey(st.projects[pid].projectKey, id)));
        Success((st.(stories := st.stories[id := s], nextStoryId := id + 1), id))
  }

  /** On a store whose ids all came from the counters, `create` takes an id
      no story has yet and keeps every id below its counter. */
  lemma CreateAllocatesFreshId(st: Store, title: Option<string>, description: Option<string>,
                               acceptanceCriteria: Option<string>, businessValue: Option<int>,
                               priority: Option<StoryPriority>, projectId: Option<nat>)
    requires IdsBelowCounters(st)
    requires Create(st, title, description, acceptanceCriteria, businessValue, priority, projectId).Success?
    ensures st.nextStoryId !in st.stories
    ensures var st' := Create(st, title, description, acceptanceCriteria, businessValue, priority, projectId).value.0;
      && st'.stories - {st.nextStoryId} == st.stories
      && IdsBelowCounters(st')
  {
  }

  // ---------------------------------------------------------------- list

  /** A story the listing shows: it has a project that lists the user as a member. */
  predicate Visible(st: Store, uid: nat, sid: nat) {
    && sid in st.stories
    && st.stories[sid].projectId.Some?
    && st.stories[sid].projectId.value in st.projects
    && uid in st.projects[st.stories[sid].projectId.value].members
  }

  predicate StrictlyAscending(xs: seq<nat>) {
    forall i, j :: 0 <= i < j < |xs| ==> xs[i] < xs[j]
  }

  lemma PrependAscending(a: nat, rest: seq<nat>)
    requires StrictlyAscending(rest)
    requires forall x :: x in rest ==> a < x
    ensures StrictlyAscending([a] + rest)
  {
    forall i, j | 0 <= i < j < |[a] + rest|
      ensures ([a] + rest)[i] < ([a] + rest)[j]
    {
      assert ([a] + rest)[j] == rest[j - 1];
      if i > 0 {
        assert ([a] + rest)[i] == rest[i - 1];
      } else {
        assert rest[j - 1] in rest;
      }
    }
  }

  /** The stream filter of `listAll`, order kept. */
  function KeepVisible(st: Store, uid: nat, ids: seq<nat>): (r: seq<nat>)
    ensures forall x :: x in r <==> x in ids && Visible(st, uid, x)
    ensures StrictlyAscending(ids) ==> StrictlyAscending(r)
  {
    if |ids| == 0 then []
    else
      var rest := KeepVisible(st, uid, ids[1..]);
      assert forall x :: x in rest ==> x in ids[1..];
      if Visible(st, uid, ids[0]) then
        assert StrictlyAscending(ids) ==> StrictlyAscending([ids[0]] + rest) by {
          if StrictlyAscending(ids) {
            assert StrictlyAscending(ids[1..]);
            forall x | x in rest
              ensures ids[0] < x
            {
              var k :| 0 <= k < |ids[1..]| && ids[1..][k] == x;
              assert ids[k + 1] == x;
            }
            PrependAscending(ids[0], rest);
          }
        }
        [ids[0]] + rest
      else rest
  }

  /** `listAll`: the user must exist; the result is exactly the stories
      visible to them, in ascending id order. */
  function ListAll(st: Store, username: string): (r: Result<seq<nat>, Error>)
    ensures FindByUsername(st, username).None? ==> r == Failure(UserNotFound(username))
    ensures r.Success? <==> FindByUsername(st, username).Some?
    ensures r.Success? ==> StrictlyAscending(r.value)
    ensures r.Success? ==>
      forall sid :: sid in r.value <==> Visible(st, FindByUsername(st, username).value, sid)
  {
    match FindByUsername(st, username)
    case None => Failure(UserNotFound(username))
    case Some(uid) => Success(KeepVisible(st, uid, Ascending(st.stories.Keys)))
  }

  /** A story is listed for a user exactly when reading it would pass the
      membership gate, except that stories without a project are readable
      but never listed. */
  lemma ListedAreReadable(st: Store, username: string, sid: nat)
    requires ListAll(st, username).Success?
    ensures sid in ListAll(st, username).value <==>
      sid in st.stories && st.stories[sid].projectId.Some? && GetStory(st, sid, username).Success?
  {
  }

  // ---------------------------------------------------------------- updates

  /** `updateUserStory`: read access first, then a non-blank title and
      description; title, description, acceptance criteria and business
      value are overwritten (with null too), priority only when given. */
  function UpdateUserStory(st: Store, id: nat, title: Option<string>, description: Option<string>,
                           acceptanceCriteria: Option<string>, businessValue: Option<int>,
                           priority: Option<StoryPriority>, username: string): (r: Result<Store, Error>)
    ensures GetStory(st, id, username).Failure? ==> r == GetStory(st, id, username).PropagateFailure()
    ensures r.Success? <==>
      GetStory(st, id, username).Success?
      && title.Some? && !IsBlank(title.value) && description.Some? && !IsBlank(description.value)
    ensures GetStory(st, id, username).Success? && (title.None? || IsBlank(title.value)) ==>
      r == Failure(IllegalArgument(MsgTitleRequired))
    ensures (GetStory(st, id, username).Success? && title.Some? && !IsBlank(title.value)
             && (description.None? || IsBlank(description.value))) ==>
      r == Failure(IllegalArgument(MsgDescriptionRequired))
    ensures r.Success? ==>
      var prev := st.stories[id];
      r.value == st.(stories := st.stories[id := prev.(
        title := title.value, description := description,
        acceptanceCriteria := acceptanceCriteria, businessValue := businessValue,
        priority := if priority.Some? then priority else prev.priority)])
  {
    var s :- GetStory(st, id, username);
    if title.None? || IsBlank(title.value) then Failure(IllegalArgument(MsgTitleRequired))
    else if description.None? || IsBlank(description.value) then Failure(IllegalArgument(MsgDescriptionRequired))
    else
      var s1 := s.(title := title.value, description := description,
                   acceptanceCriteria := acceptanceCriteria, businessValue := businessValue);
      var s2 := if priority.Some? then s1.(priority := priority) else s1;
      Success(st.(stories := st.stories[id := s2]))
  }
  /** Sending a story's own text fields back, with no priority, changes
      nothing: the update is the identity on a story it accepts. */
  lemma ResendIsIdentity(st: Store, id: nat, username: string)
    requires GetStory(st, id, username).Success?
    requires !IsBlank(st.stories[id].title)
    requires st.stories[id].description.Some? && !IsBlank(st.stories[id].description.value)
    ensures var s := st.stories[id];
      UpdateUserStory(st, id, Some(s.title), s.description, s.acceptanceCriteria, s.businessValue, None, username)
        == Success(st)
  {
    var s := st.stories[id];
    assert st.stories[id := s] == st.stories;
  }

  /** Applying the same update twice gives what applying it once gave. */
  lemma UpdateUserStoryIdempotent(st: Store, id: nat, title: Option<string>, description: Option<string>,
                                  acceptanceCriteria: Option<string>, businessValue: Option<int>,
                                  priority: Option<StoryPriority>, username: string)
    requires UpdateUserStory(st, id, title, description, acceptanceCriteria, businessValue, priority, username).Success?
    ensures var once := UpdateUserStory(st, id, title, description, acceptanceCriteria, businessValue, priority, username).value;
      UpdateUserStory(once, id, title, description, acceptanceCriteria, businessValue, priority, username) == Success(once)
  {
    var once := UpdateUserStory(st, id, title, description, acceptanceCriteria, businessValue, priority, username).value;
    assert once.users == st.users && once.projects == st.projects;
    assert once.stories[id].projectId == st.stories[id].projectId;
    assert GetStory(once, id, username).Success?;
    assert once.stories[id := once.stories[id]] == once.stories;
  }


  /** Read access to story `id`, then `change` applied to it alone. */
  function Modify(st: Store, id: nat, username: string, change: Story -> Story): (r: Result<Store, Error>)
    ensures r.Success? <==> GetStory(st, id, username).Success?
    ensures r.Failure? ==> r == GetStory(st, id, username).PropagateFailure()
    ensures r.Success? ==> r.value == st.(stories := st.stories[id := change(st.stories[id])])
  {
    var s :- GetStory(st, id, username);
    Success(st.(stories := st.stories[id := change(s)]))
  }

  /** `updateEstimation`: any point value is stored, with no range check. */
  function UpdateEstimation(st: Store, id: nat, points: int, username: string): (r: Result<Store, Error>)
    ensures r.Success? <==> GetStory(st, id, username).Success?
    ensures r.Success? ==> r.value == st.(stories := st.stories[id := st.stories[id].(storyPoints := Some(points))])
  {
    Modify(st, id, username, (s: Story) => s.(storyPoints := Some(points)))
  }

  /** `updateStatus`: a missing status is rejected before the story is looked up. */
  function UpdateStatus(st: Store, id: nat, status: Option<StoryStatus>, username: string): (r: Result<Store, Error>)
    ensures status.None? ==> r == Failure(IllegalArgument(MsgStatusRequired))
    ensures r.Success? <==> status.Some? && GetStory(st, id, username).Success?
    ensures r.Success? ==> r.value == st.(stories := st.stories[id := st.stories[id].(status := status.value)])
  {
    if status.None? then Failure(IllegalArgument(MsgStatusRequired))
    else Modify(st, id, username, (s: Story) => s.(status := status.value))
  }

  function UpdateSprintReady(st: Store, id: nat, ready: bool, username: string): (r: Result<Store, Error>)
    ensures r.Success? <==> GetStory(st, id, username).Success?
    ensures r.Success? ==> r.value == st.(stories := st.stories[id := st.stories[id].(sprintReady := ready)])
  {
    Modify(st, id, username, (s: Story) => s.(sprintReady := ready))
  }

  function UpdateStarred(st: Store, id: nat, starred: bool, username: string): (r: Result<Store, Error>)
    ensures r.Success? <==> GetStory(st, id, username).Success?
    ensures r.Success? ==> r.value == st.(stories := st.stories[id := st.stories[id].(isStarred := starred)])
  {
    Modify(st, id, username, (s: Story) => s.(isStarred := starred))
  }

  function UpdateMvp(st: Store, id: nat, mvp: bool, username: string): (r: Result<Store, Error>)
    ensures r.Success? <==> GetStory(st, id, username).Success?
    ensures r.Success? ==> r.value == st.(stories := st.stories[id := st.stories[id].(isMvp := mvp)])
  {
    Modify(st, id, username, (s: Story) => s.(isMvp := mvp))
  }

  /** Setting a flag and then setting it back restores the store: the
      updates touch nothing but their own field, and they leave the
      membership gate as it was. */
  lemma StarredRoundTrip(st: Store, id: nat, starred: bool, username: string)
    requires UpdateStarred(st, id, starred, username).Success?
    ensures var st1 := UpdateStarred(st, id, starred, username).value;
      UpdateStarred(st1, id, st.stories[id].isStarred, username) == Success(st)
  {
    var st1 := UpdateStarred(st, id, starred, username).value;
    assert st1.users == st.users && st1.projects == st.projects;
    assert FindByUsername(st1, username) == FindByUsername(st, username);
    assert st1.stories[id].projectId == st.stories[id].projectId;
    assert st1.stories[id := st1.stories[id].(isStarred := st.stories[id].isStarred)] == st.stories;
  }

  /** An estimation with a negative or zero value goes through whenever the
      story is readable. */
  lemma EstimationHasNoRangeCheck(st: Store, id: nat, username: string)
    requires GetStory(st, id, username).Success?
    ensures UpdateEstimation(st, id, -5, username).Success?
    ensures UpdateEstimation(st, id, 0, username).value.stories[id].storyPoints == Some(0)
  {
  }
}
