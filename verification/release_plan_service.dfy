/** Release plans: creation with required fields and date order, the
    "REL-" key, partial update re-checked against the date order, lookup by
    id or key, and linking user stories to a plan of the same project. */
module ReleasePlanService {
  import opened Wrappers
  import opened Text
  import opened Domain

  datatype CreatePlanDto = CreatePlanDto(
    name: Option<string>,
    description: Option<string>,
    goals: Option<string>,
    startDate: Option<Date>,
    targetDate: Option<Date>,
    projectId: Option<nat>,
    status: Option<ReleaseStatus>)

  datatype UpdatePlanDto = UpdatePlanDto(
    name: Option<string>,
    description: Option<string>,
    goals: Option<string>,
    startDate: Option<Date>,
    targetDate: Option<Date>,
    status: Option<ReleaseStatus>)

  /** `ReleasePlanResponseDTO` without the audit timestamps. */
  datatype PlanResponse = PlanResponse(
    id: nat,
    releaseKey: Option<string>,
    name: string,
    description: Option<string>,
    goals: Option<string>,
    startDate: Date,
    targetDate: Date,
    status: ReleaseStatus,
    projectId: Option<nat>,
    projectName: Option<string>,
    createdByUserId: Option<nat>,
    createdByUsername: Option<string>,
    userStoryCount: nat)

  const KeyPrefix := "REL-"
  const KeyPad: nat := 3

  const MsgNameRequired := "Release name is required"
  const MsgStartRequired := "Start date is required"
  const MsgTargetRequired := "Target date is required"
  const MsgProjectRequired := "Project ID is required"
  const MsgDateOrder := "Target date must be after start date"
  const MsgIdentifierRequired := "Release plan identifier is required"
  const MsgNotAssigned := "User story is not assigned to this release plan"
  const MsgPlanNoProject := "Release plan is missing an associated project"
  const MsgStoryNoProject := "User story is missing an associated project"
  const MsgProjectMismatch := "User story must belong to the same project as the release plan"

  function PlanNotFound(id: int): Error {
    IllegalArgument("Release plan not found with id: " + IntToString(id))
  }

  function PlanKeyNotFound(key: string): Error {
    IllegalArgument("Release plan not found with key: " + key)
  }

  function StoryNotFound(id: nat): Error {
    IllegalArgument("User story not found with id: " + NatToString(id))
  }

  // ---------------------------------------------------------------- keys

  /** "REL-" followed by the id padded with zeros to at least three digits. */
  function ReleaseKey(id: nat): (key: string)
    ensures |key| == |KeyPrefix| + (if |NatToString(id)| < KeyPad then KeyPad else |NatToString(id)|)
    ensures key[..|KeyPrefix|] == KeyPrefix
    ensures AllDigits(key[|KeyPrefix|..]) && DigitsValue(key[|KeyPrefix|..]) == id
  {
    var key := KeyPrefix + ZeroPad(id, KeyPad);
    assert key[|KeyPrefix|..] == ZeroPad(id, KeyPad);
    key
  }

  lemma ReleaseKeyExamples()
    ensures ReleaseKey(7) == "REL-007"
    ensures ReleaseKey(1234) == "REL-1234"
  {
    assert NatToString(7) == "7";
    assert NatToString(1234) == "1234" by {
      assert NatToString(1) == "1";
      assert NatToString(12) == "12";
      assert NatToString(123) == "123";
    }
  }

  /** Distinct plans get distinct keys. */
  lemma ReleaseKeyInjective(a: nat, b: nat)
    requires ReleaseKey(a) == ReleaseKey(b)
    ensures a == b
  {
    assert ReleaseKey(a)[|KeyPrefix|..] == ReleaseKey(b)[|KeyPrefix|..];
  }

  /** A release key never reads as a number, so resolving it always goes
      through the key lookup. */
  lemma ReleaseKeyIsNotNumeric(id: nat)
    ensures ParseLong(ReleaseKey(id)) == None
  {
    assert ReleaseKey(id)[0] == 'R';
  }

  // ---------------------------------------------------------------- response

  /** The ids of the stories linked to plan `id`. */
  function LinkedStories(st: Store, id: nat): (ids: set<nat>)
    ensures forall sid :: sid in ids <==> sid in st.stories && st.stories[sid].releasePlanId == Some(id)
  {
    set sid | sid in st.stories && st.stories[sid].releasePlanId == Some(id)
  }

  /** `toResponseDTO`: the plan's fields, its project's id and name, its
      creator's id and username, and the number of linked stories. */
  function ToResponse(st: Store, id: nat): (r: PlanResponse)
    requires id in st.plans
    ensures var p := st.plans[id];
      && r.id == id && r.releaseKey == p.releaseKey && r.name == p.name
      && r.description == p.description && r.goals == p.goals
      && r.startDate == p.startDate && r.targetDate == p.targetDate && r.status == p.status
      && r.projectId == p.projectId
      && (r.projectName.Some? <==> p.projectId.Some? && p.projectId.value in st.projects)
      && (r.createdByUsername.Some? <==> p.createdBy.Some? && p.createdBy.value in st.users)
      && (r.projectName.Some? ==> r.projectName.value == st.projects[p.projectId.value].name)
      && (r.createdByUsername.Some? ==> r.createdByUsername.value == st.users[p.createdBy.value].username)
      && r.createdByUserId == p.createdBy
      && r.userStoryCount == |LinkedStories(st, id)|
  {
    var p := st.plans[id];
    var projectName :=
      if p.projectId.Some? && p.projectId.value in st.projects then Some(st.projects[p.projectId.value].name) else None;
    var username :=
      if p.createdBy.Some? && p.createdBy.value in st.users then Some(st.users[p.createdBy.value].username) else None;
    PlanResponse(id, p.releaseKey, p.name, p.description, p.goals, p.startDate, p.targetDate,
                 p.status, p.projectId, projectName, p.createdBy, username, |LinkedStories(st, id)|)
  }

  // ---------------------------------------------------------------- create

  /** The request passes the checks of `create`. */
  predicate CreateAccepted(st: Store, dto: CreatePlanDto) {
    && dto.name.Some? && !IsBlank(dto.name.value)
    && dto.startDate.Some? && dto.targetDate.Some? && dto.projectId.Some?
    && !Before(dto.targetDate.value, dto.startDate.value)
    && dto.projectId.value in st.projects
  }

  /** `create`: required fields in order, then the date order, then the
      project; the plan gets the next id, the key derived from it, the
      PLANNED status unless one is given, and the user named by `username`
      as creator when that user exists. */
  function Create(st: Store, dto: CreatePlanDto, username: Option<string>): (r: Result<(Store, PlanResponse), Error>)
    ensures r.Success? <==> CreateAccepted(st, dto)
    ensures dto.name.None? || IsBlank(dto.name.value) ==> r == Failure(IllegalArgument(MsgNameRequired))
    ensures dto.name.Some? && !IsBlank(dto.name.value) && dto.startDate.None? ==>
      r == Failure(IllegalArgument(MsgStartRequired))
    ensures dto.name.Some? && !IsBlank(dto.name.value) && dto.startDate.Some? && dto.targetDate.None? ==>
      r == Failure(IllegalArgument(MsgTargetRequired))
    ensures (dto.name.Some? && !IsBlank(dto.name.value) && dto.startDate.Some? && dto.targetDate.Some?
             && dto.projectId.None?) ==> r == Failure(IllegalArgument(MsgProjectRequired))
    ensures (dto.name.Some? && !IsBlank(dto.name.value) && dto.startDate.Some? && dto.targetDate.Some?
             && dto.projectId.Some? && Before(dto.targetDate.value, dto.startDate.value)) ==>
      r == Failure(IllegalArgument(MsgDateOrder))
    ensures r.Success? ==>
      var (st', resp) := r.value;
      var id := st.nextPlanId;
      && id in st'.plans
      && st'.plans == st.plans[id := st'.plans[id]]
      && st'.nextPlanId == id + 1
      && st'.plans[id].releaseKey == Some(ReleaseKey(id))
      && st'.plans[id].name == dto.name.value
      && st'.plans[id].description == dto.description && st'.plans[id].goals == dto.goals
      && st'.plans[id].startDate == dto.startDate.value && st'.plans[id].targetDate == dto.targetDate.value
      && st'.plans[id].status == dto.status.GetOr(Planned)
      && st'.plans[id].projectId == dto.projectId
      && st'.plans[id].createdBy == (if username.Some? then FindByUsername(st, username.value) else None)
      && st'.users == st.users && st'.projects == st.projects && st'.stories == st.stories
      && st' == st.(plans := st'.plans, nextPlanId := id + 1)
      && resp == ToResponse(st', id)
  {
    if dto.name.None? || IsBlank(dto.name.value) then Failure(IllegalArgument(MsgNameRequired))
    else if dto.startDate.None? then Failure(IllegalArgument(MsgStartRequired))
    else if dto.targetDate.None? then Failure(IllegalArgument(MsgTargetRequired))
    else if dto.projectId.None? then Failure(IllegalArgument(MsgProjectRequired))
    else if Before(dto.targetDate.value, dto.startDate.value) then Failure(IllegalArgument(MsgDateOrder))
    else if dto.projectId.value !in st.projects then
      Failure(IllegalArgument("Project not found with id: " + NatToString(dto.projectId.value)))
    else
      var createdBy := if username.Some? then FindByUsername(st, username.value) else None;
      var id := st.nextPlanId;
      var plan := ReleasePlan(Some(ReleaseKey(id)), dto.name.value, dto.description, dto.goals,
                              dto.startDate.value, dto.targetDate.value, dto.status.GetOr(Planned),
                              dto.projectId, createdBy);
      var st' := st.(plans := st.plans[id := plan], nextPlanId := id + 1);
      Success((st', ToResponse(st', id)))
  }

  /** On a store whose ids all came from the counters, `create` takes an id
      no plan has yet, so it never overwrites a stored plan, and the new
      store keeps every id below its counter. */
  lemma CreateAllocatesFreshId(st: Store, dto: CreatePlanDto, username: Option<string>)
    requires IdsBelowCounters(st)
    requires Create(st, dto, username).Success?
    ensures st.nextPlanId !in st.plans
    ensures var st' := Create(st, dto, username).value.0;
      && st'.plans - {st.nextPlanId} == st.plans
      && IdsBelowCounters(st')
  {
  }

  /** Equal start and target dates are accepted. */
  lemma CreateAcceptsSameDay(st: Store, dto: CreatePlanDto, username: Option<string>)
    requires dto.name.Some? && !IsBlank(dto.name.value)
    requires dto.startDate.Some? && dto.targetDate == dto.startDate
    requires dto.projectId.Some? && dto.projectId.value in st.projects
    ensures Create(st, dto, username).Success?
  {
  }

  // ---------------------------------------------------------------- update

  /** The plan after the setters of `update`, before the date check. */
  function ApplyUpdate(p: ReleasePlan, dto: UpdatePlanDto): (q: ReleasePlan)
    ensures q.name == (if dto.name.Some? && !IsBlank(dto.name.value) then dto.name.value else p.name)
    ensures q.description == (if dto.description.Some? then dto.description else p.description)
    ensures q.goals == (if dto.goals.Some? then dto.goals else p.goals)
    ensures q.startDate == dto.startDate.GetOr(p.startDate)
    ensures q.targetDate == dto.targetDate.GetOr(p.targetDate)
    ensures q.status == dto.status.GetOr(p.status)
    ensures q.releaseKey == p.releaseKey && q.projectId == p.projectId && q.createdBy == p.createdBy
  {
    p.(name := if dto.name.Some? && !IsBlank(dto.name.value) then dto.name.value else p.name,
       description := if dto.description.Some? then dto.description else p.description,
       goals := if dto.goals.Some? then dto.goals else p.goals,
       startDate := dto.startDate.GetOr(p.startDate),
       targetDate := dto.targetDate.GetOr(p.targetDate),
       status := dto.status.GetOr(p.status))
  }

  /** `update`: the plan must exist and the merged dates must be in order;
      then only plan `id` changes, to the merged plan. */
  function Update(st: Store, id: nat, dto: UpdatePlanDto): (r: Result<(Store, PlanResponse), Error>)
    ensures id !in st.plans ==> r == Failure(PlanNotFound(id))
    ensures r.Success? <==>
      id in st.plans && !Before(ApplyUpdate(st.plans[id], dto).targetDate, ApplyUpdate(st.plans[id], dto).startDate)
    ensures r.Failure? && id in st.plans ==> r.error == IllegalArgument(MsgDateOrder)
    ensures r.Success? ==>
      && r.value.0 == st.(plans := st.plans[id := ApplyUpdate(st.plans[id], dto)])
      && r.value.1 == ToResponse(r.value.0, id)
  {
    if id !in st.plans then Failure(PlanNotFound(id))
    else
      var plan := ApplyUpdate(st.plans[id], dto);
      if Before(plan.targetDate, plan.startDate) then Failure(IllegalArgument(MsgDateOrder))
      else
        var st' := st.(plans := st.plans[id := plan]);
        Success((st', ToResponse(st', id)))
  }

  /** An update that supplies nothing leaves a plan whose dates are in order as it was. */
  lemma UpdateNothingIsIdentity(st: Store, id: nat)
    requires id in st.plans && !Before(st.plans[id].targetDate, st.plans[id].startDate)
    ensures Update(st, id, UpdatePlanDto(None, None, None, None, None, None)).Success?
    ensures Update(st, id, UpdatePlanDto(None, None, None, None, None, None)).value.0 == st
  {
    var p := st.plans[id];
    assert ApplyUpdate(p, UpdatePlanDto(None, None, None, None, None, None)) == p;
    assert st.plans[id := p] == st.plans;
  }

  /** Applying the same update twice gives what applying it once gave. */
  lemma UpdateIdempotent(st: Store, id: nat, dto: UpdatePlanDto)
    requires Update(st, id, dto).Success?
    ensures Update(Update(st, id, dto).value.0, id, dto).Success?
    ensures Update(Update(st, id, dto).value.0, id, dto).value.0 == Update(st, id, dto).value.0
  {
    var st1 := Update(st, id, dto).value.0;
    var q := ApplyUpdate(st.plans[id], dto);
    assert ApplyUpdate(q, dto) == q;
    assert st1.plans[id := q] == st1.plans;
  }

  // ---------------------------------------------------------------- resolve

  /** The ids of the plans carrying this key. */
  function PlansWithKey(st: Store, key: string): (ids: set<nat>)
    ensures forall id :: id in ids <==> id in st.plans && st.plans[id].releaseKey == Some(key)
  {
    set id | id in st.plans && st.plans[id].releaseKey == Some(key)
  }

  /** `findByReleaseKey` on a unique column; should two rows share a key
      the least id is taken. */
  function FindByKey(st: Store, key: string): (r: Option<nat>)
    ensures r.Some? <==> PlansWithKey(st, key) != {}
    ensures r.Some? ==> r.value in PlansWithKey(st, key)
  {
    var ids := PlansWithKey(st, key);
    if ids == {} then None else Some(Least(ids))
  }

  /** The identifier resolution of `assignUserStoryByIdentifier`: a blank
      identifier is rejected; a trimmed identifier that parses as a long is
      looked up by id only; anything else is looked up by release key. */
  function ResolvePlan(st: Store, identifier: Option<string>): (r: Result<nat, Error>)
    ensures identifier.None? || IsBlank(identifier.value) ==> r == Failure(IllegalArgument(MsgIdentifierRequired))
    ensures r.Success? ==> r.value in st.plans
    ensures identifier.Some? && !IsBlank(identifier.value) && ParseLong(JavaTrim(identifier.value)).Some? ==>
      var n := ParseLong(JavaTrim(identifier.value)).value;
      r == (if n >= 0 && n in st.plans then Success(n) else Failure(PlanNotFound(n)))
    ensures identifier.Some? && !IsBlank(identifier.value) && ParseLong(JavaTrim(identifier.value)).None? ==>
      var key := JavaTrim(identifier.value);
      (r.Success? <==> PlansWithKey(st, key) != {})
      && (r.Success? ==> st.plans[r.value].releaseKey == Some(key))
      && (r.Failure? ==> r.error == PlanKeyNotFound(key))
  {
    if identifier.None? || IsBlank(identifier.value) then Failure(IllegalArgument(MsgIdentifierRequired))
    else
      var key := JavaTrim(identifier.value);
      match ParseLong(key)
      case Some(n) =>
        if n >= 0 && n in st.plans then Success(n) else Failure(PlanNotFound(n))
      case None =>
        match FindByKey(st, key)
        case Some(id) => Success(id)
        case None => Failure(PlanKeyNotFound(key))
  }

  /** A plan's decimal id, with spaces around it, resolves to that plan. */
  lemma ResolveById(st: Store, id: nat, before: string, after: string)
    requires id in st.plans && id <= LongMax
    requires forall i :: 0 <= i < |before| ==> before[i] == ' '
    requires forall i :: 0 <= i < |after| ==> after[i] == ' '
    ensures ResolvePlan(st, Some(before + NatToString(id) + after)) == Success(id)
  {
    PaddedIdReads(id, before, after);
  }

  /** An id with spaces around it is not blank and reads back as the id
      once trimmed. */
  lemma PaddedIdReads(id: nat, before: string, after: string)
    requires id <= LongMax
    requires forall i :: 0 <= i < |before| ==> before[i] == ' '
    requires forall i :: 0 <= i < |after| ==> after[i] == ' '
    ensures var s := before + NatToString(id) + after;
      !IsBlank(s) && ParseLong(JavaTrim(s)) == Some(id)
  {
    var digits := NatToString(id);
    PaddedIdTrims(digits, before, after);
    DigitsUnpadded(id);
    ParseLongRoundTrip(id);
  }

  /** Spaces around a digit string are trimmed off, and the result is not blank. */
  lemma PaddedIdTrims(digits: string, before: string, after: string)
    requires |digits| > 0 && IsDigit(digits[0]) && IsDigit(digits[|digits| - 1])
    requires forall i :: 0 <= i < |before| ==> before[i] == ' '
    requires forall i :: 0 <= i < |after| ==> after[i] == ' '
    ensures var s := before + digits + after;
      !IsBlank(s) && JavaTrim(s) == digits
  {
    var s := before + digits + after;
    TrimAround(before, digits, after, IsJavaTrimChar);
    assert s[|before|] == digits[0];
  }

  /** The decimal rendering of an id starts and ends with a digit, and is
      what `IntToString` gives for it. */
  lemma DigitsUnpadded(id: nat)
    ensures var digits := NatToString(id);
      && |digits| > 0 && IsDigit(digits[0]) && IsDigit(digits[|digits| - 1])
      && IntToString(id) == digits
  {
  }

  /** A plan's own generated key resolves to it when no other plan shares it. */
  lemma ResolveByKey(st: Store, id: nat)
    requires id in st.plans && st.plans[id].releaseKey == Some(ReleaseKey(id))
    requires PlansWithKey(st, ReleaseKey(id)) == {id}
    ensures ResolvePlan(st, Some(ReleaseKey(id))) == Success(id)
  {
    var key := ReleaseKey(id);
    ReleaseKeyUnpadded(id);
    ReleaseKeyIsNotNumeric(id);
    var r := ResolvePlan(st, Some(key));
    assert r.Success?;
    assert r.value in PlansWithKey(st, key);
  }

  /** A release key starts with a letter and ends with a digit, so trimming
      leaves it alone and it is not blank. */
  lemma ReleaseKeyUnpadded(id: nat)
    ensures JavaTrim(ReleaseKey(id)) == ReleaseKey(id)
    ensures !IsBlank(ReleaseKey(id))
  {
    var key := ReleaseKey(id);
    var digits := key[|KeyPrefix|..];
    assert key[0] == 'R';
    assert key[|key| - 1] == digits[|digits| - 1];
    assert IsDigit(digits[|digits| - 1]);
    TrimUnpadded(key, IsJavaTrimChar);
  }


  // ---------------------------------------------------------------- assign

  /** `assignUserStoryToPlan` on existing rows: both must belong to a
      project, the same one; then the story is linked to the plan. */
  function AssignToPlan(st: Store, planId: nat, storyId: nat): (r: Result<(Store, PlanResponse), Error>)
    requires planId in st.plans && storyId in st.stories
    ensures st.plans[planId].projectId.None? ==> r == Failure(IllegalState(MsgPlanNoProject))
    ensures st.plans[planId].projectId.Some? && st.stories[storyId].projectId.None? ==>
      r == Failure(IllegalState(MsgStoryNoProject))
    ensures r.Success? <==>
      st.plans[planId].projectId.Some? && st.stories[storyId].projectId == st.plans[planId].projectId
    ensures r.Success? ==>
      && r.value.0 == st.(stories := st.stories[storyId := st.stories[storyId].(releasePlanId := Some(planId))])
      && r.value.1 == ToResponse(st, planId)
  {
    var planProject := st.plans[planId].projectId;
    var storyProject := st.stories[storyId].projectId;
    if planProject.None? then Failure(IllegalState(MsgPlanNoProject))
    else if storyProject.None? then Failure(IllegalState(MsgStoryNoProject))
    else if storyProject.value != planProject.value then Failure(IllegalArgument(MsgProjectMismatch))
    else
      var st' := st.(stories := st.stories[storyId := st.stories[storyId].(releasePlanId := Some(planId))]);
      Success((st', ToResponse(st, planId)))
  }

  /** `assignUserStory`: plan lookup, story lookup, then the assignment. */
  function AssignStory(st: Store, planId: nat, storyId: nat): (r: Result<(Store, PlanResponse), Error>)
    ensures planId !in st.plans ==> r == Failure(PlanNotFound(planId))
    ensures planId in st.plans && storyId !in st.stories ==> r == Failure(StoryNotFound(storyId))
    ensures planId in st.plans && storyId in st.stories ==> r == AssignToPlan(st, planId, storyId)
  {
    if planId !in st.plans then Failure(PlanNotFound(planId))
    else if storyId !in st.stories then Failure(StoryNotFound(storyId))
    else AssignToPlan(st, planId, storyId)
  }

  /** `assignUserStoryByIdentifier`: resolution, story lookup, then the assignment. */
  function AssignStoryByIdentifier(st: Store, identifier: Option<string>, storyId: nat): (r: Result<(Store, PlanResponse), Error>)
    ensures ResolvePlan(st, identifier).Failure? ==> r == ResolvePlan(st, identifier).PropagateFailure()
    ensures ResolvePlan(st, identifier).Success? ==>
      var planId := ResolvePlan(st, identifier).value;
      r == (if storyId in st.stories then AssignToPlan(st, planId, storyId) else Failure(StoryNotFound(storyId)))
  {
    var planId :- ResolvePlan(st, identifier);
    if storyId !in st.stories then Failure(StoryNotFound(storyId))
    else AssignToPlan(st, planId, storyId)
  }

  /** `unassignUserStory`: the story must currently be on this plan; then
      its link is cleared and nothing else changes. */
  function Unassign(st: Store, planId: nat, storyId: nat): (r: Result<(Store, PlanResponse), Error>)
    ensures planId !in st.plans ==> r == Failure(PlanNotFound(planId))
    ensures planId in st.plans && storyId !in st.stories ==> r == Failure(StoryNotFound(storyId))
    ensures r.Success? <==>
      planId in st.plans && storyId in st.stories && st.stories[storyId].releasePlanId == Some(planId)
    ensures planId in st.plans && storyId in st.stories && st.stories[storyId].releasePlanId != Some(planId) ==>
      r == Failure(IllegalArgument(MsgNotAssigned))
    ensures r.Success? ==>
      && r.value.0 == st.(stories := st.stories[storyId := st.stories[storyId].(releasePlanId := None)])
      && r.value.1 == ToResponse(st, planId)
  {
    if planId !in st.plans then Failure(PlanNotFound(planId))
    else if storyId !in st.stories then Failure(StoryNotFound(storyId))
    else if st.stories[storyId].releasePlanId != Some(planId) then Failure(IllegalArgument(MsgNotAssigned))
    else
      var st' := st.(stories := st.stories[storyId := st.stories[storyId].(releasePlanId := None)]);
      Success((st', ToResponse(st, planId)))
  }

  /** Assigning an unlinked story and unassigning it again restores the store. */
  lemma AssignThenUnassign(st: Store, planId: nat, storyId: nat)
    requires AssignStory(st, planId, storyId).Success?
    requires st.stories[storyId].releasePlanId.None?
    ensures Unassign(AssignStory(st, planId, storyId).value.0, planId, storyId).Success?
    ensures Unassign(AssignStory(st, planId, storyId).value.0, planId, storyId).value.0 == st
  {
    assert planId in st.plans && storyId in st.stories;
    var s0 := st.stories[storyId];
    var st1 := AssignStory(st, planId, storyId).value.0;
    assert st1 == st.(stories := st.stories[storyId := s0.(releasePlanId := Some(planId))]);
    var st2 := Unassign(st1, planId, storyId).value.0;
    assert st2 == st1.(stories := st1.stories[storyId := s0]);
    assert st.stories[storyId := s0] == st.stories;
  }

  /** A successful assignment adds the story to the plan's linked stories
      and nothing else; the count in the answer is the one before the
      change, because the plan's stories are read before it is written. */
  lemma AssignLinksStory(st: Store, planId: nat, storyId: nat)
    requires AssignStory(st, planId, storyId).Success?
    ensures LinkedStories(AssignStory(st, planId, storyId).value.0, planId) == LinkedStories(st, planId) + {storyId}
    ensures AssignStory(st, planId, storyId).value.1.userStoryCount == |LinkedStories(st, planId)|
    ensures st.stories[storyId].releasePlanId != Some(planId) ==>
      AssignStory(st, planId, storyId).value.1.userStoryCount + 1
        == |LinkedStories(AssignStory(st, planId, storyId).value.0, planId)|
  {
    var st1 := AssignStory(st, planId, storyId).value.0;
    assert LinkedStories(st1, planId) == LinkedStories(st, planId) + {storyId};
  }

  /** Unassigning takes the story off the plan and nothing else, while the
      count in the answer still includes it: the plan's stories are read
      before the change is written. */
  lemma UnassignCountIncludesStory(st: Store, planId: nat, storyId: nat)
    requires Unassign(st, planId, storyId).Success?
    ensures LinkedStories(Unassign(st, planId, storyId).value.0, planId) == LinkedStories(st, planId) - {storyId}
    ensures Unassign(st, planId, storyId).value.1.userStoryCount
        == |LinkedStories(Unassign(st, planId, storyId).value.0, planId)| + 1
  {
    var st1 := Unassign(st, planId, storyId).value.0;
    assert LinkedStories(st1, planId) == LinkedStories(st, planId) - {storyId};
    assert storyId in LinkedStories(st, planId);
  }
}
