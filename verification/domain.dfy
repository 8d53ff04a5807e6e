/** The persistent entities of the agile tool and the in-memory store that
    stands in for its JPA repositories. Each repository is a finite map from
    the entity's generated id to the entity; a `next…Id` counter plays the
    part of the identity column, so every stored id lies below it. */
module Domain {
  import opened Wrappers

  /** Account and project roles. */
  datatype UserRole = ProductOwner | ScrumMaster | Developer | SystemAdmin

  /** The enum constant name, as `UserRole.valueOf` and JSON use it. */
  function RoleName(r: UserRole): string {
    match r
    case ProductOwner => "PRODUCT_OWNER"
    case ScrumMaster => "SCRUM_MASTER"
    case Developer => "DEVELOPER"
    case SystemAdmin => "SYSTEM_ADMIN"
  }

  /** `UserRole.valueOf(name)`; `None` stands for the IllegalArgumentException
      an unknown name raises. */
  function ParseRole(name: string): (r: Option<UserRole>)
    ensures r.Some? ==> RoleName(r.value) == name
    ensures forall role :: RoleName(role) == name ==> r == Some(role)
  {
    if name == "PRODUCT_OWNER" then Some(ProductOwner)
    else if name == "SCRUM_MASTER" then Some(ScrumMaster)
    else if name == "DEVELOPER" then Some(Developer)
    else if name == "SYSTEM_ADMIN" then Some(SystemAdmin)
    else None
  }

  /** Backend story workflow codes. */
  datatype StoryStatus = New | InProgress | InReview | Blocked | Done

  datatype StoryPriority = Low | Medium | High | Critical

  datatype ReleaseStatus = Planned | Ongoing | Completed | Cancelled

  /** The enum constant name of a release status. */
  function ReleaseStatusName(s: ReleaseStatus): string {
    match s
    case Planned => "PLANNED"
    case Ongoing => "IN_PROGRESS"
    case Completed => "COMPLETED"
    case Cancelled => "CANCELLED"
  }

  /** A calendar date as a (year, month, day) triple. */
  datatype Date = Date(year: int, month: int, day: int)

  /** `LocalDate.isBefore`: strictly earlier in calendar order. */
  predicate Before(a: Date, b: Date) {
    || a.year < b.year
    || (a.year == b.year && a.month < b.month)
    || (a.year == b.year && a.month == b.month && a.day < b.day)
  }

  /** The exceptions the services throw. */
  datatype Error =
    | IllegalArgument(message: string)
    | IllegalState(message: string)
    | Security(message: string)
    | Runtime(message: string)
    | NullPointer

  datatype User = User(
    username: string,
    email: string,
    password: string,
    fullName: Option<string>,
    roles: set<UserRole>,
    active: bool)

  /** A project; `members` is the project_members join table of user ids. */
  datatype Project = Project(
    name: string,
    description: Option<string>,
    projectKey: Option<string>,
    active: bool,
    members: set<nat>)

  /** One row of project_member_roles: a user's role inside a project. */
  datatype MemberRow = MemberRow(projectId: nat, userId: nat, role: UserRole)

  datatype Story = Story(
    title: string,
    storyKey: Option<string>,
    description: Option<string>,
    acceptanceCriteria: Option<string>,
    asA: Option<string>,
    iWant: Option<string>,
    soThat: Option<string>,
    storyPoints: Option<int>,
    businessValue: Option<int>,
    isMvp: bool,
    status: StoryStatus,
    priority: Option<StoryPriority>,
    sprintReady: bool,
    isStarred: bool,
    projectId: Option<nat>,
    releasePlanId: Option<nat>,
    createdBy: Option<nat>,
    assignedTo: Option<nat>)

  /** A story as a fresh entity has it before any setter runs: status NEW,
      priority MEDIUM, and the MVP, sprint-ready and starred flags false. */
  function NewStory(): (s: Story)
    ensures s.status == New && s.priority == Some(Medium)
    ensures !s.sprintReady && !s.isStarred && !s.isMvp
    ensures s.storyPoints.None? && s.businessValue.None?
  {
    Story("", None, None, None, None, None, None, None, None,
          false, New, Some(Medium), false, false, None, None, None, None)
  }

  datatype ReleasePlan = ReleasePlan(
    releaseKey: Option<string>,
    name: string,
    description: Option<string>,
    goals: Option<string>,
    startDate: Date,
    targetDate: Date,
    status: ReleaseStatus,
    projectId: Option<nat>,
    createdBy: Option<nat>)

  datatype Store = Store(
    users: map<nat, User>,
    projects: map<nat, Project>,
    memberRows: set<MemberRow>,
    stories: map<nat, Story>,
    plans: map<nat, ReleasePlan>,
    nextUserId: nat,
    nextProjectId: nat,
    nextStoryId: nat,
    nextPlanId: nat)

  /** Every stored id was handed out by its identity counter. */
  ghost predicate IdsBelowCounters(st: Store) {
    && (forall id :: id in st.users ==> id < st.nextUserId)
    && (forall id :: id in st.projects ==> id < st.nextProjectId)
    && (forall id :: id in st.stories ==> id < st.nextStoryId)
    && (forall id :: id in st.plans ==> id < st.nextPlanId)
  }

  /** Every non-empty finite set of ids has a least element. */
  lemma LeastExists(s: set<nat>)
    requires s != {}
    ensures exists m :: m in s && forall x :: x in s ==> m <= x
  {
    var y :| y in s;
    LeastBelow(s, y);
  }

  /** Descending from any member reaches the least one. */
  lemma {:induction false} LeastBelow(s: set<nat>, k: nat)
    requires k in s
    ensures exists m :: m in s && forall x :: x in s ==> m <= x
    decreases k
  {
    if exists j :: j in s && j < k {
      var j :| j in s && j < k;
      LeastBelow(s, j);
    } else {
      assert forall x :: x in s ==> k <= x;
    }
  }

  /** The least id of a non-empty set. */
  function Least(s: set<nat>): (m: nat)
    requires s != {}
    ensures m in s && forall x :: x in s ==> m <= x
  {
    LeastExists(s);
    var m :| m in s && forall x :: x in s ==> m <= x; m
  }

  /** The ids of a set in ascending order, as `findAllByOrderByIdAsc` returns them. */
  function Ascending(s: set<nat>): (r: seq<nat>)
    ensures forall i, j :: 0 <= i < j < |r| ==> r[i] < r[j]
    ensures forall x :: x in s <==> x in r
    decreases |s|
  {
    if s == {} then []
    else
      var m := Least(s);
      [m] + Ascending(s - {m})
  }

  /** `findByUsername`: the id of the user with this name, if any. Usernames
      are a unique column; should two rows share one, the least id is taken. */
  function FindByUsername(st: Store, username: string): (r: Option<nat>)
    ensures r.Some? ==> r.value in st.users && st.users[r.value].username == username
    ensures r.None? ==> forall id :: id in st.users ==> st.users[id].username != username
  {
    var ids := set id | id in st.users && st.users[id].username == username;
    if ids == {} then
      assert forall id :: id in st.users ==> id in ids || st.users[id].username != username;
      None
    else Some(Least(ids))
  }

  /** `existsByEmail`. */
  predicate EmailTaken(st: Store, email: string) {
    exists id :: id in st.users && st.users[id].email == email
  }

  /** `existsByUsername`. */
  predicate UsernameTaken(st: Store, username: string) {
    exists id :: id in st.users && st.users[id].username == username
  }
}
