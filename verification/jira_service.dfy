/** Exporting a user story as a Jira issue: configuration merging and
    validation, metadata lookup of the issue type and story-points field,
    the issue payload with its description document, and the response the
    service hands back. Every call to the Jira REST API is an input: the
    answer it gave, or the exception it raised. */
module JiraService {
  import opened Wrappers
  import opened Text
  import opened Domain

  /** The six connection settings; `None` is a null setting. */
  datatype JiraConfig = JiraConfig(
    baseUrl: Option<string>,
    userEmail: Option<string>,
    apiToken: Option<string>,
    projectKey: Option<string>,
    issueTypeId: Option<string>,
    storyPointsFieldId: Option<string>)

  const MsgNotConfigured := "JIRA integration is not configured. Please set jira.base-url, jira.user-email, jira.api-token, and jira.project-key properties."
  const MsgMissingProjects := "JIRA createmeta response is missing project information."
  const MsgNoProjects := "No projects found for the provided project key."
  const MsgNoIssueTypes := "No issue types returned for the project."
  const MsgNoIssueTypeId := "Unable to determine issue type ID from JIRA metadata."
  const MsgNoFields := "No JIRA fields returned when looking up Story Points."
  const MsgNoPointsField := "Unable to determine Story Points field ID from JIRA metadata."
  const MsgFailedPrefix := "Failed to create JIRA issue. Status: "
  const MsgTypesResponse := "Failed to fetch JIRA issue types: "
  const MsgTypesClient := "Error calling JIRA API for issue types: "
  const MsgFieldsResponse := "Failed to fetch JIRA fields: "
  const MsgFieldsClient := "Error calling JIRA API for fields: "
  const MsgIssueResponse := "JIRA API error: "
  const MsgIssueClient := "Error calling JIRA API: "
  const CreatedStatus := "CREATED"
  const BrowsePath := "/browse/"

  // ---------------------------------------------------------------- config

  /** One setting of `merge`: this value when it has text, else the fallback's. */
  function Prefer(mine: Option<string>, fallback: Option<string>): (r: Option<string>)
    ensures HasTextOpt(r) <==> HasTextOpt(mine) || HasTextOpt(fallback)
    ensures r == mine || r == fallback
  {
    if HasTextOpt(mine) then mine else fallback
  }

  /** `JiraConfig.merge`: setting by setting, this config where it has text
      and the fallback otherwise; a null fallback gives this config back. */
  function Merge(c: JiraConfig, fallback: Option<JiraConfig>): (r: JiraConfig)
    ensures fallback.None? ==> r == c
    ensures fallback.Some? ==>
      && (HasTextOpt(c.baseUrl) ==> r.baseUrl == c.baseUrl)
      && (!HasTextOpt(c.baseUrl) ==> r.baseUrl == fallback.value.baseUrl)
      && (HasTextOpt(c.userEmail) ==> r.userEmail == c.userEmail)
      && (!HasTextOpt(c.userEmail) ==> r.userEmail == fallback.value.userEmail)
      && (HasTextOpt(c.apiToken) ==> r.apiToken == c.apiToken)
      && (!HasTextOpt(c.apiToken) ==> r.apiToken == fallback.value.apiToken)
      && (HasTextOpt(c.projectKey) ==> r.projectKey == c.projectKey)
      && (!HasTextOpt(c.projectKey) ==> r.projectKey == fallback.value.projectKey)
      && (HasTextOpt(c.issueTypeId) ==> r.issueTypeId == c.issueTypeId)
      && (!HasTextOpt(c.issueTypeId) ==> r.issueTypeId == fallback.value.issueTypeId)
      && (HasTextOpt(c.storyPointsFieldId) ==> r.storyPointsFieldId == c.storyPointsFieldId)
      && (!HasTextOpt(c.storyPointsFieldId) ==> r.storyPointsFieldId == fallback.value.storyPointsFieldId)
  {
    match fallback
    case None => c
    case Some(f) =>
      JiraConfig(
        Prefer(c.baseUrl, f.baseUrl),
        Prefer(c.userEmail, f.userEmail),
        Prefer(c.apiToken, f.apiToken),
        Prefer(c.projectKey, f.projectKey),
        Prefer(c.issueTypeId, f.issueTypeId),
        Prefer(c.storyPointsFieldId, f.storyPointsFieldId))
  }

  /** Merging is associative: layering three configs gives the same result
      whichever pair is merged first. */
  lemma MergeAssociative(a: JiraConfig, b: JiraConfig, c: JiraConfig)
    ensures Merge(Merge(a, Some(b)), Some(c)) == Merge(a, Some(Merge(b, Some(c))))
  {
  }

  /** A config merged over itself, or over one with no text at all, is unchanged. */
  lemma MergeIdentities(a: JiraConfig, empty: JiraConfig)
    requires !HasTextOpt(empty.baseUrl) && !HasTextOpt(empty.userEmail) && !HasTextOpt(empty.apiToken)
    requires !HasTextOpt(empty.projectKey) && !HasTextOpt(empty.issueTypeId) && !HasTextOpt(empty.storyPointsFieldId)
    ensures Merge(a, Some(a)) == a
    ensures Merge(empty, Some(a)) == a
  {
  }

  /** `createIssueFromStory`: with no override the server defaults apply,
      otherwise the override merged over them. */
  function EffectiveConfig(override: Option<JiraConfig>, defaults: JiraConfig): (r: JiraConfig)
    ensures override.None? ==> r == defaults
    ensures override.Some? ==> r == Merge(override.value, Some(defaults))
  {
    if override.None? then defaults else Merge(override.value, Some(defaults))
  }

  /** The four settings the base validation demands. */
  predicate BaseConfigured(c: JiraConfig) {
    HasTextOpt(c.baseUrl) && HasTextOpt(c.userEmail) && HasTextOpt(c.apiToken) && HasTextOpt(c.projectKey)
  }

  /** `validateBaseConfiguration`: an IllegalStateException unless base URL,
      user email, API token and project key all have text. */
  function ValidateBaseConfiguration(c: JiraConfig): (r: Result<JiraConfig, Error>)
    ensures r.Success? <==> BaseConfigured(c)
    ensures r.Success? ==> r.value == c
    ensures r.Failure? ==> r.error == IllegalState(MsgNotConfigured)
  {
    if !HasTextOpt(c.baseUrl) || !HasTextOpt(c.userEmail) || !HasTextOpt(c.apiToken) || !HasTextOpt(c.projectKey)
    then Failure(IllegalState(MsgNotConfigured))
    else Success(c)
  }

  /** The issue type and story-points settings play no part in the validation. */
  lemma ValidationIgnoresOptionalSettings(c: JiraConfig, issueType: Option<string>, points: Option<string>)
    ensures ValidateBaseConfiguration(c.(issueTypeId := issueType, storyPointsFieldId := points)).Success?
        == ValidateBaseConfiguration(c).Success?
  {
  }

  /** An override passes validation exactly when, setting by setting, it or
      the defaults supply text. */
  lemma EffectiveConfigValid(override: JiraConfig, defaults: JiraConfig)
    ensures BaseConfigured(EffectiveConfig(Some(override), defaults)) <==>
      && (HasTextOpt(override.baseUrl) || HasTextOpt(defaults.baseUrl))
      && (HasTextOpt(override.userEmail) || HasTextOpt(defaults.userEmail))
      && (HasTextOpt(override.apiToken) || HasTextOpt(defaults.apiToken))
      && (HasTextOpt(override.projectKey) || HasTextOpt(defaults.projectKey))
  {
  }

  // ---------------------------------------------------------------- priority

  /** `mapPriority`: the Jira priority name of a story priority. */
  function MapPriority(p: StoryPriority): (r: string)
    ensures PriorityOfName(r) == Some(p)
  {
    match p
    case Critical => "Highest"
    case High => "High"
    case Medium => "Medium"
    case Low => "Low"
  }

  /** The story priority a Jira priority name stands for. */
  function PriorityOfName(name: string): Option<StoryPriority> {
    if name == "Highest" then Some(Critical)
    else if name == "High" then Some(High)
    else if name == "Medium" then Some(Medium)
    else if name == "Low" then Some(Low)
    else None
  }

  /** No two story priorities share a Jira name. */
  lemma MapPriorityInjective(p: StoryPriority, q: StoryPriority)
    requires MapPriority(p) == MapPriority(q)
    ensures p == q
  {
    assert PriorityOfName(MapPriority(p)) == Some(p);
  }

  // ---------------------------------------------------------------- description

  const NotProvided := "Not provided."
  const RolePlaceholder := "[role]"
  const NeedPlaceholder := "[need]"
  const BenefitPlaceholder := "[benefit]"

  /** `orPlaceholder`: the value when it has text, the placeholder otherwise. */
  function OrPlaceholder(value: Option<string>, placeholder: string): (r: string)
    ensures HasTextOpt(value) ==> r == value.value
    ensures !HasTextOpt(value) ==> r == placeholder
    ensures HasText(placeholder) ==> HasText(r)
  {
    if HasTextOpt(value) then value.value else placeholder
  }

  /** `buildDescriptionDocument`, as the texts of its paragraphs in order. */
  function DescriptionDocument(story: Story): (r: seq<string>)
    ensures |r| == if story.businessValue.Some? then 4 else 3
    ensures r[0] == "Description: " + OrPlaceholder(story.description, NotProvided)
    ensures r[1] == "Acceptance Criteria: " + OrPlaceholder(story.acceptanceCriteria, NotProvided)
    ensures r[2] == "User Story: As a " + OrPlaceholder(story.asA, RolePlaceholder)
                    + ", I want " + OrPlaceholder(story.iWant, NeedPlaceholder)
                    + " so that " + OrPlaceholder(story.soThat, BenefitPlaceholder)
    ensures story.businessValue.Some? ==> r[3] == BusinessValueLabel + IntToString(story.businessValue.value)
  {
    var base := [
      "Description: " + OrPlaceholder(story.description, NotProvided),
      "Acceptance Criteria: " + OrPlaceholder(story.acceptanceCriteria, NotProvided),
      "User Story: As a " + OrPlaceholder(story.asA, RolePlaceholder)
        + ", I want " + OrPlaceholder(story.iWant, NeedPlaceholder)
        + " so that " + OrPlaceholder(story.soThat, BenefitPlaceholder)];
    if story.businessValue.Some? then base + [BusinessValueLabel + IntToString(story.businessValue.value)]
    else base
  }

  const BusinessValueLabel := "Business Value: "

  /** No paragraph of the document is blank: each starts with its label. */
  lemma ParagraphsNeverBlank(story: Story)
    ensures forall i :: 0 <= i < |DescriptionDocument(story)| ==> HasText(DescriptionDocument(story)[i])
  {
    var doc := DescriptionDocument(story);
    assert doc[0][0] == 'D';
    assert doc[1][0] == 'A';
    assert doc[2][0] == 'U';
    if story.businessValue.Some? {
      assert doc[3][0] == 'B';
    }
  }

  /** The business value paragraph gives the value back: what follows the
      label parses as the same 32-bit integer. */
  lemma BusinessValueRoundTrip(story: Story)
    requires story.businessValue.Some?
    requires -0x8000_0000 <= story.businessValue.value <= 0x7FFF_FFFF
    ensures var p := DescriptionDocument(story)[3];
      |BusinessValueLabel| <= |p| && p[..|BusinessValueLabel|] == BusinessValueLabel
      && ParseLong(p[|BusinessValueLabel|..]) == story.businessValue
  {
    var v := story.businessValue.value;
    var p := DescriptionDocument(story)[3];
    assert p[|BusinessValueLabel|..] == IntToString(v);
    ParseLongRoundTrip(v);
  }

  // ---------------------------------------------------------------- payload

  /** The values of the issue's `fields` object. */
  datatype FieldValue =
    | ProjectRef(key: string)
    | IssueTypeRef(id: string)
    | Summary(text: string)
    | DescriptionDoc(paragraphs: seq<string>)
    | PriorityRef(name: string)
    | Points(value: int)

  /** The keys the payload always or optionally carries besides the
      story-points field. */
  predicate IsFixedKey(k: string) {
    k == "project" || k == "issuetype" || k == "summary" || k == "description" || k == "priority"
  }

  /** The four fields every payload carries. */
  function FixedFields(story: Story, projectKey: string, issueTypeId: string): (m: map<string, FieldValue>)
    ensures m.Keys == {"project", "issuetype", "summary", "description"}
    ensures m["project"] == ProjectRef(projectKey) && m["issuetype"] == IssueTypeRef(issueTypeId)
    ensures m["summary"] == Summary(story.title) && m["description"] == DescriptionDoc(DescriptionDocument(story))
  {
    map["project" := ProjectRef(projectKey),
        "issuetype" := IssueTypeRef(issueTypeId),
        "summary" := Summary(story.title),
        "description" := DescriptionDoc(DescriptionDocument(story))]
  }

  /** `fields.put(k, v)` when there is a value to put. */
  function PutSome(m: map<string, FieldValue>, k: string, v: Option<FieldValue>): (r: map<string, FieldValue>)
    ensures r.Keys == m.Keys + (if v.Some? then {k} else {})
    ensures v.Some? ==> r[k] == v.value
    ensures forall j :: j in m && (v.None? || j != k) ==> r[j] == m[j]
  {
    if v.Some? then m[k := v.value] else m
  }

  /** `buildIssuePayload`: the fields map under `"fields"`. A null project
      key or issue type id makes `Map.of` throw. The story-points field,
      when written, is written last and so replaces a fixed field of the
      same name. */
  function BuildIssuePayload(story: Story, c: JiraConfig): (r: Result<map<string, FieldValue>, Error>)
    ensures r.Failure? <==> c.projectKey.None? || c.issueTypeId.None?
    ensures r.Failure? ==> r.error == NullPointer
    ensures r.Success? ==>
      var withPoints := story.storyPoints.Some? && HasTextOpt(c.storyPointsFieldId);
      && r.value.Keys == {"project", "issuetype", "summary", "description"}
                         + (if story.priority.Some? then {"priority"} else {})
                         + (if withPoints then {c.storyPointsFieldId.value} else {})
      && (withPoints ==> r.value[c.storyPointsFieldId.value] == Points(story.storyPoints.value))
      && (!withPoints || !IsFixedKey(c.storyPointsFieldId.value) ==>
            && r.value["project"] == ProjectRef(c.projectKey.value)
            && r.value["issuetype"] == IssueTypeRef(c.issueTypeId.value)
            && r.value["summary"] == Summary(story.title)
            && r.value["description"] == DescriptionDoc(DescriptionDocument(story))
            && (story.priority.Some? ==> r.value["priority"] == PriorityRef(MapPriority(story.priority.value))))
  {
    if c.projectKey.None? || c.issueTypeId.None? then Failure(NullPointer)
    else
      var fixed := FixedFields(story, c.projectKey.value, c.issueTypeId.value);
      var priority := if story.priority.Some? then Some(PriorityRef(MapPriority(story.priority.value))) else None;
      var withPriority := PutSome(fixed, "priority", priority);
      var withPoints := story.storyPoints.Some? && HasTextOpt(c.storyPointsFieldId);
      var points := if withPoints then Some(Points(story.storyPoints.value)) else None;
      Success(PutSome(withPriority, c.storyPointsFieldId.GetOr(""), points))
  }


  /** With a story-points field id that is not one of the fixed keys, the
      payload has a priority exactly when the story has one, and a points
      entry exactly when the story has points and the field id has text. */
  lemma PayloadOptionalFields(story: Story, c: JiraConfig)
    requires BuildIssuePayload(story, c).Success?
    requires c.storyPointsFieldId.Some? ==> !IsFixedKey(c.storyPointsFieldId.value)
    ensures var fields := BuildIssuePayload(story, c).value;
      && ("priority" in fields <==> story.priority.Some?)
      && (story.storyPoints.Some? && HasTextOpt(c.storyPointsFieldId) <==>
            exists k :: k in fields && fields[k].Points?)
  {
    var fields := BuildIssuePayload(story, c).value;
    var withPoints := story.storyPoints.Some? && HasTextOpt(c.storyPointsFieldId);
    assert "priority" !in {"project", "issuetype", "summary", "description"};
    if withPoints {
      var k := c.storyPointsFieldId.value;
      assert k in fields && fields[k].Points?;
    } else {
      forall k | k in fields
        ensures !fields[k].Points?
      {
        assert k in {"project", "issuetype", "summary", "description", "priority"};
      }
    }
  }


  // ---------------------------------------------------------------- calls

  /** What one REST call did: answered with a body, failed with an error
      response (its status text and body), or failed in the client with an
      exception whose message may be null. */
  datatype Call<T> =
    | Answer(body: T)
    | ResponseError(statusText: string, responseBody: string)
    | ClientError(message: Option<string>)

  /** A Java string concatenation of a possibly null message. */
  function JavaText(message: Option<string>): string {
    if message.Some? then message.value else "null"
  }

  /** How a lookup rethrows a failed call: an error response gets the first
      prefix followed by its status text, " - " and its body; any other
      client exception gets the second prefix and its message. */
  function WrapCallError<T>(call: Call<T>, responsePrefix: string, clientPrefix: string): (e: Error)
    requires !call.Answer?
    ensures e.IllegalState?
    ensures call.ResponseError? ==>
      && |e.message| >= |responsePrefix|
      && e.message[..|responsePrefix|] == responsePrefix
      && e.message[|responsePrefix|..] == call.statusText + " - " + call.responseBody
    ensures call.ClientError? ==>
      && |e.message| >= |clientPrefix|
      && e.message[..|clientPrefix|] == clientPrefix
      && e.message[|clientPrefix|..] == JavaText(call.message)
  {
    if call.ResponseError? then IllegalState(responsePrefix + call.statusText + " - " + call.responseBody)
    else IllegalState(clientPrefix + JavaText(call.message))
  }

  /** An error response and a client exception are told apart by their
      message whenever the two prefixes start differently. */
  lemma WrapTellsKindsApart<T>(a: Call<T>, b: Call<T>, responsePrefix: string, clientPrefix: string)
    requires a.ResponseError? && b.ClientError?
    requires |responsePrefix| > 0 && |clientPrefix| > 0 && responsePrefix[0] != clientPrefix[0]
    ensures WrapCallError(a, responsePrefix, clientPrefix) != WrapCallError(b, responsePrefix, clientPrefix)
  {
    assert WrapCallError(a, responsePrefix, clientPrefix).message[0] == responsePrefix[0];
    assert WrapCallError(b, responsePrefix, clientPrefix).message[0] == clientPrefix[0];
  }

  // ---------------------------------------------------------------- metadata

  /** The first index whose element satisfies `p`. */
  function FirstWhere<T>(s: seq<T>, p: T -> bool): (r: Option<nat>)
    ensures r.Some? ==> r.value < |s| && p(s[r.value]) && forall j :: 0 <= j < r.value ==> !p(s[j])
    ensures r.None? <==> forall j :: 0 <= j < |s| ==> !p(s[j])
  {
    if |s| == 0 then None
    else if p(s[0]) then Some(0)
    else
      match FirstWhere(s[1..], p)
      case None => None
      case Some(i) => Some(i + 1)
  }

  datatype IssueTypeMeta = IssueTypeMeta(name: Option<string>, id: Option<string>)
  datatype MetaProject = MetaProject(issueTypes: Option<seq<IssueTypeMeta>>)
  /** The body of the createmeta answer; `projects` is its `projects` entry. */
  datatype CreateMetaBody = CreateMetaBody(projects: Option<seq<MetaProject>>)

  /** An issue type called "story" or "user story", ignoring case; a type
      without a name counts as named "". */
  predicate IsStoryType(t: IssueTypeMeta) {
    var name := t.name.GetOr("");
    EqualsIgnoreCase("story", name) || EqualsIgnoreCase("user story", name)
  }

  /** `fetchIssueTypeId` given the createmeta answer: the first story type of
      the first project, else the first type's id. `call` is the answer
      body, or the exception the request raised. */
  function SelectIssueTypeId(call: Call<Option<CreateMetaBody>>): (r: Result<string, Error>)
    ensures call.ResponseError? ==>
      r == Failure(IllegalState(MsgTypesResponse + call.statusText + " - " + call.responseBody))
    ensures call.ClientError? ==> r == Failure(IllegalState(MsgTypesClient + JavaText(call.message)))
    ensures call.Answer? && (call.body.None? || call.body.value.projects.None?) ==>
      r == Failure(IllegalState(MsgMissingProjects))
    ensures r.Success? ==>
      && call.Answer? && call.body.Some? && call.body.value.projects.Some?
      && |call.body.value.projects.value| > 0 && call.body.value.projects.value[0].issueTypes.Some?
    ensures r.Success? ==>
      var types := call.body.value.projects.value[0].issueTypes.value;
      && |types| > 0
      && match FirstWhere(types, IsStoryType)
         case Some(i) => types[i].id == Some(r.value)
         case None => types[0].id == Some(r.value)
  {
    if !call.Answer? then Failure(WrapCallError(call, MsgTypesResponse, MsgTypesClient))
    else if call.body.None? || call.body.value.projects.None? then Failure(IllegalState(MsgMissingProjects))
    else
      var projects := call.body.value.projects.value;
      if |projects| == 0 then Failure(IllegalState(MsgNoProjects))
      else
        var types := projects[0].issueTypes;
        if types.None? || |types.value| == 0 then Failure(IllegalState(MsgNoIssueTypes))
        else
          match FirstWhere(types.value, IsStoryType)
          case Some(i) =>
            if types.value[i].id.None? then Failure(NullPointer) else Success(types.value[i].id.value)
          case None =>
            if types.value[0].id.Some? then Success(types.value[0].id.value)
            else Failure(IllegalState(MsgNoIssueTypeId))
  }

  /** A story type listed before any other story type wins over the
      fallback, whatever the position of the first type. */
  lemma StoryTypeWins(types: seq<IssueTypeMeta>, k: nat, id: string)
    requires k < |types| && IsStoryType(types[k]) && types[k].id == Some(id)
    requires forall j :: 0 <= j < k ==> !IsStoryType(types[j])
    ensures SelectIssueTypeId(Answer(Some(CreateMetaBody(Some([MetaProject(Some(types))]))))) == Success(id)
  {
    var i := FirstWhere(types, IsStoryType);
    assert i.Some? && i.value == k;
  }

  datatype FieldMeta = FieldMeta(name: Option<string>, id: Option<string>)

  /** A field whose lower-cased name contains "story point". */
  predicate IsStoryPointsField(f: FieldMeta) {
    Contains(Lower(f.name.GetOr("")), "story point")
  }

  /** `fetchStoryPointsFieldId` given the field list: the id of the first
      story-points field. */
  function SelectStoryPointsFieldId(call: Call<Option<seq<FieldMeta>>>): (r: Result<string, Error>)
    ensures call.ResponseError? ==>
      r == Failure(IllegalState(MsgFieldsResponse + call.statusText + " - " + call.responseBody))
    ensures call.ClientError? ==> r == Failure(IllegalState(MsgFieldsClient + JavaText(call.message)))
    ensures call.Answer? && (call.body.None? || |call.body.value| == 0) ==> r == Failure(IllegalState(MsgNoFields))
    ensures call.Answer? && call.body.Some? && |call.body.value| > 0 ==>
      (r == Failure(IllegalState(MsgNoPointsField)) <==> forall j :: 0 <= j < |call.body.value| ==> !IsStoryPointsField(call.body.value[j]))
    ensures r.Success? ==>
      call.Answer? && call.body.Some? &&
      exists i :: 0 <= i < |call.body.value| && call.body.value[i].id == Some(r.value)
        && IsStoryPointsField(call.body.value[i])
        && forall j :: 0 <= j < i ==> !IsStoryPointsField(call.body.value[j])
  {
    if !call.Answer? then Failure(WrapCallError(call, MsgFieldsResponse, MsgFieldsClient))
    else if call.body.None? || |call.body.value| == 0 then Failure(IllegalState(MsgNoFields))
    else
      var fields := call.body.value;
      match FirstWhere(fields, IsStoryPointsField)
      case None => Failure(IllegalState(MsgNoPointsField))
      case Some(i) => if fields[i].id.None? then Failure(NullPointer) else Success(fields[i].id.value)
  }

  /** Each lookup's failure says which kind of failure it was: an error
      response of the server and a client exception never produce the
      same error, for either lookup or for the issue POST. */
  lemma FailuresNameTheirKind(a: Call<Option<CreateMetaBody>>, b: Call<Option<CreateMetaBody>>,
                              c: Call<Option<seq<FieldMeta>>>, d: Call<Option<seq<FieldMeta>>>,
                              e: Call<()>, f: Call<()>)
    requires a.ResponseError? && b.ClientError?
    requires c.ResponseError? && d.ClientError?
    requires e.ResponseError? && f.ClientError?
    ensures SelectIssueTypeId(a) != SelectIssueTypeId(b)
    ensures SelectStoryPointsFieldId(c) != SelectStoryPointsFieldId(d)
    ensures WrapCallError(e, MsgIssueResponse, MsgIssueClient) != WrapCallError(f, MsgIssueResponse, MsgIssueClient)
  {
    WrapTellsKindsApart(a, b, MsgTypesResponse, MsgTypesClient);
    WrapTellsKindsApart(c, d, MsgFieldsResponse, MsgFieldsClient);
    WrapTellsKindsApart(e, f, MsgIssueResponse, MsgIssueClient);
  }

  /** `resolveConfigWithMetadata`: the issue type id and story-points field
      id are looked up only when the config has no text for them. */
  function ResolveConfig(c: JiraConfig, issueTypes: Call<Option<CreateMetaBody>>,
                         fields: Call<Option<seq<FieldMeta>>>): (r: Result<JiraConfig, Error>)
    ensures HasTextOpt(c.issueTypeId) && HasTextOpt(c.storyPointsFieldId) ==> r == Success(c)
    ensures !HasTextOpt(c.issueTypeId) && SelectIssueTypeId(issueTypes).Failure? ==>
      r == Failure(SelectIssueTypeId(issueTypes).error)
    ensures r.Success? ==>
      && r.value == c.(issueTypeId := r.value.issueTypeId, storyPointsFieldId := r.value.storyPointsFieldId)
      && r.value.issueTypeId.Some? && r.value.storyPointsFieldId.Some?
      && (HasTextOpt(c.issueTypeId) ==> r.value.issueTypeId == c.issueTypeId)
      && (!HasTextOpt(c.issueTypeId) ==>
            SelectIssueTypeId(issueTypes).Success? && r.value.issueTypeId == Some(SelectIssueTypeId(issueTypes).value))
      && (HasTextOpt(c.storyPointsFieldId) ==> r.value.storyPointsFieldId == c.storyPointsFieldId)
      && (!HasTextOpt(c.storyPointsFieldId) ==>
            SelectStoryPointsFieldId(fields).Success?
            && r.value.storyPointsFieldId == Some(SelectStoryPointsFieldId(fields).value))
    ensures ((HasTextOpt(c.issueTypeId) || SelectIssueTypeId(issueTypes).Success?)
             && (HasTextOpt(c.storyPointsFieldId) || SelectStoryPointsFieldId(fields).Success?)) ==> r.Success?
    ensures ((HasTextOpt(c.issueTypeId) || SelectIssueTypeId(issueTypes).Success?)
             && !HasTextOpt(c.storyPointsFieldId) && SelectStoryPointsFieldId(fields).Failure?) ==>
      r == Failure(SelectStoryPointsFieldId(fields).error)
  {
    var typeId :- if HasTextOpt(c.issueTypeId) then Success(c.issueTypeId.value) else SelectIssueTypeId(issueTypes);
    var pointsId :- if HasTextOpt(c.storyPointsFieldId) then Success(c.storyPointsFieldId.value)
                    else SelectStoryPointsFieldId(fields);
    Success(c.(issueTypeId := Some(typeId), storyPointsFieldId := Some(pointsId)))
  }
  /** Resolution needs a lookup only for a setting without text: it
      succeeds exactly when each missing setting's lookup succeeds, and a
      failure is the first failing lookup's error, the issue type first. */
  lemma ResolveNeedsOnlyMissingLookups(c: JiraConfig, issueTypes: Call<Option<CreateMetaBody>>,
                                       fields: Call<Option<seq<FieldMeta>>>)
    ensures ResolveConfig(c, issueTypes, fields).Success? <==>
      && (HasTextOpt(c.issueTypeId) || SelectIssueTypeId(issueTypes).Success?)
      && (HasTextOpt(c.storyPointsFieldId) || SelectStoryPointsFieldId(fields).Success?)
    ensures ResolveConfig(c, issueTypes, fields).Failure? ==>
      ResolveConfig(c, issueTypes, fields).error ==
        (if !HasTextOpt(c.issueTypeId) && SelectIssueTypeId(issueTypes).Failure?
         then SelectIssueTypeId(issueTypes).error else SelectStoryPointsFieldId(fields).error)
  {
  }

  /** A resolved config resolves to itself: with both ids filled in, no
      lookup is made and whatever the lookups would answer plays no part. */
  lemma ResolveSettles(c: JiraConfig, issueTypes: Call<Option<CreateMetaBody>>,
                       fields: Call<Option<seq<FieldMeta>>>,
                       otherTypes: Call<Option<CreateMetaBody>>, otherFields: Call<Option<seq<FieldMeta>>>)
    requires ResolveConfig(c, issueTypes, fields).Success?
    requires HasTextOpt(ResolveConfig(c, issueTypes, fields).value.issueTypeId)
    requires HasTextOpt(ResolveConfig(c, issueTypes, fields).value.storyPointsFieldId)
    ensures var resolved := ResolveConfig(c, issueTypes, fields).value;
      ResolveConfig(resolved, otherTypes, otherFields) == Success(resolved)
  {
  }


  // ---------------------------------------------------------------- issue

  /** The `id`, `key` and `self` entries of a created issue. */
  datatype IssueBody = IssueBody(id: Option<string>, key: Option<string>, self: Option<string>)

  /** What the issue POST did: answered with a status (and maybe a body),
      failed with an error response, or failed in the client. */
  datatype PostOutcome =
    | Answered(status: string, successful: bool, body: Option<IssueBody>)
    | PostResponseError(statusText: string, responseBody: string)
    | PostClientError(message: Option<string>)

  datatype IssueResponse = IssueResponse(
    issueId: Option<string>,
    issueKey: Option<string>,
    self: Option<string>,
    browseUrl: Option<string>,
    status: string)

  /** The browse URL of an issue: present exactly when the key and the base
      URL have text, and then the base URL, "/browse/" and the key. */
  function BrowseUrl(baseUrl: Option<string>, key: Option<string>): (r: Option<string>)
    ensures r.Some? <==> HasTextOpt(key) && HasTextOpt(baseUrl)
    ensures r.Some? ==>
      && |r.value| == |baseUrl.value| + |BrowsePath| + |key.value|
      && r.value[..|baseUrl.value|] == baseUrl.value
      && r.value[|baseUrl.value|..|baseUrl.value| + |BrowsePath|] == BrowsePath
      && r.value[|baseUrl.value| + |BrowsePath|..] == key.value
  {
    if HasTextOpt(key) && HasTextOpt(baseUrl) then Some(baseUrl.value + BrowsePath + key.value) else None
  }

  /** A sent issue and the response built from the answer. */
  datatype Export = Export(fields: map<string, FieldValue>, response: IssueResponse)

  /** `createIssue`: validate, resolve metadata, build the payload, post it
      and turn a successful answer with a body into the response. */
  function CreateIssue(story: Story, c: JiraConfig,
                       issueTypes: Call<Option<CreateMetaBody>>,
                       fields: Call<Option<seq<FieldMeta>>>,
                       post: PostOutcome): (r: Result<Export, Error>)
    ensures !BaseConfigured(c) ==> r == Failure(IllegalState(MsgNotConfigured))
    ensures r.Success? <==>
      && BaseConfigured(c)
      && ResolveConfig(c, issueTypes, fields).Success?
      && post.Answered? && post.successful && post.body.Some?
    ensures r.Success? ==>
      && r.value.response.status == CreatedStatus
      && r.value.response.issueId == post.body.value.id
      && r.value.response.issueKey == post.body.value.key
      && r.value.response.self == post.body.value.self
      && r.value.response.browseUrl == BrowseUrl(c.baseUrl, post.body.value.key)
      && BuildIssuePayload(story, ResolveConfig(c, issueTypes, fields).value) == Success(r.value.fields)
    ensures post.Answered? && !(post.successful && post.body.Some?) && r.Failure?
            && BaseConfigured(c) && ResolveConfig(c, issueTypes, fields).Success? ==>
      r.error == IllegalState(MsgFailedPrefix + post.status)
    ensures BaseConfigured(c) && ResolveConfig(c, issueTypes, fields).Failure? ==>
      r == Failure(ResolveConfig(c, issueTypes, fields).error)
    ensures post.PostResponseError? && BaseConfigured(c) && ResolveConfig(c, issueTypes, fields).Success? ==>
      r == Failure(IllegalState(MsgIssueResponse + post.statusText + " - " + post.responseBody))
    ensures post.PostClientError? && BaseConfigured(c) && ResolveConfig(c, issueTypes, fields).Success? ==>
      r == Failure(IllegalState(MsgIssueClient + JavaText(post.message)))
  {
    var valid :- ValidateBaseConfiguration(c);
    var resolved :- ResolveConfig(valid, issueTypes, fields);
    PayloadOfResolved(story, c, resolved);
    var payload := BuildIssuePayload(story, resolved).value;
    match post
    case PostResponseError(statusText, responseBody) =>
      var call: Call<()> := ResponseError(statusText, responseBody);
      Failure(WrapCallError(call, MsgIssueResponse, MsgIssueClient))
    case PostClientError(message) =>
      var call: Call<()> := ClientError(message);
      Failure(WrapCallError(call, MsgIssueResponse, MsgIssueClient))
    case Answered(status, ok, body) =>
      if ok && body.Some? then
        Success(Export(payload, IssueResponse(body.value.id, body.value.key, body.value.self,
                                              BrowseUrl(resolved.baseUrl, body.value.key), CreatedStatus)))
      else Failure(IllegalState(MsgFailedPrefix + status))
  }

  /** A validated, resolved config always builds a payload: the null
      pointer of `Map.of` cannot arise on this path. */
  lemma PayloadOfResolved(story: Story, c: JiraConfig, resolved: JiraConfig)
    requires BaseConfigured(c)
    requires resolved.issueTypeId.Some?
    requires resolved == c.(issueTypeId := resolved.issueTypeId, storyPointsFieldId := resolved.storyPointsFieldId)
    ensures BuildIssuePayload(story, resolved).Success?
  {
  }

  /** `createIssueFromStory`: the issue is created with the effective config. */
  function CreateIssueFromStory(story: Story, override: Option<JiraConfig>, defaults: JiraConfig,
                                issueTypes: Call<Option<CreateMetaBody>>,
                                fields: Call<Option<seq<FieldMeta>>>,
                                post: PostOutcome): (r: Result<Export, Error>)
    ensures r.Success? ==> BaseConfigured(EffectiveConfig(override, defaults))
    ensures override.None? ==> r == CreateIssue(story, defaults, issueTypes, fields, post)
    ensures r.Success? && override.Some? && HasTextOpt(override.value.baseUrl) ==>
      r.value.response.browseUrl == BrowseUrl(override.value.baseUrl, r.value.response.issueKey)
  {
    CreateIssue(story, EffectiveConfig(override, defaults), issueTypes, fields, post)
  }

  // ---------------------------------------------------------------- export request

  /** The credentials a client may send with an export. */
  datatype ExportRequest = ExportRequest(
    baseUrl: Option<string>,
    userEmail: Option<string>,
    apiToken: Option<string>,
    projectKey: Option<string>,
    issueTypeId: Option<string>,
    storyPointsFieldId: Option<string>)

  /** `isNotBlank`: non-null and not empty after `trim()`. */
  predicate IsNotBlank(v: Option<string>) {
    v.Some? && JavaTrim(v.value) != []
  }

  /** `hasCredentials`. */
  predicate HasCredentials(req: ExportRequest) {
    && IsNotBlank(req.baseUrl) && IsNotBlank(req.userEmail) && IsNotBlank(req.apiToken)
    && IsNotBlank(req.projectKey) && IsNotBlank(req.issueTypeId)
  }

  /** The request read as a config, setting for setting. */
  function RequestConfig(req: ExportRequest): JiraConfig {
    JiraConfig(req.baseUrl, req.userEmail, req.apiToken, req.projectKey, req.issueTypeId, req.storyPointsFieldId)
  }

  /** A value is not blank exactly when it has a character above U+0020:
      null and whitespace-only values are both blank. */
  lemma NotBlankIff(v: Option<string>)
    ensures IsNotBlank(v) <==> v.Some? && exists i :: 0 <= i < |v.value| && !IsJavaTrimChar(v.value[i])
  {
    if v.Some? {
      TrimEmptyIff(v.value, IsJavaTrimChar);
    }
  }

  /** The story-points field id does not enter `hasCredentials`. */
  lemma HasCredentialsIgnoresPointsField(req: ExportRequest, points: Option<string>)
    ensures HasCredentials(req.(storyPointsFieldId := points)) == HasCredentials(req)
  {
  }

  /** No character of `s` is a Java whitespace character above U+0020. */
  predicate NoWideSpace(s: string) {
    forall i :: 0 <= i < |s| ==> IsJavaWhitespace(s[i]) ==> IsJavaTrimChar(s[i])
  }

  predicate NoWideSpaceOpt(v: Option<string>) {
    v.Some? ==> NoWideSpace(v.value)
  }

  /** For values free of wide whitespace, `hasCredentials` implies the
      service's base validation of the same settings. */
  lemma CredentialsImplyBaseConfigured(req: ExportRequest)
    requires HasCredentials(req)
    requires NoWideSpaceOpt(req.baseUrl) && NoWideSpaceOpt(req.userEmail)
    requires NoWideSpaceOpt(req.apiToken) && NoWideSpaceOpt(req.projectKey)
    ensures BaseConfigured(RequestConfig(req))
  {
    NotBlankGivesText(req.baseUrl);
    NotBlankGivesText(req.userEmail);
    NotBlankGivesText(req.apiToken);
    NotBlankGivesText(req.projectKey);
  }

  lemma NotBlankGivesText(v: Option<string>)
    requires IsNotBlank(v) && NoWideSpaceOpt(v)
    ensures HasTextOpt(v)
  {
    NotBlankIff(v);
    var i :| 0 <= i < |v.value| && !IsJavaTrimChar(v.value[i]);
    assert !IsJavaWhitespace(v.value[i]);
  }

  /** The implication is strict: a request without an issue type id can pass
      the base validation and still lack credentials. */
  lemma CredentialsStrictlyStronger()
    ensures var req := ExportRequest(Some("u"), Some("u"), Some("u"), Some("u"), None, None);
      BaseConfigured(RequestConfig(req)) && !HasCredentials(req)
  {
    assert !IsJavaWhitespace("u"[0]);
  }

  /** Without the side condition the implication fails: an ideographic space
      (U+3000) survives `trim()` but is whitespace to `hasText`. */
  lemma WideSpaceGap()
    ensures var w := Some("\U{3000}");
      var req := ExportRequest(w, w, w, w, w, None);
      HasCredentials(req) && !BaseConfigured(RequestConfig(req))
  {
    assert "\U{3000}" == ['\U{3000}'];
    GapFor('\U{3000}');
  }

  /** Any character above U+0020 that Java counts as whitespace opens the gap. */
  lemma GapFor(c: char)
    requires !IsJavaTrimChar(c) && IsJavaWhitespace(c)
    ensures var w := Some([c]);
      var req := ExportRequest(w, w, w, w, w, None);
      HasCredentials(req) && !BaseConfigured(RequestConfig(req))
  {
    var w := Some([c]);
    NotBlankIff(w);
    assert !HasText(w.value);
  }

}
