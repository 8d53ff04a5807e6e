/** The create/edit release-plan dialog: edit-mode detection, filling the
    form when it opens, the date check, and the request it sends: only the
    changed fields when editing, every field when creating. Turning a date
    string into a calendar date is a parameter (`None` for an invalid date). */
module ReleasePlanModal {
  import opened Wrappers
  import opened Text
  import opened Domain

  /** The plan the dialog is opened with, as the list passes it. */
  datatype ModalPlan = ModalPlan(id: Option<int>, name: Option<string>, description: Option<string>,
                                 goals: Option<string>, startDate: Option<string>, targetDate: Option<string>,
                                 status: Option<string>, projectId: Option<int>)

  /** The dialog's state: the six inputs, the project id, and the plan as
      opened (for change detection). */
  datatype Form = Form(name: string, description: string, goals: string, startDate: string, targetDate: string,
                       status: string, projectId: Option<int>, original: Option<ModalPlan>)

  const Planned := "PLANNED"

  /** `text || ""`. */
  function OrEmpty(text: Option<string>): (r: string)
    ensures Truthy(text) ==> r == text.value
    ensures !Truthy(text) ==> r == ""
  {
    if Truthy(text) then text.value else ""
  }

  /** `status || "PLANNED"`. */
  function StatusOrPlanned(status: Option<string>): (r: string)
    ensures Truthy(status) ==> r == status.value
    ensures !Truthy(status) ==> r == Planned
    ensures r != ""
  {
    if Truthy(status) then status.value else Planned
  }

  /** `n || undefined` for a number: 0 counts as missing. */
  function TruthyNumber(n: Option<int>): (r: Option<int>)
    ensures r.Some? <==> n.Some? && n.value != 0
    ensures r.Some? ==> r == n
  {
    if n.Some? && n.value != 0 then n else None
  }

  /** Edit mode: a plan is given and it has an id. */
  predicate IsEditMode(plan: Option<ModalPlan>) {
    plan.Some? && plan.value.id.Some?
  }

  /** The form after the dialog opens. */
  function Open(plan: Option<ModalPlan>, propProjectId: Option<int>): (r: Form)
    ensures plan.None? ==> r == Form("", "", "", "", "", Planned, TruthyNumber(propProjectId), None)
    ensures plan.Some? ==> && r.original == plan
                           && r.name == OrEmpty(plan.value.name)
                           && r.description == OrEmpty(plan.value.description)
                           && r.goals == OrEmpty(plan.value.goals)
                           && r.startDate == OrEmpty(plan.value.startDate)
                           && r.targetDate == OrEmpty(plan.value.targetDate)
                           && r.status == StatusOrPlanned(plan.value.status)
    ensures plan.Some? && TruthyNumber(plan.value.projectId).Some? ==> r.projectId == plan.value.projectId
    ensures plan.Some? && TruthyNumber(plan.value.projectId).None? ==> r.projectId == TruthyNumber(propProjectId)
    ensures r.projectId.Some? ==> r.projectId.value != 0
  {
    match plan
    case None => Form("", "", "", "", "", Planned, TruthyNumber(propProjectId), None)
    case Some(p) =>
      var projectId := if TruthyNumber(p.projectId).Some? then p.projectId else TruthyNumber(propProjectId);
      Form(OrEmpty(p.name), OrEmpty(p.description), OrEmpty(p.goals), OrEmpty(p.startDate),
           OrEmpty(p.targetDate), StatusOrPlanned(p.status), projectId, plan)
  }

  const MsgDateOrder := "Target date must be after start date"

  /** The date check: both dates filled in, both valid, and the target
      strictly before the start. */
  predicate DateOrderError(form: Form, parseDate: string -> Option<Date>) {
    && form.targetDate != "" && form.startDate != ""
    && parseDate(form.targetDate).Some? && parseDate(form.startDate).Some?
    && Before(parseDate(form.targetDate).value, parseDate(form.startDate).value)
  }

  // ---------------------------------------------------------------- payload

  /** The six editable fields. */
  datatype Field = Name | Description | Goals | StartDate | TargetDate | Status

  /** A field's key in the JSON body. */
  function JsonName(f: Field): string {
    match f
    case Name => "name"
    case Description => "description"
    case Goals => "goals"
    case StartDate => "startDate"
    case TargetDate => "targetDate"
    case Status => "status"
  }

  /** Each field has its own JSON key, so a payload keyed by field writes
      no key twice. */
  lemma JsonNamesDistinct(f: Field, g: Field)
    ensures JsonName(f) == JsonName(g) <==> f == g
  {
  }

  /** A form field. */
  function FormValue(form: Form, f: Field): string {
    match f
    case Name => form.name
    case Description => form.description
    case Goals => form.goals
    case StartDate => form.startDate
    case TargetDate => form.targetDate
    case Status => form.status
  }

  /** The original plan's field as the dialog compares it: missing texts
      as '' and a missing status as PLANNED. */
  function OriginalValue(plan: ModalPlan, f: Field): string {
    match f
    case Name => OrEmpty(plan.name)
    case Description => OrEmpty(plan.description)
    case Goals => OrEmpty(plan.goals)
    case StartDate => OrEmpty(plan.startDate)
    case TargetDate => OrEmpty(plan.targetDate)
    case Status => StatusOrPlanned(plan.status)
  }

  /** Adds `f` when its value differs from the original's. */
  function PutIfChanged(payload: map<Field, string>, f: Field, value: string, was: string): (r: map<Field, string>)
    ensures forall g :: g != f ==> (g in r <==> g in payload) && (g in r ==> r[g] == payload[g])
    ensures f in r <==> f in payload || value != was
    ensures value != was ==> r[f] == value
    ensures value == was && f in payload ==> r[f] == payload[f]
  {
    if value != was then payload[f := value] else payload
  }

  /** The fields in the order the dialog compares them. */
  const Fields: seq<Field> := [Name, Description, Goals, StartDate, TargetDate, Status]

  /** The edit payload over some fields: each is added when its value
      differs from the original's. */
  function DiffOver(form: Form, original: ModalPlan, fs: seq<Field>): map<Field, string> {
    if |fs| == 0 then map[]
    else PutIfChanged(DiffOver(form, original, fs[1..]), fs[0], FormValue(form, fs[0]), OriginalValue(original, fs[0]))
  }

  /** The edit payload: the six fields compared in turn. The keys are
      distinct, so the order of the comparisons does not matter. */
  function DiffPayload(form: Form, original: ModalPlan): map<Field, string> {
    DiffOver(form, original, Fields)
  }

  /** Over any fields, the payload holds exactly the listed fields whose
      value differs, each with the form's value. */
  lemma {:induction false} DiffOverFields(form: Form, original: ModalPlan, fs: seq<Field>)
    ensures var r := DiffOver(form, original, fs);
      && (forall f :: f in r <==> f in fs && FormValue(form, f) != OriginalValue(original, f))
      && (forall f :: f in r ==> r[f] == FormValue(form, f))
  {
    if |fs| > 0 {
      DiffOverFields(form, original, fs[1..]);
      assert forall f :: f in fs <==> f == fs[0] || f in fs[1..];
    }
  }

  /** The edit payload holds exactly the fields whose value differs from
      the original's, each with the form's value. */
  lemma DiffPayloadFields(form: Form, original: ModalPlan)
    ensures var r := DiffPayload(form, original);
      && (forall f :: f in r <==> FormValue(form, f) != OriginalValue(original, f))
      && (forall f :: f in r ==> r[f] == FormValue(form, f))
  {
    DiffOverFields(form, original, Fields);
    forall f: Field
      ensures f in Fields
    {
      match f
      case Name => assert Fields[0] == f;
      case Description => assert Fields[1] == f;
      case Goals => assert Fields[2] == f;
      case StartDate => assert Fields[3] == f;
      case TargetDate => assert Fields[4] == f;
      case Status => assert Fields[5] == f;
    }
  }

  /** Opening a plan and saving it untouched sends an empty edit. */
  lemma UntouchedEditIsEmpty(plan: ModalPlan, propProjectId: Option<int>)
    ensures DiffPayload(Open(Some(plan), propProjectId), plan) == map[]
  {
    var r := DiffPayload(Open(Some(plan), propProjectId), plan);
    DiffPayloadFields(Open(Some(plan), propProjectId), plan);
    assert forall f :: f !in r;
  }

  /** Laying the edit over the original's values gives back every field
      of the form: the diff loses nothing. */
  lemma DiffRestoresForm(form: Form, original: ModalPlan)
    ensures var diff := DiffPayload(form, original);
      forall f :: (if f in diff then diff[f] else OriginalValue(original, f)) == FormValue(form, f)
  {
    DiffPayloadFields(form, original);
  }

  /** A request body: text fields, and the project id when it is defined
      (`JSON.stringify` leaves out an undefined value). */
  datatype Body = Body(fields: map<Field, string>, projectId: Option<int>)

  /** The create payload: all six fields, and `projectId` from the prop,
      else from the dialog's state. */
  function FullPayload(form: Form, propProjectId: Option<int>): (r: Body)
    ensures forall f :: f in r.fields && r.fields[f] == FormValue(form, f)
    ensures r.projectId.Some? <==> TruthyNumber(propProjectId).Some? || form.projectId.Some?
    ensures TruthyNumber(propProjectId).Some? ==> r.projectId == propProjectId
    ensures TruthyNumber(propProjectId).None? ==> r.projectId == form.projectId
  {
    var fields := map f: Field | true :: FormValue(form, f);
    Body(fields, if TruthyNumber(propProjectId).Some? then propProjectId else form.projectId)
  }

  /** What a submit does before the network: stopped by the browser, an
      error shown, or a request (method, path, body). */
  datatype SubmitStep =
    | NotSubmitted
    | Invalid(message: string)
    | Send(httpMethod: string, path: string, body: Body)

  /** The browser's check of the `required` inputs before it fires the
      submit event: the name and both dates non-empty (a date input's value
      is empty unless it holds a valid date), and the project id when its
      input is shown, that is when creating without a project from the
      props. Whitespace counts as a value. */
  predicate RequiredFilled(form: Form, plan: Option<ModalPlan>, propProjectId: Option<int>) {
    && form.name != "" && form.startDate != "" && form.targetDate != ""
    && (IsEditMode(plan) || TruthyNumber(propProjectId).Some? || form.projectId.Some?)
  }

  /** Pressing the submit button: the browser refuses a form with a
      missing required value, and otherwise `handleSubmit` runs. */
  function PressSubmit(form: Form, plan: Option<ModalPlan>, propProjectId: Option<int>,
                       parseDate: string -> Option<Date>): (r: SubmitStep)
    ensures r.NotSubmitted? <==> !RequiredFilled(form, plan, propProjectId)
    ensures RequiredFilled(form, plan, propProjectId) ==> r == Submit(form, plan, propProjectId, parseDate)
    ensures r.Send? ==> form.name != "" && form.startDate != "" && form.targetDate != ""
  {
    if !RequiredFilled(form, plan, propProjectId) then NotSubmitted
    else Submit(form, plan, propProjectId, parseDate)
  }

  /** `handleSubmit` up to the request. */
  function Submit(form: Form, plan: Option<ModalPlan>, propProjectId: Option<int>,
                  parseDate: string -> Option<Date>): (r: SubmitStep)
    ensures !r.NotSubmitted?
    ensures DateOrderError(form, parseDate) <==> r.Invalid?
    ensures r.Invalid? ==> r.message == MsgDateOrder
    ensures r.Send? && IsEditMode(plan) ==>
      r.httpMethod == "PATCH" && r.path == "/api/release-plans/" + IntToString(plan.value.id.value)
    ensures r.Send? && !IsEditMode(plan) ==> r.httpMethod == "POST" && r.path == "/api/release-plans"
    ensures r.Send? && IsEditMode(plan) && form.original.Some? ==>
      r.body == Body(DiffPayload(form, form.original.value), None)
    ensures r.Send? && !(IsEditMode(plan) && form.original.Some?) ==> r.body == FullPayload(form, propProjectId)
  {
    if DateOrderError(form, parseDate) then Invalid(MsgDateOrder)
    else
      var edit := IsEditMode(plan);
      var path := if edit then "/api/release-plans/" + IntToString(plan.value.id.value) else "/api/release-plans";
      var body := if edit && form.original.Some? then Body(DiffPayload(form, form.original.value), None)
                  else FullPayload(form, propProjectId);
      Send(if edit then "PATCH" else "POST", path, body)
  }

  /** Equal dates never stop a submit: with every required input filled
      and the two dates the same, the request goes out. */
  lemma DateCheckLenient(form: Form, plan: Option<ModalPlan>, propProjectId: Option<int>,
                         parseDate: string -> Option<Date>)
    requires RequiredFilled(form, plan, propProjectId)
    requires parseDate(form.startDate) == parseDate(form.targetDate)
    ensures PressSubmit(form, plan, propProjectId, parseDate).Send?
  {
  }

  /** A missing date or name never reaches `handleSubmit`: the browser
      stops the submit, so no request is sent. */
  lemma MissingRequiredNotSent(form: Form, plan: Option<ModalPlan>, propProjectId: Option<int>,
                               parseDate: string -> Option<Date>)
    requires form.name == "" || form.startDate == "" || form.targetDate == ""
    ensures PressSubmit(form, plan, propProjectId, parseDate) == NotSubmitted
  {
  }

  /** A date the target precedes is refused with the message whenever the
      browser lets the form through; otherwise the request goes out. */
  lemma DateOrderDecides(form: Form, plan: Option<ModalPlan>, propProjectId: Option<int>,
                         parseDate: string -> Option<Date>)
    requires RequiredFilled(form, plan, propProjectId)
    ensures DateOrderError(form, parseDate) ==> PressSubmit(form, plan, propProjectId, parseDate) == Invalid(MsgDateOrder)
    ensures !DateOrderError(form, parseDate) ==> PressSubmit(form, plan, propProjectId, parseDate).Send?
  {
  }

  /** The server's reply to the save request. */
  datatype SaveAnswer =
    | Saved
    | Refused(text: string)
    | Thrown(message: string)

  /** After the reply: the dialog closes (and the list is told), or the
      error shown. */
  function FinishSubmit(edit: bool, answer: SaveAnswer): (r: Option<string>)
    ensures r.None? <==> answer.Saved?
    ensures answer.Refused? && answer.text != "" ==> r == Some(answer.text)
    ensures answer.Refused? && answer.text == "" ==>
      r == Some(if edit then "Failed to update release plan" else "Failed to create release plan")
    ensures answer.Thrown? ==> r == Some(answer.message)
  {
    match answer
    case Saved => None
    case Refused(text) =>
      Some(if text != "" then text else if edit then "Failed to update release plan" else "Failed to create release plan")
    case Thrown(message) => Some(message)
  }

  /** The dialog's mode matters only for an empty refusal: every other
      answer gives the same outcome whether creating or editing. */
  lemma FinishSubmitModeOnlyNamesFallback(answer: SaveAnswer)
    ensures answer != Refused("") <==> FinishSubmit(true, answer) == FinishSubmit(false, answer)
  {
    if answer == Refused("") {
      assert FinishSubmit(true, answer).value[10] != FinishSubmit(false, answer).value[10];
    }
  }
}
