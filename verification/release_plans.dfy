/** The release-plan list: the status and search filters over the loaded
    plans, and the delete flow behind a confirm dialog. */
module ReleasePlans {
  import opened Wrappers
  import opened Text
  import opened Seqs
  import ReleasePlanCard

  /** What the list reads of a plan. */
  datatype ClientPlan = ClientPlan(id: int, releaseKey: string, name: string, description: Option<string>,
                                   status: string)

  const AllStatuses := "All Statuses"

  /** The status dropdown's options after "All Statuses", in order. */
  const StatusOptions: seq<string> := ["Planned", "In Progress", "Completed", "Cancelled"]

  /** The code a status label filters on: upper-cased, then its first space
      replaced by an underscore. */
  function FilterCode(choice: string): (r: string)
    ensures |r| == |choice|
    ensures ' ' !in Upper(choice) ==> r == Upper(choice)
  {
    ReplaceFirst(Upper(choice), ' ', '_')
  }

  /** Each dropdown option filters on the matching server code. */
  lemma OptionsMatchCodes(i: int)
    requires 0 <= i < |StatusOptions|
    ensures |StatusOptions| == |ReleasePlanCard.Codes|
    ensures FilterCode(StatusOptions[i]) == ReleasePlanCard.Codes[i]
  {
    var choice, code := StatusOptions[i], ReleasePlanCard.Codes[i];
    if i == 1 {
      InProgressCode(choice);
    } else {
      assert forall k :: 0 <= k < |choice| ==> choice[k] != ' ' && UpperChar(choice[k]) == code[k];
      SingleWordCode(choice, code);
    }
  }

  /** 'In Progress' filters on IN_PROGRESS. */
  lemma InProgressCode(choice: string)
    requires choice == "In Progress"
    ensures FilterCode(choice) == "IN_PROGRESS"
  {
    SplitWordCode(choice, "IN_PROGRESS", 2);
  }

  /** An option whose only space is at `at` filters on its upper-cased
      self with that space replaced by '_'. */
  lemma SplitWordCode(choice: string, code: string, at: int)
    requires |choice| == |code| && 0 <= at < |choice|
    requires choice[at] == ' ' && code[at] == '_'
    requires forall k :: 0 <= k < |choice| && k != at ==> UpperChar(choice[k]) == code[k]
    requires forall k :: 0 <= k < at ==> choice[k] != ' '
    ensures FilterCode(choice) == code
  {
    var up := Upper(choice);
    FirstIndexAt(up, ' ', at);
    var r := FilterCode(choice);
    assert forall j :: 0 <= j < |r| ==> r[j] == code[j];
  }

  /** A one-word option filters on its upper-cased self. */
  lemma SingleWordCode(choice: string, code: string)
    requires |choice| == |code|
    requires forall i :: 0 <= i < |choice| ==> choice[i] != ' ' && UpperChar(choice[i]) == code[i]
    ensures FilterCode(choice) == code
  {
  }

  /** The label a card shows for a code filters back on that code, for any
      upper-case code without spaces. */
  lemma {:induction false} CardLabelFiltersBack(code: string)
    requires ' ' !in code && Upper(code) == code
    ensures FilterCode(ReleasePlanCard.StatusLabel(code)) == code
  {
    var shown := ReleasePlanCard.StatusLabel(code);
    assert Upper(shown) == shown by {
      forall i | 0 <= i < |shown|
        ensures UpperChar(shown[i]) == shown[i]
      {
        assert shown[i] == ' ' || shown[i] == code[i];
        assert UpperChar(code[i]) == Upper(code)[i];
      }
    }
    ReplaceFirstBack(code, '_', ' ');
  }

  /** The status filter: none for "All Statuses", otherwise exact equality
      with the label's code. */
  predicate StatusMatches(plan: ClientPlan, statusFilter: string) {
    statusFilter == AllStatuses || plan.status == FilterCode(statusFilter)
  }

  /** A search applies only when the query is not blank. */
  predicate SearchActive(query: string) {
    JsTrim(query) != []
  }

  /** The untrimmed query, lower-cased, occurs in the lower-cased name,
      description (when present) or release key. */
  predicate SearchMatches(plan: ClientPlan, query: string) {
    var q := Lower(query);
    || Contains(Lower(plan.name), q)
    || (plan.description.Some? && Contains(Lower(plan.description.value), q))
    || Contains(Lower(plan.releaseKey), q)
  }

  /** Whether a plan stays in the list. */
  predicate Shown(plan: ClientPlan, statusFilter: string, query: string) {
    StatusMatches(plan, statusFilter) && (!SearchActive(query) || SearchMatches(plan, query))
  }

  /** The filtering effect: the status filter, then the search. */
  function FilterPlans(plans: seq<ClientPlan>, statusFilter: string, query: string): (r: seq<ClientPlan>)
    ensures forall p :: p in r <==> p in plans && Shown(p, statusFilter, query)
  {
    var byStatus :=
      if statusFilter != AllStatuses then Keep(plans, (p: ClientPlan) => p.status == FilterCode(statusFilter)) else plans;
    if SearchActive(query) then Keep(byStatus, p => SearchMatches(p, query)) else byStatus
  }

  /** The two filters are one filter by their conjunction, so the list
      shown keeps the loaded order and drops exactly the plans that fail. */
  lemma {:induction false} FilterIsConjunction(plans: seq<ClientPlan>, statusFilter: string, query: string)
    ensures FilterPlans(plans, statusFilter, query) == Keep(plans, p => Shown(p, statusFilter, query))
    ensures Subsequence(FilterPlans(plans, statusFilter, query), plans)
  {
    var shown := (p: ClientPlan) => Shown(p, statusFilter, query);
    var byCode := (p: ClientPlan) => p.status == FilterCode(statusFilter);
    var search := (p: ClientPlan) => SearchMatches(p, query);
    if statusFilter != AllStatuses {
      if SearchActive(query) {
        KeepKeep(plans, byCode, search, shown);
      } else {
        KeepExtensional(plans, byCode, shown);
      }
    } else {
      if SearchActive(query) {
        KeepExtensional(plans, search, shown);
      } else {
        KeepAll(plans, shown);
      }
    }
    KeepSubsequence(plans, shown);
  }

  /** A filter that keeps everything returns its input. */
  lemma {:induction false} KeepAll(plans: seq<ClientPlan>, p: ClientPlan -> bool)
    requires forall x :: p(x)
    ensures Keep(plans, p) == plans
  {
    if |plans| > 0 {
      KeepAll(plans[1..], p);
      assert plans == [plans[0]] + plans[1..];
    }
  }

  /** A whitespace-only query filters nothing, whatever its case. */
  lemma BlankQueryKeepsAll(plans: seq<ClientPlan>, query: string)
    requires forall i :: 0 <= i < |query| ==> IsJsWhitespace(query[i])
    ensures FilterPlans(plans, AllStatuses, query) == plans
  {
    TrimEmptyIff(query, IsJsWhitespace);
  }

  // ---------------------------------------------------------------- delete

  /** The server's reply to a delete request. */
  datatype DeleteAnswer =
    | Deleted
    | Refused(text: string)
    | Unreachable

  /** What a delete click leads to: the request sent, if any, whether the
      list is fetched again, and the alert shown. */
  datatype DeleteEffect = DeleteEffect(request: Option<string>, refetch: bool, alert: Option<string>)

  /** `handleDelete`. */
  function HandleDelete(id: int, confirmed: bool, answer: DeleteAnswer): (r: DeleteEffect)
    ensures !confirmed ==> r == DeleteEffect(None, false, None)
    ensures confirmed ==> r.request == Some("/api/release-plans/" + IntToString(id))
    ensures r.refetch <==> confirmed && answer.Deleted?
    ensures r.alert.Some? <==> confirmed && !answer.Deleted?
    ensures confirmed && answer.Refused? ==> r.alert == Some("Failed to delete release plan: " + answer.text)
    ensures confirmed && answer.Unreachable? ==> r.alert == Some("Failed to delete release plan")
  {
    if !confirmed then DeleteEffect(None, false, None)
    else
      var path := "/api/release-plans/" + IntToString(id);
      match answer
      case Deleted => DeleteEffect(Some(path), true, None)
      case Refused(text) => DeleteEffect(Some(path), false, Some("Failed to delete release plan: " + text))
      case Unreachable => DeleteEffect(Some(path), false, Some("Failed to delete release plan"))
  }

  /** The DELETE path names the plan: what follows the collection path
      reads back, as the server's `Long` path variable, as the plan's id. */
  lemma DeletePathNamesPlan(id: int, answer: DeleteAnswer)
    requires LongMin <= id <= LongMax
    ensures var r := HandleDelete(id, true, answer);
      r.request.Some? && |r.request.value| > 19 && ParseLong(r.request.value[19..]) == Some(id)
  {
    ParseLongRoundTrip(id);
    var path := "/api/release-plans/" + IntToString(id);
    assert |"/api/release-plans/"| == 19;
    assert path[19..] == IntToString(id);
  }
}
