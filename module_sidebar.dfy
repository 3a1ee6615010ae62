/**
 * The module sidebar: its filter handler, the task-count label, the date
 * validity flags and date-change handlers, the progress percentage, and
 * the link payloads.
 */
module ModuleSidebar {
  import opened Common
  import opened Text
  import opened Percent
  import opened Records
  import opened FilterUpdate

  /** The fields of a module's details the sidebar reads; dates as day numbers, None when unset or unparsable. */
  datatype ModuleDetails = ModuleDetails(startDate: Option<int>, targetDate: Option<int>,
                                         totalIssues: nat, completedIssues: nat)

  /**
   * `handleFiltersUpdate`: the same guard and rule as the project header,
   * forwarded together with this module's id.
   */
  method HandleFiltersUpdate(store: FilterStore, workspaceSlug: Option<string>, projectId: Option<string>,
                             moduleId: string, key: string, value: FilterValue)
    requires store.Valid()
    modifies store, store.filters.Values
    ensures store.Valid() && store.filters == old(store.filters)
    ensures !Present(workspaceSlug) || !Present(projectId) ==>
      store.calls == old(store.calls) && forall k :: k in store.filters ==> store.filters[k].items == old(store.filters[k].items)
    ensures Present(workspaceSlug) && Present(projectId) ==>
      && store.calls == old(store.calls) + [FilterCall(key, Applied(old(store.Current(key)), value), Some(moduleId))]
      && (key in store.filters ==> store.filters[key].items == Applied(old(store.filters[key].items), value))
      && (forall k :: k in store.filters && k != key ==> store.filters[k].items == old(store.filters[k].items))
  {
    if !Present(workspaceSlug) || !Present(projectId) {
      return;
    }
    store.ApplyAndForward(key, value, Some(moduleId));
  }

  // ---- The task-count label ----

  const NoTasksLabel: string := "0 Tasks"

  /** `issueCount`: "0 Tasks", the total alone when all are done, else "completed/total". */
  function IssueCountLabel(total: nat, completed: nat): (shown: string)
    ensures shown == NoTasksLabel <==> total == 0
    ensures '/' in shown <==> total != 0 && total != completed
  {
    assert '/' !in NoTasksLabel;
    if total == 0 then NoTasksLabel
    else if total == completed then
      DigitsAreNotNoTasks(NatToString(total));
      NatToString(total)
    else
      var done := NatToString(completed);
      var shown := done + "/" + NatToString(total);
      assert shown[|done|] == '/';
      shown
  }

  /** The first index of `c` in `s`, or -1. */
  function IndexOfChar(s: string, c: char): (i: int)
    ensures -1 <= i < |s|
    ensures i == -1 <==> c !in s
    ensures 0 <= i ==> s[i] == c && c !in s[..i]
  {
    if s == [] then -1
    else if s[0] == c then 0
    else
      var j := IndexOfChar(s[1..], c);
      assert j >= 0 ==> s[1..][..j] == s[1..j + 1];
      if j == -1 then -1 else j + 1
  }

  predicate AllDigits(s: string) {
    s != [] && forall i :: 0 <= i < |s| ==> IsDigit(s[i])
  }

  /** The number a non-empty run of digits stands for. */
  function Number(s: string): Option<nat> {
    if AllDigits(s) then Some(DigitsValue(s)) else None
  }

  /** Reads a task-count label back as (completed, total). */
  function DecodeIssueCount(shown: string): Option<(nat, nat)> {
    if shown == NoTasksLabel then Some((0, 0))
    else
      var i := IndexOfChar(shown, '/');
      if i >= 0 then
        var completed, total := Number(shown[..i]), Number(shown[i + 1..]);
        if completed.Some? && total.Some? then Some((completed.value, total.value)) else None
      else
        var n := Number(shown);
        if n.Some? then Some((n.value, n.value)) else None
  }

  /**
   * The label loses nothing about consistent counts: it reads back as the
   * completed and total counts it was made from (for a total of zero, the
   * completed count must be zero too).
   */
  lemma IssueCountLabelDecodes(total: nat, completed: nat)
    requires total != 0 || completed == 0
    ensures DecodeIssueCount(IssueCountLabel(total, completed)) == Some((completed, total))
  {
    if total != 0 {
      if total == completed {
        DecodesWhole(total);
      } else {
        DecodesFraction(completed, total);
      }
    }
  }

  lemma DigitsAreNotNoTasks(s: string)
    requires AllDigits(s)
    ensures s != NoTasksLabel && '/' !in s
  {
    assert !IsDigit(NoTasksLabel[1]);
    assert forall k :: 0 <= k < |s| ==> s[k] != '/';
  }

  lemma DecodesWhole(n: nat)
    ensures DecodeIssueCount(NatToString(n)) == Some((n, n))
  {
    var s := NatToString(n);
    NatToStringRoundTrip(n);
    DigitsAreNotNoTasks(s);
    assert IndexOfChar(s, '/') == -1;
  }

  lemma DecodesFraction(completed: nat, total: nat)
    ensures DecodeIssueCount(NatToString(completed) + "/" + NatToString(total)) == Some((completed, total))
  {
    var a, b := NatToString(completed), NatToString(total);
    var shown := a + "/" + b;
    NatToStringRoundTrip(completed);
    NatToStringRoundTrip(total);
    DigitsAreNotNoTasks(a);
    assert shown[|a|] == '/';
    assert shown[..|a|] == a;
    assert shown[|a| + 1..] == b;
    assert shown != NoTasksLabel by {
      assert '/' !in NoTasksLabel;
    }
    FirstIndexOfChar(shown, '/', |a|);
  }

  lemma FirstIndexOfChar(s: string, c: char, j: nat)
    requires j < |s| && s[j] == c && c !in s[..j]
    ensures IndexOfChar(s, c) == j
  {
    assert forall k :: 0 <= k < j ==> s[..j][k] == s[k];
    assert forall k :: j < k <= |s| ==> s[..k][j] == s[j];
  }

  // ---- Date validity ----

  /** `isStartValid`: the start date is not after now (an unset date compares false). */
  predicate IsStartValid(m: ModuleDetails, now: int)
    ensures m.startDate.None? ==> !IsStartValid(m, now)
    ensures m.startDate == Some(now) ==> IsStartValid(m, now)
  {
    m.startDate.Some? && m.startDate.value <= now
  }

  /** `isEndValid`: the target date is not before the start date. */
  predicate IsEndValid(m: ModuleDetails)
    ensures m.startDate.None? || m.targetDate.None? ==> !IsEndValid(m)
    ensures m.startDate.Some? && m.targetDate == m.startDate ==> IsEndValid(m)
  {
    m.startDate.Some? && m.targetDate.Some? && m.targetDate.value >= m.startDate.value
  }

  /**
   * The progress section's button is disabled unless both dates are set,
   * the start has arrived, and the target is not before the start.
   */
  predicate ProgressDisabled(m: ModuleDetails, now: int)
    ensures !ProgressDisabled(m, now) <==>
      exists s, t :: m.startDate == Some(s) && m.targetDate == Some(t) && s <= now && s <= t
  {
    if IsStartValid(m, now) && IsEndValid(m) then
      assert m.startDate == Some(m.startDate.value) && m.targetDate == Some(m.targetDate.value);
      false
    else
      true
  }

  // ---- Date-change handlers ----

  /** What a date change leads to. */
  datatype DateChange =
    | NotSubmitted                      // a date is still unset
    | RejectedPastTarget                // "Unable to create module in past date..."
    | Submitted(start: int, target: int)  // both dates sent, "Module updated successfully."

  /**
   * The branch both date handlers take once the form holds the new value:
   * nothing until both dates are set; an error when the target date is not
   * later than today; otherwise both dates are submitted together.
   */
  function DateChangeDecision(start: Option<int>, target: Option<int>, today: int): (d: DateChange)
    ensures d == NotSubmitted <==> start.None? || target.None?
    ensures d == RejectedPastTarget <==> start.Some? && target.Some? && target.value <= today
    ensures d.Submitted? ==> start == Some(d.start) && target == Some(d.target) && d.target > today
  {
    if start.Some? && target.Some? then
      if !(target.value > today) then RejectedPastTarget
      else Submitted(start.value, target.value)
    else NotSubmitted
  }

  /** The form values the two date pickers write. */
  class DateForm {
    var startDate: Option<int>
    var targetDate: Option<int>

    /** The form starts from the default values: no dates. */
    constructor ()
      ensures startDate == None && targetDate == None
    {
      startDate := None;
      targetDate := None;
    }

    /** `handleStartDateChange`: set the start date, then decide. */
    method HandleStartDateChange(date: Option<int>, today: int) returns (d: DateChange)
      modifies this
      ensures startDate == date && targetDate == old(targetDate)
      ensures d == DateChangeDecision(date, targetDate, today)
    {
      startDate := date;
      d := Decide(today);
    }

    /** `handleEndDateChange`: set the target date, then decide. */
    method HandleEndDateChange(date: Option<int>, today: int) returns (d: DateChange)
      modifies this
      ensures targetDate == date && startDate == old(startDate)
      ensures d == DateChangeDecision(startDate, date, today)
    {
      targetDate := date;
      d := Decide(today);
    }

    method Decide(today: int) returns (d: DateChange)
      ensures d == DateChangeDecision(startDate, targetDate, today)
    {
      if startDate.Some? && targetDate.Some? {
        if !(targetDate.value > today) {
          return RejectedPastTarget;
        }
        return Submitted(startDate.value, targetDate.value);
      }
      return NotSubmitted;
    }
  }

  // ---- Progress percentage ----

  /** The value of `progressPercentage`, including JavaScript's NaN and Infinity. */
  datatype Percentage = NoDetails | NotANumber | Infinite | Rounded(n: nat)

  /**
   * `progressPercentage`: null without details; `Math.round(completed /
   * total * 100)` otherwise, which is NaN for 0/0 and Infinity for a
   * positive count over a zero total.
   */
  function ProgressPercentage(details: Option<ModuleDetails>): (p: Percentage)
    ensures details.None? <==> p == NoDetails
    ensures details.Some? && details.value.totalIssues == 0 ==>
      p == if details.value.completedIssues == 0 then NotANumber else Infinite
    ensures details.Some? && details.value.totalIssues > 0 ==>
      p.Rounded? && p.n == RoundPercent(details.value.completedIssues, details.value.totalIssues)
  {
    match details
    case None => NoDetails
    case Some(m) =>
      if m.totalIssues == 0 then (if m.completedIssues == 0 then NotANumber else Infinite)
      else Rounded(RoundPercent(m.completedIssues, m.totalIssues))
  }

  /** `{progressPercentage ? <badge> : ""}`: null, NaN and 0 are falsy. */
  predicate ShowsProgressBadge(p: Percentage)
    ensures p == NoDetails || p == NotANumber || p == Rounded(0) ==> !ShowsProgressBadge(p)
    ensures p == Infinite ==> ShowsProgressBadge(p)
  {
    p.Infinite? || (p.Rounded? && p.n != 0)
  }

  /**
   * With tasks, the badge appears exactly when the completed share rounds
   * to at least 1%, that is when 200 * completed >= total; without tasks
   * it never appears for consistent counts.
   */
  lemma ProgressBadgeRule(m: ModuleDetails)
    ensures m.totalIssues > 0 ==>
      (ShowsProgressBadge(ProgressPercentage(Some(m))) <==> 200 * m.completedIssues >= m.totalIssues)
    ensures m.totalIssues == 0 && m.completedIssues == 0 ==> !ShowsProgressBadge(ProgressPercentage(Some(m)))
  {
    if m.totalIssues > 0 {
      var r := RoundPercent(m.completedIssues, m.totalIssues);
      MulMonotone(2 * m.totalIssues, 1, r);
    }
  }

  // ---- Link payloads ----

  /** `{ metadata: {}, ...formData }`: metadata defaults to `{}` unless the form supplies it. */
  function LinkPayload(formData: JsRecord): (p: JsRecord)
    ensures p.Keys == formData.Keys + {"metadata"}
    ensures "metadata" !in formData ==> p["metadata"] == JsObject(map[])
    ensures forall k :: k in formData ==> p[k] == formData[k]
  {
    Spread(map["metadata" := JsObject(map[])], formData)
  }

  datatype LinkRequest =
    | CreateLink(moduleId: string, payload: JsRecord)
    | UpdateLink(moduleId: string, linkId: string, payload: JsRecord)

  /** The toast a link request ends with: its title, on success or on failure. */
  datatype LinkToast = LinkSuccess(title: string) | LinkError(title: string)

  /** What a link handler does: the request it sends and the toast that follows. */
  datatype LinkEffect = LinkEffect(request: LinkRequest, toast: LinkToast)

  const LinkCreated: string := "Module link created"
  const LinkUpdated: string := "Module link updated"
  const LinkFailed: string := "Error!"

  /**
   * `handleCreateLink`: needs a workspace, a project and a module id; the
   * request carries the module id and the payload, and the toast follows
   * the outcome.
   */
  function HandleCreateLink(workspaceSlug: Option<string>, projectId: Option<string>, moduleId: string,
                            formData: JsRecord, requestSucceeds: bool): (r: Option<LinkEffect>)
    ensures r.Some? <==> Present(workspaceSlug) && Present(projectId) && moduleId != ""
    ensures r.Some? ==> r.value.request == CreateLink(moduleId, LinkPayload(formData))
    ensures r.Some? ==> r.value.toast == if requestSucceeds then LinkSuccess(LinkCreated) else LinkError(LinkFailed)
  {
    if Present(workspaceSlug) && Present(projectId) && moduleId != "" then
      var request := CreateLink(moduleId, LinkPayload(formData));
      if requestSucceeds then Some(LinkEffect(request, LinkSuccess(LinkCreated)))
      else Some(LinkEffect(request, LinkError(LinkFailed)))
    else None
  }

  /**
   * `handleUpdateLink`: its guard tests `module`, which names the bundler's
   * module object and is always defined, so only the workspace and project
   * are checked; the toast follows the outcome.
   */
  function HandleUpdateLink(workspaceSlug: Option<string>, projectId: Option<string>, moduleId: string,
                            linkId: string, formData: JsRecord, requestSucceeds: bool): (r: Option<LinkEffect>)
    ensures r.Some? <==> Present(workspaceSlug) && Present(projectId)
    ensures r.Some? ==> r.value.request == UpdateLink(moduleId, linkId, LinkPayload(formData))
    ensures r.Some? ==> r.value.toast == if requestSucceeds then LinkSuccess(LinkUpdated) else LinkError(LinkFailed)
  {
    if Present(workspaceSlug) && Present(projectId) then
      var request := UpdateLink(moduleId, linkId, LinkPayload(formData));
      if requestSucceeds then Some(LinkEffect(request, LinkSuccess(LinkUpdated)))
      else Some(LinkEffect(request, LinkError(LinkFailed)))
    else None
  }

  /**
   * The request does not depend on the outcome, and the two handlers fail
   * with the same toast but succeed with different ones.
   */
  lemma LinkToastFollowsOutcome(workspaceSlug: Option<string>, projectId: Option<string>, moduleId: string,
                                linkId: string, formData: JsRecord)
    requires Present(workspaceSlug) && Present(projectId) && moduleId != ""
    ensures HandleCreateLink(workspaceSlug, projectId, moduleId, formData, true).value.request
         == HandleCreateLink(workspaceSlug, projectId, moduleId, formData, false).value.request
    ensures HandleUpdateLink(workspaceSlug, projectId, moduleId, linkId, formData, true).value.request
         == HandleUpdateLink(workspaceSlug, projectId, moduleId, linkId, formData, false).value.request
    ensures HandleCreateLink(workspaceSlug, projectId, moduleId, formData, false).value.toast
         == HandleUpdateLink(workspaceSlug, projectId, moduleId, linkId, formData, false).value.toast
    ensures HandleCreateLink(workspaceSlug, projectId, moduleId, formData, true).value.toast
         != HandleUpdateLink(workspaceSlug, projectId, moduleId, linkId, formData, true).value.toast
  {
    assert LinkCreated != LinkUpdated by {
      assert LinkCreated[12] != LinkUpdated[12];
    }
  }
}
