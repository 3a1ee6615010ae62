/**
 * The inbox's main pane: keyboard navigation through the inbox list, the
 * status banner, the edit permission, and the update request it sends.
 */
module InboxMainContent {
  import opened Common

  /** An issue of the inbox list, by the id of its (first) inbox entry, `issue_inbox[0].id`. */
  datatype InboxIssue = InboxIssue(entryId: string)

  /** JavaScript `findIndex`: the first index whose entry id is `id`, or -1. */
  function FindIndex(list: seq<InboxIssue>, id: string): (i: int)
    ensures -1 <= i < |list|
    ensures i == -1 <==> forall k :: 0 <= k < |list| ==> list[k].entryId != id
    ensures 0 <= i ==> list[i].entryId == id && forall k :: 0 <= k < i ==> list[k].entryId != id
  {
    if list == [] then -1
    else if list[0].entryId == id then 0
    else
      var j := FindIndex(list[1..], id);
      if j == -1 then -1 else j + 1
  }

  datatype Key = ArrowUp | ArrowDown | OtherKey

  /**
   * What a key press does: nothing, a route change to the inbox entry with
   * the given id, or a read past either end of the list (which in the view
   * throws, as `undefined.issue_inbox`).
   */
  datatype KeyOutcome = Ignored | Navigate(entryId: string) | ReadOutOfBounds

  /** `issuesList[j].issue_inbox[0].id` for any integer `j`. */
  function EntryAt(list: seq<InboxIssue>, j: int): KeyOutcome {
    if 0 <= j < |list| then Navigate(list[j].entryId) else ReadOutOfBounds
  }

  /** The index ArrowUp reads: the last from the first, else the one before. */
  function PrevIndex(i: int, n: int): (r: int)
    ensures 0 <= i < n ==> 0 <= r < n
    ensures i == -1 ==> r == -2
  {
    if i == 0 then n - 1 else i - 1
  }

  /** The index ArrowDown reads: the first from the last, else the one after. */
  function NextIndex(i: int, n: int): (r: int)
    ensures 0 <= i < n ==> 0 <= r < n
    ensures i == -1 ==> r == 0
  {
    if i == n - 1 then 0 else i + 1
  }

  /** For an index inside the list, both steps are a move by one modulo the length. */
  lemma StepsWrapAround(i: int, n: int)
    requires 0 <= i < n
    ensures PrevIndex(i, n) == (i - 1) % n
    ensures NextIndex(i, n) == (i + 1) % n
  {
    if i == 0 {
      assert (i - 1) % n == n - 1;
    } else {
      assert (i - 1) % n == i - 1;
    }
    if i == n - 1 {
      assert (i + 1) % n == 0;
    } else {
      assert (i + 1) % n == i + 1;
    }
  }

  /**
   * `onKeyDown`: without a list or a current id nothing happens; otherwise
   * the current index is looked up and ArrowUp moves to the previous entry
   * (the last from the first) and ArrowDown to the next (the first from the
   * last). For an id that is found, this is moving by one modulo the list's
   * length. For an id that is not found, ArrowDown goes to the first entry
   * (when there is one) and ArrowUp always reads out of bounds.
   */
  function OnKeyDown(list: Option<seq<InboxIssue>>, current: Option<string>, key: Key): (r: KeyOutcome)
    ensures list.None? || !Present(current) || key == OtherKey ==> r == Ignored
    ensures list.Some? && Present(current) && FindIndex(list.value, current.value) >= 0 && key == ArrowUp ==>
      r == Navigate(list.value[(FindIndex(list.value, current.value) - 1) % |list.value|].entryId)
    ensures list.Some? && Present(current) && FindIndex(list.value, current.value) >= 0 && key == ArrowDown ==>
      r == Navigate(list.value[(FindIndex(list.value, current.value) + 1) % |list.value|].entryId)
    ensures list.Some? && Present(current) && FindIndex(list.value, current.value) == -1 && key == ArrowUp ==>
      r == ReadOutOfBounds
    ensures list.Some? && Present(current) && FindIndex(list.value, current.value) == -1 && key == ArrowDown ==>
      r == if list.value == [] then ReadOutOfBounds else Navigate(list.value[0].entryId)
  {
    if list.None? || !Present(current) then Ignored
    else
      var xs := list.value;
      var i := FindIndex(xs, current.value);
      assert 0 <= i ==> PrevIndex(i, |xs|) == (i - 1) % |xs| && NextIndex(i, |xs|) == (i + 1) % |xs| by {
        if 0 <= i {
          StepsWrapAround(i, |xs|);
        }
      }
      match key
      case ArrowUp => EntryAt(xs, PrevIndex(i, |xs|))
      case ArrowDown => EntryAt(xs, NextIndex(i, |xs|))
      case OtherKey => Ignored
  }

  /** No entry id occurs twice in the list. */
  predicate DistinctEntries(list: seq<InboxIssue>) {
    forall a, b :: 0 <= a < b < |list| ==> list[a].entryId != list[b].entryId
  }

  /** In a list of distinct entries, the index of an entry's id is that entry's position. */
  lemma FindIndexOfEntry(list: seq<InboxIssue>, k: int)
    requires DistinctEntries(list) && 0 <= k < |list|
    ensures FindIndex(list, list[k].entryId) == k
  {
  }

  /**
   * For a current entry that is in a list of distinct, non-empty entry ids,
   * ArrowUp and then ArrowDown come back to the current entry.
   */
  lemma UpThenDownReturns(list: seq<InboxIssue>, current: string)
    requires DistinctEntries(list)
    requires forall k :: 0 <= k < |list| ==> list[k].entryId != ""
    requires exists k :: 0 <= k < |list| && list[k].entryId == current
    ensures var up := OnKeyDown(Some(list), Some(current), ArrowUp);
      up.Navigate? && OnKeyDown(Some(list), Some(up.entryId), ArrowDown) == Navigate(current)
  {
    var n := |list|;
    var i := FindIndex(list, current);
    StepsWrapAround(i, n);
    var prev := PrevIndex(i, n);
    FindIndexOfEntry(list, prev);
    StepsWrapAround(prev, n);
  }

  /** Likewise ArrowDown and then ArrowUp come back to the current entry. */
  lemma DownThenUpReturns(list: seq<InboxIssue>, current: string)
    requires DistinctEntries(list)
    requires forall k :: 0 <= k < |list| ==> list[k].entryId != ""
    requires exists k :: 0 <= k < |list| && list[k].entryId == current
    ensures var down := OnKeyDown(Some(list), Some(current), ArrowDown);
      down.Navigate? && OnKeyDown(Some(list), Some(down.entryId), ArrowUp) == Navigate(current)
  {
    var n := |list|;
    var i := FindIndex(list, current);
    StepsWrapAround(i, n);
    var next := NextIndex(i, n);
    FindIndexOfEntry(list, next);
    StepsWrapAround(next, n);
  }

  /** Moving up from an id that is not in the list reads before its start (`issuesList[-2]`). */
  lemma ArrowUpFromUnknownEntry(list: seq<InboxIssue>, current: string)
    requires current != ""
    requires forall k :: 0 <= k < |list| ==> list[k].entryId != current
    ensures OnKeyDown(Some(list), Some(current), ArrowUp) == ReadOutOfBounds
    ensures list != [] ==> OnKeyDown(Some(list), Some(current), ArrowDown) == Navigate(list[0].entryId)
  {
  }

  // ---- The status banner ----

  /** The banner's message for an inbox status. */
  datatype Banner = Pending | Declined | Snoozed(expired: bool) | Accepted | Duplicate | NoBanner

  /** The banner's colour. */
  datatype Tone = Yellow | Red | Gray | Green | NoTone

  /**
   * `new Date(snoozed_till ?? "") < new Date()`: a missing or unparsable
   * date (an invalid date, compared as NaN) is never in the past.
   * Dates are instants on one integer clock.
   */
  predicate SnoozeExpired(snoozedTill: Option<int>, now: int)
    ensures snoozedTill.None? ==> !SnoozeExpired(snoozedTill, now)
    ensures snoozedTill == Some(now) ==> !SnoozeExpired(snoozedTill, now)
  {
    snoozedTill.Some? && snoozedTill.value < now
  }

  /**
   * The banner for `issue_inbox[0].status`: -2 pending, -1 declined,
   * 0 snoozed (expired when the snooze date has passed), 1 accepted,
   * 2 duplicate, and nothing for any other code.
   */
  function StatusBanner(status: int, snoozedTill: Option<int>, now: int): (b: Banner)
    ensures b == Pending <==> status == -2
    ensures b == Declined <==> status == -1
    ensures b.Snoozed? <==> status == 0
    ensures b.Snoozed? ==> (b.expired <==> SnoozeExpired(snoozedTill, now))
    ensures b == Accepted <==> status == 1
    ensures b == Duplicate <==> status == 2
    ensures b == NoBanner <==> status < -2 || status > 2
  {
    if status == -2 then Pending
    else if status == -1 then Declined
    else if status == 0 then Snoozed(SnoozeExpired(snoozedTill, now))
    else if status == 1 then Accepted
    else if status == 2 then Duplicate
    else NoBanner
  }

  /**
   * The class ternary: the colour for each status, decided on its own and
   * with its own reading `now` of the clock.
   */
  function StatusTone(status: int, snoozedTill: Option<int>, now: int): (t: Tone)
    ensures t == Yellow <==> status == -2
    ensures t == Red <==> status == -1 || (status == 0 && SnoozeExpired(snoozedTill, now))
    ensures t == Gray <==> status == 2 || (status == 0 && !SnoozeExpired(snoozedTill, now))
    ensures t == Green <==> status == 1
    ensures t == NoTone <==> status < -2 || status > 2
  {
    if status == -2 then Yellow
    else if status == -1 then Red
    else if status == 0 then (if SnoozeExpired(snoozedTill, now) then Red else Gray)
    else if status == 1 then Green
    else if status == 2 then Gray
    else NoTone
  }

  /**
   * A colour fits a message: red for a declined task or an expired snooze,
   * yellow when pending, green when accepted, grey for a running snooze or
   * a duplicate, and no colour without a message.
   */
  predicate ToneFits(t: Tone, b: Banner) {
    && (t == Red <==> b == Declined || b == Snoozed(true))
    && (t == Yellow <==> b == Pending)
    && (t == Green <==> b == Accepted)
    && (t == Gray <==> b == Snoozed(false) || b == Duplicate)
    && (t == NoTone <==> b == NoBanner)
  }

  /**
   * The view reads the clock twice, once for the colour (`toneNow`) and
   * once for the message (`messageNow`). The colour fits the message
   * exactly unless the task is snoozed and the two readings fall on
   * different sides of the snooze date; with the colour read first, that
   * shows a grey banner saying the snooze has passed.
   */
  lemma ToneMatchesBanner(status: int, snoozedTill: Option<int>, toneNow: int, messageNow: int)
    ensures ToneFits(StatusTone(status, snoozedTill, toneNow), StatusBanner(status, snoozedTill, messageNow))
      <==> !(status == 0 && SnoozeExpired(snoozedTill, toneNow) != SnoozeExpired(snoozedTill, messageNow))
    ensures status == 0 && snoozedTill.Some? && toneNow <= snoozedTill.value < messageNow ==>
      StatusTone(status, snoozedTill, toneNow) == Gray && StatusBanner(status, snoozedTill, messageNow) == Snoozed(true)
    ensures toneNow == messageNow ==>
      ToneFits(StatusTone(status, snoozedTill, toneNow), StatusBanner(status, snoozedTill, messageNow))
  {
  }

  /** A snooze with no date, or one still to come, is shown as running. */
  lemma SnoozeWithoutDateRuns(now: int, till: int)
    requires till >= now
    ensures StatusBanner(0, None, now) == Snoozed(false)
    ensures StatusBanner(0, Some(till), now) == Snoozed(false)
    ensures StatusBanner(0, Some(till), till + 1) == Snoozed(true)
  {
  }

  // ---- Permission, form and update ----

  /**
   * `isAllowed || currentUser?.id === issueDetails.created_by`: a member or
   * administrator, or the user who created the issue, may edit it.
   */
  predicate CanEdit(role: Option<Role>, currentUserId: Option<string>, createdBy: string)
    ensures CanEdit(role, currentUserId, createdBy) <==>
      (role == Some(Member) || role == Some(Admin) || currentUserId == Some(createdBy))
  {
    IsAtLeastMember(role) || currentUserId == Some(createdBy)
  }

  /** What the pane shows when no issue is selected: the count of issues, or "No task found". */
  datatype EmptyPane = IssuesFound(count: nat) | NoTaskFound

  function EmptyPaneMessage(list: Option<seq<InboxIssue>>): (m: EmptyPane)
    ensures m.IssuesFound? <==> list.Some? && list.value != []
    ensures m.IssuesFound? ==> m.count == |list.value| && m.count > 0
  {
    if list.Some? && |list.value| > 0 then IssuesFound(|list.value|) else NoTaskFound
  }

  /**
   * The assignees the edit form is reset with: the issue's own list when
   * there is one, else the ids of its assignee details, else none.
   */
  function FormAssignees(assignees: Option<seq<string>>, assigneeDetailIds: Option<seq<string>>): (r: seq<string>)
    ensures assignees.Some? ==> r == assignees.value
    ensures assignees.None? && assigneeDetailIds.Some? ==> r == assigneeDetailIds.value
    ensures assignees.None? && assigneeDetailIds.None? ==> r == []
  {
    match assignees
    case Some(a) => a
    case None => assigneeDetailIds.GetOr([])
  }

  /** The fields of the selected issue the pane reads. */
  datatype IssueDetails = IssueDetails(entryIds: seq<string>, status: int, snoozedTill: Option<int>, createdBy: string)

  /** `inboxIssueDetailsStore.updateIssue(workspace, project, inbox, entry id, form data)` */
  datatype UpdateRequest<F> = UpdateRequest(inboxId: string, entryId: string, formData: F)

  /** The outcome of `submitChanges`: nothing, a request, or a read of a missing first entry. */
  datatype SubmitOutcome<F> = NotSubmitted | Sent(request: UpdateRequest<F>) | MissingEntry

  /**
   * `submitChanges`: nothing unless the workspace, project, inbox, selected
   * issue id and its details are all there; otherwise the form data is sent
   * for the issue's first inbox entry.
   */
  function SubmitChanges<F>(workspaceSlug: Option<string>, projectId: Option<string>, inboxId: Option<string>,
                            inboxIssueId: Option<string>, details: Option<IssueDetails>, formData: F): (r: SubmitOutcome<F>)
    ensures r.NotSubmitted? <==>
      !Present(workspaceSlug) || !Present(projectId) || !Present(inboxIssueId) || !Present(inboxId) || details.None?
    ensures r.Sent? ==> details.Some? && details.value.entryIds != []
    ensures r.Sent? ==> r.request == UpdateRequest(inboxId.value, details.value.entryIds[0], formData)
    ensures r.MissingEntry? <==> !r.NotSubmitted? && details.value.entryIds == []
  {
    if !Present(workspaceSlug) || !Present(projectId) || !Present(inboxIssueId) || !Present(inboxId) || details.None? then
      NotSubmitted
    else if details.value.entryIds == [] then MissingEntry
    else Sent(UpdateRequest(inboxId.value, details.value.entryIds[0], formData))
  }
}
