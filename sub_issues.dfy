/**
 * The sub-issues panel of an issue: its three loader lists, the record of
 * open create/existing/edit/delete dialogs, the progress counts, and the
 * requests it builds when sub-issues are removed, added or updated.
 */
module SubIssuesRoot {
  import opened Common
  import opened Seqs
  import opened Records

  // ---- Loader lists ----

  datatype LoaderKey = Visibility | Delete | SubIssues

  /** `issuesLoader`: the expanded issues, those being deleted, those whose sub-issues load. */
  datatype Loaders = Loaders(visibility: seq<string>, delete: seq<string>, subIssues: seq<string>) {
    function Get(key: LoaderKey): seq<string> {
      match key
      case Visibility => visibility
      case Delete => delete
      case SubIssues => subIssues
    }
  }

  /** The panel opens with the parent expanded and nothing deleting or loading. */
  function InitialLoaders(parentId: string): (l: Loaders)
    ensures forall y :: y in l.Get(Visibility) <==> y == parentId
    ensures l.Get(Delete) == [] && l.Get(SubIssues) == []
  {
    Loaders([parentId], [], [])
  }

  /**
   * `handleIssuesLoader`: the id is toggled in the chosen list (every
   * occurrence removed when present, appended when absent); the other two
   * lists are unchanged.
   */
  function HandleIssuesLoader(l: Loaders, key: LoaderKey, issueId: string): (r: Loaders)
    ensures issueId in r.Get(key) <==> issueId !in l.Get(key)
    ensures forall y :: y != issueId ==> (y in r.Get(key) <==> y in l.Get(key))
    ensures issueId !in l.Get(key) ==> r.Get(key) == l.Get(key) + [issueId]
    ensures issueId in l.Get(key) ==> IsSubsequence(r.Get(key), l.Get(key))
    ensures forall k :: k != key ==> r.Get(k) == l.Get(k)
  {
    var updated := Toggle(l.Get(key), issueId);
    match key
    case Visibility => l.(visibility := updated)
    case Delete => l.(delete := updated)
    case SubIssues => l.(subIssues := updated)
  }

  /** Toggling an id that is not in the list twice gives the loaders back. */
  lemma LoaderToggleTwice(l: Loaders, key: LoaderKey, issueId: string)
    requires issueId !in l.Get(key)
    ensures HandleIssuesLoader(HandleIssuesLoader(l, key, issueId), key, issueId) == l
  {
    ToggleTwice(l.Get(key), issueId);
  }

  /**
   * The parent starts expanded, and clicking the header once collapses it
   * and clicking again expands it, with the other lists untouched.
   */
  lemma ParentVisibilityToggles(parentId: string)
    ensures parentId in InitialLoaders(parentId).visibility
    ensures var once := HandleIssuesLoader(InitialLoaders(parentId), Visibility, parentId);
      && parentId !in once.visibility
      && once.delete == [] && once.subIssues == []
      && HandleIssuesLoader(once, Visibility, parentId) == InitialLoaders(parentId)
  {
    var once := HandleIssuesLoader(InitialLoaders(parentId), Visibility, parentId);
    assert once.visibility == [];
  }

  // ---- The dialog record ----

  datatype CrudKey = Create | Existing | Edit | Remove

  /** One dialog: open or not, the issue id it works for, and the issue it shows. */
  datatype CrudEntry = CrudEntry(toggle: bool, issueId: Option<string>, issue: Option<JsRecord>)

  /** `issueCrudOperation`: one entry for each of the four dialogs. */
  datatype CrudState = CrudState(create: CrudEntry, existing: CrudEntry, edit: CrudEntry, remove: CrudEntry) {
    function Get(key: CrudKey): CrudEntry {
      match key
      case Create => create
      case Existing => existing
      case Edit => edit
      case Remove => remove
    }
  }

  const ClosedEntry: CrudEntry := CrudEntry(false, None, None)

  /** All four dialogs closed, with no id and no issue. */
  const InitialCrudState: CrudState := CrudState(ClosedEntry, ClosedEntry, ClosedEntry, ClosedEntry)

  /**
   * `handleIssueCrudOperation`: the named dialog flips open or closed and
   * records the given id and issue; the other three are unchanged.
   */
  function HandleIssueCrudOperation(s: CrudState, key: CrudKey, issueId: Option<string>,
                                    issue: Option<JsRecord>): (r: CrudState)
    ensures r.Get(key).toggle == !s.Get(key).toggle
    ensures r.Get(key).issueId == issueId && r.Get(key).issue == issue
    ensures forall k :: k != key ==> r.Get(k) == s.Get(k)
  {
    var entry := CrudEntry(!s.Get(key).toggle, issueId, issue);
    match key
    case Create => s.(create := entry)
    case Existing => s.(existing := entry)
    case Edit => s.(edit := entry)
    case Remove => s.(remove := entry)
  }

  /**
   * Opening a dialog for the parent and closing it again (as the dialogs'
   * close handlers do, with a null id) leaves every dialog closed-state as
   * it was and clears the named entry.
   */
  lemma OpenThenClose(s: CrudState, key: CrudKey, parentId: string)
    ensures var r := HandleIssueCrudOperation(HandleIssueCrudOperation(s, key, Some(parentId), None), key, None, None);
      && r.Get(key) == CrudEntry(s.Get(key).toggle, None, None)
      && forall k :: k != key ==> r.Get(k) == s.Get(k)
  {
  }

  /**
   * From the panel's initial record, opening any dialog for the parent
   * shows that dialog alone, and closing it gives the initial record back.
   */
  lemma {:induction false} InitialOpenThenClose(key: CrudKey, parentId: string)
    ensures var shown := HandleIssueCrudOperation(InitialCrudState, key, Some(parentId), None);
      && (forall k :: shown.Get(k).toggle <==> k == key)
      && HandleIssueCrudOperation(shown, key, None, None) == InitialCrudState
  {
    OpenThenClose(InitialCrudState, key, parentId);
    var r := HandleIssueCrudOperation(HandleIssueCrudOperation(InitialCrudState, key, Some(parentId), None), key, None, None);
    assert forall k :: r.Get(k) == InitialCrudState.Get(k);
    assert r == CrudState(r.Get(Create), r.Get(Existing), r.Get(Edit), r.Get(Remove));
  }

  // ---- Progress ----

  datatype StateDistribution = StateDistribution(cancelled: Option<nat>, completed: Option<nat>)

  /** The sub-issues response: the sub-issues and their counts by state group. */
  datatype SubIssuesResponse = SubIssuesResponse(subIssues: Option<seq<string>>,
                                                 stateDistribution: Option<StateDistribution>)

  /** The progress bar's `done` (cancelled plus completed) and `total` (the number of sub-issues). */
  datatype Progress = Progress(done: nat, total: nat)

  function CountOrZero(n: Option<nat>): nat {
    n.GetOr(0)
  }

  /**
   * `done` counts cancelled and completed sub-issues, a missing count as
   * zero; `total` is the number of sub-issues, zero while none are loaded.
   */
  function ProgressCounts(issues: Option<SubIssuesResponse>): (p: Progress)
    ensures issues.None? ==> p == Progress(0, 0)
    ensures issues.Some? && issues.value.subIssues.Some? ==> p.total == |issues.value.subIssues.value|
    ensures issues.Some? && issues.value.subIssues.None? ==> p.total == 0
    ensures issues.Some? && issues.value.stateDistribution.Some? ==>
      p.done == CountOrZero(issues.value.stateDistribution.value.cancelled)
              + CountOrZero(issues.value.stateDistribution.value.completed)
    ensures issues.Some? && issues.value.stateDistribution.None? ==> p.done == 0
  {
    match issues
    case None => Progress(0, 0)
    case Some(res) =>
      var total := match res.subIssues
        case Some(xs) => |xs|
        case None => 0;
      var done := match res.stateDistribution
        case Some(d) => CountOrZero(d.cancelled) + CountOrZero(d.completed)
        case None => 0;
      Progress(done, total)
  }

  // ---- Requests ----

  datatype Toast = NoToast | SuccessToast(title: string) | WarningToast(title: string)

  /** What removing a sub-issue does: the patch sent (which issue loses its parent), the new loaders, the toast. */
  datatype RemoveEffect = RemoveEffect(patch: Option<string>, loaders: Loaders, toast: Toast)

  /**
   * `removeIssueFromSubIssues`: nothing without a workspace, a project, the
   * parent issue and an issue id; otherwise the issue is patched to have no parent and its
   * "delete" loader entry is toggled once, whether the patch succeeds or
   * fails; only the toast differs.
   */
  function RemoveIssueFromSubIssues(workspaceSlug: Option<string>, projectId: Option<string>, parentPresent: bool,
                                    issueId: string, loaders: Loaders, patchSucceeds: bool): (r: RemoveEffect)
    ensures !Present(workspaceSlug) || !Present(projectId) || !parentPresent || issueId == "" ==>
      r == RemoveEffect(None, loaders, NoToast)
    ensures Present(workspaceSlug) && Present(projectId) && parentPresent && issueId != "" ==>
      && r.patch == Some(issueId)
      && r.loaders == HandleIssuesLoader(loaders, Delete, issueId)
      && r.toast == if patchSucceeds then SuccessToast("Task removed!") else WarningToast("Error!")
  {
    if !Present(workspaceSlug) || !Present(projectId) || !parentPresent || issueId == "" then
      RemoveEffect(None, loaders, NoToast)
    else if patchSucceeds then
      RemoveEffect(Some(issueId), HandleIssuesLoader(loaders, Delete, issueId), SuccessToast("Task removed!"))
    else
      RemoveEffect(Some(issueId), HandleIssuesLoader(loaders, Delete, issueId), WarningToast("Error!"))
  }

  /** Whether or not the patch succeeds, the loaders end up the same. */
  lemma RemoveLoadersIndependentOfOutcome(workspaceSlug: Option<string>, projectId: Option<string>,
                                         parentPresent: bool, issueId: string, loaders: Loaders)
    ensures RemoveIssueFromSubIssues(workspaceSlug, projectId, parentPresent, issueId, loaders, true).loaders
         == RemoveIssueFromSubIssues(workspaceSlug, projectId, parentPresent, issueId, loaders, false).loaders
  {
  }

  /** An issue picked in the "add existing" search. */
  datatype SearchIssue = SearchIssue(id: string, name: string)

  /** `addSubIssues(…, parentId, { sub_issue_ids })` */
  datatype AddRequest = AddRequest(parentId: string, subIssueIds: seq<string>)

  /**
   * `addAsSubIssueFromExistingIssues`: no call while the "existing" dialog
   * has no issue id (or without a workspace, a project and the parent issue); otherwise the
   * picked ids, in the order they were picked, for that parent.
   */
  function AddExistingRequest(workspaceSlug: Option<string>, projectId: Option<string>, parentPresent: bool,
                              crud: CrudState, picked: seq<SearchIssue>): (r: Option<AddRequest>)
    ensures r.Some? <==> Present(workspaceSlug) && Present(projectId) && parentPresent && crud.existing.issueId.Some?
    ensures r.Some? ==> r.value.parentId == crud.existing.issueId.value
    ensures r.Some? ==> |r.value.subIssueIds| == |picked|
    ensures r.Some? ==> forall i :: 0 <= i < |picked| ==> r.value.subIssueIds[i] == picked[i].id
  {
    if Present(workspaceSlug) && Present(projectId) && parentPresent && crud.existing.issueId.Some? then
      Some(AddRequest(crud.existing.issueId.value, seq(|picked|, i requires 0 <= i < |picked| => picked[i].id)))
    else None
  }

  /**
   * What `handleUpdateIssue` hands on: the merged issue to the local
   * structure, and to the server the id of the issue it was called with
   * (None when that issue has no id) together with the changes.
   */
  datatype UpdateEffect = UpdateEffect(localIssue: JsRecord, targetId: Option<JsValue>, remoteChanges: JsRecord)

  /**
   * `handleUpdateIssue`: nothing without a workspace, project and user;
   * otherwise the local copy is `{ ...issue, ...data }` (the changes win)
   * and only the changes go to the server, addressed to `issue.id`.
   */
  function HandleUpdateIssue(workspaceSlug: Option<string>, projectId: Option<string>, userPresent: bool,
                             issue: JsRecord, data: JsRecord): (r: Option<UpdateEffect>)
    ensures r.Some? <==> Present(workspaceSlug) && Present(projectId) && userPresent
    ensures r.Some? ==> r.value.remoteChanges == data
    ensures r.Some? ==> (r.value.targetId.Some? <==> "id" in issue)
    ensures r.Some? && "id" in issue ==> r.value.targetId.value == issue["id"]
    ensures r.Some? ==> r.value.localIssue.Keys == issue.Keys + data.Keys
    ensures r.Some? ==> forall k :: k in data ==> r.value.localIssue[k] == data[k]
    ensures r.Some? ==> forall k :: k in issue && k !in data ==> r.value.localIssue[k] == issue[k]
  {
    if Present(workspaceSlug) && Present(projectId) && userPresent then
      var target := if "id" in issue then Some(issue["id"]) else None;
      Some(UpdateEffect(Spread(issue, data), target, data))
    else None
  }

  /**
   * The server request is addressed to the issue the handler was given,
   * even when the changes carry a different id: the local copy then takes
   * the new id while the server is asked to change the old issue.
   */
  lemma UpdateTargetsGivenIssue(workspaceSlug: Option<string>, projectId: Option<string>,
                                issue: JsRecord, data: JsRecord)
    requires Present(workspaceSlug) && Present(projectId)
    requires "id" in issue && "id" in data && data["id"] != issue["id"]
    ensures var e := HandleUpdateIssue(workspaceSlug, projectId, true, issue, data).value;
      && e.targetId == Some(issue["id"])
      && e.localIssue["id"] == data["id"]
      && Some(e.localIssue["id"]) != e.targetId
  {
  }
}
