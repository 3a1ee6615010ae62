/**
 * The bulk-delete modal: searching the project's issues, toggling ids in
 * the selection, and the guarded bulk-delete request.
 */
module BulkDeleteIssues {
  import opened Common
  import opened Seqs
  import opened Text

  /** The fields of an issue the modal reads. */
  datatype Issue = Issue(id: string, name: string, projectIdentifier: string, sequenceId: nat)

  /** `${issue.project_detail.identifier}-${issue.sequence_id}`, e.g. "ENG-12". */
  function IssueToken(issue: Issue): (token: string)
    ensures |token| > |issue.projectIdentifier|
    ensures token[..|issue.projectIdentifier|] == issue.projectIdentifier && token[|issue.projectIdentifier|] == '-'
    ensures var digits := token[|issue.projectIdentifier| + 1..];
      && (forall i :: 0 <= i < |digits| ==> IsDigit(digits[i]))
      && DigitsValue(digits) == issue.sequenceId
      && (|digits| > 1 ==> digits[0] != '0')
  {
    var digits := NatToString(issue.sequenceId);
    var token := issue.projectIdentifier + "-" + digits;
    assert token[|issue.projectIdentifier| + 1..] == digits;
    NatToStringRoundTrip(issue.sequenceId);
    token
  }

  /** The search rule: the lowered query occurs in the lowered name or token. */
  predicate Matches(issue: Issue, query: string)
    ensures query == "" ==> Matches(issue, query)
    ensures Matches(issue, query) <==>
      || (exists k :: OccursAt(Lower(issue.name), Lower(query), k))
      || (exists k :: OccursAt(Lower(IssueToken(issue)), Lower(query), k))
  {
    ContainsEmpty(Lower(issue.name));
    ContainsIffOccurs(Lower(issue.name), Lower(query));
    ContainsIffOccurs(Lower(IssueToken(issue)), Lower(query));
    Contains(Lower(issue.name), Lower(query)) || Contains(Lower(IssueToken(issue)), Lower(query))
  }

  /**
   * `filteredIssues`: the fetched issues (none while they are missing),
   * unfiltered for an empty query and filtered by `Matches` otherwise.
   */
  function FilteredIssues(issues: Option<seq<Issue>>, query: string): (r: seq<Issue>)
    ensures query == "" ==> r == issues.GetOr([])
    ensures forall i :: i in r <==> i in issues.GetOr([]) && (query == "" || Matches(i, query))
    ensures forall i :: query != "" ==> multiset(r)[i] == if Matches(i, query) then multiset(issues.GetOr([]))[i] else 0
    ensures IsSubsequence(r, issues.GetOr([]))
  {
    var all := issues.GetOr([]);
    if query == "" then
      SubsequenceReflexive(all);
      all
    else
      FilterIsSubsequence(all, i => Matches(i, query));
      assert forall i :: multiset(Filter(all, i => Matches(i, query)))[i] == if Matches(i, query) then multiset(all)[i] else 0 by {
        forall i { FilterCount(all, i => Matches(i, query), i); }
      }
      Filter(all, i => Matches(i, query))
  }

  /** The empty-query shortcut returns what the filter itself would return. */
  lemma EmptyQueryAgreesWithFilter(issues: seq<Issue>)
    ensures FilteredIssues(Some(issues), "") == Filter(issues, i => Matches(i, ""))
  {
    FilterKeepsAll(issues, i => Matches(i, ""));
  }

  /** Two queries that differ only in letter case select the same issues. */
  lemma CaseInsensitive(issues: Option<seq<Issue>>, q1: string, q2: string)
    requires Lower(q1) == Lower(q2)
    ensures FilteredIssues(issues, q1) == FilteredIssues(issues, q2)
  {
    assert |q1| == |q2|;
    if q1 != "" {
      FilterSamePredicate(issues.GetOr([]), i => Matches(i, q1), i => Matches(i, q2));
    }
  }

  /** Searching "ENG-12" among ENG-12 "Fix bug" and ENG-3 "Add login" keeps only the first. */
  lemma SearchByToken()
    ensures
      var fix := Issue("a", "Fix bug", "ENG", 12);
      var add := Issue("b", "Add login", "ENG", 3);
      FilteredIssues(Some([fix, add]), "ENG-12") == [fix]
  {
    var fix := Issue("a", "Fix bug", "ENG", 12);
    var add := Issue("b", "Add login", "ENG", 3);
    var p := i => Matches(i, "ENG-12");
    FixMatchesToken();
    AddDoesNotMatchToken();
    assert Filter([add], p) == [] by {
      assert [add][1..] == [];
    }
    assert [fix, add][1..] == [add];
  }

  /** ENG-12's token lowers to "eng-12", which the lowered query "eng-12" starts. */
  lemma FixMatchesToken()
    ensures Matches(Issue("a", "Fix bug", "ENG", 12), "ENG-12")
  {
    var token := IssueToken(Issue("a", "Fix bug", "ENG", 12));
    assert NatToString(12) == "12";
    assert token == "ENG-12";
    assert Lower(token)[..6] == Lower("ENG-12");
  }

  /** Neither "add login" nor "eng-3" contains "eng-12". */
  lemma AddDoesNotMatchToken()
    ensures !Matches(Issue("b", "Add login", "ENG", 3), "ENG-12")
  {
    var token := IssueToken(Issue("b", "Add login", "ENG", 3));
    assert NatToString(3) == "3";
    assert token == "ENG-3";
    assert Lower("ENG-12")[0] == 'e';
    assert |Lower(token)| < |Lower("ENG-12")|;
    NoOccurrence(Lower(token), Lower("ENG-12"));
    assert 'e' !in Lower("Add login") by {
      assert Lower("Add login") == "add login";
    }
    NoOccurrence(Lower("Add login"), Lower("ENG-12"));
  }

  /** A query longer than the text, or whose first letter is absent, is not contained. */
  lemma NoOccurrence(s: string, q: string)
    requires |q| > 0 && (|q| > |s| || q[0] !in s)
    ensures !Contains(s, q)
  {
    ContainsIffOccurs(s, q);
    if |q| <= |s| {
      forall k | 0 <= k && k + |q| <= |s| ensures !OccursAt(s, q, k) {
        assert s[k..k + |q|][0] == s[k];
      }
    }
  }

  /** What the submitted form holds in `delete_issue_ids`. */
  datatype SubmittedIds = Unset | Single(id: string) | Many(ids: seq<string>)

  datatype Toast = NoToast | SuccessToast(message: string) | ErrorToast(message: string)

  const SelectAtLeastOne: string := "Please select at least one Task."
  const DeletedSuccessfully: string := "Task deleted successfully!"
  const SomethingWentWrong: string := "Something went wrong. Please try again."

  /** What one submission does: the bulk-delete request sent, the toast shown, whether the modal closes. */
  datatype DeleteEffect = DeleteEffect(request: Option<seq<string>>, toast: Toast, closed: bool)

  /** `!data.delete_issue_ids || data.delete_issue_ids.length === 0` */
  predicate IsEmptySelection(ids: SubmittedIds)
    ensures ids.Unset? ==> IsEmptySelection(ids)
    ensures ids.Single? ==> (IsEmptySelection(ids) <==> |ids.id| == 0)
    ensures ids.Many? ==> (IsEmptySelection(ids) <==> |ids.ids| == 0)
  {
    match ids
    case Unset => true
    case Single(id) => id == ""
    case Many(xs) => xs == []
  }

  /**
   * `handleDelete`: nothing without a workspace and a project; an error and
   * no request for an empty selection; otherwise a request for exactly the
   * selected ids (a lone id wrapped into a list), after which the modal
   * closes on success and reports an error on failure.
   */
  function DeleteDecision(workspaceSlug: Option<string>, projectId: Option<string>, ids: SubmittedIds,
                          requestSucceeds: bool): (e: DeleteEffect)
    ensures !Present(workspaceSlug) || !Present(projectId) ==> e == DeleteEffect(None, NoToast, false)
    ensures Present(workspaceSlug) && Present(projectId) && IsEmptySelection(ids) ==>
      e == DeleteEffect(None, ErrorToast(SelectAtLeastOne), false)
    ensures e.request.Some? <==> Present(workspaceSlug) && Present(projectId) && !IsEmptySelection(ids)
    ensures e.request.Some? ==> e.request.value != []
    ensures e.request.Some? && ids.Single? ==> e.request.value == [ids.id]
    ensures e.request.Some? && ids.Many? ==> e.request.value == ids.ids
    ensures e.closed <==> e.request.Some? && requestSucceeds
    ensures e.request.Some? ==> e.toast == if requestSucceeds then SuccessToast(DeletedSuccessfully) else ErrorToast(SomethingWentWrong)
  {
    if !Present(workspaceSlug) || !Present(projectId) then DeleteEffect(None, NoToast, false)
    else if IsEmptySelection(ids) then DeleteEffect(None, ErrorToast(SelectAtLeastOne), false)
    else
      var list := match ids
        case Single(id) => [id]
        case Many(xs) => xs;
      if requestSucceeds then DeleteEffect(Some(list), SuccessToast(DeletedSuccessfully), true)
      else DeleteEffect(Some(list), ErrorToast(SomethingWentWrong), false)
  }

  /** The form data `handleDelete` receives, which it rewrites in place. */
  class SubmittedData {
    var deleteIssueIds: SubmittedIds

    constructor (ids: SubmittedIds)
      ensures deleteIssueIds == ids
    {
      deleteIssueIds := ids;
    }
  }

  /**
   * `handleDelete` step by step: the guards, the in-place wrapping of a lone
   * id into a list, then the request whose outcome `requestSucceeds` gives.
   */
  method HandleDelete(data: SubmittedData, workspaceSlug: Option<string>, projectId: Option<string>,
                      requestSucceeds: bool) returns (e: DeleteEffect)
    modifies data
    ensures e == DeleteDecision(workspaceSlug, projectId, old(data.deleteIssueIds), requestSucceeds)
    ensures e.request.Some? ==> data.deleteIssueIds == Many(e.request.value)
    ensures e.request.None? ==> data.deleteIssueIds == old(data.deleteIssueIds)
  {
    if !Present(workspaceSlug) || !Present(projectId) {
      return DeleteEffect(None, NoToast, false);
    }
    if IsEmptySelection(data.deleteIssueIds) {
      return DeleteEffect(None, ErrorToast(SelectAtLeastOne), false);
    }
    if data.deleteIssueIds.Single? {
      data.deleteIssueIds := Many([data.deleteIssueIds.id]);
    }
    var ids := data.deleteIssueIds.ids;
    if requestSucceeds {
      e := DeleteEffect(Some(ids), SuccessToast(DeletedSuccessfully), true);
    } else {
      e := DeleteEffect(Some(ids), ErrorToast(SomethingWentWrong), false);
    }
  }

  /** The modal's own state: the search text and the selected ids in the form. */
  class BulkDeleteModal {
    var query: string
    var selected: seq<string>

    /** The modal opens with an empty query and the form's default empty selection. */
    constructor ()
      ensures query == "" && selected == []
    {
      query := "";
      selected := [];
    }

    /** The search input's `onChange`. */
    method SetQuery(text: string)
      modifies this`query
      ensures query == text
    {
      query := text;
    }

    /** The Combobox `onChange`: toggle the chosen id in the selection. */
    method Select(issueId: string)
      modifies this`selected
      ensures selected == Toggle(old(selected), issueId)
    {
      if issueId in selected {
        selected := RemoveAll(selected, issueId);
      } else {
        selected := selected + [issueId];
      }
    }

    /** `handleClose`: clear the query and reset the form. */
    method Close()
      modifies this
      ensures query == "" && selected == []
    {
      query := "";
      selected := [];
    }

    /** Submitting the form: `handleDelete` on the selection, closing on success. */
    method Submit(workspaceSlug: Option<string>, projectId: Option<string>, requestSucceeds: bool)
      returns (e: DeleteEffect)
      modifies this
      ensures e == DeleteDecision(workspaceSlug, projectId, Many(old(selected)), requestSucceeds)
      ensures e.closed ==> query == "" && selected == []
      ensures !e.closed ==> query == old(query) && selected == old(selected)
    {
      var data := new SubmittedData(Many(selected));
      e := HandleDelete(data, workspaceSlug, projectId, requestSucceeds);
      if e.closed {
        Close();
      }
    }
  }
}
