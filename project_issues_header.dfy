/**
 * The project-issues header: its filter handler and the rule that decides
 * whether the "Add Task" action is offered.
 */
module ProjectIssuesHeader {
  import opened Common
  import opened FilterUpdate

  /**
   * `handleFiltersUpdate`: nothing without a workspace and a project;
   * otherwise the store's list for `key` is updated in place by the shared
   * rule and forwarded to `updateFilters` (with no module id).
   */
  method HandleFiltersUpdate(store: FilterStore, workspaceSlug: Option<string>, projectId: Option<string>,
                             key: string, value: FilterValue)
    requires store.Valid()
    modifies store, store.filters.Values
    ensures store.Valid() && store.filters == old(store.filters)
    ensures !Present(workspaceSlug) || !Present(projectId) ==>
      store.calls == old(store.calls) && forall k :: k in store.filters ==> store.filters[k].items == old(store.filters[k].items)
    ensures Present(workspaceSlug) && Present(projectId) ==>
      && store.calls == old(store.calls) + [FilterCall(key, Applied(old(store.Current(key)), value), None)]
      && (key in store.filters ==> store.filters[key].items == Applied(old(store.filters[key].items), value))
      && (forall k :: k in store.filters && k != key ==> store.filters[k].items == old(store.filters[k].items))
  {
    if !Present(workspaceSlug) || !Present(projectId) {
      return;
    }
    store.ApplyAndForward(key, value, None);
  }

  /**
   * `canUserCreateIssue`: the current project role is ADMIN or MEMBER.
   * For the roles there are, this is exactly the "at least a member" rule
   * the other views use for editing.
   */
  predicate CanUserCreateIssue(role: Option<Role>)
    ensures CanUserCreateIssue(role) <==> IsAtLeastMember(role)
  {
    role.Some? && role.value in {Admin, Member}
  }
}
