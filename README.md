# Issue-tracker views: a verified model

This project models the decision logic of six views of a web issue tracker (a
Plane-style project-management app). Each view is a React component. The
model keeps what those components decide and leaves out what they render:

- **Bulk-delete modal.** It searches the project's issues by name or by an
  `ENG-12`-style token, ignoring letter case. A click toggles an issue in or
  out of the selection. It then sends a guarded bulk-delete request.
- **Project-issues header.** Its filter handler edits the issue-filter
  store's own array for a filter key in place: it pushes missing values or
  splices out a present one, then forwards the array to `updateFilters`.
  The "Add Task" permission depends on the project role.
- **Module sidebar.** It runs the same filter handler, with the module id.
  It also has:
  - the task-count label ("0 Tasks", "5", "3/5");
  - the start and end date validity flags and the two date-change handlers;
  - the progress percentage, which can be NaN or Infinity;
  - the `{ metadata: {}, ...formData }` link payloads.
- **Sub-issues panel.** It keeps three loader lists and a record of four
  dialogs. It shows progress counts. It builds requests that remove,
  add and update sub-issues.
- **Inbox main pane.** ArrowUp/ArrowDown move cyclically through the inbox
  list. It shows a status banner for the codes −2…2, and a snoozed task
  counts as expired when its date has passed. It also holds the edit
  permission and the update request.
- **Profile sidebar.** For each project it shows the task total, the
  completion percentage and its colour bucket, when the badge and the
  distribution bar appear, and which icon the project gets.

JavaScript semantics are written out explicitly:
- Truthiness: a missing value and `""` are both falsy (`Common.Present`).
- `includes`, `indexOf`, `findIndex`, `filter`, `push` and `splice` keep
  their exact behaviour, including which occurrence they act on.
- `Math.round` of a percentage is exact half-up rounding on naturals
  (`Percent.RoundPercent`).
- NaN and Infinity are results of their own.
- Object spread is a right-biased map union (`Records.Spread`).
- A read past either end of an array is an outcome of its own.

Store calls, service requests and toasts become data that the functions
return (or, for the filter store, a log of calls that the class keeps).
Whether a request succeeds is a parameter.

Files: `common.dfy`, `seqs.dfy`, `text.dfy`, `percent.dfy` and `records.dfy`
hold the shared vocabulary. Each view is in its own file: `bulk_delete.dfy`,
`filter_update.dfy` (the in-place filter rule and the store),
`project_issues_header.dfy`, `module_sidebar.dfy`, `sub_issues.dfy`,
`inbox.dfy` and `profile_sidebar.dfy`.

## Model

| member | source | states |
|---|---|---|
| BulkDeleteIssues.FilteredIssues | web/components/core/modals/bulk-delete-issues-modal.tsx:110-117 | An empty query returns every fetched issue, in order (none while they are missing). Otherwise an issue is kept iff its lower-cased name or token contains the lower-cased query, with each kept issue's multiplicity preserved. The result is always an order-preserving subsequence of the fetched issues. |
| BulkDeleteIssues.IssueToken | web/components/core/modals/bulk-delete-issues-modal.tsx:116 | The token starts with the project identifier, then a hyphen, then only digits with no leading zero, and those digits read back as the sequence number. |
| BulkDeleteIssues.Matches | web/components/core/modals/bulk-delete-issues-modal.tsx:114-116 | An issue matches iff the lower-cased query occurs at some position of its lower-cased name or of its lower-cased token. Every issue matches the empty query. |
| BulkDeleteIssues.IsEmptySelection | web/components/core/modals/bulk-delete-issues-modal.tsx:77 | An unset selection is empty. A lone id counts as empty iff it is the empty string, and a list iff it has no element (the `length === 0` test). |
| BulkDeleteIssues.EmptyQueryAgreesWithFilter | web/components/core/modals/bulk-delete-issues-modal.tsx:110-117 | The empty-query shortcut returns exactly what the filter would return, because the empty string occurs in every text. |
| BulkDeleteIssues.CaseInsensitive | web/components/core/modals/bulk-delete-issues-modal.tsx:115-116 | Two queries that lower-case to the same text select the same issues. |
| BulkDeleteIssues.SearchByToken | web/components/core/modals/bulk-delete-issues-modal.tsx:113-117 | Searching "ENG-12" among ENG-12 "Fix bug" and ENG-3 "Add login" keeps only ENG-12. |
| BulkDeleteIssues.DeleteDecision | web/components/core/modals/bulk-delete-issues-modal.tsx:74-108 | No workspace or project: nothing happens. An empty or missing selection: "Please select at least one Task." and no request. Otherwise one request carries exactly the selected ids, with a lone id wrapped into a list. The modal closes iff the request succeeds, and the toast follows the outcome. |
| BulkDeleteIssues.HandleDelete | web/components/core/modals/bulk-delete-issues-modal.tsx:74-108 | The step-by-step handler gives the same effect as `DeleteDecision`. When a request is made, the form data is left holding the id list it sent; otherwise the form data is unchanged. |
| BulkDeleteIssues.BulkDeleteModal.Select | web/components/core/modals/bulk-delete-issues-modal.tsx:136-144 | The selection becomes the toggle of the chosen id: every copy is removed when present, and it is appended when absent. |
| BulkDeleteIssues.BulkDeleteModal.Submit | web/components/core/modals/bulk-delete-issues-modal.tsx:68-108 | Submitting sends the current selection. When the request succeeds the query and the selection are reset (`handleClose`); otherwise both are unchanged. |
| BulkDeleteIssues.BulkDeleteModal.SetQuery | web/components/core/modals/bulk-delete-issues-modal.tsx:155 | Typing sets the query to the input's text and changes nothing else. |
| BulkDeleteIssues.BulkDeleteModal.Close | web/components/core/modals/bulk-delete-issues-modal.tsx:68-72 | `handleClose` empties the query and resets the form's selection to none. |
| Seqs.Toggle | web/components/core/modals/bulk-delete-issues-modal.tsx:138-143 | Afterwards the id is present iff it was absent. Every other id keeps its membership and its count. An absent id is appended at the end. Removing a present id keeps the order of the rest. |
| Seqs.ToggleTwice | web/components/core/modals/bulk-delete-issues-modal.tsx:138-143 | Toggling an absent id twice gives the selection back. |
| Text.Lower | web/components/core/modals/bulk-delete-issues-modal.tsx:115-116 | `toLowerCase` keeps the length and lowers each character on its own (A-Z to a-z, everything else unchanged). |
| Text.Contains | web/components/core/modals/bulk-delete-issues-modal.tsx:115-116 | The left-to-right scan for `includes` only succeeds when the query is no longer than the text. |
| Text.ContainsIffOccurs | web/components/core/modals/bulk-delete-issues-modal.tsx:115-116 | `includes` holds iff the query occurs at some position of the text. |
| Text.NatToStringRoundTrip | web/components/core/modals/bulk-delete-issues-modal.tsx:116 | The decimal rendering of a sequence number reads back as that number. |
| FilterUpdate.AddMissing | web/components/headers/project-issues.tsx:50-53 | Pushing the missing values keeps the old array as a prefix and adds at most one entry per given value. |
| FilterUpdate.IndexOf | web/components/headers/project-issues.tsx:55 | `indexOf` is −1 iff the value is absent. Otherwise it is the first index holding the value. |
| FilterUpdate.ToggleFirst | web/components/headers/project-issues.tsx:55-56 | A present value loses one entry and an absent one gains one. Afterwards the value is present iff it did not occur exactly once before. Every other value keeps its membership. |
| FilterUpdate.Applied | web/components/headers/project-issues.tsx:50-56 | For an array of values, the old array stays a prefix and the result holds exactly the old values and the given ones. For a single value, only that value's membership can change, and it is present afterwards iff it did not occur exactly once. |
| FilterUpdate.AddMissingSpec | web/components/headers/project-issues.tsx:50-53 | Pushing each missing value keeps the old array as a prefix and leaves every given value present. It adds nothing else, never adds a value that was already there, and never adds one twice. |
| FilterUpdate.AddMissingOrder | web/components/headers/project-issues.tsx:51-53 | The values appended come in the order they were given. |
| FilterUpdate.ToggleFirstPresent | web/components/headers/project-issues.tsx:55 | Splicing at `indexOf` removes exactly one copy of a present value, leaving every other count unchanged. The copy removed is the first one, and the entries before and after it keep their order. |
| FilterUpdate.ToggleFirstTwice | web/components/headers/project-issues.tsx:55-56 | An absent value is pushed, and toggling it again gives the array back. |
| FilterUpdate.ValueList.AddEachMissing | web/components/headers/project-issues.tsx:51-53 | The `forEach`/`push` loop leaves the array equal to the "add missing" rule applied to the old array. |
| FilterUpdate.ValueList.ToggleValue | web/components/headers/project-issues.tsx:55-56 | Splice-or-push leaves the array equal to the first-occurrence toggle of the old array. |
| FilterUpdate.ValueList.Apply | web/components/headers/project-issues.tsx:50-57 | The handler's branch on an array or a single value leaves the list equal to the whole update rule applied to its old contents. |
| FilterUpdate.FilterStore.ApplyAndForward | web/components/headers/project-issues.tsx:48-59 | The store's own array for the key is changed in place by the rule, and no other key's array changes. `updateFilters` receives the edited list, or a fresh list when the key had none. |
| ProjectIssuesHeader.HandleFiltersUpdate | web/components/headers/project-issues.tsx:45-62 | Without a workspace and a project, nothing changes and no call is made. Otherwise the store's array for the key is updated in place and forwarded, and the other keys are untouched. |
| ProjectIssuesHeader.CanUserCreateIssue | web/components/headers/project-issues.tsx:92-93 | Only ADMIN or MEMBER may create, which is the same as the "at least a member" rule. |
| ModuleSidebar.HandleFiltersUpdate | web/components/modules/sidebar.tsx:226-249 | The same guard and in-place rule as the header, forwarded with the module id. |
| ModuleSidebar.IssueCountLabelDecodes | web/components/modules/sidebar.tsx:293-300 | The task-count label ("0 Tasks", "n", or "c/n") reads back as the completed and total counts it was made from. |
| ModuleSidebar.IssueCountLabel | web/components/modules/sidebar.tsx:293-300 | The label is "0 Tasks" iff there are no tasks. It contains a "/" iff there are tasks and not all of them are completed. |
| ModuleSidebar.IsStartValid | web/components/modules/sidebar.tsx:258 | An unset start date is never valid, and a start date of today is valid. |
| ModuleSidebar.IsEndValid | web/components/modules/sidebar.tsx:259 | With either date unset the end is never valid, and a target on the start day is valid. |
| ModuleSidebar.ProgressDisabled | web/components/modules/sidebar.tsx:258-259 | The progress section is enabled iff both dates are set, the start is not after now, and the target is not before the start. |
| ModuleSidebar.DateChangeDecision | web/components/modules/sidebar.tsx:179-198 | Nothing is submitted while a date is unset. A target date that is not later than today is rejected with the past-date error. Otherwise both dates are submitted together. |
| ModuleSidebar.DateForm.HandleStartDateChange | web/components/modules/sidebar.tsx:176-199 | Sets only the start date, then decides on the updated form. |
| ModuleSidebar.DateForm.HandleEndDateChange | web/components/modules/sidebar.tsx:201-224 | Sets only the target date, then decides on the updated form. |
| ModuleSidebar.ProgressPercentage | web/components/modules/sidebar.tsx:261-263 | Null without details. With no tasks it is NaN (0/0) or Infinity (a positive count over 0). Otherwise it is the rounded percentage, which lies within half a unit of completed/total·100. |
| ModuleSidebar.ShowsProgressBadge | web/components/modules/sidebar.tsx:552 | Null, NaN and 0 are falsy and hide the badge. Infinity is truthy and shows it. |
| ModuleSidebar.ProgressBadgeRule | web/components/modules/sidebar.tsx:552-555 | With tasks, the badge shows iff the share rounds to at least 1%, i.e. 200·completed ≥ total. With 0/0 it never shows. |
| Percent.RoundPercent | web/components/modules/sidebar.tsx:262 | Half-up rounding: 2·whole·r ≤ 200·part + whole < 2·whole·(r+1). It gives 0 for no part, 100 for the whole, and at most 100 when part ≤ whole. |
| Percent.RoundPercentMonotone | web/components/profile/sidebar.tsx:118-121 | A larger part never rounds to a smaller percentage. |
| ModuleSidebar.LinkPayload | web/components/modules/sidebar.tsx:97 | `{ metadata: {}, ...formData }` has the form's keys plus "metadata". The form's values win, and `metadata` is `{}` only when the form has none. |
| ModuleSidebar.HandleCreateLink | web/components/modules/sidebar.tsx:94-113 | A request is made iff the workspace, project and module id are present. It carries the module id and the link payload. The toast is "Module link created" on success and "Error!" on failure. |
| ModuleSidebar.HandleUpdateLink | web/components/modules/sidebar.tsx:116-135 | A request is made iff the workspace and project are present (the third test is of an always-defined object). It carries the link payload. The toast is "Module link updated" on success and "Error!" on failure. |
| ModuleSidebar.LinkToastFollowsOutcome | web/components/modules/sidebar.tsx:94-135 | The request a link handler sends does not depend on its outcome. Both handlers fail with the same toast and succeed with different ones. |
| Records.Spread | web/components/issues/sub-issues/root.tsx:168-171 | Object spread has both objects' keys, and the right-hand object wins on a shared key. |
| SubIssuesRoot.HandleIssuesLoader | web/components/issues/sub-issues/root.tsx:70-77 | The id is toggled in the chosen loader list: it is appended when absent, and every copy is removed when present. The other two lists are unchanged. |
| SubIssuesRoot.InitialLoaders | web/components/issues/sub-issues/root.tsx:65-69 | The panel opens with only the parent in the visibility list, and with the delete and sub-issue lists empty. |
| SubIssuesRoot.LoaderToggleTwice | web/components/issues/sub-issues/root.tsx:70-77 | Toggling an absent id twice restores the loaders. |
| SubIssuesRoot.ParentVisibilityToggles | web/components/issues/sub-issues/root.tsx:65-69 | The parent starts expanded. One click collapses it and a second click expands it, while the delete and sub-issue lists stay empty. |
| SubIssuesRoot.HandleIssueCrudOperation | web/components/issues/sub-issues/root.tsx:104-117 | The named dialog flips open or closed and records the given id and issue. The other three dialogs are unchanged. |
| SubIssuesRoot.OpenThenClose | web/components/issues/sub-issues/root.tsx:104-117 | Opening a dialog and closing it with a null id restores its toggle and clears its id and issue. |
| SubIssuesRoot.InitialOpenThenClose | web/components/issues/sub-issues/root.tsx:104-117 | From the initial record, opening a dialog for the parent leaves that dialog alone open. Closing it again gives the initial record back. |
| SubIssuesRoot.ProgressCounts | web/components/issues/sub-issues/root.tsx:221-224 | `total` is the number of sub-issues (0 when missing). `done` is cancelled plus completed, each 0 when missing. |
| SubIssuesRoot.RemoveIssueFromSubIssues | web/components/issues/sub-issues/root.tsx:130-151 | Without a workspace, a project, the parent issue and an issue id nothing happens. Otherwise the issue's parent is cleared and its "delete" loader entry is toggled once, on success and on failure alike, with a success or warning toast. |
| SubIssuesRoot.RemoveLoadersIndependentOfOutcome | web/components/issues/sub-issues/root.tsx:134-150 | The loaders end up the same whether the patch succeeds or fails. |
| SubIssuesRoot.AddExistingRequest | web/components/issues/sub-issues/root.tsx:119-128 | No call while the "existing" dialog has no issue id, or without a workspace, a project and the parent issue. Otherwise the request goes to that dialog's issue with the picked ids, in the order they were picked. |
| SubIssuesRoot.HandleUpdateIssue | web/components/issues/sub-issues/root.tsx:164-177 | Nothing without a workspace, a project and a user. Otherwise the local copy is the issue overwritten by the changes. Only the changes go to the server, addressed to the given issue's id (none when it has no id). |
| SubIssuesRoot.UpdateTargetsGivenIssue | web/components/issues/sub-issues/root.tsx:168-174 | When the changes carry a different id, the local copy takes the new id while the server request still targets the original issue. |
| InboxMainContent.FindIndex | web/components/inbox/main-content.tsx:86 | `findIndex` is −1 iff no entry has the id. Otherwise it is the first index holding the id. |
| InboxMainContent.PrevIndex | web/components/inbox/main-content.tsx:94-96 | For a found index, ArrowUp's index stays inside the list. For an unfound id (−1) it is −2. |
| InboxMainContent.NextIndex | web/components/inbox/main-content.tsx:105-107 | For a found index, ArrowDown's index stays inside the list. For an unfound id (−1) it is 0. |
| InboxMainContent.StepsWrapAround | web/components/inbox/main-content.tsx:94-107 | For a found index i in a list of length n, the two steps are (i−1) mod n and (i+1) mod n. |
| InboxMainContent.OnKeyDown | web/components/inbox/main-content.tsx:82-116 | Nothing happens without a list, without a current id, or for another key. For a found index i in a list of length n, ArrowUp goes to entry (i−1) mod n and ArrowDown to (i+1) mod n. For an unfound id, ArrowUp reads out of bounds and ArrowDown goes to the first entry (or reads out of bounds on an empty list). |
| InboxMainContent.UpThenDownReturns | web/components/inbox/main-content.tsx:86-108 | In a list of distinct, non-empty entry ids, ArrowUp then ArrowDown returns to the current entry. |
| InboxMainContent.DownThenUpReturns | web/components/inbox/main-content.tsx:86-108 | In a list of distinct, non-empty entry ids, ArrowDown then ArrowUp returns to the current entry. |
| InboxMainContent.ArrowUpFromUnknownEntry | web/components/inbox/main-content.tsx:93-96 | From an id that is not in the list, ArrowUp reads before the start of the list and ArrowDown goes to the first entry. |
| InboxMainContent.StatusBanner | web/components/inbox/main-content.tsx:180-226 | Each message corresponds to exactly one code: −2 pending, −1 declined, 0 snoozed, 1 accepted, 2 duplicate, anything else no message. A snooze is expired iff its date is set and before now. |
| InboxMainContent.SnoozeExpired | web/components/inbox/main-content.tsx:170 | A missing or unparsable snooze date never counts as passed, and neither does a snooze date equal to the clock reading (the test is strictly before). |
| InboxMainContent.StatusTone | web/components/inbox/main-content.tsx:164-178 | Yellow iff −2, green iff 1, red iff −1 or an expired snooze, grey iff 2 or a running snooze, and no colour for any other code. |
| InboxMainContent.ToneMatchesBanner | web/components/inbox/main-content.tsx:164-193 | The colour (clock read at line 170) fits the message (clock read again at line 193) iff the task is not snoozed or both readings agree on whether the snooze date has passed. Fitting means red iff declined or expired, yellow iff pending, green iff accepted, and grey iff a running snooze or a duplicate. With the colour read first, a snooze date falling between the two readings gives a grey banner that says the snooze has passed. With a single reading they always fit. |
| InboxMainContent.CanEdit | web/components/inbox/main-content.tsx:156 | Editing is allowed iff the role is MEMBER or ADMIN, or the current user created the issue (line 249). |
| InboxMainContent.EmptyPaneMessage | web/components/inbox/main-content.tsx:138-154 | With no issue selected, the pane shows the number of issues iff the list is loaded and non-empty, and "No task found" otherwise. |
| InboxMainContent.FormAssignees | web/components/inbox/main-content.tsx:131 | The form is reset with the issue's assignees when present, else the ids of its assignee details, else none. |
| InboxMainContent.SubmitChanges | web/components/inbox/main-content.tsx:67-80 | Nothing unless the workspace, project, inbox, selected id and details are all there. Otherwise the form data goes to the issue's first inbox entry, and a missing first entry is an outcome of its own. |
| ProfileSidebar.TotalIssues | web/components/profile/sidebar.tsx:115-116 | The total is at least each of the four counts, and it is 0 iff all four are 0. |
| ProfileSidebar.CompletedIssuePercentage | web/components/profile/sidebar.tsx:118-121 | 0 with no assigned tasks. Otherwise completed/assigned·100 rounded half up: 0 for none completed, 100 for all, at most 100 when completed ≤ assigned. |
| ProfileSidebar.ColourBucket | web/components/profile/sidebar.tsx:149-153 | Red iff ≤ 35, yellow iff 36–70, green iff > 70. The three buckets partition the integers. |
| ProfileSidebar.MoreCompletedNeverWorse | web/components/profile/sidebar.tsx:118-153 | With the assigned count fixed, more completed tasks never lower the percentage or its colour. |
| ProfileSidebar.Icon | web/components/profile/sidebar.tsx:129-141 | The icon is the emoji if it is set and non-empty. Otherwise it is `icon_prop` if set. Otherwise it is the name's first character ("" for an empty name). |
| ProfileSidebar.Row | web/components/profile/sidebar.tsx:114-173 | The badge appears iff assigned > 0, and it carries the percentage and its colour. The distribution bar appears iff the total is > 0. |
| ProfileSidebar.Rows | web/components/profile/sidebar.tsx:114 | One row per project, in the same order, each equal to that project's row. |
| ProfileSidebar.BadgeImpliesBar | web/components/profile/sidebar.tsx:145-173 | A row with a badge always has a bar. Full completion is a green 100, and no completion is a red 0. |

## Left out

- Rendering: JSX, CSS classes, transitions, icons, tooltips and the bar widths (floating point, `web/components/profile/sidebar.tsx` lines 179-200). Only which elements appear and with which values is modelled.
- Toasts are returned as data and the store's `updateFilters` is recorded as a log of calls. The store's own reaction to those calls, SWR fetching and `mutate` revalidation are not modelled.
- Service calls are not performed. Their success or failure is a boolean parameter. The sub-issues `handleDeleteIssue` and `mutateSubIssues` only call the store and revalidate, so they are not modelled.
- Asynchronous ordering is not modelled: `await`, stale closures over `issueCrudOperation`, and results arriving after unmount.
- Text.Lower: lower-cases ASCII letters only. `toLowerCase` also folds non-ASCII letters.
- Percent.RoundPercent: rounds the exact ratio half up. JavaScript computes a floating-point quotient before `Math.round`, so a value within rounding error of a half may differ.
- Dates are integers on one clock (day numbers for the module dates, instants for the inbox snooze). An unset or unparsable date is `None`, and every comparison with it is false, as with an invalid `Date`. Date parsing, time zones and `renderDateFormat` are not modelled. `isDateGreaterThanToday` is taken to mean "strictly after today".
- The role numbers (`EUserWorkspaceRoles`) are defined in `constants/workspace`, which is not part of this model. Only their order is used.
- `web/components/issues/sub-issues/progressbar.tsx` is not part of this model. `ProgressCounts` stops at the two numbers passed to it.
- InboxMainContent.ToneMatchesBanner: the view reads the clock separately for the banner colour and for its message. The model takes them as two readings, `toneNow` and `messageNow`. Which of the two comes first, and how far apart they are, is not modelled.
- InboxMainContent.OnKeyDown: an inbox issue is identified by the id of its first inbox entry. An issue whose `issue_inbox` list is empty (which would make `findIndex` itself throw) is not represented.
- Key order in object spread is not modelled: records are maps.
- The profile sidebar's user header (cover image, avatar initial, edit link, timezone clock) and the module sidebar's other handlers (link deletion, status and lead pickers) are presentation or plain store calls outside the modelled logic.
- ModuleSidebar.DateChangeDecision: the source's guard tests `start_date !== ""` twice and never tests `target_date !== ""`. The truthiness test already excludes an empty target date, so the model's "both dates set" is the same condition.
- ModuleSidebar.DateChangeDecision: `Submitted` means that the handler calls `submitChanges` and shows the success toast. The guard inside `submitChanges` (workspace, project, module id) and the store's `updateModuleDetails` are not modelled.
