# Simple task dashboard — a verified model of its state logic

The dashboard keeps a list of tasks in a reducer store. Each task has an id, a
title, a description, a status (`Pending`, `In Progress` or `Completed`) and a
due date. The dashboard page derives the visible list from the route, the
status filter and the sort order, narrows it by a search text, and counts the
tasks per status. A form adds or edits tasks. A generic form hook keeps field
values and per-field errors.

This project models that logic in Dafny. There is one module per source file:

- `TaskContext` (`task_context.dfy`) models the `Task` record, the actions and
  the reducer. The store that `useReducer` keeps is the class `TaskStore`.
- `FilteredTasks` (`filtered_tasks.dfy`) models the route effect, the
  selection by route and status filter, and the stable sort by due date.
- `Dashboard` (`dashboard.dfy`) models the search, the empty-list message and
  the status counts. The page's state and handlers are the class
  `DashboardState`.
- `TaskForm` (`task_form.dfy`) models the initial field values, validation and
  the submit handler. The form's state is the class `TaskFormState`.
- `UseForm` (`use_form.dfy`) models the form hook as the class `Form`: the
  change, blur and submit handlers, the submit effect and reset.

Shared pieces live in three helper modules:

- `Seqs` holds `filter`, `map`, a stable sort and their lemmas.
- `JsString` holds `String.prototype.trim` and `String.prototype.includes`.
- `Wrappers` holds `Option`.

Some inputs come from outside the modelled code and are passed in as
parameters:

- **The date parse.** The sort turns each due date into a number with
  `new Date(dueDate).getTime()`. The model takes that parse as a function
  `dateKey: string -> int`.
- **The clock.** `Date.now()` in the task form is the parameter `now`.

The sort is stated as follows:

- **The comparator as a rank.** The comparator `dateA - dateB` (or
  `dateB - dateA` for "desc") compares a rank of each task. The rank is the
  due date, or its negation for "desc".
- **Stable sort.** `Array.prototype.sort` is stable, which means tasks with
  equal ranks keep their relative order. `SortBy` is an insertion sort that
  behaves this way.
- **Uniqueness.** `Seqs.StableSortUnique` proves that every ordering which
  is sorted by the rank and keeps equal-rank tasks in their original order is
  `SortBy`'s result. So `SortBy` is the only list the engine's sort can
  return.

## Model

| member | source | states |
|---|---|---|
| TaskContext.Reduce | src/context/TaskContext.tsx:28-39 | per action: ADD extends the list by the payload at the end; EDIT keeps every position and its id, each element either unchanged or the payload; DELETE leaves no task with the id and keeps every other task; any other type returns the state |
| TaskContext.ReduceAll | src/context/TaskContext.tsx:28-39 | successive dispatches: a run of unrecognised actions leaves the list as it was, and a run of ADDs leaves the old list in front and puts the payloads after it in dispatch order |
| TaskContext.ReduceAllAppend | src/context/TaskContext.tsx:28-39 | dispatching one run of actions and then another equals dispatching the two runs joined |
| TaskContext.AddAppends | src/context/TaskContext.tsx:30-31 | ADD gives a list one longer whose last element is the payload and whose other elements are the old list |
| TaskContext.EditReplacesById | src/context/TaskContext.tsx:32-33 | EDIT keeps the length; every element with the payload's id becomes the payload and every other element stays put |
| TaskContext.EditMissingIdIsNoOp | src/context/TaskContext.tsx:32-33 | EDIT with an id not in the list returns the same list |
| TaskContext.DeleteKeepsOthers | src/context/TaskContext.tsx:34-35 | DELETE keeps exactly the tasks whose id differs, with each copy, in their original order |
| TaskContext.DeleteIdempotent | src/context/TaskContext.tsx:34-35 | deleting an id twice equals deleting it once |
| TaskContext.UnrecognisedIsNoOp | src/context/TaskContext.tsx:36-37 | an action whose type is none of the three returns the state unchanged |
| TaskContext.FilterKeepsUniqueIds | src/context/TaskContext.tsx:35 | filtering a list with unique ids keeps the ids unique |
| TaskContext.ReduceKeepsUniqueIds | src/context/TaskContext.tsx:28-39 | every action keeps ids unique, provided an added task's id is not yet in the list |
| TaskContext.ReduceAllKeepsUniqueIds | src/context/TaskContext.tsx:28-39 | any run of actions whose ADDs carry fresh ids keeps ids unique |
| TaskContext.AddThenEdit | src/context/TaskContext.tsx:30-33 | ADD of a fresh task followed by EDIT with its id leaves the edited task in the added one's place |
| TaskContext.TaskStore.constructor | src/context/TaskContext.tsx:42 | the store starts with the given list |
| TaskContext.TaskStore.Dispatch | src/context/TaskContext.tsx:42 | dispatching replaces the list by the reducer's result |
| FilteredTasks.RouteStatusFilter | src/hooks/useFilteredTasks.tsx:22-28 | the route effect sets a filter only on "/completed" and "/all": "Completed" exactly on the first and "All" exactly on the second |
| FilteredTasks.Select | src/hooks/useFilteredTasks.tsx:32-38 | the selection keeps store order; on "/completed" it holds only completed tasks, elsewhere only tasks whose status reads as the filter, and "All" keeps the whole list |
| FilteredTasks.FilterAndSort | src/hooks/useFilteredTasks.tsx:31-47 | the hook's list holds the selection's tasks with their multiplicities, due dates non-decreasing for "asc" and non-increasing for "desc" |
| FilteredTasks.CompletedRouteListsCompleted | src/hooks/useFilteredTasks.tsx:34-35 | on "/completed" the list is exactly the completed tasks, whatever the status filter |
| FilteredTasks.OtherRouteFollowsFilter | src/hooks/useFilteredTasks.tsx:32-38 | elsewhere "All" keeps every task, and any other filter keeps exactly the tasks whose status equals it |
| FilteredTasks.EqualDatesKeepStoreOrder | src/hooks/useFilteredTasks.tsx:40-44 | tasks due at the same time keep their store order in both directions |
| FilteredTasks.ListIsTheStableSort | src/hooks/useFilteredTasks.tsx:40-44 | any ordering of the selection that is sorted by the comparator and stable is the listed one |
| FilteredTasks.DescIsReversedAsc | src/hooks/useFilteredTasks.tsx:43 | when no two selected tasks share a due date, "desc" is the reverse of "asc" |
| FilteredTasks.ExampleAscending | src/hooks/useFilteredTasks.tsx:31-47 | a two-task example: on "/all" with "All", "asc" puts the earlier-due task first |
| FilteredTasks.ExampleCompletedRoute | src/hooks/useFilteredTasks.tsx:34-35 | the same two tasks on "/completed" with the filter "Pending": only the completed task is listed |
| Dashboard.MatchesSearch | src/components/Dashboard.tsx:130-131 | the search callback holds exactly when the search text is empty or occurs at some position in the title or the description |
| Dashboard.Search | src/components/Dashboard.tsx:130-131 | the searched list keeps list order, holds only matching tasks, and holds every matching task of the list |
| Dashboard.Render | src/components/Dashboard.tsx:125-131 | the message shows exactly when the list before the search is empty; otherwise the cards are the search's result |
| Dashboard.SearchKeepsMatches | src/components/Dashboard.tsx:130-131 | a task is shown exactly when the search text is empty or is a substring of its title or description; order and copies are kept |
| Dashboard.EmptySearchKeepsAll | src/components/Dashboard.tsx:130-131 | the empty search text shows the whole list, and the empty string is found in every title |
| Dashboard.UnmatchedSearchShowsNothing | src/components/Dashboard.tsx:125-131 | a search found in no task of a non-empty list shows no cards and no message |
| Dashboard.CompletedRouteShowsCompleted | src/components/Dashboard.tsx:125-131 | on "/completed" every card shown is a completed task, and the message shows exactly when the store has no completed task, whatever the filter, order and search |
| Dashboard.StatusCount | src/components/Dashboard.tsx:71-73 | a header count is the number of tasks whose status reads as the given string, counted one by one, and at most the number of tasks |
| Dashboard.StatusCounts | src/components/Dashboard.tsx:71-73 | the three header counts add up to the number of tasks |
| Dashboard.CountsAreExact | src/components/Dashboard.tsx:71-73 | each header count is the number of tasks with that status, and the three add up to the number of tasks |
| Dashboard.CountsAddUp | src/components/Dashboard.tsx:71-73 | the three per-status counts sum to the list length |
| Dashboard.DashboardState.constructor | src/components/Dashboard.tsx:12-16 | initial page state, after the route effect: "Completed" on "/completed" and "All" otherwise, sort "asc", empty search |
| Dashboard.DashboardState.Navigate | src/hooks/useFilteredTasks.tsx:22-28 | the route effect runs only when the pathname changes: navigating to the current pathname keeps the filter, and a change of pathname sets it on "/completed" and "/all" and keeps it on other paths; after "/completed" the page shows only completed tasks, and the message exactly when the store has none |
| Dashboard.DashboardState.HandleAddClick | src/components/Dashboard.tsx:19-22 | clears the edited task and shows the form |
| Dashboard.DashboardState.HandleEdit | src/components/Dashboard.tsx:26-29 | records the edited task and shows the form |
| Dashboard.DashboardState.HandleDelete | src/components/Dashboard.tsx:31-33 | dispatches DELETE with the id |
| Dashboard.DashboardState.HandleFormSubmit | src/components/Dashboard.tsx:35-41 | dispatches EDIT when a task is being edited and ADD otherwise, then hides the form |
| Dashboard.DashboardState.HandleModalClose | src/components/Dashboard.tsx:43-45 | hides the form and changes nothing else |
| Dashboard.DashboardState.OnSearchInput | src/components/Dashboard.tsx:47-52 | sets the search text |
| Dashboard.DashboardState.OnStatusFilterChange | src/components/Dashboard.tsx:80 | sets the status filter |
| Dashboard.DashboardState.OnSortOrderChange | src/components/Dashboard.tsx:92 | sets the sort order |
| Dashboard.EditAndSubmit | src/components/Dashboard.tsx:26-41 | editing a task and submitting the form replaces the task with that id in the store |
| TaskForm.InitialFields | src/components/TaskForm.tsx:12-23 | without a task the fields start empty with status Pending; with one they are its fields |
| TaskForm.Validate | src/components/TaskForm.tsx:25-30 | a title error exactly when the title is all white space, a due-date error likewise, no other key, and the fixed messages |
| TaskForm.Submit | src/components/TaskForm.tsx:32-48 | blocked exactly when title or due date is blank, with the validation errors; otherwise the task from the fields, untrimmed |
| TaskForm.IdOrNow | src/components/TaskForm.tsx:41 | the id of the submitted task; its partner `SubmittedTaskIds` states the edited task's id when it is non-zero, the clock reading otherwise |
| TaskForm.SubmittedTaskIds | src/components/TaskForm.tsx:40-46 | the emitted id is the edited task's id when it is non-zero and the clock reading otherwise |
| TaskForm.TaskFormState.constructor | src/components/TaskForm.tsx:12-16 | fields start from the task being edited; no errors |
| TaskForm.TaskFormState.OnInitialData | src/components/TaskForm.tsx:18-23 | a new task resets the four fields and keeps the errors |
| TaskForm.TaskFormState.SetTitle | src/components/TaskForm.tsx:12 | changes only the title |
| TaskForm.TaskFormState.SetDescription | src/components/TaskForm.tsx:13 | changes only the description |
| TaskForm.TaskFormState.SetStatus | src/components/TaskForm.tsx:14 | changes only the status |
| TaskForm.TaskFormState.SetDueDate | src/components/TaskForm.tsx:15 | changes only the due date |
| TaskForm.TaskFormState.HandleSubmit | src/components/TaskForm.tsx:32-48 | on errors stores them and emits nothing; otherwise emits the task and leaves the errors as they were |
| UseForm.RefreshField | src/hooks/useForm.tsx:44-53 | the field's error is kept exactly when it is truthy in the full validation; every other entry is unchanged |
| UseForm.RefreshFieldIdempotent | src/hooks/useForm.tsx:61-69 | refreshing a field twice against the same validation is refreshing it once |
| UseForm.RefreshFieldsAgreeWithValidation | src/hooks/useForm.tsx:57-70 | after blurring each of some fields, each carries exactly its truthy error, and the other entries are unchanged |
| UseForm.SubmitGate | src/hooks/useForm.tsx:81-89 | a pending attempt with no error keys submits the values and clears the errors; any other state submits nothing; no attempt stays pending |
| UseForm.SubmitGateSettles | src/hooks/useForm.tsx:81-89 | running the effect again after it has run submits nothing and changes nothing |
| UseForm.SubmitFiresIffNoKeys | src/hooks/useForm.tsx:73-89 | after a submit, `onSubmit` is called exactly when validation returns no keys, and a key with an undefined message blocks it |
| UseForm.Form.constructor | src/hooks/useForm.tsx:21-24 | values start at the initial values, with no errors and no attempt pending |
| UseForm.Form.OnInitialValues | src/hooks/useForm.tsx:27-32 | new initial values replace the values and clear the errors |
| UseForm.Form.HandleChange | src/hooks/useForm.tsx:35-54 | stores the value and refreshes that field's error against the new values |
| UseForm.Form.HandleBlur | src/hooks/useForm.tsx:57-70 | refreshes that field's error against the current values |
| UseForm.Form.HandleSubmit | src/hooks/useForm.tsx:73-78 | replaces the errors by the full validation and starts an attempt |
| UseForm.Form.SubmitEffect | src/hooks/useForm.tsx:81-89 | one run of the submit effect, as `SubmitGate` |
| UseForm.Form.ResetForm | src/hooks/useForm.tsx:92-96 | values back to the initial values, no errors, no attempt pending |
| UseForm.SubmitAndSettle | src/hooks/useForm.tsx:73-89 | a submit followed by the effect hands the values to `onSubmit` exactly when they validate with no keys |
| Seqs.Filter | src/context/TaskContext.tsx:35 | `Array.prototype.filter`: no longer than its input, and every kept element satisfies the predicate |
| Seqs.FilterMembership | src/hooks/useFilteredTasks.tsx:35-37 | an element is kept exactly when it is in the input and satisfies the predicate |
| Seqs.FilterMultiplicity | src/hooks/useFilteredTasks.tsx:35-37 | a kept element keeps every copy it had, and a dropped one has none |
| Seqs.FilterIsSubsequence | src/context/TaskContext.tsx:35 | filtering keeps the input's order |
| Seqs.FilterLengthIsCount | src/components/Dashboard.tsx:71-73 | the filtered length is the number of elements that satisfy the predicate |
| Seqs.Map | src/context/TaskContext.tsx:33 | `Array.prototype.map`: the same length, with each element transformed in place |
| Seqs.SortBy | src/hooks/useFilteredTasks.tsx:40-44 | the sort result is a permutation of its input, sorted by the rank |
| Seqs.SortByKeepsTies | src/hooks/useFilteredTasks.tsx:40-44 | the sort is stable: elements with equal rank keep their order |
| Seqs.StableSortUnique | src/hooks/useFilteredTasks.tsx:40-44 | any stable ordering of a list sorted by the rank equals `SortBy` |
| Seqs.OppositeRankReverses | src/hooks/useFilteredTasks.tsx:43 | with distinct ranks, sorting by the negated rank gives the reverse |
| JsString.LeadingWhitespace | src/components/TaskForm.tsx:27-28 | the length of the white-space run that `trim()` removes at the start: all of it white space, and the next character, if any, is not |
| JsString.TrailingWhitespace | src/components/TaskForm.tsx:27-28 | the length of the white-space run that `trim()` removes at the end: all of it white space, and the character before it, if any, is not |
| JsString.Trim | src/components/TaskForm.tsx:27-28 | `trim()` gives a piece of the string with only white space before and after it, neither starting nor ending with white space, empty exactly when every character is white space |
| JsString.Includes | src/components/Dashboard.tsx:131 | `includes` trying every start position from the left; its partner `IncludesIff` states that it holds exactly when the text occurs at some index |
| JsString.IncludesIff | src/components/Dashboard.tsx:131 | `includes` holds exactly when the text occurs at some index, and the empty string is included in every string |

## Left out

- Persistence is not modelled. The store's initial list read from
  `localStorage` is the constructor's argument. Writing the list back on
  every change is I/O.
- The provider wiring is not modelled. This covers `createContext`, the
  provider component, and `useTaskContext` throwing outside a provider.
- The actions' `type` strings come from `src/constants/index.ts`. They are
  represented by the `Action` constructors.
- Ids are mathematical integers. JavaScript numbers can be fractional or
  `NaN`, and `Date.now()` is a millisecond count.
- Parsing a due date is the parameter `dateKey`. The model does not include
  what `new Date` does with a malformed string. A `NaN` date would make the
  comparator inconsistent, and so would the engine's sort order; that case is
  not modelled.
- Two React behaviours are not modelled:
  - Batching: each handler applies its state changes at once.
  - Stale closures: `handleChange` validates `{...values, [name]: value}`
    built from the values of the current render. The model uses the current
    values, which is the same thing when there is one event per render.
- `useTransition` in the search handler is not modelled. The search text is
  set at once.
- The task form's `today` (the minimum date for the date input) is not
  modelled. Other rendering is not modelled either: the JSX, the modal,
  `TaskCard`, `App`, `AddTaskPage` and `EditTaskPage`.
- Strings are sequences of Unicode scalar values, not UTF-16 code units. A
  JavaScript string can hold a lone surrogate, which cannot be written here;
  a character outside the Basic Multilingual Plane is one `char` where
  JavaScript sees two code units. `trim` and `includes` agree on well-formed
  text, so only those two cases are not captured.
- TaskForm.Validate: validation follows the code. Title and due date must
  each contain a character other than white space. There is no further rule
  on the characters a title may contain.
- UseForm.Form.OnInitialValues: the effect also calls `validate(values)` and
  discards the result. The call changes nothing and is left out. React runs
  this effect only when the `initialValues` reference changes; the model
  leaves that comparison to the caller, which calls the method only then.
- TaskForm.TaskFormState.OnInitialData: React runs this effect only when the
  `initialData` reference changes. Reference identity is not modelled; the
  caller calls the method only on such a change.
- UseForm.Form.SubmitEffect: `onSubmit` is the out-parameter `submitted`.
  The effect's re-runs on changed dependencies are the caller's repeated
  calls; `SubmitGateSettles` shows that a second run does nothing.
