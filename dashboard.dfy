/**
  The dashboard page: the handler state that decides between adding and
  editing, the search over the derived list, the empty-list message and the
  per-status counts.
 */
module Dashboard {
  import opened Wrappers
  import opened Seqs
  import opened JsString
  import opened TaskContext
  import opened FilteredTasks

  /**
    The search callback: a task matches when the search text is empty or
    occurs, at some position, in its title or in its description.
   */
  function MatchesSearch(searchText: string): (r: Task -> bool)
    ensures forall t :: r(t) <==>
      || searchText == []
      || (exists i :: OccursAt(t.title, searchText, i))
      || (exists i :: OccursAt(t.description, searchText, i))
  {
    IncludesIffEverywhere(searchText);
    (t: Task) =>
      if searchText != "" then Includes(t.title, searchText) || Includes(t.description, searchText)
      else true
  }

  /** The derived list narrowed by the search text: the matching tasks, all of them, in list order. */
  function Search(filtered: seq<Task>, searchText: string): (r: seq<Task>)
    ensures IsSubsequence(r, filtered)
    ensures forall i :: 0 <= i < |r| ==> MatchesSearch(searchText)(r[i])
    ensures forall t :: t in filtered && MatchesSearch(searchText)(t) ==> t in r
  {
    FilterIsSubsequence(filtered, MatchesSearch(searchText));
    FilterMembership(filtered, MatchesSearch(searchText));
    Filter(filtered, MatchesSearch(searchText))
  }

  /** What the task section shows: the message, or one card per task (possibly none). */
  datatype TaskSection = NoTasksMessage | Cards(shown: seq<Task>)

  /**
    The message is chosen from the derived list before the search is applied:
    it shows exactly when that list is empty, and otherwise the cards are the
    search's result.
   */
  function Render(filtered: seq<Task>, searchText: string): (r: TaskSection)
    ensures r.NoTasksMessage? <==> filtered == []
    ensures r.Cards? ==> r.shown == Search(filtered, searchText)
  {
    if |filtered| == 0 then NoTasksMessage else Cards(Search(filtered, searchText))
  }

  /** `tasks.filter(t => t.status === wanted).length`: the number of tasks whose status reads as `wanted`. */
  function StatusCount(tasks: seq<Task>, wanted: string): (n: nat)
    ensures n == Count(tasks, StatusIs(wanted)) && n <= |tasks|
  {
    FilterLengthIsCount(tasks, StatusIs(wanted));
    |Filter(tasks, StatusIs(wanted))|
  }

  /** The three numbers in the header, in the order shown; they add up to the number of tasks. */
  function StatusCounts(tasks: seq<Task>): (r: (nat, nat, nat))
    ensures r.0 + r.1 + r.2 == |tasks|
  {
    CountMatchesStatus(tasks, Pending);
    CountMatchesStatus(tasks, InProgress);
    CountMatchesStatus(tasks, Completed);
    CountsAddUp(tasks);
    (StatusCount(tasks, "Pending"), StatusCount(tasks, "In Progress"), StatusCount(tasks, "Completed"))
  }

  /** The predicate "has exactly this status", to count by. */
  function HasStatus(status: TaskStatus): Task -> bool
  {
    (t: Task) => t.status == status
  }

  // ---------------------------------------------------------------------------
  // Search

  /**
    A task is kept exactly when the search text is empty or occurs, with case
    significant, in its title or its description; kept tasks keep their order.
   */
  lemma SearchKeepsMatches(filtered: seq<Task>, searchText: string)
    ensures var r := Search(filtered, searchText);
      && (forall t :: t in r <==>
            t in filtered &&
            (searchText == []
             || (exists i :: OccursAt(t.title, searchText, i))
             || (exists i :: OccursAt(t.description, searchText, i))))
      && (forall t :: multiset(r)[t] == if MatchesSearch(searchText)(t) then multiset(filtered)[t] else 0)
      && IsSubsequence(r, filtered)
  {
    FilterMembership(filtered, MatchesSearch(searchText));
    FilterMultiplicity(filtered, MatchesSearch(searchText));
    FilterIsSubsequence(filtered, MatchesSearch(searchText));
    forall t: Task
      ensures MatchesSearch(searchText)(t) <==>
        searchText == []
        || (exists i :: OccursAt(t.title, searchText, i))
        || (exists i :: OccursAt(t.description, searchText, i))
    {
      IncludesIff(t.title, searchText);
      IncludesIff(t.description, searchText);
    }
  }

  /** An empty search text keeps the whole list; the `searchText !== ''` test could be dropped, as every string includes ''. */
  lemma EmptySearchKeepsAll(filtered: seq<Task>, t: Task)
    ensures Search(filtered, "") == filtered
    ensures MatchesSearch("")(t) == (Includes(t.title, "") || Includes(t.description, ""))
  {
    FilterAll(filtered, MatchesSearch(""));
    IncludesIff(t.title, "");
  }

  /** A search for text found in no task of a non-empty list shows nothing. */
  lemma UnmatchedSearchShowsNothing(filtered: seq<Task>, searchText: string)
    requires filtered != []
    requires forall i :: 0 <= i < |filtered| ==>
      !Includes(filtered[i].title, searchText) && !Includes(filtered[i].description, searchText)
    ensures Render(filtered, searchText) == Cards([])
  {
    FilterNone(filtered, MatchesSearch(searchText));
  }

  /**
    On "/completed" the message shows exactly when the store holds no
    completed task, and every card shown is a completed task, whatever the
    status filter, the order and the search.
   */
  lemma CompletedRouteShowsCompleted(tasks: seq<Task>, statusFilter: string, order: SortOrder,
                                     dateKey: string -> int, searchText: string)
    ensures var section := Render(FilterAndSort(tasks, "/completed", statusFilter, order, dateKey), searchText);
      && (section.NoTasksMessage? <==> forall i :: 0 <= i < |tasks| ==> tasks[i].status != Completed)
      && (section.Cards? ==> forall i :: 0 <= i < |section.shown| ==> section.shown[i].status == Completed)
  {
    var sel := Select(tasks, "/completed", statusFilter);
    var listed := FilterAndSort(tasks, "/completed", statusFilter, order, dateKey);
    FilterMembership(tasks, StatusIs("Completed"));
    assert |listed| == |sel| by {
      assert |multiset(listed)| == |multiset(sel)|;
    }
    if exists i :: 0 <= i < |tasks| && tasks[i].status == Completed {
      var i :| 0 <= i < |tasks| && tasks[i].status == Completed;
      assert tasks[i] in sel;
    }
    if sel != [] {
      assert sel[0] in tasks;
    }
    var shown := Search(listed, searchText);
    FilterMembership(listed, MatchesSearch(searchText));
    forall i | 0 <= i < |shown|
      ensures shown[i].status == Completed
    {
      assert shown[i] in multiset(listed);
      assert shown[i] in sel;
    }
  }

  // ---------------------------------------------------------------------------
  // Counts

  /** Each count is the number of tasks with exactly that status, and the three add up to the number of tasks. */
  lemma CountsAreExact(tasks: seq<Task>)
    ensures StatusCounts(tasks).0 == Count(tasks, HasStatus(Pending))
    ensures StatusCounts(tasks).1 == Count(tasks, HasStatus(InProgress))
    ensures StatusCounts(tasks).2 == Count(tasks, HasStatus(Completed))
    ensures StatusCounts(tasks).0 + StatusCounts(tasks).1 + StatusCounts(tasks).2 == |tasks|
  {
    CountMatchesStatus(tasks, Pending);
    CountMatchesStatus(tasks, InProgress);
    CountMatchesStatus(tasks, Completed);
    CountsAddUp(tasks);
  }

  /** Comparing the stored status string with a status's label is comparing the statuses. */
  lemma CountMatchesStatus(tasks: seq<Task>, status: TaskStatus)
    ensures StatusCount(tasks, Label(status)) == Count(tasks, HasStatus(status))
  {
    FilterAgreeing(tasks, StatusIs(Label(status)), HasStatus(status));
    FilterLengthIsCount(tasks, HasStatus(status));
  }

  lemma {:induction false} CountsAddUp(tasks: seq<Task>)
    ensures Count(tasks, HasStatus(Pending)) + Count(tasks, HasStatus(InProgress))
          + Count(tasks, HasStatus(Completed)) == |tasks|
    decreases |tasks|
  {
    if tasks != [] {
      CountsAddUp(tasks[1..]);
    }
  }

  // ---------------------------------------------------------------------------
  // The page's state

  /** The page's `useState` fields and the store it dispatches to. */
  class DashboardState {
    const store: TaskStore
    /** Stands for `new Date(dueDate).getTime()`. */
    const dateKey: string -> int
    var pathname: string
    var editingTask: Option<Task>
    var isFormVisible: bool
    var statusFilter: string
    var sortOrder: SortOrder
    var searchText: string

    /** Mounting: the initial state, then the route effect runs once. */
    constructor (store: TaskStore, dateKey: string -> int, pathname: string)
      ensures this.store == store && this.dateKey == dateKey && this.pathname == pathname
      ensures editingTask == None && !isFormVisible
      ensures statusFilter == if pathname == "/completed" then "Completed" else "All"
      ensures sortOrder == Asc && searchText == ""
    {
      this.store := store;
      this.dateKey := dateKey;
      this.pathname := pathname;
      editingTask := None;
      isFormVisible := false;
      sortOrder := Asc;
      searchText := "";
      statusFilter := "All";
      match RouteStatusFilter(pathname)
      case Some(f) => statusFilter := f;
      case None =>
    }

    /** The list the hook returns. */
    function Filtered(): seq<Task>
      reads this, store
    {
      FilterAndSort(store.tasks, pathname, statusFilter, sortOrder, dateKey)
    }

    /** The task section as rendered from the current state. */
    function Shown(): TaskSection
      reads this, store
    {
      Render(Filtered(), searchText)
    }

    /**
      A navigation to `path`. The route effect depends on the pathname, so it
      runs only when `path` differs from the current one; navigating to the
      page already shown changes nothing. On "/completed" the page then shows
      only completed tasks, and the message exactly when the store has none.
     */
    method Navigate(path: string)
      modifies this
      ensures pathname == path
      ensures statusFilter == if path == old(pathname) then old(statusFilter)
                              else if path == "/completed" then "Completed"
                              else if path == "/all" then "All"
                              else old(statusFilter)
      ensures editingTask == old(editingTask) && isFormVisible == old(isFormVisible)
      ensures sortOrder == old(sortOrder) && searchText == old(searchText)
      ensures path == "/completed" ==>
        && (Shown().NoTasksMessage? <==> forall i :: 0 <= i < |store.tasks| ==> store.tasks[i].status != Completed)
        && (Shown().Cards? ==> forall i :: 0 <= i < |Shown().shown| ==> Shown().shown[i].status == Completed)
    {
      if path != pathname {
        pathname := path;
        var routed := RouteStatusFilter(path);
        if routed.Some? {
          statusFilter := routed.value;
        }
      }
      if path == "/completed" {
        CompletedRouteShowsCompleted(store.tasks, statusFilter, sortOrder, dateKey, searchText);
      }
    }

    method HandleAddClick()
      modifies this
      ensures editingTask == None && isFormVisible
      ensures pathname == old(pathname) && statusFilter == old(statusFilter)
      ensures sortOrder == old(sortOrder) && searchText == old(searchText)
    {
      editingTask := None;
      isFormVisible := true;
    }

    method HandleEdit(task: Task)
      modifies this
      ensures editingTask == Some(task) && isFormVisible
      ensures pathname == old(pathname) && statusFilter == old(statusFilter)
      ensures sortOrder == old(sortOrder) && searchText == old(searchText)
    {
      editingTask := Some(task);
      isFormVisible := true;
    }

    method HandleDelete(id: int)
      modifies store
      ensures store.tasks == Reduce(old(store.tasks), DeleteTask(id))
    {
      store.Dispatch(DeleteTask(id));
    }

    /** EDIT while a task is being edited, ADD otherwise, with the form's task; then the form is hidden. */
    method HandleFormSubmit(task: Task)
      modifies this, store
      ensures store.tasks == Reduce(old(store.tasks), if old(editingTask).Some? then EditTask(task) else AddTask(task))
      ensures !isFormVisible && editingTask == old(editingTask)
      ensures pathname == old(pathname) && statusFilter == old(statusFilter)
      ensures sortOrder == old(sortOrder) && searchText == old(searchText)
    {
      store.Dispatch(if editingTask.Some? then EditTask(task) else AddTask(task));
      isFormVisible := false;
    }

    method HandleModalClose()
      modifies this
      ensures !isFormVisible && editingTask == old(editingTask)
      ensures pathname == old(pathname) && statusFilter == old(statusFilter)
      ensures sortOrder == old(sortOrder) && searchText == old(searchText)
    {
      isFormVisible := false;
    }

    /** The search input's change handler (the transition that defers it is not modelled). */
    method OnSearchInput(text: string)
      modifies this
      ensures searchText == text
      ensures editingTask == old(editingTask) && isFormVisible == old(isFormVisible)
      ensures pathname == old(pathname) && statusFilter == old(statusFilter) && sortOrder == old(sortOrder)
    {
      searchText := text;
    }

    method OnStatusFilterChange(value: string)
      modifies this
      ensures statusFilter == value
      ensures editingTask == old(editingTask) && isFormVisible == old(isFormVisible)
      ensures pathname == old(pathname) && sortOrder == old(sortOrder) && searchText == old(searchText)
    {
      statusFilter := value;
    }

    method OnSortOrderChange(order: SortOrder)
      modifies this
      ensures sortOrder == order
      ensures editingTask == old(editingTask) && isFormVisible == old(isFormVisible)
      ensures pathname == old(pathname) && statusFilter == old(statusFilter) && searchText == old(searchText)
    {
      sortOrder := order;
    }
  }

  /** Editing a task and submitting the form replaces the edited task in the store and closes the form. */
  method EditAndSubmit(page: DashboardState, task: Task, edited: Task)
    modifies page, page.store
    ensures page.store.tasks == Reduce(old(page.store.tasks), EditTask(edited))
    ensures !page.isFormVisible && page.editingTask == Some(task)
  {
    page.HandleEdit(task);
    page.HandleFormSubmit(edited);
  }
}
