/**
  The hook that derives the listed tasks: the route and the status filter
  select, then a copy of the selection is sorted by due date.
 */
module FilteredTasks {
  import opened Wrappers
  import opened Seqs
  import opened TaskContext

  datatype SortOrder = Asc | Desc

  /**
    The route effect: the value it passes to `setStatusFilter`, or `None`
    when it does not call it. Only the two routes set a filter, and each
    sets its own.
   */
  function RouteStatusFilter(pathname: string): (r: Option<string>)
    ensures r.Some? <==> pathname == "/completed" || pathname == "/all"
    ensures r == Some("Completed") <==> pathname == "/completed"
    ensures r == Some("All") <==> pathname == "/all"
  {
    if pathname == "/completed" then Some("Completed")
    else if pathname == "/all" then Some("All")
    else None
  }

  /** The `filter` callback comparing a task's status with a status string. */
  function StatusIs(wanted: string): Task -> bool
  {
    (t: Task) => Label(t.status) == wanted
  }

  /**
    The tasks the route and the status filter let through, in store order:
    on "/completed" only completed tasks, elsewhere only tasks whose status
    reads as the filter unless the filter is "All", which keeps the list.
   */
  function Select(tasks: seq<Task>, pathname: string, statusFilter: string): (r: seq<Task>)
    ensures IsSubsequence(r, tasks)
    ensures pathname == "/completed" ==> forall i :: 0 <= i < |r| ==> r[i].status == Completed
    ensures pathname != "/completed" && statusFilter != "All" ==>
      forall i :: 0 <= i < |r| ==> Label(r[i].status) == statusFilter
    ensures pathname != "/completed" && statusFilter == "All" ==> r == tasks
  {
    if pathname == "/completed" then
      FilterIsSubsequence(tasks, StatusIs("Completed"));
      Filter(tasks, StatusIs("Completed"))
    else if statusFilter != "All" then
      FilterIsSubsequence(tasks, StatusIs(statusFilter));
      Filter(tasks, StatusIs(statusFilter))
    else
      IsSubsequenceRefl(tasks);
      tasks
  }

  /**
    The comparator `asc ? dateA - dateB : dateB - dateA` is `rank(a) - rank(b)`
    for this rank. `dateKey` stands for `new Date(dueDate).getTime()`.
   */
  function DueRank(order: SortOrder, dateKey: string -> int): Task -> int
  {
    (t: Task) => if order == Asc then dateKey(t.dueDate) else -dateKey(t.dueDate)
  }

  /**
    The hook's result: the selection, sorted by due date with a stable sort.
    It holds each selected task as often as the selection does, with due dates
    non-decreasing for "asc" and non-increasing for "desc".
   */
  function FilterAndSort(tasks: seq<Task>, pathname: string, statusFilter: string,
                         order: SortOrder, dateKey: string -> int): (r: seq<Task>)
    ensures multiset(r) == multiset(Select(tasks, pathname, statusFilter))
    ensures forall i, j :: 0 <= i < j < |r| ==>
      if order == Asc then dateKey(r[i].dueDate) <= dateKey(r[j].dueDate)
      else dateKey(r[i].dueDate) >= dateKey(r[j].dueDate)
  {
    SortBy(Select(tasks, pathname, statusFilter), DueRank(order, dateKey))
  }

  /** The predicate "is due at `d`", for stating what happens to tasks with equal dates. */
  function DueAt(dateKey: string -> int, d: int): Task -> bool
  {
    (t: Task) => dateKey(t.dueDate) == d
  }

  // ---------------------------------------------------------------------------
  // Selection

  /** On "/completed" exactly the completed tasks are listed, each as often as in the store, whatever the status filter. */
  lemma CompletedRouteListsCompleted(tasks: seq<Task>, statusFilter: string, order: SortOrder, dateKey: string -> int)
    ensures var r := FilterAndSort(tasks, "/completed", statusFilter, order, dateKey);
      && (forall t :: multiset(r)[t] == if t.status == Completed then multiset(tasks)[t] else 0)
      && (forall i :: 0 <= i < |r| ==> r[i].status == Completed)
      && (forall other :: r == FilterAndSort(tasks, "/completed", other, order, dateKey))
  {
    var r := FilterAndSort(tasks, "/completed", statusFilter, order, dateKey);
    FilterMultiplicity(tasks, StatusIs("Completed"));
    forall i | 0 <= i < |r|
      ensures r[i].status == Completed
    {
      assert r[i] in multiset(r);
    }
  }

  /** Off "/completed", the filter "All" keeps every task; any other filter keeps exactly the tasks whose status reads the same. */
  lemma OtherRouteFollowsFilter(tasks: seq<Task>, pathname: string, statusFilter: string,
                                order: SortOrder, dateKey: string -> int)
    requires pathname != "/completed"
    ensures var r := FilterAndSort(tasks, pathname, statusFilter, order, dateKey);
      && (statusFilter == "All" ==> multiset(r) == multiset(tasks))
      && (statusFilter != "All" ==>
            forall t :: multiset(r)[t] == if Label(t.status) == statusFilter then multiset(tasks)[t] else 0)
  {
    FilterMultiplicity(tasks, StatusIs(statusFilter));
  }

  // ---------------------------------------------------------------------------
  // Order

  /** Tasks due at the same time are listed in their store order, in both directions. */
  lemma EqualDatesKeepStoreOrder(tasks: seq<Task>, pathname: string, statusFilter: string,
                                 order: SortOrder, dateKey: string -> int, d: int)
    ensures Filter(FilterAndSort(tasks, pathname, statusFilter, order, dateKey), DueAt(dateKey, d))
         == Filter(Select(tasks, pathname, statusFilter), DueAt(dateKey, d))
  {
    var sel := Select(tasks, pathname, statusFilter);
    var rank := DueRank(order, dateKey);
    var r := SortBy(sel, rank);
    var k := if order == Asc then d else -d;
    SortByKeepsTies(sel, rank);
    assert Filter(r, HasKey(rank, k)) == Filter(sel, HasKey(rank, k));
    FilterAgreeing(r, DueAt(dateKey, d), HasKey(rank, k));
    FilterAgreeing(sel, DueAt(dateKey, d), HasKey(rank, k));
  }

  /**
    Any sort of the selection that orders by the comparator and keeps equal
    dates in store order, as `Array.prototype.sort` does, yields the listed tasks.
   */
  lemma ListIsTheStableSort(tasks: seq<Task>, pathname: string, statusFilter: string,
                            order: SortOrder, dateKey: string -> int, sorted: seq<Task>)
    requires SortedBy(sorted, DueRank(order, dateKey))
    requires KeepsTiesOf(sorted, Select(tasks, pathname, statusFilter), DueRank(order, dateKey))
    ensures sorted == FilterAndSort(tasks, pathname, statusFilter, order, dateKey)
  {
    StableSortUnique(sorted, Select(tasks, pathname, statusFilter), DueRank(order, dateKey));
  }

  /** When no two selected tasks are due at the same time, "desc" lists them in the reverse of "asc". */
  lemma DescIsReversedAsc(tasks: seq<Task>, pathname: string, statusFilter: string, dateKey: string -> int)
    requires DistinctKeys(Select(tasks, pathname, statusFilter), DueRank(Asc, dateKey))
    ensures FilterAndSort(tasks, pathname, statusFilter, Desc, dateKey)
         == Reverse(FilterAndSort(tasks, pathname, statusFilter, Asc, dateKey))
  {
    OppositeRankReverses(Select(tasks, pathname, statusFilter), DueRank(Asc, dateKey), DueRank(Desc, dateKey));
  }

  // ---------------------------------------------------------------------------
  // Worked examples

  /** Two tasks, the later-due one first in the store: "/all" with "All" and "asc" lists the earlier-due one first. */
  lemma ExampleAscending(dateKey: string -> int)
    requires dateKey("2024-01-01") < dateKey("2024-01-05")
    ensures var milk := Task(1, "Buy milk", "", Pending, "2024-01-05");
            var rent := Task(2, "Pay rent", "", Completed, "2024-01-01");
      FilterAndSort([milk, rent], "/all", "All", Asc, dateKey) == [rent, milk]
  {
    var milk := Task(1, "Buy milk", "", Pending, "2024-01-05");
    var rent := Task(2, "Pay rent", "", Completed, "2024-01-01");
    var rank := DueRank(Asc, dateKey);
    assert [milk, rent][1..] == [rent] && [rent][1..] == [];
    assert Insert(milk, [rent], rank) == [rent] + Insert(milk, [], rank);
  }

  /** The same two tasks on "/completed": only the completed one is listed, whatever the status filter says. */
  lemma ExampleCompletedRoute(dateKey: string -> int)
    ensures var milk := Task(1, "Buy milk", "", Pending, "2024-01-05");
            var rent := Task(2, "Pay rent", "", Completed, "2024-01-01");
      FilterAndSort([milk, rent], "/completed", "Pending", Asc, dateKey) == [rent]
  {
    var milk := Task(1, "Buy milk", "", Pending, "2024-01-05");
    var rent := Task(2, "Pay rent", "", Completed, "2024-01-01");
    assert [milk, rent][1..] == [rent] && [rent][1..] == [];
    assert Filter([rent], StatusIs("Completed")) == [rent];
  }
}
