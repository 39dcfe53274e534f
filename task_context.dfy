/**
  The task store: the `Task` record, the three actions and the reducer that
  applies them, and the store object that `useReducer` keeps.
 */
module TaskContext {
  import opened Seqs

  datatype TaskStatus = Pending | InProgress | Completed

  /** The string a status is stored as and compared against. */
  function Label(status: TaskStatus): string
  {
    match status
    case Pending => "Pending"
    case InProgress => "In Progress"
    case Completed => "Completed"
  }

  /** A task. `dueDate` is kept as entered (an ISO date string). */
  datatype Task = Task(id: int, title: string, description: string, status: TaskStatus, dueDate: string)

  /**
    A dispatched action. The declared type admits the first three; the
    reducer's `default` branch handles an object whose `type` is none of the
    three, which `Unrecognised` stands for.
   */
  datatype Action =
    | AddTask(payload: Task)
    | EditTask(payload: Task)
    | DeleteTask(id: int)
    | Unrecognised

  /** The callback given to `map` by EDIT. */
  function ReplaceIfSameId(payload: Task): Task -> Task
  {
    (t: Task) => if t.id == payload.id then payload else t
  }

  /** The callback given to `filter` by DELETE. */
  function IdDiffers(id: int): Task -> bool
  {
    (t: Task) => t.id != id
  }

  /**
    The reducer: a new list for each action, the same list for an
    unrecognised one. ADD extends the list by the payload; EDIT keeps every
    position and its id and puts the payload wherever the id matches; DELETE
    leaves no task with the id and keeps every other task.
   */
  function Reduce(state: seq<Task>, action: Action): (r: seq<Task>)
    ensures action.AddTask? ==> |r| == |state| + 1 && r[..|state|] == state && r[|state|] == action.payload
    ensures action.EditTask? ==>
      && |r| == |state|
      && (forall i :: 0 <= i < |r| ==> r[i].id == state[i].id && (r[i] == state[i] || r[i] == action.payload))
    ensures action.DeleteTask? ==>
      && (forall i :: 0 <= i < |r| ==> r[i].id != action.id)
      && (forall t :: t in state && t.id != action.id ==> t in r)
    ensures action.Unrecognised? ==> r == state
  {
    match action
    case AddTask(t) => state + [t]
    case EditTask(t) => Map(state, ReplaceIfSameId(t))
    case DeleteTask(id) =>
      FilterMembership(state, IdDiffers(id));
      Filter(state, IdDiffers(id))
    case Unrecognised => state
  }

  /**
    The successive states of the store after each action in turn: a run of
    unrecognised actions changes nothing, and a run of ADDs appends the
    payloads after the old list in the order they were dispatched.
   */
  function ReduceAll(state: seq<Task>, actions: seq<Action>): (r: seq<Task>)
    ensures (forall i :: 0 <= i < |actions| ==> actions[i].Unrecognised?) ==> r == state
    ensures (forall i :: 0 <= i < |actions| ==> actions[i].AddTask?) ==>
      && |r| == |state| + |actions|
      && r[..|state|] == state
      && (forall i :: 0 <= i < |actions| ==> r[|state| + i] == actions[i].payload)
    decreases |actions|
  {
    if actions == [] then state
    else
      var next := Reduce(state, actions[0]);
      var r := ReduceAll(next, actions[1..]);
      assert (forall i :: 0 <= i < |actions| ==> actions[i].AddTask?) ==>
        r[..|state|] == next[..|state|] == state;
      r
  }

  /** Dispatching `a` and then `b` is dispatching `a + b`. */
  lemma {:induction false} ReduceAllAppend(state: seq<Task>, a: seq<Action>, b: seq<Action>)
    ensures ReduceAll(state, a + b) == ReduceAll(ReduceAll(state, a), b)
    decreases |a|
  {
    if a == [] {
      assert a + b == b;
    } else {
      assert (a + b)[0] == a[0] && (a + b)[1..] == a[1..] + b;
      ReduceAllAppend(Reduce(state, a[0]), a[1..], b);
    }
  }

  predicate UniqueIds(s: seq<Task>)
  {
    forall i, j :: 0 <= i < |s| && 0 <= j < |s| && i != j ==> s[i].id != s[j].id
  }

  predicate FreshId(s: seq<Task>, id: int)
  {
    forall i :: 0 <= i < |s| ==> s[i].id != id
  }

  // ---------------------------------------------------------------------------
  // One action

  /** ADD puts the payload at the end and leaves every earlier element where it was. */
  lemma AddAppends(state: seq<Task>, t: Task)
    ensures var r := Reduce(state, AddTask(t));
      |r| == |state| + 1 && r[|state|] == t && r[..|state|] == state
  {
  }

  /** EDIT keeps the length; each element with the payload's id becomes the payload, every other stays put. */
  lemma EditReplacesById(state: seq<Task>, t: Task)
    ensures var r := Reduce(state, EditTask(t));
      && |r| == |state|
      && (forall i :: 0 <= i < |state| && state[i].id == t.id ==> r[i] == t)
      && (forall i :: 0 <= i < |state| && state[i].id != t.id ==> r[i] == state[i])
  {
  }

  /** EDIT with an id that is not in the list is a no-op. */
  lemma EditMissingIdIsNoOp(state: seq<Task>, t: Task)
    requires FreshId(state, t.id)
    ensures Reduce(state, EditTask(t)) == state
  {
    var r := Reduce(state, EditTask(t));
    assert forall i :: 0 <= i < |state| ==> r[i] == state[i];
  }

  /**
    DELETE keeps exactly the elements whose id differs, every copy of them, in
    their original order.
   */
  lemma DeleteKeepsOthers(state: seq<Task>, id: int)
    ensures var r := Reduce(state, DeleteTask(id));
      && (forall t :: t in r <==> t in state && t.id != id)
      && (forall t :: multiset(r)[t] == if t.id != id then multiset(state)[t] else 0)
      && IsSubsequence(r, state)
  {
    FilterMembership(state, IdDiffers(id));
    FilterMultiplicity(state, IdDiffers(id));
    FilterIsSubsequence(state, IdDiffers(id));
  }

  /** Deleting the same id twice is deleting it once. */
  lemma DeleteIdempotent(state: seq<Task>, id: int)
    ensures Reduce(Reduce(state, DeleteTask(id)), DeleteTask(id)) == Reduce(state, DeleteTask(id))
  {
    FilterIdempotent(state, IdDiffers(id));
  }

  /** The `default` branch returns the state it was given. */
  lemma UnrecognisedIsNoOp(state: seq<Task>)
    ensures Reduce(state, Unrecognised) == state
  {
  }

  // ---------------------------------------------------------------------------
  // Unique ids

  lemma {:induction false} FilterKeepsUniqueIds(s: seq<Task>, p: Task -> bool)
    requires UniqueIds(s)
    ensures UniqueIds(Filter(s, p))
    decreases |s|
  {
    if s != [] {
      var rest := Filter(s[1..], p);
      assert UniqueIds(s[1..]) by {
        forall i, j | 0 <= i < |s| - 1 && 0 <= j < |s| - 1 && i != j
          ensures s[1..][i].id != s[1..][j].id
        {
          assert s[1..][i] == s[i + 1] && s[1..][j] == s[j + 1];
        }
      }
      FilterKeepsUniqueIds(s[1..], p);
      if p(s[0]) {
        FilterMembership(s[1..], p);
        forall i | 0 <= i < |rest|
          ensures rest[i].id != s[0].id
        {
          var j :| 0 <= j < |s| - 1 && s[1..][j] == rest[i];
          assert s[j + 1] == rest[i];
        }
        var r := [s[0]] + rest;
        forall i, j | 0 <= i < |r| && 0 <= j < |r| && i != j
          ensures r[i].id != r[j].id
        {
          if i > 0 && j > 0 {
            assert r[i] == rest[i - 1] && r[j] == rest[j - 1];
          }
        }
      }
    }
  }

  /**
    Ids stay unique under every action, provided an added task carries an id
    that is not in the list yet.
   */
  lemma ReduceKeepsUniqueIds(state: seq<Task>, action: Action)
    requires UniqueIds(state)
    requires action.AddTask? ==> FreshId(state, action.payload.id)
    ensures UniqueIds(Reduce(state, action))
  {
    match action
    case AddTask(t) =>
    case EditTask(t) =>
      var r := Reduce(state, action);
      assert forall i :: 0 <= i < |state| ==> r[i].id == state[i].id;
    case DeleteTask(id) =>
      FilterKeepsUniqueIds(state, IdDiffers(id));
    case Unrecognised =>
  }

  /** Every ADD in `actions` carries an id that is fresh in the state it is applied to. */
  predicate AddsFreshIds(state: seq<Task>, actions: seq<Action>)
    decreases |actions|
  {
    actions == [] ||
    ((actions[0].AddTask? ==> FreshId(state, actions[0].payload.id))
     && AddsFreshIds(Reduce(state, actions[0]), actions[1..]))
  }

  /** Over any run of actions whose ADDs carry fresh ids, ids stay unique. */
  lemma {:induction false} ReduceAllKeepsUniqueIds(state: seq<Task>, actions: seq<Action>)
    requires UniqueIds(state) && AddsFreshIds(state, actions)
    ensures UniqueIds(ReduceAll(state, actions))
    decreases |actions|
  {
    if actions != [] {
      ReduceKeepsUniqueIds(state, actions[0]);
      ReduceAllKeepsUniqueIds(Reduce(state, actions[0]), actions[1..]);
    }
  }

  /** ADD of a fresh task followed by EDIT with the same id puts the edited task in the added one's place. */
  lemma AddThenEdit(state: seq<Task>, t: Task, t': Task)
    requires FreshId(state, t.id) && t'.id == t.id
    ensures ReduceAll(state, [AddTask(t), EditTask(t')]) == state + [t']
  {
    var added := Reduce(state, AddTask(t));
    var edited := Reduce(added, EditTask(t'));
    assert ReduceAll(state, [AddTask(t), EditTask(t')]) == ReduceAll(added, [EditTask(t')]);
    assert ReduceAll(added, [EditTask(t')]) == ReduceAll(edited, []);
    assert forall i :: 0 <= i < |state| ==> edited[i] == state[i];
  }

  // ---------------------------------------------------------------------------
  // The store

  /** The state `useReducer` keeps for the provider: the current list, changed only by `Dispatch`. */
  class TaskStore {
    var tasks: seq<Task>

    constructor (initial: seq<Task>)
      ensures tasks == initial
    {
      tasks := initial;
    }

    method Dispatch(action: Action)
      modifies this
      ensures tasks == Reduce(old(tasks), action)
    {
      tasks := Reduce(tasks, action);
    }
  }
}
