/** The local-backed store: named task lists, the name of the current list and a
    date filter, persisted as one document. Every action is a pure transition
    from one `State` to the next; the id a new task receives is a parameter. */
module LocalStore {
  import opened Nullish
  import Seqs

  /** A task as the store keeps it. `due` is the already-normalised ISO-8601
      text and `priority` is carried without interpretation. */
  datatype Task = Task(id: string, name: string, description: string, due: string, priority: string, done: bool)

  /** What the presentation layer hands to `addTask`. */
  datatype TaskInput = TaskInput(name: string, description: string, due: string, priority: string)

  datatype TodoList = TodoList(name: string, tasks: seq<Task>)

  datatype State = State(lists: seq<TodoList>, currentList: string, filterByDate: string)

  /** The persisted document; a field is `Absent` when it is missing or null. */
  datatype Document = Document(lists: Maybe<seq<TodoList>>, currentList: Maybe<string>, filterByDate: Maybe<string>)

  const DefaultLists: seq<TodoList> := []
  const DefaultCurrentList: string := ""
  const DefaultFilter: string := "upcoming"

  /** The state of a freshly created store. */
  const Initial: State := State(DefaultLists, DefaultCurrentList, DefaultFilter)

  function Named(name: string): TodoList -> bool
  {
    (l: TodoList) => l.name == name
  }

  function HasId(id: string): Task -> bool
  {
    (t: Task) => t.id == id
  }

  function NotDone(t: Task): bool
  {
    !t.done
  }

  function TaskId(t: Task): string
  {
    t.id
  }

  /** `lists.find(x => x.name === name)`, as an index. */
  function FindList(lists: seq<TodoList>, name: string): (r: Maybe<nat>)
    ensures r.Present? ==> Seqs.IsFirst(lists, Named(name), r.value)
    ensures r.Absent? <==> Seqs.NoneSatisfy(lists, Named(name))
  {
    Seqs.FirstIndex(lists, Named(name))
  }

  // ---------------------------------------------------------------- persistence

  /** `load`: an absent document leaves the state alone; each missing field of a
      present document falls back to its default. */
  function Load(st: State, stored: Maybe<Document>): (r: State)
    ensures stored.Absent? ==> r == st
    ensures stored.Present? && stored.value.lists.Absent? ==> r.lists == DefaultLists
    ensures stored.Present? && stored.value.currentList.Absent? ==> r.currentList == DefaultCurrentList
    ensures stored.Present? && stored.value.filterByDate.Absent? ==> r.filterByDate == DefaultFilter
    ensures stored.Present? && stored.value.lists.Present? ==> r.lists == stored.value.lists.value
    ensures stored.Present? && stored.value.currentList.Present? ==> r.currentList == stored.value.currentList.value
    ensures stored.Present? && stored.value.filterByDate.Present? ==> r.filterByDate == stored.value.filterByDate.value
  {
    match stored
    case Absent => st
    case Present(d) =>
      State(Coalesce(d.lists, DefaultLists), Coalesce(d.currentList, DefaultCurrentList), Coalesce(d.filterByDate, DefaultFilter))
  }

  /** `save`: the whole state, every field present. */
  function Save(st: State): (d: Document)
    ensures d.lists.Present? && d.currentList.Present? && d.filterByDate.Present?
  {
    Document(Present(st.lists), Present(st.currentList), Present(st.filterByDate))
  }

  /** Saving and then loading into any instance reproduces all three fields. */
  lemma LoadSave(st: State, other: State)
    ensures Load(other, Present(Save(st))) == st
  {
  }

  /** With nothing stored, a new store keeps its defaults. */
  lemma LoadNothing()
    ensures Load(Initial, Absent) == State([], "", "upcoming")
  {
  }

  // ---------------------------------------------------------------- queries

  /** `pendingCount(name)`: the not-done tasks of the first list called `name`,
      0 when there is none. */
  function PendingCount(st: State, name: string): (r: nat)
    ensures Seqs.NoneSatisfy(st.lists, Named(name)) ==> r == 0
    ensures forall i :: Seqs.IsFirst(st.lists, Named(name), i) ==> r == Seqs.Count(st.lists[i].tasks, NotDone)
  {
    match FindList(st.lists, name)
    case Absent => 0
    case Present(i) =>
      Seqs.FilterLength(st.lists[i].tasks, NotDone);
      |Seqs.Filter(st.lists[i].tasks, NotDone)|
  }

  /** `currentTasks`: the tasks of the first list called `currentList`, empty
      when the name does not resolve. */
  function CurrentTasks(st: State): (r: seq<Task>)
    ensures Seqs.NoneSatisfy(st.lists, Named(st.currentList)) ==> r == []
    ensures forall i :: Seqs.IsFirst(st.lists, Named(st.currentList), i) ==> r == st.lists[i].tasks
  {
    match FindList(st.lists, st.currentList)
    case Absent => []
    case Present(i) => st.lists[i].tasks
  }

  // ---------------------------------------------------------------- actions

  /** `addList(name)`: one new empty list at the end, whether or not the name is taken. */
  function AddList(st: State, name: string): (r: State)
    ensures |r.lists| == |st.lists| + 1
    ensures r.lists[..|st.lists|] == st.lists
    ensures r.lists[|st.lists|] == TodoList(name, [])
    ensures r.currentList == st.currentList && r.filterByDate == st.filterByDate
  {
    st.(lists := st.lists + [TodoList(name, [])])
  }

  /** `selectList(name)`: no check that a list of that name exists. */
  function SelectList(st: State, name: string): (r: State)
    ensures r.currentList == name
    ensures r.lists == st.lists && r.filterByDate == st.filterByDate
  {
    st.(currentList := name)
  }

  /** `setDateFilter(f)`: no check that `f` is one of the recognised filters. */
  function SetDateFilter(st: State, f: string): (r: State)
    ensures r.filterByDate == f
    ensures r.lists == st.lists && r.currentList == st.currentList
  {
    st.(filterByDate := f)
  }

  /** The task `addTask` builds: the given fresh id, never done. */
  function NewTask(id: string, input: TaskInput): (t: Task)
    ensures t.id == id && !t.done
    ensures t.name == input.name && t.description == input.description
    ensures t.due == input.due && t.priority == input.priority
  {
    Task(id, input.name, input.description, input.due, input.priority, false)
  }

  /** `addTask`: no change when the current list does not resolve; otherwise the
      new task goes at the end of the first list of that name and nowhere else. */
  function AddTask(st: State, id: string, input: TaskInput): (r: State)
    ensures FindList(st.lists, st.currentList).Absent? ==> r == st
    ensures r.currentList == st.currentList && r.filterByDate == st.filterByDate
    ensures |r.lists| == |st.lists|
    ensures forall k :: 0 <= k < |st.lists| ==> r.lists[k].name == st.lists[k].name
    ensures FindList(st.lists, st.currentList).Present? ==>
      var i := FindList(st.lists, st.currentList).value;
      && r.lists[i].tasks == st.lists[i].tasks + [NewTask(id, input)]
      && forall k :: 0 <= k < |st.lists| && k != i ==> r.lists[k] == st.lists[k]
  {
    match FindList(st.lists, st.currentList)
    case Absent => st
    case Present(i) =>
      var l := st.lists[i];
      st.(lists := st.lists[i := l.(tasks := l.tasks + [NewTask(id, input)])])
  }

  /** `toggleDone(id)`: flips `done` on the first task with that id in the
      current list; no change when the list or the task does not resolve. */
  function ToggleDone(st: State, id: string): (r: State)
    ensures r.currentList == st.currentList && r.filterByDate == st.filterByDate
    ensures |r.lists| == |st.lists|
    ensures forall k :: 0 <= k < |st.lists| ==> r.lists[k].name == st.lists[k].name
    ensures forall k :: 0 <= k < |st.lists| ==> |r.lists[k].tasks| == |st.lists[k].tasks|
    ensures FindList(st.lists, st.currentList).Absent? ==> r == st
    ensures FindList(st.lists, st.currentList).Present? ==>
      var i := FindList(st.lists, st.currentList).value;
      && (forall k :: 0 <= k < |st.lists| && k != i ==> r.lists[k] == st.lists[k])
      && (Seqs.FirstIndex(st.lists[i].tasks, HasId(id)).Absent? ==> r == st)
      && (Seqs.FirstIndex(st.lists[i].tasks, HasId(id)).Present? ==>
            var j := Seqs.FirstIndex(st.lists[i].tasks, HasId(id)).value;
            && r.lists[i].tasks[j] == st.lists[i].tasks[j].(done := !st.lists[i].tasks[j].done)
            && forall m :: 0 <= m < |st.lists[i].tasks| && m != j ==> r.lists[i].tasks[m] == st.lists[i].tasks[m])
  {
    match FindList(st.lists, st.currentList)
    case Absent => st
    case Present(i) =>
      var l := st.lists[i];
      match Seqs.FirstIndex(l.tasks, HasId(id))
      case Absent => st
      case Present(j) =>
        var t := l.tasks[j];
        st.(lists := st.lists[i := l.(tasks := l.tasks[j := t.(done := !t.done)])])
  }

  // ---------------------------------------------------------------- lookups after an action

  /** Lists with the same names, position by position, resolve every name alike. */
  lemma SameNamesSameLookup(a: seq<TodoList>, b: seq<TodoList>, name: string)
    requires |a| == |b|
    requires forall k :: 0 <= k < |a| ==> a[k].name == b[k].name
    ensures FindList(a, name) == FindList(b, name)
  {
    Seqs.FirstIndexAgrees(a, b, Named(name));
  }

  /** After `addList(n)` every name that already resolved still resolves to the
      same list (a second list called `n` is shadowed by the first); a name that
      did not resolve resolves now only if it is `n`, to the new empty list. The
      current tasks never change. */
  lemma {:induction false} AddListLookup(st: State, n: string, m: string)
    ensures FindList(st.lists, m).Present? ==> FindList(AddList(st, n).lists, m) == FindList(st.lists, m)
    ensures FindList(st.lists, m).Present? ==> PendingCount(AddList(st, n), m) == PendingCount(st, m)
    ensures FindList(st.lists, m).Absent? ==> (FindList(AddList(st, n).lists, m).Present? <==> m == n)
    ensures FindList(st.lists, m).Absent? ==> PendingCount(AddList(st, n), m) == 0
    ensures CurrentTasks(AddList(st, n)) == CurrentTasks(st)
  {
    var r := AddList(st, n);
    forall name | FindList(st.lists, name).Present?
      ensures FindList(r.lists, name) == FindList(st.lists, name)
    {
      var i := FindList(st.lists, name).value;
      assert Seqs.IsFirst(r.lists, Named(name), i) by {
        assert r.lists[i] == st.lists[i];
        forall j | 0 <= j < i ensures !Named(name)(r.lists[j]) {
          assert r.lists[j] == st.lists[j];
        }
      }
      if FindList(r.lists, name).Present? {
        Seqs.FirstUnique(r.lists, Named(name), i, FindList(r.lists, name).value);
      }
    }
    forall name | FindList(st.lists, name).Absent?
      ensures FindList(r.lists, name).Present? <==> name == n
      ensures FindList(r.lists, name).Present? ==> r.lists[FindList(r.lists, name).value] == TodoList(n, [])
    {
      forall j | 0 <= j < |st.lists| ensures !Named(name)(r.lists[j]) {
        assert r.lists[j] == st.lists[j];
      }
      if name == n {
        assert Named(name)(r.lists[|st.lists|]);
      }
    }
  }

  /** After `addTask` the current list has one more pending task and one more
      task, the new one last; every other name counts as before. */
  lemma {:induction false} AddTaskCounts(st: State, id: string, input: TaskInput, m: string)
    requires FindList(st.lists, st.currentList).Present?
    ensures PendingCount(AddTask(st, id, input), st.currentList) == PendingCount(st, st.currentList) + 1
    ensures CurrentTasks(AddTask(st, id, input)) == CurrentTasks(st) + [NewTask(id, input)]
    ensures m != st.currentList ==> PendingCount(AddTask(st, id, input), m) == PendingCount(st, m)
  {
    var r := AddTask(st, id, input);
    var i := FindList(st.lists, st.currentList).value;
    SameNamesSameLookup(r.lists, st.lists, st.currentList);
    SameNamesSameLookup(r.lists, st.lists, m);
    Seqs.CountAppend(st.lists[i].tasks, [NewTask(id, input)], NotDone);
    if m != st.currentList && FindList(st.lists, m).Present? {
      assert FindList(st.lists, m).value != i;
    }
  }

  /** A missing current list makes `addTask` change nothing observable. */
  lemma AddTaskUnresolved(st: State, id: string, input: TaskInput)
    requires Seqs.NoneSatisfy(st.lists, Named(st.currentList))
    ensures AddTask(st, id, input) == st
    ensures CurrentTasks(AddTask(st, id, input)) == []
  {
  }

  /** `toggleDone` moves the toggled task between pending and done: the
      current list's pending count goes down by one when the task was pending
      and up by one when it was done; other names count as before. */
  lemma {:induction false} ToggleDoneCounts(st: State, id: string, m: string)
    requires FindList(st.lists, st.currentList).Present?
    requires Seqs.FirstIndex(CurrentTasks(st), HasId(id)).Present?
    ensures var t := CurrentTasks(st)[Seqs.FirstIndex(CurrentTasks(st), HasId(id)).value];
      if t.done then PendingCount(ToggleDone(st, id), st.currentList) == PendingCount(st, st.currentList) + 1
      else PendingCount(ToggleDone(st, id), st.currentList) + 1 == PendingCount(st, st.currentList)
    ensures m != st.currentList ==> PendingCount(ToggleDone(st, id), m) == PendingCount(st, m)
  {
    var r := ToggleDone(st, id);
    var i := FindList(st.lists, st.currentList).value;
    var tasks := st.lists[i].tasks;
    var j := Seqs.FirstIndex(tasks, HasId(id)).value;
    var t := tasks[j];
    SameNamesSameLookup(r.lists, st.lists, st.currentList);
    SameNamesSameLookup(r.lists, st.lists, m);
    assert r.lists[i].tasks == tasks[j := t.(done := !t.done)];
    Seqs.CountUpdate(tasks, j, t.(done := !t.done), NotDone);
    if m != st.currentList && FindList(st.lists, m).Present? {
      assert FindList(st.lists, m).value != i;
    }
  }

  /** Toggling the same id twice restores the whole state. */
  lemma {:induction false} ToggleDoneTwice(st: State, id: string)
    ensures ToggleDone(ToggleDone(st, id), id) == st
  {
    var r := ToggleDone(st, id);
    if FindList(st.lists, st.currentList).Present? {
      var i := FindList(st.lists, st.currentList).value;
      SameNamesSameLookup(r.lists, st.lists, st.currentList);
      var tasks := st.lists[i].tasks;
      if Seqs.FirstIndex(tasks, HasId(id)).Present? {
        var j := Seqs.FirstIndex(tasks, HasId(id)).value;
        var t := tasks[j];
        var tasks' := tasks[j := t.(done := !t.done)];
        assert r.lists[i].tasks == tasks';
        Seqs.FirstIndexAgrees(tasks', tasks, HasId(id));
        assert tasks'[j := tasks'[j].(done := !tasks'[j].done)] == tasks;
        assert r.lists[i := r.lists[i].(tasks := tasks)] == st.lists;
      }
    }
  }

  // ---------------------------------------------------------------- runs of actions

  /** Every list keeps its task ids distinct. */
  predicate WellFormed(st: State)
  {
    forall k :: 0 <= k < |st.lists| ==> Seqs.DistinctBy(st.lists[k].tasks, TaskId)
  }

  /** No task of any list has this id (what a fresh uuid guarantees). */
  predicate IdUnused(st: State, id: string)
  {
    forall k, j :: 0 <= k < |st.lists| && 0 <= j < |st.lists[k].tasks| ==> st.lists[k].tasks[j].id != id
  }

  /** A call into the store's exported actions. */
  datatype Action =
    | CreateList(name: string)
    | ChooseList(name: string)
    | ChooseFilter(filter: string)
    | CreateTask(id: string, input: TaskInput)
    | Toggle(id: string)

  function Step(st: State, a: Action): State
  {
    match a
    case CreateList(n) => AddList(st, n)
    case ChooseList(n) => SelectList(st, n)
    case ChooseFilter(f) => SetDateFilter(st, f)
    case CreateTask(id, input) => AddTask(st, id, input)
    case Toggle(id) => ToggleDone(st, id)
  }

  function Run(st: State, acts: seq<Action>): State
    decreases |acts|
  {
    if |acts| == 0 then st else Run(Step(st, acts[0]), acts[1..])
  }

  /** Every task created along the run gets an id no task has at that moment. */
  predicate FreshIds(st: State, acts: seq<Action>)
    decreases |acts|
  {
    |acts| == 0 ||
    ((acts[0].CreateTask? ==> IdUnused(st, acts[0].id)) && FreshIds(Step(st, acts[0]), acts[1..]))
  }

  lemma {:induction false} StepWellFormed(st: State, a: Action)
    requires WellFormed(st)
    requires a.CreateTask? ==> IdUnused(st, a.id)
    ensures WellFormed(Step(st, a))
  {
    var r := Step(st, a);
    match a
    case CreateList(n) =>
      assert r.lists == st.lists + [TodoList(n, [])];
      forall k | 0 <= k < |r.lists| ensures Seqs.DistinctBy(r.lists[k].tasks, TaskId) {
        if k < |st.lists| {
          assert r.lists[k] == st.lists[k];
        }
      }
    case ChooseList(_) =>
    case ChooseFilter(_) =>
    case CreateTask(id, input) =>
      if FindList(st.lists, st.currentList).Present? {
        var i := FindList(st.lists, st.currentList).value;
        var tasks := st.lists[i].tasks;
        var tasks' := tasks + [NewTask(id, input)];
        assert r.lists[i].tasks == tasks';
        assert Seqs.DistinctBy(tasks', TaskId) by {
          forall x, y | 0 <= x < y < |tasks'| ensures TaskId(tasks'[x]) != TaskId(tasks'[y]) {
            if y == |tasks| {
              assert tasks'[x] == tasks[x];
            } else {
              assert tasks'[x] == tasks[x] && tasks'[y] == tasks[y];
            }
          }
        }
      }
    case Toggle(id) =>
      if FindList(st.lists, st.currentList).Present? {
        var i := FindList(st.lists, st.currentList).value;
        var tasks := st.lists[i].tasks;
        assert Seqs.DistinctBy(r.lists[i].tasks, TaskId) by {
          forall x, y | 0 <= x < y < |tasks| ensures TaskId(r.lists[i].tasks[x]) != TaskId(r.lists[i].tasks[y]) {
            assert TaskId(r.lists[i].tasks[x]) == TaskId(tasks[x]);
            assert TaskId(r.lists[i].tasks[y]) == TaskId(tasks[y]);
          }
        }
      }
  }

  /** Task ids stay distinct within each list along any run whose new ids are fresh. */
  lemma {:induction false} RunWellFormed(st: State, acts: seq<Action>)
    requires WellFormed(st)
    requires FreshIds(st, acts)
    ensures WellFormed(Run(st, acts))
    decreases |acts|
  {
    if |acts| > 0 {
      StepWellFormed(st, acts[0]);
      RunWellFormed(Step(st, acts[0]), acts[1..]);
    }
  }

  /** The walk-through of a first session: one list, one task, one toggle. */
  lemma FirstSession(id: string, input: TaskInput)
    ensures var s1 := SelectList(AddList(Initial, "Home"), "Home");
      var s2 := AddTask(s1, id, input);
      && |CurrentTasks(s2)| == 1
      && !CurrentTasks(s2)[0].done
      && PendingCount(s2, "Home") == 1
      && PendingCount(ToggleDone(s2, id), "Home") == 0
  {
    var s1 := SelectList(AddList(Initial, "Home"), "Home");
    assert Seqs.IsFirst(s1.lists, Named("Home"), 0);
    var s2 := AddTask(s1, id, input);
    assert Seqs.IsFirst(s2.lists, Named("Home"), 0);
    assert Seqs.IsFirst(s2.lists[0].tasks, HasId(id), 0);
    var s3 := ToggleDone(s2, id);
    assert Seqs.IsFirst(s3.lists, Named("Home"), 0);
  }
}
