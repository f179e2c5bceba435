/** The remote-backed store: a flat sequence of tasks mirrored from the backend.
    Each action is a transition from the current sequence and the outcome of
    its request to the next sequence; a failed request changes nothing. */
module RemoteStore {
  import opened Nullish
  import opened Http
  import Seqs
  import opened Backend

  function HasId(id: Id): Todo -> bool
  {
    (t: Todo) => t.id == id
  }

  function LacksId(id: Id): Todo -> bool
  {
    (t: Todo) => t.id != id
  }

  function NotDone(t: Todo): bool
  {
    !t.done
  }

  function TodoId(t: Todo): Id
  {
    t.id
  }

  /** `pendingCount`: the tasks not marked done. */
  function PendingCount(tasks: seq<Todo>): (r: nat)
    ensures r == Seqs.Count(tasks, NotDone)
    ensures r == 0 <==> forall i :: 0 <= i < |tasks| ==> tasks[i].done
  {
    Seqs.FilterLength(tasks, NotDone);
    |Seqs.Filter(tasks, NotDone)|
  }

  /** `fetchTasks`: the whole sequence becomes the body of a 2xx reply; any
      failure keeps it. */
  function FetchTasks(tasks: seq<Todo>, out: Outcome<seq<Todo>>): (r: seq<Todo>)
    ensures OkBody(out).Present? ==> r == out.reply.body.value
    ensures OkBody(out).Absent? ==> r == tasks
  {
    Coalesce(OkBody(out), tasks)
  }

  /** `addTask`: the created task as the server returned it goes at the end. */
  function AddTask(tasks: seq<Todo>, out: Outcome<Todo>): (r: seq<Todo>)
    ensures OkBody(out).Absent? ==> r == tasks
    ensures OkBody(out).Present? ==> |r| == |tasks| + 1 && r[..|tasks|] == tasks && r[|tasks|] == out.reply.body.value
  {
    match OkBody(out)
    case Absent => tasks
    case Present(t) => tasks + [t]
  }

  /** `removeTask`: only a 204 reply drops the tasks with that id (all of them);
      anything else, including a transport failure, keeps the sequence. */
  function RemoveTask<B>(tasks: seq<Todo>, id: Id, out: Outcome<B>): (r: seq<Todo>)
    ensures !(out.Received? && out.reply.status == StatusNoContent) ==> r == tasks
    ensures out.Received? && out.reply.status == StatusNoContent ==>
      && (forall i :: 0 <= i < |r| ==> r[i].id != id && r[i] in tasks)
      && (forall i :: 0 <= i < |tasks| && tasks[i].id != id ==> tasks[i] in r)
      && |r| + Seqs.Count(tasks, HasId(id)) == |tasks|
  {
    if out.Received? && out.reply.status == StatusNoContent then
      Seqs.FilterLength(tasks, LacksId(id));
      Seqs.CountComplement(tasks, HasId(id), LacksId(id));
      Seqs.Filter(tasks, LacksId(id))
    else tasks
  }

  /** `updateTask`: the body of a 2xx reply takes the place of the first task
      with that id; no match or a failure keeps the sequence. */
  function UpdateTask(tasks: seq<Todo>, id: Id, out: Outcome<Todo>): (r: seq<Todo>)
    ensures |r| == |tasks|
    ensures OkBody(out).Absent? ==> r == tasks
    ensures Seqs.NoneSatisfy(tasks, HasId(id)) ==> r == tasks
    ensures forall i :: Seqs.IsFirst(tasks, HasId(id), i) && OkBody(out).Present? ==>
      r[i] == out.reply.body.value && forall j :: 0 <= j < |tasks| && j != i ==> r[j] == tasks[j]
  {
    match OkBody(out)
    case Absent => tasks
    case Present(t) =>
      match Seqs.FirstIndex(tasks, HasId(id))
      case Absent => tasks
      case Present(i) => tasks[i := t]
  }

  /** The request `toggleDone` issues: nothing when no task has the id,
      otherwise a PATCH setting `done` to the negation of the first match's. */
  function ToggleRequest(tasks: seq<Todo>, id: Id): (u: Maybe<TodoUpdate>)
    ensures u.Absent? <==> Seqs.NoneSatisfy(tasks, HasId(id))
    ensures forall i :: Seqs.IsFirst(tasks, HasId(id), i) ==> u == Present(DoneOnly(!tasks[i].done))
  {
    match Seqs.FirstIndex(tasks, HasId(id))
    case Absent => Absent
    case Present(i) => Present(DoneOnly(!tasks[i].done))
  }

  /** `toggleDone` followed by the update it starts, given that update's outcome. */
  function ToggleDone(tasks: seq<Todo>, id: Id, out: Outcome<Todo>): (r: seq<Todo>)
    ensures Seqs.NoneSatisfy(tasks, HasId(id)) ==> r == tasks
    ensures !Seqs.NoneSatisfy(tasks, HasId(id)) ==> r == UpdateTask(tasks, id, out)
  {
    if ToggleRequest(tasks, id).Absent? then tasks else UpdateTask(tasks, id, out)
  }

  /** Removal keeps the relative order of the tasks it keeps. */
  lemma RemoveKeepsOrder<B>(a: seq<Todo>, b: seq<Todo>, id: Id, out: Outcome<B>)
    requires out.Received? && out.reply.status == StatusNoContent
    ensures RemoveTask(a + b, id, out) == RemoveTask(a, id, out) + RemoveTask(b, id, out)
  {
    Seqs.FilterAppend(a, b, LacksId(id));
  }

  /** A successful add raises the pending count exactly when the server
      returns an undone task. */
  lemma AddTaskPending(tasks: seq<Todo>, out: Outcome<Todo>)
    requires OkBody(out).Present?
    ensures PendingCount(AddTask(tasks, out)) == PendingCount(tasks) + (if out.reply.body.value.done then 0 else 1)
  {
    Seqs.CountAppend(tasks, [out.reply.body.value], NotDone);
  }

  /** An update reply that is the old task with `done` flipped moves the
      pending count by one. */
  lemma UpdatePending(tasks: seq<Todo>, id: Id, out: Outcome<Todo>, i: nat)
    requires Seqs.IsFirst(tasks, HasId(id), i)
    requires OkBody(out) == Present(tasks[i].(done := !tasks[i].done))
    ensures tasks[i].done ==> PendingCount(UpdateTask(tasks, id, out)) == PendingCount(tasks) + 1
    ensures !tasks[i].done ==> PendingCount(UpdateTask(tasks, id, out)) + 1 == PendingCount(tasks)
  {
    assert UpdateTask(tasks, id, out) == tasks[i := tasks[i].(done := !tasks[i].done)];
    Seqs.CountUpdate(tasks, i, tasks[i].(done := !tasks[i].done), NotDone);
  }

  /** Removal keeps task ids distinct. */
  lemma RemoveKeepsDistinct<B>(tasks: seq<Todo>, id: Id, out: Outcome<B>)
    requires Seqs.DistinctBy(tasks, TodoId)
    ensures Seqs.DistinctBy(RemoveTask(tasks, id, out), TodoId)
  {
    Seqs.FilterDistinct(tasks, LacksId(id), TodoId);
  }
}
