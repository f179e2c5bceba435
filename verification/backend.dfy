/** The backend's keyed collection of todos and its four CRUD endpoints. The
    database table is a map from id to row; each endpoint returns the new map
    together with the reply it sends. */
module Backend {
  import opened Nullish
  import opened Http

  /** A UUID in the canonical lower-case hyphenated text the backend
      serialises, compared as text. The backend itself parses a path id as a
      UUID, so other spellings of the same UUID also reach a row; the model
      does not represent them. */
  type Id = string

  /** A row of the `todos` table. `name` and `done` are NOT NULL columns.
      `due` is an opaque timestamp value, kept exactly as the client sent it. */
  datatype Todo = Todo(id: Id, name: string, description: Maybe<string>, due: Maybe<string>, priority: Maybe<string>, done: bool)

  /** The body of POST /todos. */
  datatype TodoCreate = TodoCreate(name: string, description: Maybe<string>, due: Maybe<string>, priority: Maybe<string>)

  /** A field of a PATCH body: left out, or given (possibly as JSON null). */
  datatype Field<T> = Unset | Given(value: Maybe<T>)

  /** The body of PATCH /todos/{id}. */
  datatype TodoUpdate = TodoUpdate(name: Field<string>, description: Field<string>, due: Field<string>, priority: Field<string>, done: Field<bool>)

  type Db = map<Id, Todo>

  /** Every row is stored under its own primary key. */
  predicate Keyed(db: Db)
  {
    forall k :: k in db ==> db[k].id == k
  }

  /** The update that only sets `done`. */
  function DoneOnly(done: bool): TodoUpdate
  {
    TodoUpdate(Unset, Unset, Unset, Unset, Given(Present(done)))
  }

  function Overwrite<T>(f: Field<T>, current: Maybe<T>): Maybe<T>
  {
    if f.Given? then f.value else current
  }

  /** The `setattr` loop over the fields the payload sets. `Absent` when it would
      put null into a NOT NULL column, which the commit rejects. */
  function Patch(t: Todo, u: TodoUpdate): (r: Maybe<Todo>)
    ensures r.Absent? <==> u.name == Given(Absent) || u.done == Given(Absent)
    ensures r.Present? ==> r.value.id == t.id
    ensures r.Present? ==> Present(r.value.name) == Overwrite(u.name, Present(t.name))
    ensures r.Present? ==> r.value.description == Overwrite(u.description, t.description)
    ensures r.Present? ==> r.value.due == Overwrite(u.due, t.due)
    ensures r.Present? ==> r.value.priority == Overwrite(u.priority, t.priority)
    ensures r.Present? ==> Present(r.value.done) == Overwrite(u.done, Present(t.done))
  {
    match (Overwrite(u.name, Present(t.name)), Overwrite(u.done, Present(t.done)))
    case (Present(name), Present(done)) =>
      Present(Todo(t.id, name, Overwrite(u.description, t.description), Overwrite(u.due, t.due),
                Overwrite(u.priority, t.priority), done))
    case _ => Absent
  }

  /** GET /todos: every stored row exactly once, in the order the query
      happens to return them. */
  method ListTodos(db: Db) returns (rows: seq<Todo>)
    ensures |rows| == |db|
    ensures forall i :: 0 <= i < |rows| ==> rows[i] in db.Values
    ensures forall k :: k in db ==> db[k] in rows
    ensures Keyed(db) ==> forall a, b :: 0 <= a < b < |rows| ==> rows[a].id != rows[b].id
  {
    rows := [];
    var pending := db.Keys;
    ghost var keys: seq<Id> := [];
    while pending != {}
      invariant pending <= db.Keys
      invariant |keys| == |rows|
      invariant forall i :: 0 <= i < |keys| ==> keys[i] in db && keys[i] !in pending && rows[i] == db[keys[i]]
      invariant forall a, b :: 0 <= a < b < |keys| ==> keys[a] != keys[b]
      invariant forall k :: k in db && k !in pending ==> k in keys
      invariant |rows| + |pending| == |db|
      decreases pending
    {
      var k :| k in pending;
      rows := rows + [db[k]];
      keys := keys + [k];
      pending := pending - {k};
    }
    forall k | k in db ensures db[k] in rows {
      var i :| 0 <= i < |keys| && keys[i] == k;
      assert rows[i] == db[k];
    }
  }

  /** POST /todos: a new row under `newId` with `done` false whatever the
      payload; a key already in use makes the insert fail. */
  function CreateTodo(db: Db, newId: Id, payload: TodoCreate): (r: (Db, Reply<Todo>))
    ensures newId in db ==> r.0 == db && r.1.status == StatusServerError
    ensures newId !in db ==> r.0.Keys == db.Keys + {newId}
    ensures newId !in db ==> forall k :: k in db ==> r.0[k] == db[k]
    ensures newId !in db ==> r.0[newId] == Todo(newId, payload.name, payload.description, payload.due, payload.priority, false)
    ensures newId !in db ==> r.1 == Reply(StatusCreated, Present(r.0[newId]))
  {
    if newId in db then (db, Reply(StatusServerError, Absent))
    else
      var todo := Todo(newId, payload.name, payload.description, payload.due, payload.priority, false);
      (db[newId := todo], Reply(StatusCreated, Present(todo)))
  }

  /** PATCH /todos/{id}: 404 for an unknown id; otherwise exactly the fields
      the payload sets are overwritten and the updated row is returned. */
  function UpdateTodo(db: Db, id: Id, payload: TodoUpdate): (r: (Db, Reply<Todo>))
    ensures id !in db ==> r.0 == db && r.1 == Reply(StatusNotFound, Absent)
    ensures id in db && Patch(db[id], payload).Absent? ==> r.0 == db && r.1.status == StatusServerError
    ensures r.0.Keys == db.Keys
    ensures forall k :: k in db && k != id ==> r.0[k] == db[k]
    ensures id in db && Patch(db[id], payload).Present? ==>
      r.0[id] == Patch(db[id], payload).value && r.1 == Reply(StatusOk, Present(r.0[id]))
  {
    if id !in db then (db, Reply(StatusNotFound, Absent))
    else match Patch(db[id], payload)
      case Absent => (db, Reply(StatusServerError, Absent))
      case Present(t) => (db[id := t], Reply(StatusOk, Present(t)))
  }

  /** DELETE /todos/{id}: 404 for an unknown id; otherwise that key, and only
      that key, is gone, and the reply is 204 with no body. */
  function DeleteTodo(db: Db, id: Id): (r: (Db, Reply<Todo>))
    ensures id !in db ==> r.0 == db && r.1 == Reply(StatusNotFound, Absent)
    ensures id in db ==> r.0.Keys == db.Keys - {id} && r.1 == Reply(StatusNoContent, Absent)
    ensures forall k :: k in r.0 ==> r.0[k] == db[k]
  {
    if id !in db then (db, Reply(StatusNotFound, Absent))
    else (db - {id}, Reply(StatusNoContent, Absent))
  }

  /** An update that sets nothing leaves the row as it is. */
  lemma PatchNothing(t: Todo)
    ensures Patch(t, TodoUpdate(Unset, Unset, Unset, Unset, Unset)) == Present(t)
  {
  }

  /** Applying the same update twice is applying it once. */
  lemma PatchIdempotent(t: Todo, u: TodoUpdate)
    requires Patch(t, u).Present?
    ensures Patch(Patch(t, u).value, u) == Patch(t, u)
  {
  }

  /** Setting only `done` changes no other column. */
  lemma PatchDoneOnly(t: Todo, done: bool)
    ensures Patch(t, DoneOnly(done)) == Present(t.(done := done))
  {
  }

  /** Every endpoint keeps each row under its own key. */
  lemma EndpointsKeepKeyed(db: Db, newId: Id, payload: TodoCreate, id: Id, u: TodoUpdate)
    requires Keyed(db)
    ensures Keyed(CreateTodo(db, newId, payload).0)
    ensures Keyed(UpdateTodo(db, id, u).0)
    ensures Keyed(DeleteTodo(db, id).0)
  {
  }
}
