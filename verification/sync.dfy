/** The remote store talking to the backend. `Mirrors` says the local sequence
    holds exactly the stored rows, once each; fetching establishes it and every
    action whose reply arrives keeps it. */
module Sync {
  import opened Nullish
  import opened Http
  import Seqs
  import opened Backend
  import RemoteStore

  predicate Mirrors(local: seq<Todo>, db: Db)
  {
    && Keyed(db)
    && Seqs.DistinctBy(local, RemoteStore.TodoId)
    && (forall i :: 0 <= i < |local| ==> local[i].id in db && db[local[i].id] == local[i])
    && (forall k :: k in db ==> exists i :: 0 <= i < |local| && local[i].id == k)
  }

  /** `fetchTasks` answered by GET /todos leaves a mirror of the table. */
  method Fetch(local: seq<Todo>, db: Db) returns (r: seq<Todo>)
    requires Keyed(db)
    ensures Mirrors(r, db)
    ensures |r| == |db|
  {
    var rows := ListTodos(db);
    r := RemoteStore.FetchTasks(local, Received(Reply(StatusOk, Present(rows))));
    forall k | k in db ensures exists i :: 0 <= i < |r| && r[i].id == k {
      var i :| 0 <= i < |r| && r[i] == db[k];
    }
  }

  /** `addTask` answered by POST /todos keeps the mirror; a fresh id adds one
      pending task on both sides. */
  lemma AddMirrors(local: seq<Todo>, db: Db, newId: Id, payload: TodoCreate)
    requires Mirrors(local, db)
    ensures var (db', reply) := CreateTodo(db, newId, payload);
      Mirrors(RemoteStore.AddTask(local, Received(reply)), db')
    ensures newId !in db ==>
      var (db', reply) := CreateTodo(db, newId, payload);
      RemoteStore.PendingCount(RemoteStore.AddTask(local, Received(reply))) == RemoteStore.PendingCount(local) + 1
  {
    var (db', reply) := CreateTodo(db, newId, payload);
    var r := RemoteStore.AddTask(local, Received(reply));
    if newId !in db {
      var t := db'[newId];
      assert r == local + [t];
      forall a, b | 0 <= a < b < |r| ensures r[a].id != r[b].id {
        if b == |local| {
          assert r[a] == local[a];
        } else {
          assert r[a] == local[a] && r[b] == local[b];
        }
      }
      forall k | k in db' ensures exists i :: 0 <= i < |r| && r[i].id == k {
        if k == newId {
          assert r[|local|].id == k;
        } else {
          var i :| 0 <= i < |local| && local[i].id == k;
          assert r[i] == local[i];
        }
      }
      forall i | 0 <= i < |r| ensures r[i].id in db' && db'[r[i].id] == r[i] {
        if i < |local| {
          assert r[i] == local[i];
        }
      }
      RemoteStore.AddTaskPending(local, Received(reply));
    }
  }

  /** `updateTask` answered by PATCH /todos/{id} keeps the mirror. */
  lemma UpdateMirrors(local: seq<Todo>, db: Db, id: Id, u: TodoUpdate)
    requires Mirrors(local, db)
    ensures var (db', reply) := UpdateTodo(db, id, u);
      Mirrors(RemoteStore.UpdateTask(local, id, Received(reply)), db')
  {
    var (db', reply) := UpdateTodo(db, id, u);
    var r := RemoteStore.UpdateTask(local, id, Received(reply));
    if id in db && Patch(db[id], u).Present? {
      var t := db'[id];
      assert t.id == id;
      var i := Seqs.FirstIndex(local, RemoteStore.HasId(id)).value;
      assert r == local[i := t];
      ReplaceMirrors(local, db, i, t);
    }
  }

  /** Replacing the row under an id on both sides, with a row of the same id,
      keeps the mirror. */
  lemma ReplaceMirrors(local: seq<Todo>, db: Db, i: nat, t: Todo)
    requires Mirrors(local, db)
    requires i < |local| && t.id == local[i].id
    ensures Mirrors(local[i := t], db[t.id := t])
  {
    var r, db' := local[i := t], db[t.id := t];
    forall k | k in db' ensures exists m :: 0 <= m < |r| && r[m].id == k {
      var m :| 0 <= m < |local| && local[m].id == k;
      assert r[m].id == k;
    }
    forall a, b | 0 <= a < b < |r| ensures RemoteStore.TodoId(r[a]) != RemoteStore.TodoId(r[b]) {
      assert r[a].id == local[a].id && r[b].id == local[b].id;
    }
    forall m | 0 <= m < |r| ensures r[m].id in db' && db'[r[m].id] == r[m] {
      if m != i {
        assert r[m] == local[m];
        assert local[m].id != t.id by {
          assert RemoteStore.TodoId(local[m]) != RemoteStore.TodoId(local[i]);
        }
      }
    }
  }

  /** `removeTask` answered by DELETE /todos/{id} keeps the mirror, and
      neither side has the id afterwards. */
  lemma RemoveMirrors(local: seq<Todo>, db: Db, id: Id)
    requires Mirrors(local, db)
    ensures var (db', reply) := DeleteTodo(db, id);
      var r := RemoteStore.RemoveTask(local, id, Received(reply));
      Mirrors(r, db') && id !in db' && forall i :: 0 <= i < |r| ==> r[i].id != id
  {
    var (db', reply) := DeleteTodo(db, id);
    var r := RemoteStore.RemoveTask(local, id, Received(reply));
    if id in db {
      RemoteStore.RemoveKeepsDistinct(local, id, Received(reply));
      forall k | k in db' ensures exists m :: 0 <= m < |r| && r[m].id == k {
        var m :| 0 <= m < |local| && local[m].id == k;
        assert local[m] in r;
        var n :| 0 <= n < |r| && r[n] == local[m];
      }
    } else {
      forall i | 0 <= i < |r| ensures r[i].id != id {
        assert r[i].id in db;
      }
    }
  }

  /** `toggleDone` answered by the backend flips `done` on the first task with
      that id, changes nothing else on either side, and keeps the mirror. */
  lemma ToggleMirrors(local: seq<Todo>, db: Db, id: Id, i: nat)
    requires Mirrors(local, db)
    requires Seqs.IsFirst(local, RemoteStore.HasId(id), i)
    ensures var (db', reply) := UpdateTodo(db, id, RemoteStore.ToggleRequest(local, id).value);
      var r := RemoteStore.ToggleDone(local, id, Received(reply));
      && r == local[i := local[i].(done := !local[i].done)]
      && db' == db[id := local[i].(done := !local[i].done)]
      && Mirrors(r, db')
  {
    var u := RemoteStore.ToggleRequest(local, id).value;
    assert u == DoneOnly(!local[i].done);
    PatchDoneOnly(db[id], !local[i].done);
    UpdateMirrors(local, db, id, u);
  }
}
