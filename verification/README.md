# To-do stores and their backend, modelled in Dafny

A model of a small to-do application. It has three sequential state machines, each written as pure transition functions:

- **The local store** (`LocalStore`, `local_store.dfy`) keeps an ordered sequence of named lists of tasks, the name of the current list and a date-filter string. Lookups by name return the first list with that name, and duplicate names are allowed. `load` and `save` move the three fields to and from one document. In the model that document is a record whose fields may be missing.
- **The remote store** (`RemoteStore`, `remote_store.dfy`) keeps a flat sequence of tasks mirrored from the server. Each action maps the current sequence and the outcome of its HTTP request (`Http.Outcome`: a network error, or a status code with an optional parsed body) to the next sequence. A failure changes nothing. `removeTask` acts only on status 204.
- **The backend** (`Backend`, `backend.dfy`) models the database table as a `map<Id, Todo>`. Each mutating endpoint returns the new map and its reply; `ListTodos` returns the rows. `create_todo` forces `done` to false. `update_todo` overwrites exactly the fields the payload sets. Both `update_todo` and `delete_todo` answer 404 for an unknown id.
- **`Sync`** (`sync.dfy`) connects the remote store to the backend. It defines `Mirrors`: the local sequence holds exactly the stored rows, once each. Fetching establishes it, and each action whose reply arrives preserves it.

`Seqs` (`seqs.dfy`) holds the array primitives the stores use: `findIndex`, `filter`, and a count by predicate. `Nullish` holds `Maybe`, a value that may be missing, and `Coalesce`, which models JavaScript's `??`.

The model follows what the code does:
- List names are not unique, because `addList` never checks.
- The date filter is any string, because `setDateFilter` never validates. This holds even though the comment at src/stores/useTodoStore.js:8 lists `'upcoming' | 'today' | 'past'`.
- `fetchTasks` also keeps its state when a 2xx body fails to parse, because the parse failure is caught at frontend/src/stores/useTodoStore.js:40.

The model also covers three backend edge cases:
- A PATCH that sets `name` or `done` to JSON null passes request validation but breaks a NOT NULL column. It is modelled as a 500 reply that leaves the table unchanged.
- A POST whose new id is already a key fails the insert the same way.
- `list_todos` is a method with a loop. It returns the rows in an order the model does not fix, as a database query does.

## Model

| member | source | states |
|---|---|---|
| Seqs.FirstIndex | frontend/src/stores/useTodoStore.js:94 | the index returned is the first element that satisfies the predicate; `Absent` exactly when no element does |
| Seqs.Filter | frontend/src/stores/useTodoStore.js:74 | keeps exactly the elements that satisfy the predicate and is no longer than its input |
| Seqs.FilterLength | frontend/src/stores/useTodoStore.js:26 | `filter(p).length` equals the element-by-element count of `p` |
| Seqs.FilterAppend | frontend/src/stores/useTodoStore.js:74 | filtering distributes over concatenation, so relative order is kept |
| Nullish.Coalesce | src/stores/useTodoStore.js:14-16 | JavaScript's `??`: the stored value when one is present, the fallback when the field is missing or null |
| LocalStore.FindList | src/stores/useTodoStore.js:32 | `lists.find(x => x.name === name)` as an index: the first list with that name, absent exactly when no list has it (the lookup behind lines 32, 37, 54 and 70) |
| Http.OkBody | frontend/src/stores/useTodoStore.js:37-39 | a body is used only when the request arrived, the status is 2xx and the body parsed |
| LocalStore.Load | src/stores/useTodoStore.js:10-18 | an absent document changes nothing; each missing field takes its default `[]`, `""` or `"upcoming"`; each present field is taken as stored |
| LocalStore.Save | src/stores/useTodoStore.js:19-28 | the saved document carries all three fields |
| LocalStore.LoadSave | src/stores/useTodoStore.js:10-28 | loading a saved document into any instance reproduces lists, current list and filter |
| LocalStore.LoadNothing | src/stores/useTodoStore.js:6-18 | with nothing stored a new store keeps `[]`, `""`, `"upcoming"` |
| LocalStore.PendingCount | src/stores/useTodoStore.js:31-34 | the number of not-done tasks in the first list with that name; 0 when no list has it |
| LocalStore.CurrentTasks | src/stores/useTodoStore.js:36-39 | the tasks of the first list named by the current list; empty when none matches |
| LocalStore.AddList | src/stores/useTodoStore.js:41-43 | exactly one empty list with that name is appended and earlier lists are unchanged |
| LocalStore.AddListLookup | src/stores/useTodoStore.js:41-43 | names that already resolved still resolve to the same list, since a duplicate is shadowed; an unresolved name now resolves only if it is the new one; current tasks never change |
| LocalStore.SelectList | src/stores/useTodoStore.js:45-47 | the current list becomes the given name, whether or not a list has it; nothing else changes |
| LocalStore.SetDateFilter | src/stores/useTodoStore.js:49-51 | the filter becomes the given string, unvalidated; nothing else changes |
| LocalStore.NewTask | src/stores/useTodoStore.js:59-66 | the new task has the given id, the input's fields and `done == false` |
| LocalStore.AddTask | src/stores/useTodoStore.js:53-67 | no change when the current list does not resolve; otherwise the new task is appended to the first matching list only, and names and all other lists are unchanged |
| LocalStore.AddTaskUnresolved | src/stores/useTodoStore.js:53-58 | with no list of the current name the state, and so the current tasks, stay as they were |
| LocalStore.AddTaskCounts | src/stores/useTodoStore.js:59-66 | the current list's pending count and its task sequence each grow by one, the new task last; counts under other names are unchanged |
| LocalStore.ToggleDone | src/stores/useTodoStore.js:69-73 | flips `done` on the first task with the id in the current list only; no change if the list or the task is missing |
| LocalStore.ToggleDoneCounts | src/stores/useTodoStore.js:69-73 | the current list's pending count moves by one in the direction of the flip; other names are unaffected |
| LocalStore.ToggleDoneTwice | src/stores/useTodoStore.js:69-73 | toggling the same id twice restores the whole state |
| LocalStore.StepWellFormed | src/stores/useTodoStore.js:41-73 | each action keeps task ids distinct within every list when a created task's id is unused |
| LocalStore.RunWellFormed | src/stores/useTodoStore.js:60 | task ids stay distinct within each list along any run whose generated ids are fresh |
| LocalStore.FirstSession | src/stores/useTodoStore.js:41-73 | add "Home", select it, add a task: one undone current task, pending count 1, and 0 after toggling it |
| Backend.Patch | backend/main.py:93-95 | exactly the fields the payload sets are overwritten and the id is kept; a null for a NOT NULL column is rejected |
| Backend.PatchNothing | backend/main.py:93-95 | an update that sets nothing leaves the row unchanged |
| Backend.PatchIdempotent | backend/main.py:93-95 | applying the same update twice equals applying it once |
| Backend.PatchDoneOnly | backend/main.py:93-95 | an update of `done` alone changes no other column |
| Backend.ListTodos | backend/main.py:74-76 | returns every stored row exactly once: as many rows as keys, each row stored, each stored row returned, ids distinct |
| Backend.CreateTodo | backend/main.py:79-85 | a fresh key gets the payload's fields with `done == false`; existing rows are untouched; the reply is 201 with the stored row |
| Backend.UpdateTodo | backend/main.py:88-98 | 404 and no change for an unknown id; otherwise only that row is patched and is returned with 200 |
| Backend.DeleteTodo | backend/main.py:101-108 | 404 and no change for an unknown id; otherwise exactly that key is removed, with a 204 and no body |
| Backend.EndpointsKeepKeyed | backend/main.py:79-108 | every endpoint keeps each row under its own primary key |
| RemoteStore.PendingCount | frontend/src/stores/useTodoStore.js:25-27 | the number of tasks with `done == false`; zero exactly when every task is done |
| RemoteStore.FetchTasks | frontend/src/stores/useTodoStore.js:35-43 | on a 2xx parsed reply the sequence is replaced by the body; on any failure it is unchanged |
| RemoteStore.AddTask | frontend/src/stores/useTodoStore.js:49-62 | on success the server's task is appended and nothing else changes; on failure nothing changes |
| RemoteStore.AddTaskPending | frontend/src/stores/useTodoStore.js:58 | a successful add raises the pending count by one exactly when the returned task is not done |
| RemoteStore.RemoveTask | frontend/src/stores/useTodoStore.js:68-78 | only status 204 removes the tasks with the id, all of them and nothing else; any other outcome changes nothing |
| RemoteStore.RemoveKeepsOrder | frontend/src/stores/useTodoStore.js:74 | removal keeps the relative order of the remaining tasks |
| RemoteStore.RemoveKeepsDistinct | frontend/src/stores/useTodoStore.js:74 | removal keeps task ids distinct |
| RemoteStore.UpdateTask | frontend/src/stores/useTodoStore.js:85-101 | length is kept; on success only the first task with the id is replaced by the body; no match or a failure changes nothing |
| RemoteStore.UpdatePending | frontend/src/stores/useTodoStore.js:94-97 | a reply that flips `done` on the matched task moves the pending count by one |
| RemoteStore.ToggleRequest | frontend/src/stores/useTodoStore.js:107-112 | no request when no task has the id; otherwise a PATCH setting only `done` to the negation of the first match's |
| RemoteStore.ToggleDone | frontend/src/stores/useTodoStore.js:107-112 | nothing changes when no task has the id; otherwise the effect is that of the update it starts |
| Sync.Fetch | frontend/src/stores/useTodoStore.js:35-43 | fetching from the backend leaves a local sequence that mirrors the table |
| Sync.AddMirrors | frontend/src/stores/useTodoStore.js:49-62 | add through POST keeps the mirror; a fresh id adds one pending task |
| Sync.UpdateMirrors | frontend/src/stores/useTodoStore.js:85-101 | update through PATCH keeps the mirror |
| Sync.ReplaceMirrors | frontend/src/stores/useTodoStore.js:96 | replacing a task on both sides by a row with the same id keeps the mirror |
| Sync.RemoveMirrors | frontend/src/stores/useTodoStore.js:68-78 | remove through DELETE keeps the mirror, and the id is gone from both sides |
| Sync.ToggleMirrors | frontend/src/stores/useTodoStore.js:107-112 | a toggle that goes through the backend flips `done` on the first matching task only, on both sides, and keeps the mirror |

## Left out

- Reactivity (`ref`, `computed`, the deep `watch` that saves after every change) is not modelled. Saving is the explicit function `Save`, meant to be applied after each action.
- `localStorage`, `JSON.parse` and `JSON.stringify` are not modelled. The stored document is a record whose fields are optional, and a malformed document (a fatal parse error in the source) is not modelled.
- JSON also drops `undefined` task fields. The record round-trip does not model that loss.
- `uuid()` and the backend's `uuid.uuid4` are not modelled. The id is a parameter. Freshness is assumed only by `RunWellFormed` and `StepWellFormed`, because the code itself never checks it.
- `due.toISOString()` is not modelled. `due` is an already-normalised string, so a missing `due` that would throw is not modelled. `priority` is an opaque string.
- `console.log` and `console.error` are left out. They are I/O with no effect on state.
- `fetch`, CORS, the fixed base URL, and the asynchrony of requests are left out. The remote store's `toggleDone` does not await its update, so overlapping requests can interleave. Each action is modelled as if its reply arrived before the next action starts.
- The request bodies of `addTask` and `updateTask` do not enter the remote store's transitions, because only the server reads them. `Sync` passes them to the backend model.
- SQLAlchemy sessions, commit and refresh, table creation at startup, the `/` greeting endpoint, and FastAPI's request validation are left out. In particular the 422 reply for a missing `name` or a malformed UUID is not modelled.
- `frontend/src/main.js` is application bootstrap only.
- Sync.UpdateMirrors: ids are compared as exact text, the canonical lower-case hyphenated form the backend serialises. The backend parses the path id as a UUID, so another spelling of a stored id (upper case, no hyphens, braces, `urn:uuid:`) reaches the same row and patches it. The store's `t.id === taskId` misses that spelling and drops the reply, so the local task goes stale. The mirror is promised only for canonical ids.
- Sync.RemoveMirrors: for the same reason, a DELETE with another spelling of a stored id removes the row and answers 204. The store's `t.id !== taskId` keeps the task, so the local list no longer mirrors the table. The mirror is promised only for canonical ids.
- Backend.CreateTodo: the backend parses `due` into a `datetime` and keeps it in a `DateTime` column without a timezone. The `due` it returns after `db.refresh` is its own re-serialisation, with the offset dropped (and, for JavaScript's `Date` text, the `Z` too). The model stores and returns the value exactly as sent.
- Backend.Patch: for the same reason, a `due` set by the payload is modelled as the value sent, not as the backend's timezone-less re-serialisation of it.
- Backend.UpdateTodo: for the same reason, the 200 reply's `due` is the value sent, where the backend returns the refreshed value without its offset.
- RemoteStore.FetchTasks: a 2xx body that parses but is not an array of tasks (`null`, or an object such as `{"detail": "x"}`) is stored by the source, and a later `pendingCount` would then throw. The typed model assumes the body has the shape the backend's response model guarantees. Only a body that fails to parse leaves the state unchanged.
- RemoteStore.AddTask: the same holds for the 2xx body that is appended. A parsed value that is not a task is pushed by the source; the model types it as a task.
- RemoteStore.UpdateTask: the same holds for the 2xx body written into the matched slot.
