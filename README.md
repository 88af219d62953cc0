# FastAPI to-do server: the saved list and its endpoints

This project models the server side of a small FastAPI to-do application (`main.py`).
The server keeps a list of to-do records in a JSON file. Each record has an `id`, a `title`, a
`description` and a `completed` flag. Five endpoints read or rewrite that list:

- `GET /todos` returns the list.
- `POST /todos` appends a record.
- `PUT /todos/{id}` merges the fields a request set into the first record with that id, or
  answers 404.
- `DELETE /todos/{id}` drops every record with that id, or answers 404 when none had it.
- `POST /todos/reorder` rebuilds the list in the order of a requested id list, or answers 400
  when the rebuilt list is not as long as the saved one.

Module `Todos` (`todos.dfy`) holds the records and request bodies as datatypes and the list
computations as functions: the partial update (`Patch`), the delete filter (`Without`), the
id-to-record dictionary (`IdMap`) and the rebuild (`Rebuild`, `Reordered`). It also holds
`FindFirst`, the linear search for the record to update, as a method with a loop. Module `Store`
(`store.dfy`) holds class `TodoStore`. Its field `todos` stands for the file: loading reads the
field and saving assigns it. Each endpoint is a method that assigns the field only on success
and returns either the 200 body or the error status with its detail text. Small client methods
at the end of `store.dfy` replay the scenarios of `fastapi-app/tests/test_main.py`: the empty
list and one create (lines 40-58), the partial update (66-78), the unknown id for update and
delete (80-84, 104-107), the delete (86-102) and both reorder tests (109-147). The 422 test
(60-64) exercises framework validation and is not replayed.

Two behaviours of the code are stated rather than hidden:

- Nothing keeps ids unique. `CreateTodo` appends a record whatever its id.
  `CreateKeepsDistinctIds` says exactly when the ids stay distinct.
- The reorder endpoint checks only the length of the rebuilt list. Requested ids the store does
  not know are skipped (`ReorderIds`). A repeated requested id can make up for a missing one:
  against records 1 and 2, the request `[1, 1]` passes and saves record 1 twice
  (`ReorderDuplicateIdLosesItem`). Whenever the request repeats no id, a passing request yields
  a permutation of the saved list (`ReorderPermutation`); such a request can pass only if the
  saved ids have no repeats either (`ReorderPassingMeansDistinctSaved`).

The browser script also sends a `schedule` field in update requests. The server's record has
no such field, and pydantic drops fields a model does not declare, so the model has no
`schedule` either.

## Model

| member | source | states |
|---|---|---|
| `Store.TodoStore.constructor` | main.py:29-35 | the store starts from the list that loading the file returned |
| `Store.TodoStore.GetTodos` | main.py:43-45 | the answer is the saved list, in saved order |
| `Store.TodoStore.CreateTodo` | main.py:48-53 | the new list is the old list with the request's record appended; earlier records are unchanged, the length grows by one, and the record is echoed back |
| `Todos.CreateKeepsDistinctIds` | main.py:48-53 | after an append the ids are pairwise distinct exactly when they were before and the new id was not among them; the endpoint does not check this |
| `Todos.FirstExists` | main.py:59-62 | when some record has the id, a first record with it exists, so the 404 branch is taken exactly when no record has the id |
| `Todos.FindFirst` | main.py:59 | the search returns None exactly when no record has the id, and otherwise the position of the first record with it |
| `Todos.Patch` | main.py:64-65 | the record after the merge keeps the stored id; its field-by-field properties are stated by `PatchFields` and `PatchIdentityAndIdempotent` |
| `Todos.PatchFields` | main.py:64-65 | the update never touches the id; each field the request set takes the requested value; each field it left unset keeps the stored value |
| `Todos.PatchIdentityAndIdempotent` | main.py:64-65 | a request that sets no field leaves the record unchanged, and applying the same request twice equals applying it once |
| `Todos.UpdateKeepsIds` | main.py:59-66 | rewriting the found record keeps the list's length, its id sequence and every other record; distinct ids stay distinct |
| `Store.TodoStore.UpdateTodo` | main.py:56-67 | success exactly when some record has the id; on success a first record with the id exists, only it is replaced by its patched version, and it is returned with the requested id; otherwise 404 "To-Do item not found" and the list is unchanged; the id sequence never changes |
| `Todos.Without` | main.py:73-77 | the filtered list is never longer, and it is exactly as long as the saved list when no record has the id, which is the 404 test |
| `Todos.WithoutCounts` | main.py:74 | each record with the deleted id occurs zero times afterwards; every other record occurs as often as before |
| `Todos.WithoutConcat` | main.py:74 | filtering distributes over concatenation, so the kept records keep their relative order |
| `Todos.WithoutRemovesExactlyId` | main.py:74 | no record with the id remains; every record with another id remains; nothing else appears |
| `Store.TodoStore.DeleteTodo` | main.py:70-80 | success exactly when some record had the id; on success the saved list is the filtered one and the answer is "To-Do item deleted"; otherwise 404 and the list is unchanged; afterwards no record has the id |
| `Todos.IdMap` | main.py:86 | the dictionary's keys are exactly the saved ids, and each key maps to a saved record that carries that id |
| `Todos.IdMapLastWins` | main.py:86 | for a repeated id the dictionary keeps the last record carrying it |
| `Todos.IdMapDistinct` | main.py:86 | with distinct ids every saved record is found under its own id |
| `Todos.Rebuild` | main.py:87 | the rebuilt list is no longer than the request and holds only records from the dictionary |
| `Todos.Known` | main.py:87 | the ids kept by the `if id in id_to_todo_map` filter are exactly the requested ids that are keys |
| `Todos.Reordered` | main.py:86-87 | the rebuilt list is no longer than the request and holds only saved records; its further properties are stated by `ReorderIds`, `ReorderAllKnown`, `ReorderPermutation` and `ReorderDuplicateIdLosesItem` |
| `Todos.ReorderIds` | main.py:86-87 | the rebuilt list's ids are the known requested ids in request order, its length is their number, and each of its records comes from the saved list |
| `Todos.ReorderAllKnown` | main.py:86-87 | when every requested id is known, the rebuilt list is as long as the request and its i-th record has the i-th requested id |
| `Todos.ReorderPassingMeansDistinctSaved` | main.py:86-90 | a request without repeated ids passes the length check only if no two saved records share an id |
| `Todos.ReorderPermutation` | main.py:86-93 | when the request repeats no id, a rebuilt list that passes the length check is a permutation of the saved list and every saved id was requested |
| `Todos.ReorderMissingIdFails` | main.py:87-91 | a request that repeats no id and leaves out a saved id fails the length check |
| `Todos.ReorderOfPermutationSucceeds` | main.py:82-93 | a request whose ids are a permutation of the saved ids passes the length check and lays the records out in the requested order |
| `Todos.ReorderDuplicateIdLosesItem` | main.py:86-93 | against records 1 and 2 the request [1, 1] passes the length check and saves record 1 twice, so the result is not a permutation of the saved list |
| `Store.TodoStore.ReorderTodos` | main.py:82-94 | success exactly when the number of known requested ids equals the saved length; on success the saved list is the rebuilt one and the answer is "Todos reordered successfully"; otherwise 400 "ID list does not match existing todos" and the list is unchanged; the length never changes |

## Left out

- Reading and writing `todo.json` (main.py:29-40) is file I/O. The store's field stands for the file, and the "missing or unreadable file gives an empty list" fallback is left to whoever builds the store.
- `read_root` (main.py:97-103) serves an HTML file from disk, which is file I/O.
- FastAPI routing and pydantic validation are framework code. Requests are taken as well-formed datatypes, so the 422 answer for a record with missing fields is not modelled. The check of a response against its `response_model` is also left out.
- A request field sent as JSON `null` is left out. pydantic counts such a field as set, so `update_todo` would store `null` in the record. The model's `UpdateTodoItem` can only say "set to a value" or "not set". In the code such a request saves the null (main.py:66) and only then fails the `response_model=TodoItem` check, so the PUT answers 500 after writing the file, and every later `GET /todos` fails its `list[TodoItem]` check too. The browser script never sends a null for these fields.
- `update_todo` changes the found dictionary in place. The model replaces that element of the sequence instead. No other reference to the dictionary exists, so no aliasing is lost.
- The browser script `fastapi-app/templates/script.js` is left out. It builds the page, calls `fetch`, and drives a drag-and-drop library and a context menu.
- The network health check in `fastapi-app/tests/test_integration.py` is left out, because it needs a deployed server.
- Concurrent requests on the same file are left out. Each endpoint is modelled as running to completion on its own.
