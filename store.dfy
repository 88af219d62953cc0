/** The server's saved to-do list and its endpoints (main.py:42-94). Reading and
    writing todo.json become reading and assigning the field `todos`; every endpoint
    runs to completion before the next one starts. */
module Store {
  import opened Todos

  class TodoStore {
    /** The list that load_todos reads and save_todos writes, in file order. */
    var todos: seq<TodoItem>

    /** A store over the list load_todos returned. */
    constructor (loaded: seq<TodoItem>)
      ensures todos == loaded
    {
      todos := loaded;
    }

    /** GET /todos (main.py:43-45): the saved list, in saved order. */
    method GetTodos() returns (r: seq<TodoItem>)
      ensures r == todos
    {
      r := todos;
    }

    /** POST /todos (main.py:48-53): appends the record at the end, whatever its id,
        and echoes it back. */
    method CreateTodo(todo: TodoItem) returns (r: TodoItem)
      modifies this
      ensures todos == old(todos) + [todo]
      ensures |todos| == |old(todos)| + 1 && todos[..|old(todos)|] == old(todos)
      ensures r == todo
    {
      todos := todos + [todo];
      r := todo;
    }

    /** PUT /todos/{id} (main.py:56-67): merges the fields the request set into the
        first record with the id and answers with that record; 404 when no record has
        the id, in which case nothing is saved. */
    method UpdateTodo(todoId: int, updated: UpdateTodoItem) returns (r: Response<TodoItem>)
      modifies this
      ensures r.Ok? <==> todoId in Ids(old(todos))
      ensures r.Error? ==> r == Error(NotFound, "To-Do item not found") && todos == old(todos)
      ensures r.Ok? ==> (exists i :: FirstWithId(old(todos), todoId, i) &&
                                    todos == old(todos)[i := Patch(old(todos)[i], updated)] &&
                                    r == Ok(todos[i]))
      ensures forall i :: FirstWithId(old(todos), todoId, i) ==>
                todos == old(todos)[i := Patch(old(todos)[i], updated)] && r == Ok(todos[i])
      ensures r.Ok? ==> r.value.id == todoId
      ensures Ids(todos) == Ids(old(todos))
    {
      var found := FindFirst(todos, todoId);
      match found
      case None =>
        assert forall k :: FirstWithId(todos, todoId, k) ==> Ids(todos)[k] == todoId;
        r := Error(NotFound, "To-Do item not found");
      case Some(i) =>
        forall k | FirstWithId(todos, todoId, k) ensures k == i {
          FirstWithIdUnique(todos, todoId, i, k);
        }
        var item := Patch(todos[i], updated);
        UpdateKeepsIds(todos, i, updated);
        todos := todos[i := item];
        r := Ok(item);
    }

    /** DELETE /todos/{id} (main.py:70-80): drops every record with the id, keeping the
        others in order; 404 when nothing was dropped, in which case nothing is saved. */
    method DeleteTodo(todoId: int) returns (r: Response<string>)
      modifies this
      ensures r.Ok? <==> todoId in Ids(old(todos))
      ensures r.Ok? ==> r.value == "To-Do item deleted" && todos == Without(old(todos), todoId)
      ensures r.Error? ==> r == Error(NotFound, "To-Do item not found") && todos == old(todos)
      ensures todoId !in Ids(todos)
    {
      var originalLength := |todos|;
      var afterDeletion := Without(todos, todoId);
      WithoutRemovesExactlyId(todos, todoId);
      if |afterDeletion| == originalLength {
        return Error(NotFound, "To-Do item not found");
      }
      todos := afterDeletion;
      r := Ok("To-Do item deleted");
    }

    /** POST /todos/reorder (main.py:82-94): rebuilds the list in the requested order,
        skipping ids the store does not know; 400 when the rebuilt list is not as long
        as the saved one, in which case nothing is saved. */
    method ReorderTodos(request: ReorderRequest) returns (r: Response<string>)
      modifies this
      ensures r.Ok? <==> |Known(request.ids, IdSet(old(todos)))| == |old(todos)|
      ensures r.Ok? ==> r.value == "Todos reordered successfully" && todos == Reordered(old(todos), request.ids)
      ensures r.Error? ==> r == Error(BadRequest, "ID list does not match existing todos") && todos == old(todos)
      ensures |todos| == |old(todos)|
    {
      var idToTodoMap := IdMap(todos);
      var reorderedTodos := Rebuild(idToTodoMap, request.ids);
      ReorderIds(todos, request.ids);
      if |reorderedTodos| != |todos| {
        return Error(BadRequest, "ID list does not match existing todos");
      }
      todos := reorderedTodos;
      r := Ok("Todos reordered successfully");
    }
  }

  /** test_main.py:40-58: the list starts empty; after one create it holds that one
      record. */
  method CreateScenario() {
    var store := new TodoStore([]);
    var empty := store.GetTodos();
    assert empty == [];
    var t := TodoItem(1, "Test 1", "Desc 1", false);
    var r := store.CreateTodo(t);
    assert r.title == "Test 1";
    var all := store.GetTodos();
    assert |all| == 1 && all[0].title == "Test 1";
  }

  /** After a successful update the caller knows the answer carries the requested id
      and the list holds it at the first position with that id. */
  method UpdateClient(store: TodoStore, id: int, u: UpdateTodoItem)
    modifies store
  {
    var before := store.todos;
    var r := store.UpdateTodo(id, u);
    if r.Ok? {
      assert r.value.id == id;
      var i :| FirstWithId(before, id, i) && store.todos == before[i := Patch(before[i], u)];
      assert store.todos[i] == r.value;
    }
  }

  /** test_main.py:66-78: setting only `completed` keeps the title. */
  method UpdatePartialScenario() {
    var store := new TodoStore([TodoItem(1, "Test", "Desc", false)]);
    var r := store.UpdateTodo(1, UpdateTodoItem(None, None, Some(true)));
    assert FirstWithId([TodoItem(1, "Test", "Desc", false)], 1, 0);
    assert r == Ok(TodoItem(1, "Test", "Desc", true));
  }

  /** test_main.py:80-84 and 104-107: an unknown id is answered with 404. */
  method NotFoundScenario() {
    var store := new TodoStore([]);
    var u := store.UpdateTodo(999, UpdateTodoItem(Some("Updated"), None, None));
    var d := store.DeleteTodo(999);
    assert u.Error? && u.status == 404;
    assert d.Error? && d.status == 404;
    assert store.todos == [];
  }

  /** test_main.py:86-102: deleting the only record leaves an empty list. */
  method DeleteScenario() {
    var t := TodoItem(1, "To Delete", "Desc", false);
    var store := new TodoStore([t]);
    assert Ids([t]) == [1];
    var r := store.DeleteTodo(1);
    assert r == Ok("To-Do item deleted");
    var all := store.GetTodos();
    assert all == [];
  }

  /** test_main.py:109-132: the order [3, 1, 2] is saved as requested. */
  method ReorderScenario() {
    var s := [TodoItem(1, "First", "", false), TodoItem(2, "Second", "", false), TodoItem(3, "Third", "", false)];
    var store := new TodoStore(s);
    assert Ids(s) == [1, 2, 3];
    assert multiset([3, 1, 2]) == multiset(Ids(s));
    ReorderOfPermutationSucceeds(s, [3, 1, 2]);
    var r := store.ReorderTodos(ReorderRequest([3, 1, 2]));
    assert r.Ok? by {
      ReorderIds(s, [3, 1, 2]);
    }
    assert store.todos[0].id == 3 && store.todos[1].id == 1 && store.todos[2].id == 2;
  }

  /** test_main.py:134-147: the subset [2] of two records is refused with 400 and
      changes nothing. */
  method ReorderSubsetScenario() {
    var s := [TodoItem(1, "First", "", false), TodoItem(2, "Second", "", false)];
    var store := new TodoStore(s);
    assert Ids(s) == [1, 2];
    ReorderMissingIdFails(s, [2], 1);
    ReorderIds(s, [2]);
    var r := store.ReorderTodos(ReorderRequest([2]));
    assert r == Error(400, "ID list does not match existing todos");
    assert store.todos == s;
  }
}
