/**
 * Variant B of the todo store, the `App` component of App.tsx: timestamp ids,
 * new todos appended at the end, the text taken exactly as the form hands it over.
 * Its `deleteTodo` and `toggleComplete` are the shared `Todos.Delete` and
 * `Todos.Toggle`.
 */
module TsxApp {
  import opened Sequences
  import opened Todos
  import opened TodoList

  /**
   * addTodo: the old list is kept as the prefix, unchanged, and one incomplete todo
   * with the given id and the given text, untrimmed and without a creation time,
   * follows it.
   */
  function AddTodo(todos: seq<Todo>, text: string, id: nat): (r: seq<Todo>)
    ensures |r| == |todos| + 1
    ensures r[..|todos|] == todos
    ensures r[|todos|] == Todo(id, text, false, None)
  {
    todos + [Todo(id, text, false, None)]
  }

  /**
   * Ids stay distinct after adding exactly when they were distinct before and the
   * new id is fresh: a `Date.now()` collision breaks distinctness.
   */
  lemma AddTodoDistinct(todos: seq<Todo>, text: string, id: nat)
    ensures DistinctIds(AddTodo(todos, text, id)) <==> DistinctIds(todos) && CountId(todos, id) == 0
  {
    var r := AddTodo(todos, text, id);
    forall x ensures CountId(r, x) == CountId(todos, x) + (if x == id then 1 else 0) {
      CountAppend(todos, [Todo(id, text, false, None)], x);
    }
    if DistinctIds(r) {
      assert CountId(r, id) <= 1;
      forall x ensures CountId(todos, x) <= 1 {
        assert CountId(r, x) <= 1;
      }
    }
  }

  /**
   * Deleting the id just added removes the new todo together with every older todo
   * that collided with it, and nothing else.
   */
  lemma DeleteAfterAdd(todos: seq<Todo>, text: string, id: nat)
    ensures Delete(AddTodo(todos, text, id), id) == Delete(todos, id)
    ensures |Delete(AddTodo(todos, text, id), id)| == |todos| - CountId(todos, id)
  {
    FilterAppend(Other(id), todos, [Todo(id, text, false, None)]);
  }

  /** Adding "A" and then "B" keeps the order of entry. */
  lemma AddTwiceOrder(a: nat, b: nat)
    ensures AddTodo(AddTodo([], "A", a), "B", b) == [Todo(a, "A", false, None), Todo(b, "B", false, None)]
  {
  }

  /**
   * After adding "A" and "B" with distinct ids and toggling "A", the completed view
   * shows just "A" and the incomplete view just "B".
   */
  lemma ToggleThenFilter(a: nat, b: nat)
    requires a != b
    ensures var todos := Toggle(AddTodo(AddTodo([], "A", a), "B", b), a);
      && FilteredTodos(todos, ShowCompleted) == [Todo(a, "A", true, None)]
      && FilteredTodos(todos, ShowIncomplete) == [Todo(b, "B", false, None)]
  {
    var todos := Toggle(AddTodo(AddTodo([], "A", a), "B", b), a);
    assert todos == [Todo(a, "A", true, None), Todo(b, "B", false, None)];
    assert todos[1..][1..] == [];
  }
}
