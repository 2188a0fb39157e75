/**
 * The `TodoList` component of TodoList.tsx: the `filteredTodos` view selected by
 * its `all` / `completed` / `incomplete` filter state.
 */
module TodoList {
  import opened Sequences
  import opened Todos

  /** The component's `filter` state. */
  datatype ListFilter = ShowAll | ShowCompleted | ShowIncomplete

  /** The predicate `todo.completed === (filter === 'completed')`. */
  function Matches(filter: ListFilter): Todo -> bool {
    (t: Todo) => t.completed == (filter == ShowCompleted)
  }

  /** Whether the filter shows a todo: always for `all`, otherwise when its flag matches. */
  predicate Shown(filter: ListFilter, t: Todo) {
    filter == ShowAll || t.completed == (filter == ShowCompleted)
  }

  /**
   * `filteredTodos`: an order-preserving selection of the input holding every todo
   * the filter shows, each as often as in the input, and nothing else.
   */
  function FilteredTodos(todos: seq<Todo>, filter: ListFilter): (r: seq<Todo>)
    ensures IsSubsequence(r, todos)
    ensures forall t :: multiset(r)[t] == (if Shown(filter, t) then multiset(todos)[t] else 0)
  {
    if filter == ShowAll then
      SubsequenceReflexive(todos);
      todos
    else
      Filter(Matches(filter), todos)
  }

  /** The `all` filter shows the input list itself. */
  lemma FilteredAllIsInput(todos: seq<Todo>)
    ensures FilteredTodos(todos, ShowAll) == todos
  {
  }

  /** The `completed` filter shows exactly the completed todos and no others. */
  lemma CompletedView(todos: seq<Todo>)
    ensures forall t :: t in FilteredTodos(todos, ShowCompleted) <==> t in todos && t.completed
  {
    var r := FilteredTodos(todos, ShowCompleted);
    forall t ensures t in r <==> t in todos && t.completed {
      assert t in r <==> multiset(r)[t] > 0;
      assert t in todos <==> multiset(todos)[t] > 0;
    }
  }

  /** The `incomplete` filter shows exactly the todos not yet completed and no others. */
  lemma IncompleteView(todos: seq<Todo>)
    ensures forall t :: t in FilteredTodos(todos, ShowIncomplete) <==> t in todos && !t.completed
  {
    var r := FilteredTodos(todos, ShowIncomplete);
    forall t ensures t in r <==> t in todos && !t.completed {
      assert t in r <==> multiset(r)[t] > 0;
      assert t in todos <==> multiset(todos)[t] > 0;
    }
  }

  /** The completed and incomplete views split the list between them. */
  lemma CountsAddUp(todos: seq<Todo>)
    ensures |FilteredTodos(todos, ShowCompleted)| + |FilteredTodos(todos, ShowIncomplete)| == |todos|
  {
    FilterPartition(Matches(ShowCompleted), Matches(ShowIncomplete), todos);
  }

  /** A view is never longer than the list. */
  lemma FilteredNoLonger(todos: seq<Todo>, filter: ListFilter)
    ensures |FilteredTodos(todos, filter)| <= |todos|
  {
    var r := FilteredTodos(todos, filter);
    assert |r| == |multiset(r)| && |todos| == |multiset(todos)|;
    assert multiset(r) <= multiset(todos);
  }

  /** Re-applying the same filter to its own result changes nothing. */
  lemma FilteredIdempotent(todos: seq<Todo>, filter: ListFilter)
    ensures FilteredTodos(FilteredTodos(todos, filter), filter) == FilteredTodos(todos, filter)
  {
    if filter != ShowAll {
      FilterIdempotent(Matches(filter), todos);
    }
  }
}
