/**
 * The two variants side by side: App.jsx's `filtered` view and TodoList.tsx's
 * `filteredTodos` view select the same todos, with `active` playing the part of
 * `incomplete`.
 */
module Variants {
  import opened Sequences
  import opened Todos
  import JsxApp
  import TodoList

  /** Each App.jsx filter value and the TodoList.tsx filter value that shows the same todos. */
  function Counterpart(mode: JsxApp.FilterMode): TodoList.ListFilter {
    match mode
    case All => TodoList.ShowAll
    case Active => TodoList.ShowIncomplete
    case Completed => TodoList.ShowCompleted
  }

  /** Both views give the same list for corresponding filters. */
  lemma ViewsAgree(todos: seq<Todo>, mode: JsxApp.FilterMode)
    ensures JsxApp.Filtered(todos, mode) == TodoList.FilteredTodos(todos, Counterpart(mode))
  {
    if mode == JsxApp.All {
      JsxApp.FilteredAll(todos);
    } else {
      FilterAgree(JsxApp.Shows(mode), TodoList.Matches(Counterpart(mode)), todos);
    }
  }
}
