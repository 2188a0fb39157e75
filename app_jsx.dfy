/**
 * Variant A of the todo store, the `App` component of App.jsx: uuid ids chosen by
 * the caller, new todos in front, inline editing, clear-completed, a three-way
 * `all`/`active`/`completed` view and the count of remaining todos.
 */
module JsxApp {
  import opened Sequences
  import opened Trimming
  import opened Todos

  /** The `filter` state, set by the All / Active / Completed buttons. */
  datatype FilterMode = All | Active | Completed

  /** The component's state: the list, the add form's draft text and the filter. */
  datatype AppState = AppState(todos: seq<Todo>, text: string, filter: FilterMode)

  /**
   * The form submit handler. A blank draft changes nothing; otherwise the trimmed
   * draft becomes a new incomplete todo with the given id and creation time, placed
   * in front of the old list, and the draft is cleared.
   */
  function AddTodo(st: AppState, id: nat, now: int): (r: AppState)
    ensures IsBlank(st.text) ==> r == st
    ensures !IsBlank(st.text) ==>
      && |r.todos| == |st.todos| + 1
      && r.todos[0] == Todo(id, Trim(st.text), false, Some(now))
      && r.todos[1..] == st.todos
      && r.text == [] && r.filter == st.filter
  {
    var trimmed := Trim(st.text);
    if |trimmed| == 0 then st
    else st.(todos := [Todo(id, trimmed, false, Some(now))] + st.todos, text := [])
  }

  /** The callback of the edit `map`: `x.id === id ? { ...x, text: newText } : x`. */
  function Retext(id: nat, newText: string): Todo -> Todo {
    (t: Todo) => if t.id == id then t.(text := newText) else t
  }

  /**
   * saveEdit: same length and order; every record keeps its id, flag and creation
   * time, and the todos with that id get the new text.
   */
  function SaveEdit(todos: seq<Todo>, id: nat, newText: string): (r: seq<Todo>)
    ensures |r| == |todos|
    ensures forall i :: 0 <= i < |todos| ==>
      && r[i].id == todos[i].id
      && r[i].completed == todos[i].completed
      && r[i].createdAt == todos[i].createdAt
      && r[i].text == (if todos[i].id == id then newText else todos[i].text)
  {
    Map(Retext(id, newText), todos)
  }

  /**
   * `TodoItem.save` followed by `saveEdit`: a blank edit never reaches the list;
   * otherwise the trimmed value replaces the text of the todos with that id.
   */
  function Save(todos: seq<Todo>, id: nat, value: string): (r: seq<Todo>)
    ensures IsBlank(value) ==> r == todos
    ensures !IsBlank(value) ==> r == SaveEdit(todos, id, Trim(value)) && |Trim(value)| > 0
  {
    var trimmed := Trim(value);
    if |trimmed| == 0 then todos else SaveEdit(todos, id, trimmed)
  }

  /** The predicate `!x.completed` of clearCompleted and of `remaining`. */
  predicate IsActiveTodo(t: Todo) {
    !t.completed
  }

  /**
   * clearCompleted: exactly the incomplete todos, each as often as before, in
   * their original order.
   */
  function ClearCompleted(todos: seq<Todo>): (r: seq<Todo>)
    ensures forall t :: t in r <==> t in todos && !t.completed
    ensures forall t :: multiset(r)[t] == if !t.completed then multiset(todos)[t] else 0
    ensures IsSubsequence(r, todos)
  {
    Filter(IsActiveTodo, todos)
  }

  /** The predicate of the `filtered` derivation for each filter value. */
  function Shows(mode: FilterMode): Todo -> bool {
    (t: Todo) => match mode
      case Active => !t.completed
      case Completed => t.completed
      case All => true
  }

  /**
   * The `filtered` view: an order-preserving selection of the todos the filter
   * shows, each as often as in the list.
   */
  function Filtered(todos: seq<Todo>, mode: FilterMode): (r: seq<Todo>)
    ensures IsSubsequence(r, todos)
    ensures forall t :: t in r <==> t in todos && (mode == All || t.completed == (mode == Completed))
    ensures forall t :: multiset(r)[t] == if Shows(mode)(t) then multiset(todos)[t] else 0
  {
    Filter(Shows(mode), todos)
  }

  /** `remaining`: how many todos are not completed; zero exactly when all are done. */
  function Remaining(todos: seq<Todo>): (r: nat)
    ensures r <= |todos|
    ensures r == 0 <==> forall t :: t in todos ==> t.completed
  {
    var active := Filter(IsActiveTodo, todos);
    assert |active| > 0 ==> active[0] in active;
    |active|
  }

  /** The `all` view is the whole list. */
  lemma FilteredAll(todos: seq<Todo>)
    ensures Filtered(todos, All) == todos
  {
    FilterAllPass(Shows(All), todos);
  }

  /** Re-applying a view to its own result changes nothing. */
  lemma FilteredIdempotent(todos: seq<Todo>, mode: FilterMode)
    ensures Filtered(Filtered(todos, mode), mode) == Filtered(todos, mode)
  {
    FilterIdempotent(Shows(mode), todos);
  }

  /** The active and completed views split the list between them. */
  lemma FilteredCountsAddUp(todos: seq<Todo>)
    ensures |Filtered(todos, Active)| + |Filtered(todos, Completed)| == |todos|
  {
    FilterPartition(Shows(Active), Shows(Completed), todos);
  }

  /**
   * `remaining` is the length of the active view, so the "items left" count matches
   * it. The source writes the two as separate lambdas (App.jsx:100 and App.jsx:105);
   * this lemma is where they are shown to select the same todos.
   */
  lemma RemainingIsActiveView(todos: seq<Todo>)
    ensures Remaining(todos) == |Filtered(todos, Active)|
  {
    FilterAgree(IsActiveTodo, Shows(Active), todos);
  }

  /** Clearing completed todos leaves exactly the active view. */
  lemma ClearCompletedIsActiveView(todos: seq<Todo>)
    ensures ClearCompleted(todos) == Filtered(todos, Active)
  {
    FilterAgree(IsActiveTodo, Shows(Active), todos);
  }

  /** With no completed todo, clear-completed returns the list unchanged. */
  lemma ClearCompletedNoneDone(todos: seq<Todo>)
    requires forall t :: t in todos ==> !t.completed
    ensures ClearCompleted(todos) == todos
  {
    FilterAllPass(IsActiveTodo, todos);
  }

  /** Clearing twice is clearing once. */
  lemma ClearCompletedIdempotent(todos: seq<Todo>)
    ensures ClearCompleted(ClearCompleted(todos)) == ClearCompleted(todos)
  {
    FilterIdempotent(IsActiveTodo, todos);
  }

  /** Clearing completed todos does not change the remaining count. */
  lemma ClearCompletedKeepsRemaining(todos: seq<Todo>)
    ensures Remaining(ClearCompleted(todos)) == Remaining(todos)
  {
    FilterIdempotent(IsActiveTodo, todos);
  }

  /** Editing changes no id, so it cannot make ids collide. */
  lemma SaveEditKeepsIds(todos: seq<Todo>, id: nat, newText: string, other: nat)
    ensures CountId(SaveEdit(todos, id, newText), other) == CountId(todos, other)
  {
    CountIsFilter(todos, other);
    CountIsFilter(SaveEdit(todos, id, newText), other);
    MapKeepsFilterLength(Retext(id, newText), HasId(other), todos);
  }

  /** A stored text: not empty, and neither starting nor ending with whitespace. */
  predicate IsTrimmedText(s: string) {
    |s| > 0 && !IsWhitespace(s[0]) && !IsWhitespace(s[|s| - 1])
  }

  /** Every record's text is a stored text. */
  ghost predicate TextsTrimmed(todos: seq<Todo>) {
    forall i :: 0 <= i < |todos| ==> IsTrimmedText(todos[i].text)
  }

  /** What the store promises about its list: trimmed non-empty texts, and no id used twice. */
  ghost predicate Valid(todos: seq<Todo>) {
    TextsTrimmed(todos) && DistinctIds(todos)
  }

  /** A stored text is exactly what trimming it gives, so it is what `trim()` leaves. */
  lemma TrimmedTextIsFixed(s: string)
    requires IsTrimmedText(s)
    ensures Trim(s) == s
  {
    assert TrimStart(s) == s;
    assert TrimEnd(s) == s;
  }

  /** The user actions the component wires to its handlers. */
  datatype Action =
    | Type(draft: string)                  // the add form's input changes
    | Submit(id: nat, now: int)            // the add form is submitted
    | Check(id: nat)                       // a checkbox is clicked
    | Remove(id: nat)                      // a Delete button is clicked
    | SaveItem(id: nat, value: string)     // an item's edit is saved
    | ClearDone                            // Clear completed is clicked
    | ChooseFilter(mode: FilterMode)       // a filter button is clicked

  /**
   * The new state after one action. Only typing and submitting touch the draft,
   * only the filter buttons touch the filter, and those two kinds of action
   * (with a blank submit) leave the list alone.
   */
  function Step(st: AppState, a: Action): (r: AppState)
    ensures r.filter == (if a.ChooseFilter? then a.mode else st.filter)
    ensures !a.Type? && !a.Submit? ==> r.text == st.text
    ensures a.Type? ==> r.text == a.draft
    ensures a.Type? || a.ChooseFilter? || (a.Submit? && IsBlank(st.text)) ==> r.todos == st.todos
  {
    match a
    case Type(draft) => st.(text := draft)
    case Submit(id, now) => AddTodo(st, id, now)
    case Check(id) => st.(todos := Toggle(st.todos, id))
    case Remove(id) => st.(todos := Delete(st.todos, id))
    case SaveItem(id, value) => st.(todos := Save(st.todos, id, value))
    case ClearDone => st.(todos := ClearCompleted(st.todos))
    case ChooseFilter(mode) => st.(filter := mode)
  }

  /** A submitted id is fresh when no todo carries it yet (a uuid, in the app). */
  predicate FreshFor(st: AppState, a: Action) {
    a.Submit? ==> CountId(st.todos, a.id) == 0
  }

  /** Adding stores only a trimmed, non-empty text. */
  lemma AddTodoKeepsTexts(st: AppState, id: nat, now: int)
    requires TextsTrimmed(st.todos)
    ensures TextsTrimmed(AddTodo(st, id, now).todos)
  {
    var r := AddTodo(st, id, now).todos;
    if !IsBlank(st.text) {
      forall i | 0 <= i < |r| ensures IsTrimmedText(r[i].text) {
        if i > 0 {
          assert r[i] == st.todos[i - 1];
        }
      }
    }
  }

  /** Adding with a fresh id keeps ids distinct. */
  lemma AddTodoKeepsDistinct(st: AppState, id: nat, now: int)
    requires DistinctIds(st.todos) && CountId(st.todos, id) == 0
    ensures DistinctIds(AddTodo(st, id, now).todos)
  {
    if !IsBlank(st.text) {
      var t := Todo(id, Trim(st.text), false, Some(now));
      assert AddTodo(st, id, now).todos == [t] + st.todos;
      AppendFreshDistinct(st.todos, t);
    }
  }

  /** Saving an edit stores only a trimmed, non-empty text: blank edits are dropped. */
  lemma SaveKeepsTexts(todos: seq<Todo>, id: nat, value: string)
    requires TextsTrimmed(todos)
    ensures TextsTrimmed(Save(todos, id, value))
  {
    var r := Save(todos, id, value);
    if !IsBlank(value) {
      forall i | 0 <= i < |r| ensures IsTrimmedText(r[i].text) {
        if todos[i].id != id {
          assert r[i].text == todos[i].text;
        }
      }
    }
  }

  /** Saving an edit changes no id, so it keeps ids distinct. */
  lemma SaveKeepsDistinct(todos: seq<Todo>, id: nat, value: string)
    requires DistinctIds(todos)
    ensures DistinctIds(Save(todos, id, value))
  {
    if !IsBlank(value) {
      forall x ensures CountId(Save(todos, id, value), x) <= 1 {
        SaveEditKeepsIds(todos, id, Trim(value), x);
      }
    }
  }

  /** Toggling keeps the list valid. */
  lemma ToggleKeepsValid(todos: seq<Todo>, id: nat)
    requires Valid(todos)
    ensures Valid(Toggle(todos, id))
  {
    ToggleKeepsIds(todos, id, 0);
  }

  /** Clearing completed todos keeps the list valid. */
  lemma ClearCompletedKeepsValid(todos: seq<Todo>)
    requires Valid(todos)
    ensures Valid(ClearCompleted(todos))
  {
    var r := ClearCompleted(todos);
    forall i | 0 <= i < |r| ensures IsTrimmedText(r[i].text) {
      assert r[i] in r;
      var j :| 0 <= j < |todos| && todos[j] == r[i];
    }
    SubsequenceDistinct(r, todos);
  }

  /** Delete keeps the list valid. */
  lemma DeleteKeepsValid(todos: seq<Todo>, id: nat)
    requires Valid(todos)
    ensures Valid(Delete(todos, id))
  {
    var r := Delete(todos, id);
    forall i | 0 <= i < |r| ensures IsTrimmedText(r[i].text) {
      assert r[i] in r;
      var j :| 0 <= j < |todos| && todos[j] == r[i];
    }
    DeleteKeepsDistinct(todos, id);
  }

  /** Every action keeps the list valid, as long as submitted ids are fresh. */
  lemma StepKeepsValid(st: AppState, a: Action)
    requires Valid(st.todos) && FreshFor(st, a)
    ensures Valid(Step(st, a).todos)
  {
    match a
    case Type(_) =>
    case ChooseFilter(_) =>
    case Submit(id, now) =>
      AddTodoKeepsTexts(st, id, now);
      AddTodoKeepsDistinct(st, id, now);
    case Check(id) => ToggleKeepsValid(st.todos, id);
    case Remove(id) => DeleteKeepsValid(st.todos, id);
    case SaveItem(id, value) =>
      SaveKeepsTexts(st.todos, id, value);
      SaveKeepsDistinct(st.todos, id, value);
    case ClearDone => ClearCompletedKeepsValid(st.todos);
  }

  /** Adding "Buy milk" to an empty list gives one incomplete todo and one item left. */
  lemma AddToEmpty(id: nat, now: int)
    ensures var r := AddTodo(AppState([], "Buy milk", All), id, now);
      && r.todos == [Todo(id, "Buy milk", false, Some(now))]
      && Remaining(r.todos) == 1
  {
    assert !IsWhitespace('B') && !IsWhitespace('k');
    assert !IsBlank("Buy milk") by { assert "Buy milk"[0] == 'B'; }
  }

  /** Saving a blank edit leaves the text as it was. */
  lemma BlankEditRejected(id: nat, now: int)
    ensures var r := AddTodo(AppState([], "X", All), id, now);
      Save(r.todos, id, "") == r.todos && r.todos[0].text == "X"
  {
    assert !IsWhitespace('X');
    assert !IsBlank("X") by { assert "X"[0] == 'X'; }
  }
}
