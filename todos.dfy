/**
 * The todo record and the two transitions that both variants of the app write
 * with the same `map`/`filter` line: toggle and delete. Every transition returns a
 * new list; nothing is updated in place.
 */
module Todos {
  import opened Sequences

  datatype Option<T> = None | Some(value: T)

  /**
   * A todo record `{id, text, completed}`. The id is whatever the caller generated
   * (a uuid in App.jsx, a `Date.now()` timestamp in App.tsx), abstracted to a `nat`.
   * `createdAt` is only recorded by App.jsx; App.tsx records have no such field (`None`).
   */
  datatype Todo = Todo(id: nat, text: string, completed: bool, createdAt: Option<int>)

  /** The number of todos in `todos` carrying `id`. */
  function CountId(todos: seq<Todo>, id: nat): nat {
    if |todos| == 0 then 0
    else (if todos[0].id == id then 1 else 0) + CountId(todos[1..], id)
  }

  /** No id occurs twice. */
  ghost predicate DistinctIds(todos: seq<Todo>) {
    forall id :: CountId(todos, id) <= 1
  }

  /** Two different positions never carry the same id. */
  ghost predicate PairwiseDistinctIds(todos: seq<Todo>) {
    forall i, j :: 0 <= i < j < |todos| ==> todos[i].id != todos[j].id
  }

  /** Counting occurrences and comparing positions give the same notion of distinct ids. */
  lemma {:induction false} DistinctIdsPairwise(todos: seq<Todo>)
    ensures DistinctIds(todos) <==> PairwiseDistinctIds(todos)
  {
    if |todos| > 0 {
      var rest := todos[1..];
      DistinctIdsPairwise(rest);
      assert forall x :: CountId(todos, x) == (if todos[0].id == x then 1 else 0) + CountId(rest, x);
      CountZero(rest, todos[0].id);
      if PairwiseDistinctIds(todos) {
        assert PairwiseDistinctIds(rest) by {
          forall i, j | 0 <= i < j < |rest| ensures rest[i].id != rest[j].id {
            assert rest[i] == todos[i + 1] && rest[j] == todos[j + 1];
          }
        }
        forall t | t in rest ensures t.id != todos[0].id {
          var j :| 0 <= j < |rest| && rest[j] == t;
          assert todos[j + 1] == t;
        }
      }
      if DistinctIds(todos) {
        assert DistinctIds(rest) by {
          forall x ensures CountId(rest, x) <= 1 {
            assert CountId(todos, x) <= 1;
          }
        }
        assert CountId(todos, todos[0].id) <= 1;
        forall i, j | 0 <= i < j < |todos| ensures todos[i].id != todos[j].id {
          if i == 0 {
            assert todos[j] == rest[j - 1] && todos[j] in rest;
          } else {
            assert todos[i] == rest[i - 1] && todos[j] == rest[j - 1];
          }
        }
      }
    }
  }

  /** The callback of the toggle `map`: `x.id === id ? { ...x, completed: !x.completed } : x`. */
  function Flip(id: nat): Todo -> Todo {
    (t: Todo) => if t.id == id then t.(completed := !t.completed) else t
  }

  /** The predicate of the delete `filter`: `x.id !== id`. */
  function Other(id: nat): Todo -> bool {
    (t: Todo) => t.id != id
  }

  /** The predicate `x.id === id`. */
  function HasId(id: nat): Todo -> bool {
    (t: Todo) => t.id == id
  }

  /**
   * Toggle: same length and order; every record keeps its id, text and creation
   * time, and its `completed` flag is flipped exactly when its id matches.
   */
  function Toggle(todos: seq<Todo>, id: nat): (r: seq<Todo>)
    ensures |r| == |todos|
    ensures forall i :: 0 <= i < |todos| ==>
      && r[i].id == todos[i].id
      && r[i].text == todos[i].text
      && r[i].createdAt == todos[i].createdAt
      && (r[i].completed <==> (todos[i].completed != (todos[i].id == id)))
  {
    Map(Flip(id), todos)
  }

  /**
   * Delete: keeps exactly the todos without that id, in their original order,
   * and the list shrinks by the number of todos that carried it.
   */
  function Delete(todos: seq<Todo>, id: nat): (r: seq<Todo>)
    ensures forall t :: t in r <==> t in todos && t.id != id
    ensures IsSubsequence(r, todos)
    ensures |r| == |todos| - CountId(todos, id)
  {
    var r := Filter(Other(id), todos);
    FilterPartition(HasId(id), Other(id), todos);
    CountIsFilter(todos, id);
    r
  }

  /** `CountId` counts what the filter `x.id === id` keeps. */
  lemma {:induction false} CountIsFilter(todos: seq<Todo>, id: nat)
    ensures CountId(todos, id) == |Filter(HasId(id), todos)|
  {
    if |todos| > 0 {
      CountIsFilter(todos[1..], id);
    }
  }

  /** How often an id occurs in a concatenation. */
  lemma {:induction false} CountAppend(s: seq<Todo>, t: seq<Todo>, id: nat)
    ensures CountId(s + t, id) == CountId(s, id) + CountId(t, id)
  {
    if |s| == 0 {
      assert s + t == t;
    } else {
      assert (s + t)[1..] == s[1..] + t;
      CountAppend(s[1..], t, id);
    }
  }

  /** Putting a todo with a fresh id next to a list with distinct ids keeps them distinct. */
  lemma AppendFreshDistinct(todos: seq<Todo>, t: Todo)
    requires DistinctIds(todos) && CountId(todos, t.id) == 0
    ensures DistinctIds([t] + todos) && DistinctIds(todos + [t])
  {
    forall x ensures CountId([t] + todos, x) <= 1 && CountId(todos + [t], x) <= 1 {
      CountAppend([t], todos, x);
      CountAppend(todos, [t], x);
    }
  }

  /** An id is absent exactly when no todo carries it. */
  lemma {:induction false} CountZero(todos: seq<Todo>, id: nat)
    ensures CountId(todos, id) == 0 <==> forall t :: t in todos ==> t.id != id
  {
    if |todos| > 0 {
      CountZero(todos[1..], id);
      assert todos == [todos[0]] + todos[1..];
    }
  }

  /** A sublist never holds an id more often than the list it was taken from. */
  lemma SubsequenceCount(r: seq<Todo>, todos: seq<Todo>, id: nat)
    requires IsSubsequence(r, todos)
    ensures CountId(r, id) <= CountId(todos, id)
  {
    CountIsFilter(r, id);
    CountIsFilter(todos, id);
    SubsequenceFilterLength(HasId(id), r, todos);
  }

  /** Dropping todos, as every `filter` does, keeps ids distinct. */
  lemma SubsequenceDistinct(r: seq<Todo>, todos: seq<Todo>)
    requires IsSubsequence(r, todos) && DistinctIds(todos)
    ensures DistinctIds(r)
  {
    forall id ensures CountId(r, id) <= 1 {
      SubsequenceCount(r, todos, id);
    }
  }

  /** Toggling the same id twice gives back the original list, whether or not the id occurs. */
  lemma ToggleTwice(todos: seq<Todo>, id: nat)
    ensures Toggle(Toggle(todos, id), id) == todos
  {
    var r := Toggle(Toggle(todos, id), id);
    assert forall i :: 0 <= i < |todos| ==> r[i] == todos[i];
  }

  /** Toggling an id that no todo carries changes nothing. */
  lemma ToggleAbsent(todos: seq<Todo>, id: nat)
    requires CountId(todos, id) == 0
    ensures Toggle(todos, id) == todos
  {
    CountZero(todos, id);
    var r := Toggle(todos, id);
    assert forall i :: 0 <= i < |todos| ==> todos[i] in todos && r[i] == todos[i];
  }

  /** Toggling never changes how often any id occurs, so it keeps ids distinct. */
  lemma ToggleKeepsIds(todos: seq<Todo>, id: nat, other: nat)
    ensures CountId(Toggle(todos, id), other) == CountId(todos, other)
    ensures DistinctIds(todos) ==> DistinctIds(Toggle(todos, id))
  {
    forall x: nat ensures CountId(Toggle(todos, id), x) == CountId(todos, x) {
      CountIsFilter(todos, x);
      CountIsFilter(Toggle(todos, id), x);
      MapKeepsFilterLength(Flip(id), HasId(x), todos);
    }
  }

  /** Afterwards, no todo carries the deleted id. */
  lemma DeleteRemovesId(todos: seq<Todo>, id: nat)
    ensures CountId(Delete(todos, id), id) == 0
  {
    CountZero(Delete(todos, id), id);
  }

  /** Deleting an id that no todo carries changes nothing. */
  lemma DeleteAbsent(todos: seq<Todo>, id: nat)
    requires CountId(todos, id) == 0
    ensures Delete(todos, id) == todos
  {
    CountZero(todos, id);
    FilterAllPass(Other(id), todos);
  }

  /** Deleting twice is deleting once: the second call is a no-op. */
  lemma DeleteIdempotent(todos: seq<Todo>, id: nat)
    ensures Delete(Delete(todos, id), id) == Delete(todos, id)
  {
    FilterIdempotent(Other(id), todos);
  }

  /** Delete leaves every other id exactly as often as it was. */
  lemma DeleteKeepsOthers(todos: seq<Todo>, id: nat, other: nat)
    requires other != id
    ensures CountId(Delete(todos, id), other) == CountId(todos, other)
  {
    var r := Delete(todos, id);
    CountIsFilter(r, other);
    CountIsFilter(todos, other);
    assert forall t :: t in Filter(HasId(other), todos) ==> Other(id)(t);
    FilterAllPass(Other(id), Filter(HasId(other), todos));
    FilterCommute(Other(id), HasId(other), todos);
  }

  /** Delete keeps ids distinct. */
  lemma DeleteKeepsDistinct(todos: seq<Todo>, id: nat)
    requires DistinctIds(todos)
    ensures DistinctIds(Delete(todos, id))
  {
    SubsequenceDistinct(Delete(todos, id), todos);
  }
}
