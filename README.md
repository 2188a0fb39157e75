# Todo store: a Dafny model

This project models the state-transition core of a client-side todo-list app.
The app exists in two variants:

- **App.jsx** (variant A): uuid ids, new todos go in front, inline editing,
  "clear completed", an `all` / `active` / `completed` view and a remaining count.
- **App.tsx** with **TodoList.tsx** (variant B): timestamp ids, new todos go at the
  end, and an `all` / `completed` / `incomplete` view.

Each transition takes the current list of todo records, plus its arguments, and
builds a new list with one `map`, `filter` or spread expression. The model keeps
that form.

| file | module | models |
|---|---|---|
| `sequences.dfy` | `Sequences` | `Array.prototype.map` and `.filter` as `Map` and `Filter`, and the idea of an order-preserving subsequence |
| `trimming.dfy` | `Trimming` | `String.prototype.trim` over a fixed set of whitespace characters |
| `todos.dfy` | `Todos` | the `{id, text, completed}` record, id counting and distinctness, and the toggle and delete transitions |
| `app_jsx.dfy` | `JsxApp` | variant A: add, edit, save, clear-completed, the filtered view, the remaining count, the store invariant over every user action |
| `todo_list.dfy` | `TodoList` | variant B's `filteredTodos` view |
| `app_tsx.dfy` | `TsxApp` | variant B's add; its delete and toggle are `Todos.Delete` and `Todos.Toggle` |
| `variants.dfy` | `Variants` | the views of the two variants select the same todos |

Modelling decisions:

- **Ids.** An id is a `nat` supplied by the caller. In the app it comes from
  `uuidv4()` (variant A) or `Date.now()` (variant B). Wherever distinct ids are
  needed, freshness of the supplied id is a precondition, because `Date.now()`
  can collide.
- **createdAt.** It is `Some(now)` in variant A, with `now` supplied by the
  caller. It is `None` in variant B, whose records have no such field.
- **Shared transitions.** Toggle and delete are the same `map` and `filter`
  line in both variants, so each is defined once, in `Todos`.
- **Add in variant A.** `JsxApp.AddTodo` works on the component state (list,
  draft text, filter) because the handler also clears the draft.
- **Editing.** `JsxApp.Save` models the item's `save` guard feeding `saveEdit`.
  A blank edit never reaches the list.

## Model

| member | source | states |
|---|---|---|
| Todos.Toggle | src/App.jsx:83-85 | same length and order; every record keeps its id, text and createdAt; `completed` is flipped exactly on the records whose id matches |
| Todos.ToggleTwice | src/App.tsx:22-27 | toggling the same id twice restores the original list, whether or not the id is present (the same line is App.jsx:84) |
| Todos.ToggleAbsent | src/App.jsx:84 | toggling an id no todo carries returns the list unchanged |
| Todos.ToggleKeepsIds | src/App.tsx:22-27 | toggling never changes how often any id occurs, so distinct ids stay distinct |
| Todos.Delete | src/App.jsx:87-89 | the result holds exactly the todos without that id, as an order-preserving subsequence; its length drops by exactly the number of todos carrying the id |
| Todos.DeleteRemovesId | src/App.jsx:88 | afterwards no todo carries the deleted id |
| Todos.DeleteAbsent | src/App.jsx:88 | deleting an absent id returns the list unchanged |
| Todos.DeleteIdempotent | src/App.tsx:19 | a second delete of the same id is a no-op (the same line is App.jsx:88) |
| Todos.DeleteKeepsOthers | src/App.jsx:88 | every other id occurs exactly as often as before |
| Todos.DeleteKeepsDistinct | src/App.tsx:19 | delete keeps ids distinct |
| Todos.DistinctIdsPairwise | src/components/TodoList.tsx:53 | the id-uniqueness the list relies on for its `key={todo.id}` (also App.jsx:134): "every id occurs at most once" is the same as "no two positions carry the same id" |
| Trimming.Trim | src/App.jsx:76 | the trimmed text does not start or end with whitespace, and it is empty exactly when the input is all whitespace |
| Trimming.TrimIsInfix | src/App.jsx:76 | the trimmed text is the contiguous piece of the input after its leading whitespace; only whitespace is cut on either side |
| Trimming.TrimIdempotent | src/App.jsx:14 | trimming twice is trimming once |
| JsxApp.AddTodo | src/App.jsx:74-81 | a blank draft leaves the whole state unchanged; otherwise the list grows by exactly one, the head is an incomplete todo with the trimmed draft, the given id and creation time, the tail is the old list, and the draft is cleared |
| JsxApp.SaveEdit | src/App.jsx:91-93 | same length and order; ids, `completed` and createdAt unchanged; only the matching todos get the new text |
| JsxApp.Save | src/App.jsx:13-18 | a blank edit leaves the list unchanged; otherwise the list is `saveEdit` with the trimmed value, which is non-empty |
| JsxApp.ClearCompleted | src/App.jsx:95-97 | the result contains no completed todo and every incomplete one exactly as often as the list does, as an order-preserving subsequence |
| JsxApp.Filtered | src/App.jsx:99-103 | the view is an order-preserving subsequence holding, each as often as the list does, everything for `all`, the incomplete todos for `active`, the completed ones for `completed` |
| JsxApp.Remaining | src/App.jsx:105 | the count is at most the list length, and it is zero exactly when every todo is completed |
| JsxApp.FilteredAll | src/App.jsx:102 | the `all` view is the whole list |
| JsxApp.FilteredIdempotent | src/App.jsx:99-103 | re-applying a view to its own result changes nothing |
| JsxApp.FilteredCountsAddUp | src/App.jsx:100-101 | the `active` and `completed` view lengths add up to the list length |
| JsxApp.RemainingIsActiveView | src/App.jsx:105 | `remaining` equals the length of the `active` view |
| JsxApp.ClearCompletedIsActiveView | src/App.jsx:96 | clear-completed leaves exactly the `active` view |
| JsxApp.ClearCompletedNoneDone | src/App.jsx:96 | with no completed todo, clear-completed returns the list unchanged |
| JsxApp.ClearCompletedIdempotent | src/App.jsx:96 | clearing twice is clearing once |
| JsxApp.ClearCompletedKeepsRemaining | src/App.jsx:96 | clear-completed does not change `remaining` |
| JsxApp.SaveEditKeepsIds | src/App.jsx:92 | editing never changes how often any id occurs |
| JsxApp.TrimmedTextIsFixed | src/App.jsx:78 | the stored-text invariant (what `text: trimmed` stores): a non-empty text with no whitespace at either end is exactly what `trim()` leaves |
| JsxApp.AddTodoKeepsTexts | src/App.jsx:76-79 | if every stored text is trimmed and non-empty, that stays so after add |
| JsxApp.AddTodoKeepsDistinct | src/App.jsx:78-79 | adding with a fresh id keeps ids distinct |
| JsxApp.SaveKeepsTexts | src/App.jsx:13-16 | if every stored text is trimmed and non-empty, that stays so after an edit |
| JsxApp.SaveKeepsDistinct | src/App.jsx:92 | editing keeps ids distinct |
| JsxApp.ToggleKeepsValid | src/App.jsx:84 | toggle keeps the store invariant (trimmed non-empty texts, distinct ids) |
| JsxApp.DeleteKeepsValid | src/App.jsx:88 | delete keeps the store invariant |
| JsxApp.ClearCompletedKeepsValid | src/App.jsx:96 | clear-completed keeps the store invariant |
| JsxApp.Step | src/App.jsx:111-126 | the component's event wiring (form submit App.jsx:111, draft input 114, filter buttons 124-126; checkbox 27, edit save 39 and 50, delete 54, Clear completed 141): only typing and submit touch the draft, only the filter buttons touch the filter, and typing, filter choice and a blank submit leave the list unchanged |
| JsxApp.StepKeepsValid | src/App.jsx:74-97 | every user action (typing, submit, check, delete, save edit, clear completed, choose filter) keeps the store invariant, given fresh ids on submit (`FreshFor`: a submitted id occurs nowhere in the list, which is what a uuid is assumed to guarantee) |
| JsxApp.AddToEmpty | src/App.jsx:74-81 | adding "Buy milk" to an empty list gives that one incomplete todo, and one item left |
| JsxApp.BlankEditRejected | src/App.jsx:13-16 | after adding "X", saving an empty edit leaves the text "X" |
| TodoList.FilteredTodos | src/components/TodoList.tsx:17-20 | the view is an order-preserving subsequence holding every todo the filter shows, each as often as in the input, and nothing else |
| TodoList.FilteredAllIsInput | src/components/TodoList.tsx:18-19 | the `all` filter shows the input list itself |
| TodoList.CompletedView | src/components/TodoList.tsx:20 | the `completed` filter shows exactly the completed todos |
| TodoList.IncompleteView | src/components/TodoList.tsx:20 | the `incomplete` filter shows exactly the todos not completed |
| TodoList.CountsAddUp | src/components/TodoList.tsx:20 | the completed and incomplete view lengths add up to the list length |
| TodoList.FilteredNoLonger | src/components/TodoList.tsx:17-20 | no view is longer than the list |
| TodoList.FilteredIdempotent | src/components/TodoList.tsx:20 | re-applying the same filter to its own result changes nothing |
| TsxApp.AddTodo | src/App.tsx:9-16 | the list grows by one; the old list is the unchanged prefix; the last todo is incomplete, has the given id, and holds the text exactly as given |
| TsxApp.AddTodoDistinct | src/App.tsx:11 | ids stay distinct after add exactly when they were distinct before and the new id is fresh |
| TsxApp.DeleteAfterAdd | src/App.tsx:19 | deleting the id just added removes the new todo and every older todo that collided with it, and nothing else |
| TsxApp.AddTwiceOrder | src/App.tsx:15 | adding "A" then "B" gives the list in entry order |
| TsxApp.ToggleThenFilter | src/App.tsx:22-27 | after adding "A" and "B" and toggling "A", the completed view is ["A"] and the incomplete view is ["B"] |
| Variants.ViewsAgree | src/App.jsx:99-103 | App.jsx's `filtered` and TodoList.tsx's `filteredTodos` give the same list for corresponding filters (`active` matches `incomplete`) |

Facts about the code that the model keeps as written:

- **Toggle** flips every todo carrying the id, not only the first one (App.jsx:84, App.tsx:24-26).
- **Delete** removes every todo carrying the id, so the length drops by their number (App.jsx:88, App.tsx:19).
- **Trimming of edits** and the blank check live in `TodoItem.save` (App.jsx:13-16); `saveEdit` stores what it is given (App.jsx:91-93). Both are modelled: `Save` and `SaveEdit`.
- **App.tsx's `addTodo`** neither trims nor rejects its text (App.tsx:9-16).

## Left out

- Persistence: loading from and saving to `localStorage` under `rt-todo-v1` with `JSON.parse` / `JSON.stringify` (App.jsx:65-72) is foreign browser and library code; no serialiser is visible to model, so no round trip is stated.
- Id and timestamp generation: `uuidv4()` and `Date.now()` are foreign; ids and creation times are parameters.
- Trimming.Trim: uses a fixed whitespace set (the ECMAScript WhiteSpace and LineTerminator code points as listed in `trimming.dfy`); it does not follow the Unicode version of any particular JavaScript engine.
- Rendering, Tailwind classes, the edit-mode, focus and draft-value state of `TodoItem` (`useState`, `useRef`, `useEffect`), and the Cancel button: UI state and event wiring. `save` staying in edit mode on a blank value is therefore not modelled.
- React's state plumbing (`setTodos`, updater functions, re-rendering) is left out. In App.jsx each handler hands `setTodos` an updater function (App.jsx:79, 84, 88, 92, 96), and the model is that function.
- App.tsx's handlers instead hand `setTodos` a list built from the `todos` of the last render (App.tsx:15, 19, 23-27). Two calls before a re-render both start from the same snapshot, and the later one overwrites the earlier. The model assumes one action per render: each App.tsx action sees the previous action's result, as `TsxApp.AddTwiceOrder`, `TsxApp.DeleteAfterAdd` and `TsxApp.ToggleThenFilter` compose them. Lost updates between renders are not modelled.
- App.jsx's `filter` state is a string, and any value other than `'active'` or `'completed'` shows everything. The model has only the three values its buttons set.
- Todo.tsx is presentational. Only its record shape is used.
- TodoForm is imported by App.tsx but is not part of this model, so any trimming or validation it does is not modelled.
- The immutability of the input lists is not stated as a property: Dafny sequences are values, so no operation can modify its input.
