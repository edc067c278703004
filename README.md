# To-do list task store, modelled in Dafny

This project models the state machine inside the single React component
`App` of a to-do list page. The component keeps four state values:

- the task list `tasks`, a sequence of `{id, text, completed}` records;
- the text box `newTask`;
- the filter mode `filter`;
- the edit cursor `editId`.

Its handlers change these values, and one derived view reads them:

- `addTask` is the combined Add/Update commit;
- `deleteTask`, `toggleComplete` and `editTask` handle the per-task buttons;
- the filter buttons' `setFilter` callbacks set the filter;
- `filteredTasks` is the derived view.

After every change of the list, an effect writes the whole list to the
`"tasks"` slot of local storage.

Files:

- `wrappers.dfy`: `Option`, used for the edit cursor.
- `js_string.dfy` (module `JsString`): JavaScript's `trim` and the blank-input
  test `!s.trim()`.
- `task_list.dfy` (module `TaskList`): the `Task` record, the filter modes,
  and the pure list computations the handlers make. These are:
  - `UpdateWhere`, the id-keyed `map`, with `Rename` and `Toggle` built on it;
  - `Keep`, the `filter`, with `Without` and `Visible` built on it;
  - `Append`.

  The file also holds the lemmas about these computations.
- `task_store.dfy` (module `TodoApp`): the class `TaskStore`. Its fields are
  the four state values and the storage slot. Its methods are the handlers.
  Each method's postcondition gives the new state in terms of the old one,
  and the `modifies` frame says which fields it may change.

Modelling choices:

- The clock reading `Date.now()` that gives a new task its id is the
  parameter `now` of `Commit`. The model does not require `now` to be fresh.
  Instead, `Commit` promises that ids stay distinct whenever `now` is fresh.
  Every other handler keeps ids distinct unconditionally.
- The edit cursor is `Option<int>`. The source tests it for truthiness, so
  the cursor `Some(0)` behaves like "not editing" (`Editing`). A task with id
  0 therefore cannot be edited: the button reads "Add", and committing appends
  a new task without clearing the cursor.
- The storage slot is `Saved`: absent, the empty string, or a snapshot of a
  task list. A snapshot stands for the JSON text that parses back to that list.

In these points the model follows the code as written:

- Malformed stored data is not recovered from. `JSON.parse` is called with
  no guard (App.js:6), so it throws. The model has no value for malformed
  data.
- The stored text of a task is the untrimmed text box (App.js:22, App.js:27).
  Only the blank test trims it.
- Editing renames every task that carries the cursor's id, because the rename
  is a `map` over the whole list (App.js:21-23). With distinct ids, that is at
  most one task.

## Model

| member | source | states |
|---|---|---|
| `JsString.TrimStart` | App.js:18 | the result is a suffix of the input, everything cut off is white space, and it does not start with white space |
| `JsString.TrimEnd` | App.js:18 | the result is a prefix of the input, everything cut off is white space, and it does not end with white space |
| `JsString.Trim` | App.js:18 | the result is a slice of the input with only white space cut off before and after it, and a non-empty result neither starts nor ends with white space |
| `JsString.IsBlank` | App.js:18 | the commit's blank test `!newTask.trim()` holds exactly when every character of the text box is white space (the empty box included) |
| `TaskList.UpdateWhere` | App.js:21-23 | the id-keyed map keeps the length; at each position it applies the update when the id matches and keeps the task otherwise |
| `TaskList.WithText` | App.js:22 | the spread `{ ...t, text: newTask }` keeps the id and the completion flag and sets the text |
| `TaskList.Flip` | App.js:39 | the spread `{ ...t, completed: !t.completed }` keeps the id and the text and negates the flag |
| `TaskList.Rename` | App.js:19-24 | an edit commit keeps length, ids and completion flags, and sets the text exactly on the tasks whose id matches; ids stay distinct; an absent id changes nothing |
| `TaskList.Toggle` | App.js:36-42 | a toggle keeps length, ids and texts, and flips the completion flag exactly on the tasks whose id matches; ids stay distinct; an absent id changes nothing |
| `TaskList.ToggleTwice` | App.js:36-42 | toggling the same id twice restores the original list |
| `TaskList.Keep` | App.js:33 | the filter keeps each task that passes as often as the list holds it, drops every task that fails, and keeps the list order |
| `TaskList.IdIsNot` | App.js:33 | the delete's callback accepts a task exactly when its id differs from the deleted id |
| `TaskList.KeepAll` | App.js:49-53 | when every task passes, the filter returns the list unchanged |
| `TaskList.KeepDistinct` | App.js:98 | filtering a list whose ids are distinct (they are the view's element keys) gives a list whose ids are distinct |
| `TaskList.Without` | App.js:32-34 | a delete removes exactly the tasks with that id and keeps every other task, with its multiplicity, in order |
| `TaskList.WithoutAbsent` | App.js:33 | deleting an id that no task has leaves the list identical |
| `TaskList.WithoutLength` | App.js:33 | with distinct ids, a delete removes one task if the id is present and none otherwise |
| `TaskList.WithoutDistinct` | App.js:33 | a delete keeps ids distinct |
| `TaskList.Shows` | App.js:49-53 | the view's callback: "all" (and any other mode) accepts every task; "active" accepts exactly the uncompleted tasks and "completed" exactly the completed ones |
| `TaskList.Visible` | App.js:49-53 | the view holds exactly the tasks that the mode shows, each as often as the list holds it, in list order |
| `TaskList.VisibleAll` | App.js:52 | the "all" mode shows the whole list |
| `TaskList.VisiblePartition` | App.js:50-51 | the "active" and "completed" views together hold every task exactly as often as the list does, their lengths add up to the list's length, and no task is in both |
| `TaskList.Append` | App.js:27 | an add commit gives the old list as a prefix followed by exactly one uncompleted task with the given id and text; a fresh id keeps ids distinct |
| `TodoApp.Load` | App.js:4-7 | an absent or empty storage slot loads as the empty list; a stored snapshot loads as the list it was written from |
| `TodoApp.Editing` | App.js:19 | the cursor counts as editing exactly when it is neither null nor the falsy id 0 |
| `TodoApp.TaskStore.constructor` | App.js:4-15 | mounting loads the list from storage and writes it back, with an empty text box, the "all" filter and no edit cursor |
| `TodoApp.TaskStore.SetNewTask` | App.js:63 | typing replaces the text box contents and changes nothing else |
| `TodoApp.TaskStore.Commit` | App.js:17-30 | covers every case of the commit: see the list after this table |
| `TodoApp.TaskStore.DeleteTask` | App.js:32-34 | the list becomes `Without(list, id)` and is persisted; an absent id leaves it identical; with distinct ids, at most one task goes and ids stay distinct |
| `TodoApp.TaskStore.ToggleComplete` | App.js:36-42 | the list becomes `Toggle(list, id)` and is persisted; ids stay distinct |
| `TodoApp.TaskStore.EditTask` | App.js:44-47 | the text box gets the text and the cursor the id, the list is not touched, and the cursor counts as editing exactly when the id is not 0 |
| `TodoApp.TaskStore.SetFilter` | App.js:72-89 | only the filter changes |
| `TodoApp.TaskStore.FilteredTasks` | App.js:49-53 | the view is an order-preserving subsequence of the list holding exactly the tasks the current filter shows, each as often as the list holds it; the "all" filter shows the whole list |
| `TodoApp.TaskStore.CommitLabel` | App.js:66-68 | the button reads "Update" exactly while an edit cursor is set (truthy), and "Add" otherwise |

`Commit` states these cases:

- A blank text box changes nothing: not the list, the text box, the cursor or
  the storage slot.
- Otherwise the text box is emptied and the new list is persisted.
- While editing, the list becomes `Rename(list, cursor, text)` and the cursor
  is cleared. If no task has the cursor's id, the list is unchanged.
- While not editing, the list becomes `Append(list, now, text)` and the cursor
  is kept.
- Ids stay distinct if they were distinct and either the commit edits or
  `now` is fresh.

## Left out

- Rendering: the JSX tree, the `styles` object and the "No Tasks" message
  (App.js:55-199) are presentation only.
- JSON: `JSON.stringify` and `JSON.parse` are foreign library calls. A stored
  snapshot is the task list itself. Malformed stored text makes the source
  throw; that is not modelled.
- Storage: `localStorage` is modelled as one field holding the `"tasks"` slot.
  Its reads and writes are assumed to succeed.
- The clock: `Date.now()` is replaced by the parameter `now`.
- React scheduling: state updates, the effect and re-renders are taken as one
  atomic step per handler. Handlers read the state of the previous step, as
  the source's closures do.
- Numbers: ids are mathematical integers. JavaScript numbers that are not
  integers, and NaN, are not modelled.
- Filter values: the filter is one of three modes. The view's fallback for any
  other string is `All`, but the source only ever sets the three strings.
- Text: strings are sequences of Unicode scalar values, not UTF-16 code units.
  Every character `trim` strips lies in the Basic Multilingual Plane, so the
  blank test is the same either way.
