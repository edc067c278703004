/**
 * The App component's state and its event handlers. Each handler is one
 * atomic transition of the four state values; the persistence effect that
 * runs after every change of the task list is folded into the handlers that
 * set the list, as a write of the whole list to the "tasks" storage slot.
 */
module TodoApp {

  import opened Wrappers
  import opened JsString
  import opened TaskList

  /**
   * What the "tasks" storage slot can hold: nothing, the empty string, or the
   * serialisation of a task list (abstracted as the list it parses back to).
   */
  datatype Saved = Absent | EmptyText | Snapshot(tasks: seq<Task>)

  /**
   * The initial task list: a missing or empty slot (both falsy) gives the
   * empty list, a stored snapshot gives the list it holds.
   */
  function Load(saved: Saved): (r: seq<Task>)
    ensures saved.Snapshot? ==> saved == Snapshot(r)
    ensures !saved.Snapshot? ==> r == []
  {
    if saved.Snapshot? then saved.tasks else []
  }

  /**
   * The truthiness test on the edit cursor: null means "not editing", and so
   * does the id 0, which is falsy; a task with id 0 cannot be edited.
   */
  predicate Editing(editId: Option<int>)
    ensures Editing(editId) <==> editId !in {None, Some(0)}
  {
    editId.Some? && editId.value != 0
  }

  class TaskStore {
    /** The task list, in display order. */
    var tasks: seq<Task>
    /** The text box, shared by "add a task" and "edit a task". */
    var newTask: string
    /** The selected filter button. */
    var filter: FilterMode
    /** The id of the task being edited, if any. */
    var editId: Option<int>
    /** The "tasks" slot of the browser's local storage. */
    var stored: Saved

    /** The storage slot holds the current task list. */
    ghost predicate Valid()
      reads this
    {
      stored == Snapshot(tasks)
    }

    /** Mounting: the list is loaded from storage, then written back. */
    constructor (saved: Saved)
      ensures Valid()
      ensures tasks == Load(saved)
      ensures newTask == "" && filter == All && editId == None
    {
      tasks := Load(saved);
      newTask := "";
      filter := All;
      editId := None;
      stored := Snapshot(Load(saved));
    }

    /** Typing in the text box replaces its contents. */
    method SetNewTask(text: string)
      modifies this`newTask
      ensures newTask == text
    {
      newTask := text;
    }

    /**
     * The Add/Update button. A blank text box changes nothing at all. Otherwise,
     * when editing, the edited task gets the text and the cursor is cleared;
     * when not editing, a new uncompleted task with the id `now` (the clock
     * reading) and the untrimmed text is appended. Either way the text box is
     * emptied and the list is persisted.
     */
    method Commit(now: int)
      requires Valid()
      modifies this`tasks, this`newTask, this`editId, this`stored
      ensures Valid()
      ensures IsBlank(old(newTask)) ==>
        tasks == old(tasks) && newTask == old(newTask) && editId == old(editId) && stored == old(stored)
      ensures !IsBlank(old(newTask)) ==> newTask == ""
      ensures !IsBlank(old(newTask)) && Editing(old(editId)) ==>
        tasks == Rename(old(tasks), old(editId).value, old(newTask)) && editId == None
      ensures !IsBlank(old(newTask)) && Editing(old(editId)) && old(editId).value !in Ids(old(tasks)) ==>
        tasks == old(tasks)
      ensures !IsBlank(old(newTask)) && !Editing(old(editId)) ==>
        tasks == Append(old(tasks), now, old(newTask)) && editId == old(editId)
      ensures DistinctIds(old(tasks)) && (Editing(old(editId)) || now !in Ids(old(tasks))) ==> DistinctIds(tasks)
    {
      var text, ts, cursor := newTask, tasks, editId;
      if IsBlank(text) {
        return;
      }
      var next: seq<Task>;
      if Editing(cursor) {
        next := Rename(ts, cursor.value, text);
        assert DistinctIds(ts) ==> DistinctIds(next);
        editId := None;
      } else {
        next := Append(ts, now, text);
        assert DistinctIds(ts) && now !in Ids(ts) ==> DistinctIds(next);
      }
      tasks, newTask, stored := next, "", Snapshot(next);
    }

    /** The delete button: the tasks with that id go, the rest stay in order. */
    method DeleteTask(id: int)
      requires Valid()
      modifies this`tasks, this`stored
      ensures Valid()
      ensures tasks == Without(old(tasks), id)
      ensures id !in Ids(old(tasks)) ==> tasks == old(tasks)
      ensures DistinctIds(old(tasks)) ==> DistinctIds(tasks) && |tasks| == |old(tasks)| - (if id in Ids(old(tasks)) then 1 else 0)
    {
      var ts := tasks;
      if id !in Ids(ts) {
        WithoutAbsent(ts, id);
      }
      if DistinctIds(ts) {
        WithoutDistinct(ts, id);
        WithoutLength(ts, id);
      }
      tasks := Without(ts, id);
      stored := Snapshot(tasks);
    }

    /** Clicking a task's text flips its completion flag. */
    method ToggleComplete(id: int)
      requires Valid()
      modifies this`tasks, this`stored
      ensures Valid()
      ensures tasks == Toggle(old(tasks), id)
      ensures DistinctIds(tasks) <==> DistinctIds(old(tasks))
    {
      tasks := Toggle(tasks, id);
      stored := Snapshot(tasks);
    }

    /** The edit button: the text box gets the task's text and the cursor its id; the list is untouched. */
    method EditTask(id: int, text: string)
      modifies this`newTask, this`editId
      ensures newTask == text && editId == Some(id)
      ensures Editing(editId) <==> id != 0
    {
      newTask := text;
      editId := Some(id);
    }

    /** A filter button: only the filter changes. */
    method SetFilter(mode: FilterMode)
      modifies this`filter
      ensures filter == mode
    {
      filter := mode;
    }

    /** The tasks on screen: those the filter shows, in list order; "All" shows every task. */
    function FilteredTasks(): (r: seq<Task>)
      reads this
      ensures forall t :: t in r <==> t in tasks && Shows(filter, t)
      ensures forall t :: Shows(filter, t) ==> multiset(r)[t] == multiset(tasks)[t]
      ensures IsSubsequence(r, tasks)
      ensures filter == All ==> r == tasks
    {
      VisibleAll(tasks);
      Visible(tasks, filter)
    }

    /** The commit button's label: "Update" exactly while editing. */
    function CommitLabel(): (r: string)
      reads this
      ensures r == "Update" <==> Editing(editId)
      ensures r == "Add" <==> !Editing(editId)
    {
      if Editing(editId) then "Update" else "Add"
    }
  }
}
