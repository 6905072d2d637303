/** The to-do component's state and its handlers. Each handler is one atomic
    transition of the four state fields; the list work is done by the
    functions of `TaskList`. */
module TodoApp {
  import opened Text
  import opened TaskList

  /** An optional value; `None` stands for the component's `null`. */
  datatype Option<T> = None | Some(value: T)

  /** The component's state: the task list, the add-box text, the id of the
      task being edited (if any) and the edit scratch text. */
  class App {
    var tasks: seq<Task>
    var newTask: string
    var editingTaskId: Option<int>
    var editingText: string

    /** The scratch text is only in use while an edit is in progress. */
    predicate Valid()
      reads this
    {
      editingTaskId.None? ==> editingText == ""
    }

    /** A fresh component whose list is `saved` (what storage held at start-up,
        or the empty list) and whose text and edit state are empty. */
    constructor (saved: seq<Task>)
      ensures Valid()
      ensures tasks == saved && newTask == ""
      ensures editingTaskId == None && editingText == ""
    {
      tasks := saved;
      newTask := "";
      editingTaskId := None;
      editingText := "";
    }

    /** Typing in the add box replaces its text. */
    method SetNewTask(text: string)
      requires Valid()
      modifies this
      ensures Valid()
      ensures newTask == text && tasks == old(tasks)
      ensures editingTaskId == old(editingTaskId) && editingText == old(editingText)
    {
      newTask := text;
    }

    /** Adds the add-box text as a new, not-done task with the given `id` (the
        clock reading) at the end of the list and clears the box, unless the
        text is blank, in which case nothing changes. The stored text is the
        untrimmed one. */
    method AddTask(id: int)
      requires Valid()
      modifies this
      ensures Valid()
      ensures IsBlank(old(newTask)) ==> tasks == old(tasks) && newTask == old(newTask)
      ensures !IsBlank(old(newTask)) ==>
                tasks == old(tasks) + [Task(id, old(newTask), false)] && newTask == ""
      ensures editingTaskId == old(editingTaskId) && editingText == old(editingText)
    {
      if Trim(newTask) == "" {
        return;
      }
      var task := Task(id, newTask, false);
      tasks := tasks + [task];
      newTask := "";
    }

    /** Removes every task carrying `id`, keeping the others in order; the
        list shrinks by the number of matches and is untouched when none match. */
    method DeleteTask(id: int)
      requires Valid()
      modifies this
      ensures Valid()
      ensures tasks == Remove(old(tasks), id)
      ensures |tasks| == |old(tasks)| - CountId(old(tasks), id)
      ensures !HasId(old(tasks), id) ==> tasks == old(tasks)
      ensures newTask == old(newTask)
      ensures editingTaskId == old(editingTaskId) && editingText == old(editingText)
    {
      if !HasId(tasks, id) {
        RemoveAbsent(tasks, id);
      }
      tasks := Remove(tasks, id);
    }

    /** Flips `done` on every task carrying `id`; doing it twice restores the list. */
    method ToggleDone(id: int)
      requires Valid()
      modifies this
      ensures Valid()
      ensures tasks == Toggle(old(tasks), id)
      ensures Toggle(tasks, id) == old(tasks)
      ensures newTask == old(newTask)
      ensures editingTaskId == old(editingTaskId) && editingText == old(editingText)
    {
      ToggleInvolution(tasks, id);
      tasks := Toggle(tasks, id);
    }

    /** Begins editing task `id` with `text` as scratch, discarding any edit in
        progress; the list and the add box are untouched. */
    method StartEdit(id: int, text: string)
      requires Valid()
      modifies this
      ensures Valid()
      ensures editingTaskId == Some(id) && editingText == text
      ensures tasks == old(tasks) && newTask == old(newTask)
    {
      editingTaskId := Some(id);
      editingText := text;
    }

    /** Typing in the edit box replaces the scratch text; the box is only shown
        for the task being edited, so an edit is in progress. */
    method SetEditingText(text: string)
      requires Valid() && editingTaskId.Some?
      modifies this
      ensures Valid()
      ensures editingText == text && editingTaskId == old(editingTaskId)
      ensures tasks == old(tasks) && newTask == old(newTask)
    {
      editingText := text;
    }

    /** Writes the scratch text, without any blank check, into every task
        carrying `id`, then ends the edit whether or not a task matched. */
    method SaveEdit(id: int)
      requires Valid()
      modifies this
      ensures Valid()
      ensures tasks == SetText(old(tasks), id, old(editingText))
      ensures !HasId(old(tasks), id) ==> tasks == old(tasks)
      ensures editingTaskId == None && editingText == ""
      ensures newTask == old(newTask)
    {
      if !HasId(tasks, id) {
        SetTextAbsent(tasks, id, editingText);
      }
      tasks := SetText(tasks, id, editingText);
      editingTaskId := None;
      editingText := "";
    }
  }

  /** A session from an empty list: a blank add is ignored, `text` is added as
      task `id`, toggled done, edited to the empty string (which save accepts,
      unlike add) and finally deleted, leaving the list empty again. */
  method SessionScenario(id: int, text: string)
    returns (afterBlankAdd: seq<Task>, afterAdd: seq<Task>, afterToggle: seq<Task>,
             afterEdit: seq<Task>, afterDelete: seq<Task>)
    requires !IsBlank(text)
    ensures afterBlankAdd == []
    ensures afterAdd == [Task(id, text, false)]
    ensures afterToggle == [Task(id, text, true)]
    ensures afterEdit == [Task(id, "", true)]
    ensures afterDelete == []
  {
    var app := new App([]);
    app.SetNewTask(" \t ");
    assert IsBlank(app.newTask);
    app.AddTask(id);
    afterBlankAdd := app.tasks;
    app.SetNewTask(text);
    app.AddTask(id);
    afterAdd := app.tasks;
    app.ToggleDone(id);
    afterToggle := app.tasks;
    app.StartEdit(id, text);
    app.SetEditingText("");
    app.SaveEdit(id);
    afterEdit := app.tasks;
    app.DeleteTask(id);
    afterDelete := app.tasks;
  }
}
