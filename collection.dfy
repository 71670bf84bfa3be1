/** The task list held in a signal and the three components that change it:
    Home loads it, Input appends to it, and each TaskItem re-statuses or
    removes its own entry. Every handler calls the store first and touches
    the list only when that call succeeded. The store's answer is a
    parameter of each handler; the call the handler issued is returned. */
module Collection {
  import opened Tasks
  import opened Store

  /** The `Signal<Vec<Task>>` that Home creates and hands to Input, TaskList
      and every TaskItem; all of them read and write the same list. */
  class TaskSignal {
    var value: seq<Task>

    /** `use_signal(|| vec![])`. */
    constructor ()
      ensures value == []
    {
      value := [];
    }
  }

  /** Home's effect: ask the store for every task; on success the list
      becomes exactly the store's answer, on failure it stays as it was. */
  method LoadTasks(tasks: TaskSignal, fetched: Result<seq<Task>>) returns (call: StoreCall)
    modifies tasks
    ensures call == GetAllTasks
    ensures fetched.Ok? ==> tasks.value == fetched.value
    ensures fetched.Err? ==> tasks.value == old(tasks.value)
  {
    call := GetAllTasks;
    if fetched.Ok? {
      tasks.value := fetched.value;
    }
  }

  /** Home: a fresh empty list, then the load effect; if the load fails the
      list is still empty. */
  method Home(fetched: Result<seq<Task>>) returns (tasks: TaskSignal)
    ensures fresh(tasks)
    ensures tasks.value == if fetched.Ok? then fetched.value else []
  {
    tasks := new TaskSignal();
    var _ := LoadTasks(tasks, fetched);
  }

  /** The new-task form: the title being typed, the selected tag, and the
      shared list it appends to. */
  class Input {
    const tasks: TaskSignal
    var newTitle: string
    var newTag: string

    constructor (tasks: TaskSignal)
      ensures this.tasks == tasks
      ensures newTitle == [] && newTag == DefaultTag
    {
      this.tasks := tasks;
      newTitle := [];
      newTag := DefaultTag;
    }

    /** The title box's `oninput`: the title becomes what was typed. */
    method OnTitleInput(text: string)
      modifies this`newTitle
      ensures newTitle == text
    {
      newTitle := text;
    }

    /** The tag picker's `onchange`: any value is taken as is. */
    method OnTagChange(tag: string)
      modifies this`newTag
      ensures newTag == tag
    {
      newTag := tag;
    }

    /** `add_task`. A blank title is ignored without calling the store.
        Otherwise the task (id 0, the title as typed, the selected tag,
        "Pending") is sent to the store; if the store refuses, the handler
        aborts (`expect`) before touching anything; if it accepts, that same
        task is appended and the title is cleared while the tag stays. */
    method AddTask(inserted: Result<()>) returns (issued: Option<StoreCall>, aborted: bool)
      modifies this`newTitle, tasks
      ensures IsBlank(old(newTitle)) ==>
        issued == None && !aborted && tasks.value == old(tasks.value) && newTitle == old(newTitle)
      ensures !IsBlank(old(newTitle)) ==>
        issued == Some(InsertTask(Task(0, old(newTitle), newTag, InitialStatus)))
      ensures aborted <==> !IsBlank(old(newTitle)) && inserted.Err?
      ensures aborted ==> tasks.value == old(tasks.value) && newTitle == old(newTitle)
      ensures !IsBlank(old(newTitle)) && inserted.Ok? ==>
        tasks.value == old(tasks.value) + [Task(0, old(newTitle), newTag, InitialStatus)] && newTitle == []
    {
      if Trim(newTitle) == [] {
        return None, false;
      }
      var newTask := Task(0, newTitle, newTag, InitialStatus);
      issued := Some(InsertTask(newTask));
      if inserted.Err? {
        return issued, true;
      }
      tasks.value := tasks.value + [newTask];
      newTitle := [];
      aborted := false;
    }
  }

  /** One rendered row: the task it was rendered from, its position in the
      list, the shared list, and its own status signal, which starts at the
      task's status. */
  class TaskItem {
    const task: Task
    const idx: nat
    const tasks: TaskSignal
    var status: string

    constructor (task: Task, idx: nat, tasks: TaskSignal)
      ensures this.task == task && this.idx == idx && this.tasks == tasks
      ensures status == task.status
    {
      this.task := task;
      this.idx := idx;
      this.tasks := tasks;
      status := task.status;
    }

    /** The status picker's `onchange`. Any status string is sent for the
        row's id. Only when the store accepts does the row's own status and
        the list entry at `idx` take the new value; nothing else in the list
        changes. Indexing the list happens only on success, so only then
        must `idx` be in range. */
    method OnStatusChange(newStatus: string, updated: Result<()>) returns (call: StoreCall)
      requires updated.Ok? ==> idx < |tasks.value|
      modifies this`status, tasks
      ensures call == UpdateTaskStatus(task.id, newStatus)
      ensures updated.Ok? ==>
        status == newStatus && tasks.value == WithStatus(old(tasks.value), idx, newStatus)
      ensures updated.Err? ==> status == old(status) && tasks.value == old(tasks.value)
    {
      call := UpdateTaskStatus(task.id, newStatus);
      if updated.Ok? {
        status := newStatus;
        tasks.value := WithStatus(tasks.value, idx, newStatus);
      }
    }

    /** The delete button's `onclick`. The row's id is sent; only when the
        store accepts is position `idx` removed from the list. */
    method OnDelete(deleted: Result<()>) returns (call: StoreCall)
      requires deleted.Ok? ==> idx < |tasks.value|
      modifies tasks
      ensures call == DeleteTask(task.id)
      ensures deleted.Ok? ==> tasks.value == RemoveAt(old(tasks.value), idx)
      ensures deleted.Err? ==> tasks.value == old(tasks.value)
    {
      call := DeleteTask(task.id);
      if deleted.Ok? {
        tasks.value := RemoveAt(tasks.value, idx);
      }
    }
  }
}
