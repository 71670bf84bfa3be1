/** What the store-first, mirror-second handlers keep in step. A session
    pairs the on-screen list with a reference store that answers as its
    contract says; each user intent runs the handler's store call against
    that store and then applies the handler's list edit only on success.
    Once a load has succeeded, the list mirrors the store position by
    position, except that a task appended by Add still carries the
    placeholder id 0 where the store holds the id it assigned. The methods
    at the end run the handlers of `Collection` against the reference store
    and show that each one is exactly its intent's `Step`. */
module Sync {
  import opened Tasks
  import opened Store
  import opened Collection

  /** A list entry shows a store row: same title, tag and status, and either
      the row's id or the placeholder 0. */
  predicate Reflects(entry: Task, row: Task)
  {
    && entry.title == row.title && entry.tag == row.tag && entry.status == row.status
    && (entry.id == row.id || entry.id == 0)
  }

  /** The list has one entry per store row, in the store's order. */
  ghost predicate Mirrors(view: seq<Task>, db: Db)
  {
    |view| == |db.rows| && forall i :: 0 <= i < |view| ==> Reflects(view[i], db.rows[i])
  }

  /** A user intent. Positions come from the rows on screen, and each row
      was rendered from the current list, so the id a row sends is the id
      of the list entry at its position. */
  datatype Intent =
    | Load
    | Add(title: string, tag: string)
    | ChangeStatus(idx: nat, status: string)
    | Remove(idx: nat)

  datatype Session = Session(view: seq<Task>, db: Db)

  /** One intent: the handler's store call against the reference store,
      then the handler's list edit if the call succeeded. A position past
      the end is never offered on screen and is ignored. */
  function Step(s: Session, intent: Intent): Session
  {
    match intent
    case Load => Session(s.db.rows, s.db)
    case Add(title, tag) =>
      if Trim(title) == [] then s
      else
        var t := Task(0, title, tag, InitialStatus);
        Session(s.view + [t], Insert(s.db, t))
    case ChangeStatus(idx, status) =>
      if idx >= |s.view| then s
      else
        (match UpdateStatus(s.db, s.view[idx].id, status)
         case Err(_) => s
         case Ok(db) => Session(WithStatus(s.view, idx, status), db))
    case Remove(idx) =>
      if idx >= |s.view| then s
      else
        (match Delete(s.db, s.view[idx].id)
         case Err(_) => s
         case Ok(db) => Session(RemoveAt(s.view, idx), db))
  }

  /** A sequence of intents, one after the other. */
  function Run(s: Session, intents: seq<Intent>): Session
    decreases |intents|
  {
    if intents == [] then s else Run(Step(s, intents[0]), intents[1..])
  }

  /** If a store call succeeds for the id of entry `idx`, that id is a real
      store id and it names row `idx`. */
  lemma FoundRowIsSamePosition(view: seq<Task>, db: Db, idx: nat)
    requires WellFormed(db) && Mirrors(view, db) && idx < |view|
    requires Find(db.rows, view[idx].id).Some?
    ensures view[idx].id != 0
    ensures Find(db.rows, view[idx].id).value == idx
  {
    var k := Find(db.rows, view[idx].id).value;
    assert db.rows[k].id >= 1;
    assert Reflects(view[idx], db.rows[idx]);
  }

  /** Every intent keeps the list a mirror of the store. */
  lemma StepKeepsMirror(s: Session, intent: Intent)
    requires WellFormed(s.db) && Mirrors(s.view, s.db)
    ensures WellFormed(Step(s, intent).db) && Mirrors(Step(s, intent).view, Step(s, intent).db)
  {
    match intent
    case Load =>
    case Add(title, tag) =>
    case ChangeStatus(idx, status) =>
      if idx < |s.view| && Find(s.db.rows, s.view[idx].id).Some? {
        FoundRowIsSamePosition(s.view, s.db, idx);
      }
    case Remove(idx) =>
      if idx < |s.view| && Find(s.db.rows, s.view[idx].id).Some? {
        FoundRowIsSamePosition(s.view, s.db, idx);
      }
  }

  /** From a state where the list mirrors the store, every sequence of
      intents keeps it a mirror; in particular the list then has exactly as
      many tasks as the store. */
  lemma {:induction false} RunKeepsMirror(s: Session, intents: seq<Intent>)
    requires WellFormed(s.db) && Mirrors(s.view, s.db)
    ensures WellFormed(Run(s, intents).db) && Mirrors(Run(s, intents).view, Run(s, intents).db)
    ensures |Run(s, intents).view| == |Run(s, intents).db.rows|
    decreases |intents|
  {
    if intents != [] {
      StepKeepsMirror(s, intents[0]);
      RunKeepsMirror(Step(s, intents[0]), intents[1..]);
    }
  }

  /** A task appended in this session keeps id 0, an id the store never
      hands out, so until the next load changing its status or deleting it
      fails with NotFound and leaves both list and store as they were. */
  lemma UnsavedTaskIsStuck(s: Session, idx: nat, status: string)
    requires WellFormed(s.db) && Mirrors(s.view, s.db)
    requires idx < |s.view| && s.view[idx].id == 0
    ensures UpdateStatus(s.db, 0, status) == Err(NotFound) && Step(s, ChangeStatus(idx, status)) == s
    ensures Delete(s.db, 0) == Err(NotFound) && Step(s, Remove(idx)) == s
  {
    assert forall i :: 0 <= i < |s.db.rows| ==> s.db.rows[i].id != 0;
  }

  /** Adding a task and then loading shows the store's copy of it at the end,
      now under the id the store assigned. */
  lemma AddThenLoad(s: Session, title: string, tag: string)
    requires !IsBlank(title)
    ensures Run(s, [Add(title, tag), Load]).view
         == s.db.rows + [Task(s.db.nextId, title, tag, InitialStatus)]
  {
    var s1 := Step(s, Add(title, tag));
    assert [Add(title, tag), Load][1..] == [Load];
    assert Run(s, [Add(title, tag), Load]) == Run(s1, [Load]);
    assert Run(s1, [Load]) == Run(Step(s1, Load), []);
  }

  /** Loading twice shows what loading once shows. */
  lemma LoadIdempotent(s: Session)
    ensures Step(Step(s, Load), Load) == Step(s, Load)
    ensures Step(s, Load).view == s.db.rows
  {
  }

  /** Choosing the same status twice for a stored task: the first call
      sets it, the second still reaches the store and succeeds, and leaves
      list and store as the first one left them. */
  lemma ChangeStatusTwice(s: Session, idx: nat, status: string)
    requires WellFormed(s.db) && Mirrors(s.view, s.db)
    requires idx < |s.view| && s.view[idx].id != 0
    ensures Step(s, ChangeStatus(idx, status)).view[idx].status == status
    ensures UpdateStatus(Step(s, ChangeStatus(idx, status)).db, s.view[idx].id, status).Ok?
    ensures Step(Step(s, ChangeStatus(idx, status)), ChangeStatus(idx, status))
         == Step(s, ChangeStatus(idx, status))
  {
    assert Reflects(s.view[idx], s.db.rows[idx]);
    var s1 := Step(s, ChangeStatus(idx, status));
    StepKeepsMirror(s, ChangeStatus(idx, status));
    assert s1.view[idx].id == s.view[idx].id;
    assert Find(s1.db.rows, s1.view[idx].id).Some? by {
      assert s1.db.rows[idx].id == s.db.rows[idx].id;
    }
    FoundRowIsSamePosition(s1.view, s1.db, idx);
    WithStatusIdempotent(s1.view, idx, status);
    WithStatusIdempotent(s1.db.rows, idx, status);
  }

  /** A successful load makes the list mirror any well-formed store,
      whatever it showed before; every sequence of intents after it keeps
      the list a mirror with as many tasks as the store. */
  lemma LoadThenRunMirrors(s: Session, intents: seq<Intent>)
    requires WellFormed(s.db)
    ensures Mirrors(Step(s, Load).view, s.db)
    ensures Mirrors(Run(s, [Load] + intents).view, Run(s, [Load] + intents).db)
    ensures |Run(s, [Load] + intents).view| == |Run(s, [Load] + intents).db.rows|
  {
    assert ([Load] + intents)[1..] == intents;
    RunKeepsMirror(Step(s, Load), intents);
  }

  /** When Home's first load fails, the list is empty while the store may
      already hold rows: the list does not mirror the store, and an Add then
      leaves one task on screen against one more row than before in the store. */
  lemma FailedFirstLoadDiverges(db: Db, title: string, tag: string)
    requires |db.rows| > 0 && !IsBlank(title)
    ensures !Mirrors([], db)
    ensures |Step(Session([], db), Add(title, tag)).view| == 1
    ensures |Step(Session([], db), Add(title, tag)).db.rows| == |db.rows| + 1
  {
  }

  /** Home's load effect answered by the reference store is the Load intent. */
  method LoadWithStore(tasks: TaskSignal, db: Db)
    modifies tasks
    ensures Session(tasks.value, db) == Step(Session(old(tasks.value), db), Load)
  {
    var _ := LoadTasks(tasks, Ok(db.rows));
  }

  /** `add_task` answered by the reference store (which accepts every
      insert) is the Add intent for the typed title and the selected tag. */
  method AddWithStore(input: Input, db: Db) returns (db': Db)
    modifies input`newTitle, input.tasks
    ensures Session(input.tasks.value, db')
         == Step(Session(old(input.tasks.value), db), Add(old(input.newTitle), input.newTag))
  {
    var issued, _ := input.AddTask(Ok(()));
    db' := if issued.Some? && issued.value.InsertTask? then Insert(db, issued.value.task) else db;
  }

  /** The status picker's handler answered by the reference store is the
      ChangeStatus intent, for a row rendered from the current list. */
  method ChangeStatusWithStore(item: TaskItem, newStatus: string, db: Db) returns (db': Db)
    requires item.idx < |item.tasks.value| && item.task.id == item.tasks.value[item.idx].id
    modifies item`status, item.tasks
    ensures Session(item.tasks.value, db')
         == Step(Session(old(item.tasks.value), db), ChangeStatus(item.idx, newStatus))
  {
    var answer := UpdateStatus(db, item.task.id, newStatus);
    var updated: Result<()> := if answer.Ok? then Ok(()) else Err(answer.error);
    var _ := item.OnStatusChange(newStatus, updated);
    db' := if answer.Ok? then answer.value else db;
  }

  /** The delete button's handler answered by the reference store is the
      Remove intent, for a row rendered from the current list. */
  method DeleteWithStore(item: TaskItem, db: Db) returns (db': Db)
    requires item.idx < |item.tasks.value| && item.task.id == item.tasks.value[item.idx].id
    modifies item.tasks
    ensures Session(item.tasks.value, db') == Step(Session(old(item.tasks.value), db), Remove(item.idx))
  {
    var answer := Delete(db, item.task.id);
    var deleted: Result<()> := if answer.Ok? then Ok(()) else Err(answer.error);
    var _ := item.OnDelete(deleted);
    db' := if answer.Ok? then answer.value else db;
  }
}
