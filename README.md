# Task list synchronisation of the Dioxus todo app

This project models the part of the desktop todo app that keeps the
on-screen task list in step with the task store. `Home` holds the list of
tasks (`id`, `title`, `tag`, `status`) in a signal and loads it from the
store once. `Input` appends a new task. Each `TaskItem` changes the status
of its own task or deletes it. Every handler follows one rule: call the
store first, and touch the in-memory list only if that call succeeded.

The model has four modules:

- `Tasks` (`task.dfy`): the task record and the value strings the UI offers.
  It also holds the whitespace test behind the "empty title" guard (Rust's
  `char::is_whitespace` and `str::trim`) and the two positional list edits
  the handlers make: overwrite one status (`WithStatus`) and `Vec::remove`
  (`RemoveAt`).
- `Store` (`store.dfy`): the store's answers (`Result`, with the errors
  `StoreUnavailable` and `NotFound`) and a record of the call a handler
  issued (`StoreCall`). It also holds a reference store (`Db`) that behaves
  as the assumed store contract says: ids are unique and positive, insert
  assigns a fresh id whatever id it is given, and update-status and delete
  fail with `NotFound` on an unknown id.
- `Collection` (`collection.dfy`): the components as classes. `TaskSignal`
  is the shared list. `Home` and `LoadTasks` are the load effect. `Input`
  holds the title and tag fields and the `add_task` handler. `TaskItem`
  holds a row's task, its position, its own status signal, and the status
  and delete handlers. Each handler takes the store's answer as a parameter
  and returns the call it issued. Its postcondition states the new list
  for both the success path and the failure path.
- `Sync` (`sync.dfy`): a session pairs the list with the reference store,
  and each user intent runs a handler against it. Four methods run the
  `Collection` handlers against the reference store and show that each is
  exactly its intent's step. The lemmas show that once a load has
  succeeded, every following sequence of intents keeps the list a
  position-by-position mirror of the store, so it has as many tasks as the
  store. If the first load fails, the empty list does not mirror a store
  that already holds rows, and later adds keep the counts apart; a lemma
  exhibits this. The one exception to the mirror is a task
  appended by Add: it keeps the placeholder id 0, while the store holds the
  id it assigned. One consequence is proved as a lemma. Under a store that
  rejects unknown ids, such a task can neither change status nor be deleted
  until the next load. A load then shows it under its real id.

The store's code (`crate::db`) is not part of this model. The handlers see
only its answers, and the reference store stands for the assumed store
contract described above.

The model follows the code in three places where a reader might expect
otherwise:

- A failed load leaves the list as it was. The list is empty only because
  the load runs on a fresh list (`Home`).
- A refused insert is not reported to the caller. The handler panics
  through `expect` (`AddTask` returns `aborted`).
- The status picker's handler accepts any string, not just the six
  offered values. The same holds for the tag.

## Model

| member | source | states |
|---|---|---|
| Tasks.TrimStart | src/app.rs:56 | the result is a suffix of the input; every dropped character is whitespace; the result does not start with whitespace |
| Tasks.TrimEnd | src/app.rs:56 | the result is a prefix of the input; every dropped character is whitespace; the result does not end with whitespace |
| Tasks.Trim | src/app.rs:56 | the trimmed title is a slice of the title with only whitespace cut off either end; it is empty exactly when every character of the title is whitespace; a non-empty result neither starts nor ends with whitespace |
| Tasks.WithStatus | src/app.rs:140 | after `tasks[idx].status = s` the length is unchanged, entry `idx` has status `s` and keeps its id, title and tag, and every other entry is unchanged |
| Tasks.RemoveAt | src/app.rs:157 | `remove(idx)` shortens the list by one; entries before `idx` stay in place, and entries after it move up one place in the same order |
| Tasks.RemoveAtMultiset | src/app.rs:157 | removal takes out exactly the entry at `idx`: the old list's multiset is the new one's plus that entry |
| Tasks.WithStatusIdempotent | src/app.rs:135-140 | writing a status already present changes nothing, so writing the same status twice equals writing it once |
| Store.Insert | src/app.rs:67 | the store appends the task under its next id, whatever id the task carried, and keeps ids unique and positive |
| Store.UpdateStatus | src/app.rs:136 | fails with NotFound exactly when no row has the id; otherwise the rows are the old rows with the status of a row carrying that id replaced, `nextId` is kept, and ids stay unique and positive |
| Store.Delete | src/app.rs:154 | fails with NotFound exactly when no row has the id; otherwise the rows are the old rows without a row carrying that id, in order, `nextId` is kept, and ids stay unique and positive |
| Collection.TaskSignal.constructor | src/app.rs:22 | the list starts empty |
| Collection.LoadTasks | src/app.rs:24-31 | issues `get_all_tasks`; on success the list becomes exactly the store's answer; on failure it is unchanged |
| Collection.Home | src/app.rs:21-31 | a fresh list that holds the store's answer after the load effect, or is still empty if the load failed |
| Collection.Input.constructor | src/app.rs:51-53 | the title starts empty and the tag starts as "gameplay" |
| Collection.Input.OnTitleInput | src/app.rs:80 | the title becomes the typed text, and nothing else changes |
| Collection.Input.OnTagChange | src/app.rs:84-86 | the tag becomes the chosen value, and nothing else changes |
| Collection.Input.AddTask | src/app.rs:55-72 | a blank title issues no store call and changes nothing. Otherwise it inserts `Task{0, title as typed, tag, "Pending"}`. A refused insert aborts with list and title unchanged. An accepted insert appends exactly that task at the end, clears the title and keeps the tag |
| Collection.TaskItem.constructor | src/app.rs:117-118 | the row's status signal starts at its task's status |
| Collection.TaskItem.OnStatusChange | src/app.rs:134-142 | sends the row's id and any status string. On success the row's status and list entry `idx` take the new status and nothing else changes. On failure the row's status and the list are unchanged |
| Collection.TaskItem.OnDelete | src/app.rs:153-159 | sends the row's id; on success the list is the old list without position `idx`; on failure it is unchanged |
| Sync.FoundRowIsSamePosition | src/app.rs:136-140 | if the store finds the id of list entry `idx`, that id is not the placeholder 0 and it names store row `idx` |
| Sync.LoadThenRunMirrors | src/app.rs:27-28 | a successful load makes the list mirror any well-formed store, and every sequence of intents after it keeps the mirror and equal lengths |
| Sync.FailedFirstLoadDiverges | src/app.rs:22-31 | after a failed first load the empty list does not mirror a store holding rows, and an add leaves one task on screen against one more row in the store |
| Sync.LoadWithStore | src/app.rs:24-31 | the load effect answered by the reference store gives exactly the Load step |
| Sync.AddWithStore | src/app.rs:55-72 | `add_task` answered by the reference store gives exactly the Add step for the typed title and selected tag |
| Sync.ChangeStatusWithStore | src/app.rs:134-142 | the status handler of a row rendered from the current list, answered by the reference store, gives exactly the ChangeStatus step |
| Sync.DeleteWithStore | src/app.rs:153-159 | the delete handler of a row rendered from the current list, answered by the reference store, gives exactly the Remove step |
| Sync.StepKeepsMirror | src/app.rs:27-157 | load, add, status change and delete each keep the list a position-by-position mirror of a well-formed store |
| Sync.RunKeepsMirror | src/app.rs:27-157 | from a state where the list mirrors the store, every sequence of intents keeps it a mirror, and the list's length equals the store's row count |
| Sync.UnsavedTaskIsStuck | src/app.rs:60-69 | an entry still carrying id 0 gets NotFound from both update-status and delete, so neither list nor store changes |
| Sync.AddThenLoad | src/app.rs:60-69 | add followed by load shows the store's rows with the new task at the end, under the id the store assigned |
| Sync.LoadIdempotent | src/app.rs:27-28 | loading twice gives what loading once gives, and a load shows exactly the store's rows |
| Sync.ChangeStatusTwice | src/app.rs:134-142 | the same status chosen twice for a stored task: the first call sets it, the second still calls the store and succeeds, and the state is as after the first |

## Left out

- Rendering (`rsx!` markup, CSS classes, assets, the `App` wrapper, option labels and emoji). These are presentation; the option values are kept as the constants `Tags` and `Statuses`.
- Signal reactivity, `use_effect` scheduling and re-rendering. The signal is a plain field. `Sync` assumes each row was rendered from the current list, so the id a row sends is the id of the list entry at its position.
- A row's own status signal is created once per rendered position. After a removal, the row that moves into that position may keep the removed task's status signal. That is hook-lifetime behaviour of the framework, which is not modelled.
- The store's code (`crate::db`). The handlers take its answers as parameters. The reference store follows the assumed contract. Its `StoreUnavailable` failures are not replayed in `Sync`: a failed update or delete changes neither list nor store, and a failed insert aborts the handler. A failed load is the exception, covered next.
- Sync.RunKeepsMirror: holds only from a state that already mirrors the store. A failed first load leaves `Home` with an empty list, which mirrors only an empty store; `Sync.FailedFirstLoadDiverges` shows the counts then stay apart.
- `println!` error logging on failed status changes and deletions: output only.
- Collection.Input.AddTask: the `expect` panic on a refused insert is modelled as the result `aborted` with list and title unchanged; what the runtime does after the panic is not modelled.
- The width of `id`: the store's record type is not shown, so ids are unbounded integers.
