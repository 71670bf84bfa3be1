/** The persistence layer the handlers call (`insert_task`, `get_all_tasks`,
    `update_task_status`, `delete_task`). Its code is not part of this model:
    the handlers receive its answers as parameters. This module holds the
    shapes of those answers, a record of which call a handler issued, and a
    reference store that answers as the assumed store contract says, used
    to state what the handlers keep in step. */
module Store {
  import opened Tasks

  /** Why a store call failed. */
  datatype StoreError = StoreUnavailable | NotFound

  datatype Option<T> = None | Some(value: T)

  /** The answer of one store call. */
  datatype Result<T> = Ok(value: T) | Err(error: StoreError)

  /** A call a handler made on the store, with the arguments it passed. */
  datatype StoreCall =
    | GetAllTasks
    | InsertTask(task: Task)
    | UpdateTaskStatus(id: int, status: string)
    | DeleteTask(id: int)

  /** Reference store: the persisted rows in insertion order and the next
      id it will hand out. */
  datatype Db = Db(rows: seq<Task>, nextId: int)

  /** Store ids are positive, below `nextId`, and unique. */
  ghost predicate WellFormed(db: Db)
  {
    && db.nextId >= 1
    && (forall i :: 0 <= i < |db.rows| ==> 1 <= db.rows[i].id < db.nextId)
    && (forall i, j :: 0 <= i < j < |db.rows| ==> db.rows[i].id != db.rows[j].id)
  }

  /** Position of the row with `id`, if there is one. */
  function Find(rows: seq<Task>, id: int): (r: Option<nat>)
    ensures r.Some? ==> r.value < |rows| && rows[r.value].id == id
    ensures r.None? ==> forall i :: 0 <= i < |rows| ==> rows[i].id != id
  {
    if rows == [] then None
    else if rows[0].id == id then Some(0)
    else match Find(rows[1..], id)
      case None => None
      case Some(k) => Some(k + 1)
  }

  /** Insert persists the task under a fresh id, whatever id it carried. */
  function Insert(db: Db, t: Task): (r: Db)
    ensures WellFormed(db) ==> WellFormed(r)
    ensures r.rows == db.rows + [t.(id := db.nextId)]
  {
    Db(db.rows + [t.(id := db.nextId)], db.nextId + 1)
  }

  /** Update-status fails with NotFound on an unknown id; otherwise only the
      status of that row changes. */
  function UpdateStatus(db: Db, id: int, status: string): (r: Result<Db>)
    ensures r.Err? <==> forall i :: 0 <= i < |db.rows| ==> db.rows[i].id != id
    ensures r.Err? ==> r.error == NotFound
    ensures r.Ok? ==> exists k :: 0 <= k < |db.rows| && db.rows[k].id == id
                                  && r.value == Db(WithStatus(db.rows, k, status), db.nextId)
    ensures r.Ok? ==> WellFormed(db) ==> WellFormed(r.value)
  {
    match Find(db.rows, id)
    case None => Err(NotFound)
    case Some(k) => Ok(Db(WithStatus(db.rows, k, status), db.nextId))
  }

  /** Delete fails with NotFound on an unknown id; otherwise only that row
      goes and the others keep their order. */
  function Delete(db: Db, id: int): (r: Result<Db>)
    ensures r.Err? <==> forall i :: 0 <= i < |db.rows| ==> db.rows[i].id != id
    ensures r.Err? ==> r.error == NotFound
    ensures r.Ok? ==> exists k :: 0 <= k < |db.rows| && db.rows[k].id == id
                                  && r.value == Db(RemoveAt(db.rows, k), db.nextId)
    ensures r.Ok? ==> WellFormed(db) ==> WellFormed(r.value)
  {
    match Find(db.rows, id)
    case None => Err(NotFound)
    case Some(k) => Ok(Db(RemoveAt(db.rows, k), db.nextId))
  }
}
