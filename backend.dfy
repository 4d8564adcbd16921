/** The backend's database and its routes (backend/main.py:46-208), as an
    object whose fields the routes update in place. Each method's new state
    is the BackendStore function of the old one; `uuid` and `now` stand for
    `uuid.uuid4()` and `datetime.now().isoformat()`. */
module Backend {
  import opened Wrappers
  import opened Seqs
  import opened BackendStore

  class Db {
    var columns: seq<ColumnRec>
    var tasks: map<string, TaskRec>
    /** Records deleted from `tasks` that a column may still list. */
    var retired: map<string, TaskRec>

    function State(): Store
      reads this
    {
      Store(columns, tasks, retired)
    }

    /** The three empty columns and no tasks. */
    constructor ()
      ensures State() == InitialStore
    {
      columns := InitialColumns;
      tasks := map[];
      retired := map[];
    }

    /** `find_column`: the loop over the columns, returning the first with the id. */
    method FindColumn(columnId: string) returns (r: Option<nat>)
      ensures r == ColumnOf(columns, columnId)
    {
      var i := 0;
      while i < |columns|
        invariant 0 <= i <= |columns|
        invariant forall j :: 0 <= j < i ==> columns[j].id != columnId
      {
        if columns[i].id == columnId {
          return Some(i);
        }
        i := i + 1;
      }
      return None;
    }

    /** `create_task`. */
    method CreateTask(req: TaskCreate, uuid: string, now: string) returns (t: TaskRec)
      modifies this
      ensures (State(), t) == Create(old(State()), req, uuid, now)
    {
      var id := "task-" + uuid;
      t := TaskRec(id, req.title, req.description, req.columnId, now);
      tasks := tasks[id := t];
      var c := FindColumn(req.columnId);
      if c.Some? {
        var i := c.value;
        columns := columns[i := columns[i].(taskIds := columns[i].taskIds + [id])];
      }
    }

    /** `POST /tasks`: 400 when the column does not exist, else `create_task`. */
    method CreateTaskEndpoint(req: TaskCreate, uuid: string, now: string) returns (r: Result<TaskRec, HttpError>)
      modifies this
      ensures CreateChecked(old(State()), req, uuid, now).Err? ==>
        r == Err(ColumnNotFound) && State() == old(State())
      ensures CreateChecked(old(State()), req, uuid, now).Ok? ==>
        var (s, t) := CreateChecked(old(State()), req, uuid, now).value;
        r == Ok(t) && State() == s
    {
      var c := FindColumn(req.columnId);
      if c.None? {
        return Err(ColumnNotFound);
      }
      var t := CreateTask(req, uuid, now);
      return Ok(t);
    }

    /** `GET /tasks/{task_id}`. */
    method GetTask(id: string) returns (r: Result<TaskRec, HttpError>)
      ensures r == Lookup(State(), id)
    {
      if id !in tasks {
        return Err(TaskNotFound);
      }
      return Ok(tasks[id]);
    }

    /** `PATCH /tasks/{task_id}`. */
    method UpdateTask(id: string, u: TaskUpdate) returns (r: Result<TaskRec, HttpError>)
      modifies this
      ensures Update(old(State()), id, u).Err? ==> r == Err(TaskNotFound) && State() == old(State())
      ensures Update(old(State()), id, u).Ok? ==>
        var (s, t) := Update(old(State()), id, u).value;
        r == Ok(t) && State() == s
    {
      if id !in tasks {
        return Err(TaskNotFound);
      }
      var task := tasks[id];
      var oldColumnId := task.columnId;
      var newColumnId := if u.columnId.Some? && u.columnId.value != "" then u.columnId.value else oldColumnId;
      if u.title.Some? {
        task := task.(title := u.title.value);
      }
      if u.description.Some? {
        task := task.(description := u.description);
      }
      if u.columnId.Some? {
        task := task.(columnId := u.columnId.value);
      }
      tasks := tasks[id := task];
      if oldColumnId != newColumnId {
        MoveId(id, oldColumnId, newColumnId);
      }
      return Ok(task);
    }

    /** The move of `update_task`: the id is filtered out of the old column,
        if found, then appended to the new one, if found. */
    method MoveId(id: string, from: string, to: string)
      modifies this
      ensures var removed := RemoveId(old(columns), ColumnOf(old(columns), from), id);
        columns == AppendId(removed, ColumnOf(removed, to), id)
      ensures tasks == old(tasks) && retired == old(retired)
    {
      var oldColumn := FindColumn(from);
      if oldColumn.Some? {
        var i := oldColumn.value;
        columns := columns[i := columns[i].(taskIds := Without(columns[i].taskIds, id))];
      }
      var newColumn := FindColumn(to);
      if newColumn.Some? {
        var i := newColumn.value;
        columns := columns[i := columns[i].(taskIds := columns[i].taskIds + [id])];
      }
    }

    /** `DELETE /tasks/{task_id}`. */
    method DeleteTask(id: string) returns (r: Result<string, HttpError>)
      modifies this
      ensures Delete(old(State()), id).Err? ==> r == Err(TaskNotFound) && State() == old(State())
      ensures Delete(old(State()), id).Ok? ==> r == Ok(DeletedMessage) && State() == Delete(old(State()), id).value
    {
      if id !in tasks {
        return Err(TaskNotFound);
      }
      var task := tasks[id];
      var columnId := task.columnId;
      tasks := tasks - {id};
      retired := retired[id := task];
      var column := FindColumn(columnId);
      if column.Some? {
        var i := column.value;
        columns := columns[i := columns[i].(taskIds := Without(columns[i].taskIds, id))];
      }
      return Ok(DeletedMessage);
    }

    /** `generate_sample_data`: `create_task` on each sample task in turn;
        the k-th call draws `uuids[k]` and reads `clock[k]`. */
    method GenerateSampleData(uuids: seq<string>, clock: seq<string>)
      requires |uuids| == |SampleTasks| && |clock| == |SampleTasks|
      modifies this
      ensures State() == CreateAll(old(State()), SampleTasks, uuids, clock)
    {
      CreateEach(SampleTasks, uuids, clock);
    }

    /** The loop of `generate_sample_data` over its list of tasks. */
    method CreateEach(reqs: seq<TaskCreate>, uuids: seq<string>, clock: seq<string>)
      requires |uuids| == |reqs| && |clock| == |reqs|
      modifies this
      ensures State() == CreateAll(old(State()), reqs, uuids, clock)
    {
      for k := 0 to |reqs|
        invariant CreateAll(old(State()), reqs, uuids, clock) ==
          CreateAll(State(), reqs[k..], uuids[k..], clock[k..])
      {
        CreateAllStep(State(), reqs[k..], uuids[k..], clock[k..]);
        assert reqs[k..][1..] == reqs[k + 1..];
        assert uuids[k..][1..] == uuids[k + 1..] && clock[k..][1..] == clock[k + 1..];
        var created := CreateTask(reqs[k], uuids[k], clock[k]);
      }
    }
  }

  /** `startup_event`: the database at start-up with the sample tasks
      created; with uuids that give distinct ids it satisfies the store
      invariant. */
  method Startup(uuids: seq<string>, clock: seq<string>) returns (db: Db)
    requires |uuids| == |SampleTasks| && |clock| == |SampleTasks|
    ensures fresh(db) && db.State() == CreateAll(InitialStore, SampleTasks, uuids, clock)
    ensures FreshIds(InitialStore, uuids) ==> Inv(db.State()) && |db.tasks| == 5
  {
    db := new Db();
    db.GenerateSampleData(uuids, clock);
    if FreshIds(InitialStore, uuids) {
      SampleData(uuids, clock);
    }
  }
}
