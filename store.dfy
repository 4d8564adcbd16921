/** The backend's in-memory database (backend/main.py:46-208), as values.
    The columns list the ids of their tasks; the `tasks` dictionary maps an
    id to the task's record. In the source a column holds the very dict
    object the dictionary holds, so an update through the dictionary shows
    in the column: listing ids and resolving them through the records gives
    the same sharing. A record deleted from the dictionary while a column
    still lists it stays reachable from that column; `retired` keeps such
    records. */
module BackendStore {
  import opened Wrappers
  import opened Seqs
  import Types
  import ColumnSort

  datatype ColumnRec = ColumnRec(id: string, title: string, taskIds: seq<string>)

  /** The pydantic `Task`: `createdAt` is `datetime.now().isoformat()`. */
  datatype TaskRec = TaskRec(id: string, title: string, description: Option<string>, columnId: string, createdAt: string)

  datatype Store = Store(columns: seq<ColumnRec>, tasks: map<string, TaskRec>, retired: map<string, TaskRec>)

  /** The request bodies of `POST /tasks` and `PATCH /tasks/{id}`. */
  datatype TaskCreate = TaskCreate(title: string, description: Option<string>, columnId: string)
  datatype TaskUpdate = TaskUpdate(title: Option<string>, description: Option<string>, columnId: Option<string>)

  /** `HTTPException(status_code, detail)`. */
  datatype HttpError = HttpError(status: int, detail: string)

  const ColumnNotFound := HttpError(400, "Column not found")
  const TaskNotFound := HttpError(404, "Task not found")
  const DeletedMessage := "Task deleted successfully"

  const InitialColumns := [
    ColumnRec("column-1", "To Do", []),
    ColumnRec("column-2", "In Progress", []),
    ColumnRec("column-3", "Done", [])
  ]

  /** The database at start-up, before the sample tasks. */
  const InitialStore := Store(InitialColumns, map[], map[])

  /** `find_column`: the index of the first column with the id. */
  function ColumnOf(cols: seq<ColumnRec>, columnId: string): (r: Option<nat>)
    ensures r.Some? ==> r.value < |cols| && cols[r.value].id == columnId
    ensures r.Some? ==> forall j :: 0 <= j < r.value ==> cols[j].id != columnId
    ensures r.None? ==> forall j :: 0 <= j < |cols| ==> cols[j].id != columnId
  {
    if cols == [] then None
    else if cols[0].id == columnId then Some(0)
    else match ColumnOf(cols[1..], columnId)
      case None => None
      case Some(i) => Some(i + 1)
  }

  function TaskIdOf(uuid: string): string {
    "task-" + uuid
  }

  /** `column["tasks"].append(...)` on the column found, if any. */
  function AppendId(cols: seq<ColumnRec>, ci: Option<nat>, id: string): (r: seq<ColumnRec>)
    ensures |r| == |cols| && forall j :: 0 <= j < |cols| ==> r[j].id == cols[j].id
  {
    if ci.Some? && ci.value < |cols| then cols[ci.value := cols[ci.value].(taskIds := cols[ci.value].taskIds + [id])]
    else cols
  }

  /** `[t for t in column["tasks"] if t["id"] != task_id]` on the column found, if any. */
  function RemoveId(cols: seq<ColumnRec>, ci: Option<nat>, id: string): (r: seq<ColumnRec>)
    ensures |r| == |cols| && forall j :: 0 <= j < |cols| ==> r[j].id == cols[j].id
  {
    if ci.Some? && ci.value < |cols| then cols[ci.value := cols[ci.value].(taskIds := Without(cols[ci.value].taskIds, id))]
    else cols
  }

  /** `create_task`: the record goes into the dictionary under its fresh id
      and is appended to the column it names when that column exists. */
  function Create(s: Store, req: TaskCreate, uuid: string, now: string): (Store, TaskRec) {
    var id := TaskIdOf(uuid);
    var t := TaskRec(id, req.title, req.description, req.columnId, now);
    (s.(tasks := s.tasks[id := t], columns := AppendId(s.columns, ColumnOf(s.columns, req.columnId), id)), t)
  }

  /** `create_task_endpoint`: a request naming no column is refused. */
  function CreateChecked(s: Store, req: TaskCreate, uuid: string, now: string): Result<(Store, TaskRec), HttpError> {
    if ColumnOf(s.columns, req.columnId).None? then Err(ColumnNotFound) else Ok(Create(s, req, uuid, now))
  }

  /** `get_task`. */
  function Lookup(s: Store, id: string): (r: Result<TaskRec, HttpError>)
    ensures r.Ok? <==> id in s.tasks
    ensures r.Ok? ==> r.value == s.tasks[id]
    ensures r.Err? ==> r.error == TaskNotFound
  {
    if id in s.tasks then Ok(s.tasks[id]) else Err(TaskNotFound)
  }

  /** `task_update.columnId or old_column_id`: Python's `or` passes over an
      absent id and over the empty string alike. */
  function TargetColumn(current: string, update: Option<string>): string {
    if update.Some? && update.value != "" then update.value else current
  }

  /** The three `is not None` assignments of `update_task`. */
  function Updated(t: TaskRec, u: TaskUpdate): TaskRec {
    t.(title := u.title.GetOr(t.title),
       description := if u.description.Some? then u.description else t.description,
       columnId := u.columnId.GetOr(t.columnId))
  }

  /** `update_task`: a missing id is a 404. The record is updated in place;
      when the target column differs from the old one the id is filtered out
      of the old column (if found) and appended to the target (if found). */
  function Update(s: Store, id: string, u: TaskUpdate): Result<(Store, TaskRec), HttpError> {
    if id !in s.tasks then Err(TaskNotFound)
    else
      var t := s.tasks[id];
      var oldColumn := t.columnId;
      var newColumn := TargetColumn(oldColumn, u.columnId);
      var t' := Updated(t, u);
      var cols :=
        if oldColumn != newColumn then
          var removed := RemoveId(s.columns, ColumnOf(s.columns, oldColumn), id);
          AppendId(removed, ColumnOf(removed, newColumn), id)
        else s.columns;
      Ok((s.(tasks := s.tasks[id := t'], columns := cols), t'))
  }

  /** `delete_task`: a missing id is a 404; otherwise the record leaves the
      dictionary and its id is filtered out of the column its `columnId`
      names, if that column exists. */
  function Delete(s: Store, id: string): Result<Store, HttpError> {
    if id !in s.tasks then Err(TaskNotFound)
    else
      var t := s.tasks[id];
      Ok(Store(RemoveId(s.columns, ColumnOf(s.columns, t.columnId), id), s.tasks - {id}, s.retired[id := t]))
  }

  /** The five tasks of `generate_sample_data`. */
  const SampleTasks := [
    TaskCreate("Research project requirements",
      Some("Gather all necessary information about the project scope and requirements."), "column-1"),
    TaskCreate("Design database schema",
      Some("Create ER diagrams and define the database structure."), "column-1"),
    TaskCreate("Implement authentication",
      Some("Add user login and registration functionality."), "column-2"),
    TaskCreate("Write unit tests",
      Some("Create comprehensive test suite for all core functionality."), "column-2"),
    TaskCreate("Fix navigation bug",
      Some("Address the issue with sidebar navigation in mobile view."), "column-3")
  ]

  /** `create_task` on each request in turn, with the i-th uuid and clock reading. */
  function CreateAll(s: Store, reqs: seq<TaskCreate>, uuids: seq<string>, clock: seq<string>): Store
    requires |uuids| == |reqs| && |clock| == |reqs|
    decreases |reqs|
  {
    if reqs == [] then s
    else CreateAll(Create(s, reqs[0], uuids[0], clock[0]).0, reqs[1..], uuids[1..], clock[1..])
  }

  /** One step of CreateAll. */
  lemma CreateAllStep(s: Store, reqs: seq<TaskCreate>, uuids: seq<string>, clock: seq<string>)
    requires |uuids| == |reqs| && |clock| == |reqs| && reqs != []
    ensures CreateAll(s, reqs, uuids, clock) == CreateAll(Create(s, reqs[0], uuids[0], clock[0]).0, reqs[1..], uuids[1..], clock[1..])
  {
  }

  // ---------------------------------------------------------------------
  // The store's invariant

  /** Every id that some column lists, counted with multiplicity. */
  function AllIds(cols: seq<ColumnRec>): multiset<string> {
    if cols == [] then multiset{} else multiset(cols[0].taskIds) + AllIds(cols[1..])
  }

  /** The columns list each id of `keys` exactly once and nothing else. */
  ghost predicate Lists(cols: seq<ColumnRec>, keys: set<string>) {
    forall x :: AllIds(cols)[x] == if x in keys then 1 else 0
  }

  predicate DistinctColumnIds(cols: seq<ColumnRec>) {
    forall i, j :: 0 <= i < j < |cols| ==> cols[i].id != cols[j].id
  }

  /** Every record sits under its own id. */
  predicate KeyedById(tasks: map<string, TaskRec>) {
    forall id :: id in tasks ==> tasks[id].id == id
  }

  /** A listed task's `columnId` names the column listing it. */
  predicate ListedInPlace(s: Store) {
    forall ci, x :: 0 <= ci < |s.columns| && x in s.columns[ci].taskIds ==>
      x in s.tasks && s.tasks[x].columnId == s.columns[ci].id
  }

  ghost predicate Inv(s: Store) {
    && DistinctColumnIds(s.columns) && KeyedById(s.tasks)
    && Lists(s.columns, s.tasks.Keys) && ListedInPlace(s)
    && s.tasks.Keys !! s.retired.Keys
  }

  /** An id is fresh when no record, live or retired, carries it. */
  predicate Fresh(s: Store, id: string) {
    id !in s.tasks && id !in s.retired
  }

  /** Replacing one column's list changes the listed ids by the difference. */
  lemma {:induction false} AllIdsUpdate(cols: seq<ColumnRec>, i: nat, ids: seq<string>)
    requires i < |cols|
    ensures AllIds(cols[i := cols[i].(taskIds := ids)]) + multiset(cols[i].taskIds) == AllIds(cols) + multiset(ids)
  {
    var c := cols[i := cols[i].(taskIds := ids)];
    assert AllIds(c) == multiset(c[0].taskIds) + AllIds(c[1..]);
    assert AllIds(cols) == multiset(cols[0].taskIds) + AllIds(cols[1..]);
    if i > 0 {
      assert c[0] == cols[0];
      assert cols[1..][i - 1] == cols[i];
      assert c[1..] == cols[1..][i - 1 := cols[1..][i - 1].(taskIds := ids)];
      AllIdsUpdate(cols[1..], i - 1, ids);
      var lhs := AllIds(c) + multiset(cols[i].taskIds);
      var rhs := AllIds(cols) + multiset(ids);
      forall x ensures lhs[x] == rhs[x] {
        assert (AllIds(c[1..]) + multiset(cols[i].taskIds))[x] == (AllIds(cols[1..]) + multiset(ids))[x];
      }
      assert lhs == rhs;
    } else {
      assert c[1..] == cols[1..];
    }
  }

  /** One column's ids are among the listed ids. */
  lemma {:induction false} ColumnInAll(cols: seq<ColumnRec>, i: nat)
    requires i < |cols|
    ensures multiset(cols[i].taskIds) <= AllIds(cols)
  {
    if i > 0 {
      ColumnInAll(cols[1..], i - 1);
    }
  }

  /** A listed id is listed by some column. */
  lemma {:induction false} ListedSomewhere(cols: seq<ColumnRec>, x: string)
    requires x in AllIds(cols)
    ensures exists ci :: 0 <= ci < |cols| && x in cols[ci].taskIds
  {
    if x !in cols[0].taskIds {
      ListedSomewhere(cols[1..], x);
      var ci :| 0 <= ci < |cols[1..]| && x in cols[1..][ci].taskIds;
      assert x in cols[ci + 1].taskIds;
    }
  }

  /** Under distinct column ids a column is found exactly at its index. */
  lemma ColumnOfIndex(cols: seq<ColumnRec>, ci: nat)
    requires DistinctColumnIds(cols) && ci < |cols|
    ensures ColumnOf(cols, cols[ci].id) == Some(ci)
  {
  }

  /** The start-up database satisfies the invariant. */
  lemma InitialInv()
    ensures Inv(InitialStore)
  {
    assert AllIds(InitialColumns) == multiset{} by {
      assert InitialColumns[1..][1..][1..] == [];
    }
  }

  /** Appending a fresh id to one column lists it once more. */
  lemma ListsAppend(cols: seq<ColumnRec>, keys: set<string>, ci: nat, id: string)
    requires Lists(cols, keys) && ci < |cols| && id !in keys
    ensures Lists(cols[ci := cols[ci].(taskIds := cols[ci].taskIds + [id])], keys + {id})
  {
    var ids := cols[ci].taskIds + [id];
    var c := cols[ci := cols[ci].(taskIds := ids)];
    AllIdsUpdate(cols, ci, ids);
    assert multiset(ids) == multiset(cols[ci].taskIds) + multiset{id};
    forall x ensures AllIds(c)[x] == if x in keys + {id} then 1 else 0 {
      assert (AllIds(c) + multiset(cols[ci].taskIds))[x] == (AllIds(cols) + multiset(ids))[x];
    }
  }

  /** Filtering out of the one column listing it unlists an id. */
  lemma ListsRemove(cols: seq<ColumnRec>, keys: set<string>, ci: nat, id: string)
    requires Lists(cols, keys) && ci < |cols| && id in keys && id in cols[ci].taskIds
    ensures Lists(cols[ci := cols[ci].(taskIds := Without(cols[ci].taskIds, id))], keys - {id})
  {
    var ids := cols[ci].taskIds;
    var w := Without(ids, id);
    var c := cols[ci := cols[ci].(taskIds := w)];
    AllIdsUpdate(cols, ci, w);
    ColumnInAll(cols, ci);
    assert multiset(ids)[id] == 1 by {
      assert multiset(ids)[id] <= AllIds(cols)[id];
    }
    forall x ensures AllIds(c)[x] == if x in keys - {id} then 1 else 0 {
      assert (AllIds(c) + multiset(ids))[x] == (AllIds(cols) + multiset(w))[x];
      if x != id {
        assert multiset(w)[x] == multiset(ids)[x];
      }
    }
  }

  /** `create_task` with a fresh id into an existing column keeps the
      invariant, and the new task is the last of that column. */
  lemma CreateKeepsInv(s: Store, req: TaskCreate, uuid: string, now: string)
    requires Inv(s) && Fresh(s, TaskIdOf(uuid)) && ColumnOf(s.columns, req.columnId).Some?
    ensures var (s', t) := Create(s, req, uuid, now);
      var ci := ColumnOf(s.columns, req.columnId).value;
      && Inv(s') && s'.tasks == s.tasks[t.id := t] && s'.retired == s.retired
      && s'.columns[ci].taskIds == s.columns[ci].taskIds + [t.id]
      && (forall j :: 0 <= j < |s.columns| && j != ci ==> s'.columns[j] == s.columns[j])
  {
    var id := TaskIdOf(uuid);
    var ci := ColumnOf(s.columns, req.columnId).value;
    var (s', t) := Create(s, req, uuid, now);
    ListsAppend(s.columns, s.tasks.Keys, ci, id);
    assert s'.tasks.Keys == s.tasks.Keys + {id};
    forall cj, x | 0 <= cj < |s'.columns| && x in s'.columns[cj].taskIds
      ensures x in s'.tasks && s'.tasks[x].columnId == s'.columns[cj].id
    {
      if cj != ci || x != id {
        assert x in s.columns[cj].taskIds;
      }
    }
  }

  /** A task created for a column that does not exist is in the dictionary
      but on no column. */
  lemma CreateUnlisted(s: Store, req: TaskCreate, uuid: string, now: string)
    requires ColumnOf(s.columns, req.columnId).None?
    ensures var (s', t) := Create(s, req, uuid, now);
      s'.columns == s.columns && t.id in s'.tasks && AllIds(s'.columns) == AllIds(s.columns)
  {
  }

  /** Without drops nothing from a list that lacks the element. */
  lemma {:induction false} WithoutAbsent(s: seq<string>, x: string)
    requires x !in s
    ensures Without(s, x) == s
  {
    if s != [] {
      WithoutAbsent(s[1..], x);
      assert s == [s[0]] + s[1..];
    }
  }

  /** Under the invariant, the column a task names is the one listing it,
      and no other column lists it. */
  lemma HomeColumn(s: Store, id: string) returns (ci: nat)
    requires Inv(s) && id in s.tasks
    ensures ci < |s.columns| && id in s.columns[ci].taskIds
    ensures ColumnOf(s.columns, s.tasks[id].columnId) == Some(ci)
    ensures forall j :: 0 <= j < |s.columns| && j != ci ==> id !in s.columns[j].taskIds
  {
    assert AllIds(s.columns)[id] == 1;
    ListedSomewhere(s.columns, id);
    ci :| 0 <= ci < |s.columns| && id in s.columns[ci].taskIds;
    ColumnOfIndex(s.columns, ci);
  }

  /** Filtering an id out of the one column listing it filters it out of
      every column, and each column keeps the order of its other ids. */
  lemma WithoutColumns(cols: seq<ColumnRec>, ci: nat, id: string)
    requires ci < |cols| && forall j :: 0 <= j < |cols| && j != ci ==> id !in cols[j].taskIds
    ensures var r := cols[ci := cols[ci].(taskIds := Without(cols[ci].taskIds, id))];
      forall j :: 0 <= j < |cols| ==>
        r[j].taskIds == Without(cols[j].taskIds, id) && IsSubsequence(r[j].taskIds, cols[j].taskIds)
  {
    forall j | 0 <= j < |cols|
      ensures IsSubsequence(Without(cols[j].taskIds, id), cols[j].taskIds)
      ensures j != ci ==> cols[j].taskIds == Without(cols[j].taskIds, id)
    {
      if j != ci {
        WithoutAbsent(cols[j].taskIds, id);
      }
      WithoutOrder(cols[j].taskIds, id);
    }
  }

  /** Every id a filtered column lists was listed there before. */
  lemma WithoutListed(ids: seq<string>, id: string, x: string)
    requires x in Without(ids, id)
    ensures x != id && x in ids
  {
    assert multiset(Without(ids, id))[x] > 0;
    assert x in multiset(ids);
  }

  /** Filtering an id out of every column and deleting its record keeps the
      other records where their columns say. */
  lemma InPlaceAfterDelete(s: Store, cols: seq<ColumnRec>, id: string, retired: map<string, TaskRec>)
    requires ListedInPlace(s) && |cols| == |s.columns|
    requires forall j :: 0 <= j < |cols| ==>
      cols[j].id == s.columns[j].id && cols[j].taskIds == Without(s.columns[j].taskIds, id)
    ensures ListedInPlace(Store(cols, s.tasks - {id}, retired))
  {
    forall cj, x | 0 <= cj < |cols| && x in cols[cj].taskIds
      ensures x in s.tasks - {id} && (s.tasks - {id})[x].columnId == cols[cj].id
    {
      InPlaceAfterDeleteAt(s, cols[cj], cj, id, x);
    }
  }

  /** InPlaceAfterDelete for one id left in one column. */
  lemma InPlaceAfterDeleteAt(s: Store, c: ColumnRec, cj: nat, id: string, x: string)
    requires ListedInPlace(s) && cj < |s.columns|
    requires c.id == s.columns[cj].id && c.taskIds == Without(s.columns[cj].taskIds, id) && x in c.taskIds
    ensures x in s.tasks - {id} && (s.tasks - {id})[x].columnId == c.id
  {
    WithoutListed(s.columns[cj].taskIds, id, x);
    assert x in s.tasks && s.tasks[x].columnId == s.columns[cj].id;
  }

  /** `delete_task` refuses exactly the unknown ids, keeps the invariant,
      and moves the record from the dictionary to the retired records. */
  lemma DeleteKeepsInv(s: Store, id: string)
    requires Inv(s)
    ensures Delete(s, id).Ok? <==> id in s.tasks
    ensures Delete(s, id).Ok? ==>
      var s' := Delete(s, id).value;
      Inv(s') && s'.tasks == s.tasks - {id} && s'.retired == s.retired[id := s.tasks[id]]
  {
    if id in s.tasks {
      var s' := Delete(s, id).value;
      var ci := DeleteShape(s, id);
      ListsRemove(s.columns, s.tasks.Keys, ci, id);
      assert s'.tasks.Keys == s.tasks.Keys - {id};
      InPlaceAfterDelete(s, s'.columns, id, s'.retired);
    }
  }

  /** After `delete_task` no column lists the id, every column keeps the
      other ids in their order, and only its home column `ci` changes. */
  lemma DeleteShape(s: Store, id: string) returns (ci: nat)
    requires Inv(s) && id in s.tasks
    ensures var s' := Delete(s, id).value;
      && ci < |s.columns| && id in s.columns[ci].taskIds
      && s'.columns == s.columns[ci := s.columns[ci].(taskIds := Without(s.columns[ci].taskIds, id))]
      && |s'.columns| == |s.columns|
      && (forall j :: 0 <= j < |s.columns| ==>
            && s'.columns[j].id == s.columns[j].id
            && id !in s'.columns[j].taskIds
            && s'.columns[j].taskIds == Without(s.columns[j].taskIds, id)
            && IsSubsequence(s'.columns[j].taskIds, s.columns[j].taskIds))
  {
    ci := HomeColumn(s, id);
    WithoutColumns(s.columns, ci, id);
  }

  /** `update_task` that keeps the column or names an existing one keeps the
      invariant. A task that changes column leaves every column and is
      appended to its new one; otherwise no column changes. */
  lemma UpdateKeepsInv(s: Store, id: string, u: TaskUpdate)
    requires Inv(s)
    requires u.columnId.None? || (u.columnId.value != "" && ColumnOf(s.columns, u.columnId.value).Some?)
    ensures Update(s, id, u).Ok? <==> id in s.tasks
    ensures Update(s, id, u).Ok? ==>
      var (s', t') := Update(s, id, u).value;
      && Inv(s') && t' == Updated(s.tasks[id], u) && s'.tasks == s.tasks[id := t']
      && (t'.columnId == s.tasks[id].columnId ==> s'.columns == s.columns)
      && (t'.columnId != s.tasks[id].columnId ==>
            && |s'.columns| == |s.columns|
            && forall j :: 0 <= j < |s.columns| ==>
                 && s'.columns[j].id == s.columns[j].id
                 && s'.columns[j].taskIds ==
                      Without(s.columns[j].taskIds, id) + (if s.columns[j].id == t'.columnId then [id] else []))
  {
    if id in s.tasks {
      var ci := HomeColumn(s, id);
      if s.tasks[id].columnId != TargetColumn(s.tasks[id].columnId, u.columnId) {
        UpdateMove(s, id, u, ci);
      } else {
        UpdateStay(s, id, u);
      }
    }
  }

  /** The case of UpdateKeepsInv where the task keeps its column. */
  lemma UpdateStay(s: Store, id: string, u: TaskUpdate)
    requires Inv(s) && id in s.tasks && u.columnId != Some("")
    requires s.tasks[id].columnId == TargetColumn(s.tasks[id].columnId, u.columnId)
    ensures Update(s, id, u).Ok?
    ensures var (s', t') := Update(s, id, u).value;
      && Inv(s') && s'.columns == s.columns && t'.columnId == s.tasks[id].columnId
  {
    var (s', t') := Update(s, id, u).value;
    assert s'.tasks.Keys == s.tasks.Keys;
  }

  /** Moving an id to the end of column di, the one its new record names,
      keeps the records where their columns say. */
  lemma InPlaceAfterMove(s: Store, cols: seq<ColumnRec>, id: string, t': TaskRec, di: nat)
    requires ListedInPlace(s) && |cols| == |s.columns| && di < |cols| && s.columns[di].id == t'.columnId
    requires forall j :: 0 <= j < |cols| ==>
      && cols[j].id == s.columns[j].id
      && cols[j].taskIds == Without(s.columns[j].taskIds, id) + (if j == di then [id] else [])
    ensures ListedInPlace(Store(cols, s.tasks[id := t'], s.retired))
  {
    forall cj, x | 0 <= cj < |cols| && x in cols[cj].taskIds
      ensures x in s.tasks[id := t'] && s.tasks[id := t'][x].columnId == cols[cj].id
    {
      if x != id {
        assert x in Without(s.columns[cj].taskIds, id);
        WithoutListed(s.columns[cj].taskIds, id, x);
      }
    }
  }

  /** Columns ci and di after the id moves from the first to the end of the second. */
  function MovedColumns(cols: seq<ColumnRec>, id: string, ci: nat, di: nat): seq<ColumnRec>
    requires ci < |cols| && di < |cols|
  {
    var removed := cols[ci := cols[ci].(taskIds := Without(cols[ci].taskIds, id))];
    removed[di := removed[di].(taskIds := removed[di].taskIds + [id])]
  }

  /** A move between columns keeps every id listed as often as before. */
  lemma MovedLists(cols: seq<ColumnRec>, tasks: map<string, TaskRec>, id: string, t': TaskRec, ci: nat, di: nat)
    requires Lists(cols, tasks.Keys) && id in tasks && ci < |cols| && di < |cols| && id in cols[ci].taskIds
    ensures Lists(MovedColumns(cols, id, ci, di), tasks[id := t'].Keys)
  {
    var keys := tasks.Keys;
    var removed := cols[ci := cols[ci].(taskIds := Without(cols[ci].taskIds, id))];
    ListsRemove(cols, keys, ci, id);
    ListsAppend(removed, keys - {id}, di, id);
    assert keys - {id} + {id} == tasks[id := t'].Keys;
  }

  /** After a move every column has the id filtered out, and the target has
      it appended. */
  lemma MovedShape(cols: seq<ColumnRec>, id: string, ci: nat, di: nat)
    requires ci < |cols| && di < |cols| && ci != di
    requires forall j :: 0 <= j < |cols| && j != ci ==> id !in cols[j].taskIds
    ensures var moved := MovedColumns(cols, id, ci, di);
      && |moved| == |cols|
      && forall j :: 0 <= j < |cols| ==>
           moved[j].id == cols[j].id
           && moved[j].taskIds == Without(cols[j].taskIds, id) + (if j == di then [id] else [])
  {
    WithoutColumns(cols, ci, id);
  }

  /** Moving a task's id from its home column ci to column di, whose id its
      new record names, keeps the invariant. */
  lemma MovedInv(s: Store, id: string, t': TaskRec, ci: nat, di: nat)
    requires Inv(s) && id in s.tasks && t'.id == id
    requires ci < |s.columns| && di < |s.columns| && ci != di && s.columns[di].id == t'.columnId
    requires id in s.columns[ci].taskIds
    requires forall j :: 0 <= j < |s.columns| && j != ci ==> id !in s.columns[j].taskIds
    ensures Inv(Store(MovedColumns(s.columns, id, ci, di), s.tasks[id := t'], s.retired))
  {
    var moved := MovedColumns(s.columns, id, ci, di);
    MovedLists(s.columns, s.tasks, id, t', ci, di);
    MovedShape(s.columns, id, ci, di);
    InPlaceAfterMove(s, moved, id, t', di);
    SameIdsDistinct(moved, s.columns);
  }

  /** Columns with the ids of distinct-id columns have distinct ids. */
  lemma SameIdsDistinct(a: seq<ColumnRec>, b: seq<ColumnRec>)
    requires DistinctColumnIds(b) && |a| == |b| && forall j :: 0 <= j < |a| ==> a[j].id == b[j].id
    ensures DistinctColumnIds(a)
  {
  }

  /** The moving case of UpdateKeepsInv. */
  lemma UpdateMove(s: Store, id: string, u: TaskUpdate, ci: nat)
    requires Inv(s) && id in s.tasks && u.columnId.Some? && u.columnId.value != ""
    requires ColumnOf(s.columns, u.columnId.value).Some? && u.columnId.value != s.tasks[id].columnId
    requires ci < |s.columns| && id in s.columns[ci].taskIds
    requires ColumnOf(s.columns, s.tasks[id].columnId) == Some(ci)
    requires forall j :: 0 <= j < |s.columns| && j != ci ==> id !in s.columns[j].taskIds
    ensures Update(s, id, u).Ok?
    ensures Inv(Update(s, id, u).value.0)
    ensures Update(s, id, u).value.1.columnId != s.tasks[id].columnId
    ensures MovedTo(s.columns, Update(s, id, u).value.0.columns, id, Update(s, id, u).value.1.columnId)
  {
    var cols := s.columns;
    var di := ColumnOf(cols, u.columnId.value).value;
    var t' := Updated(s.tasks[id], u);
    var moved := MovedColumns(cols, id, ci, di);
    UpdateMoveResult(s, id, u, ci, di);
    assert Update(s, id, u).value == (Store(moved, s.tasks[id := t'], s.retired), t');
    MovedInv(s, id, t', ci, di);
    MovedShape(cols, id, ci, di);
    ShapeById(cols, moved, id, di, t'.columnId);
  }

  /** The result of a moving `update_task`, spelled out. */
  lemma UpdateMoveResult(s: Store, id: string, u: TaskUpdate, ci: nat, di: nat)
    requires DistinctColumnIds(s.columns) && id in s.tasks && u.columnId.Some? && u.columnId.value != ""
    requires u.columnId.value != s.tasks[id].columnId
    requires ColumnOf(s.columns, s.tasks[id].columnId) == Some(ci)
    requires ColumnOf(s.columns, u.columnId.value) == Some(di)
    ensures var t' := Updated(s.tasks[id], u);
      Update(s, id, u) == Ok((Store(MovedColumns(s.columns, id, ci, di), s.tasks[id := t'], s.retired), t'))
  {
    var cols := s.columns;
    var removed := cols[ci := cols[ci].(taskIds := Without(cols[ci].taskIds, id))];
    ColumnOfIndex(removed, di);
  }

  /** `moved` is `cols` with id taken out of every list and appended to the
      list of the column whose id is `target`. */
  ghost predicate MovedTo(cols: seq<ColumnRec>, moved: seq<ColumnRec>, id: string, target: string) {
    && |moved| == |cols|
    && forall j :: 0 <= j < |cols| ==>
         && moved[j].id == cols[j].id
         && moved[j].taskIds == Without(cols[j].taskIds, id) + (if cols[j].id == target then [id] else [])
  }

  /** MovedShape with the target told by its column id rather than its index. */
  lemma ShapeById(cols: seq<ColumnRec>, moved: seq<ColumnRec>, id: string, di: nat, target: string)
    requires DistinctColumnIds(cols) && di < |cols| && cols[di].id == target && |moved| == |cols|
    requires forall j :: 0 <= j < |cols| ==>
      moved[j].id == cols[j].id && moved[j].taskIds == Without(cols[j].taskIds, id) + (if j == di then [id] else [])
    ensures MovedTo(cols, moved, id, target)
  {
    forall j | 0 <= j < |cols| ensures (j == di) == (cols[j].id == target) {
    }
  }

  // ---------------------------------------------------------------------
  // The sample data

  /** The uuids give ids that are fresh and pairwise distinct. */
  predicate FreshIds(s: Store, uuids: seq<string>) {
    && (forall k :: 0 <= k < |uuids| ==> Fresh(s, TaskIdOf(uuids[k])))
    && (forall k, l :: 0 <= k < l < |uuids| ==> TaskIdOf(uuids[k]) != TaskIdOf(uuids[l]))
  }

  /** Finding a column depends on the column ids alone. */
  lemma {:induction false} ColumnOfSameIds(a: seq<ColumnRec>, b: seq<ColumnRec>, columnId: string)
    requires |a| == |b| && forall j :: 0 <= j < |a| ==> a[j].id == b[j].id
    ensures ColumnOf(a, columnId) == ColumnOf(b, columnId)
  {
    if a != [] && a[0].id != columnId {
      ColumnOfSameIds(a[1..], b[1..], columnId);
    }
  }

  /** The ids the uuids give. */
  function IdsFrom(uuids: seq<string>): set<string> {
    set k | 0 <= k < |uuids| :: TaskIdOf(uuids[k])
  }

  lemma IdsFromSplit(uuids: seq<string>)
    requires uuids != []
    ensures IdsFrom(uuids) == {TaskIdOf(uuids[0])} + IdsFrom(uuids[1..])
  {
    forall x | x in IdsFrom(uuids) ensures x in {TaskIdOf(uuids[0])} + IdsFrom(uuids[1..]) {
      var k :| 0 <= k < |uuids| && x == TaskIdOf(uuids[k]);
      if k > 0 {
        assert x == TaskIdOf(uuids[1..][k - 1]);
      }
    }
    forall x | x in IdsFrom(uuids[1..]) ensures x in IdsFrom(uuids) {
      var k :| 0 <= k < |uuids[1..]| && x == TaskIdOf(uuids[1..][k]);
      assert x == TaskIdOf(uuids[k + 1]);
    }
  }

  /** After the first creation the remaining uuids still give fresh ids. */
  lemma FreshIdsTail(s: Store, s1: Store, uuids: seq<string>, t: TaskRec)
    requires uuids != [] && FreshIds(s, uuids)
    requires s1.tasks == s.tasks[TaskIdOf(uuids[0]) := t] && s1.retired == s.retired
    ensures FreshIds(s1, uuids[1..])
  {
    forall k | 0 <= k < |uuids[1..]| ensures Fresh(s1, TaskIdOf(uuids[1..][k])) {
      assert TaskIdOf(uuids[0]) != TaskIdOf(uuids[k + 1]);
    }
    forall k, l | 0 <= k < l < |uuids[1..]| ensures TaskIdOf(uuids[1..][k]) != TaskIdOf(uuids[1..][l]) {
      assert TaskIdOf(uuids[k + 1]) != TaskIdOf(uuids[l + 1]);
    }
  }

  /** Creating tasks for existing columns under fresh ids keeps the invariant. */
  lemma {:induction false} CreateAllKeepsInv(s: Store, reqs: seq<TaskCreate>, uuids: seq<string>, clock: seq<string>)
    requires |uuids| == |reqs| && |clock| == |reqs|
    requires Inv(s) && FreshIds(s, uuids)
    requires forall k :: 0 <= k < |reqs| ==> ColumnOf(s.columns, reqs[k].columnId).Some?
    ensures Inv(CreateAll(s, reqs, uuids, clock))
    decreases |reqs|
  {
    if reqs != [] {
      var (s1, t) := Create(s, reqs[0], uuids[0], clock[0]);
      CreateKeepsInv(s, reqs[0], uuids[0], clock[0]);
      forall k | 0 <= k < |reqs[1..]| ensures ColumnOf(s1.columns, reqs[1..][k].columnId).Some? {
        ColumnOfSameIds(s1.columns, s.columns, reqs[k + 1].columnId);
      }
      FreshIdsTail(s, s1, uuids, t);
      CreateAllKeepsInv(s1, reqs[1..], uuids[1..], clock[1..]);
      CreateAllStep(s, reqs, uuids, clock);
    }
  }

  /** Creating tasks adds exactly the ids the uuids give, and retires nothing. */
  lemma {:induction false} CreateAllKeys(s: Store, reqs: seq<TaskCreate>, uuids: seq<string>, clock: seq<string>)
    requires |uuids| == |reqs| && |clock| == |reqs|
    ensures var s' := CreateAll(s, reqs, uuids, clock);
      s'.tasks.Keys == s.tasks.Keys + IdsFrom(uuids) && s'.retired == s.retired
    decreases |reqs|
  {
    if reqs != [] {
      var s1 := Create(s, reqs[0], uuids[0], clock[0]).0;
      assert s1.tasks.Keys == s.tasks.Keys + {TaskIdOf(uuids[0])};
      CreateAllKeys(s1, reqs[1..], uuids[1..], clock[1..]);
      CreateAllStep(s, reqs, uuids, clock);
      IdsFromSplit(uuids);
    }
  }

  /** The ids of the requests bound for a column, in request order. */
  function IdsFor(reqs: seq<TaskCreate>, uuids: seq<string>, columnId: string): seq<string>
    requires |uuids| == |reqs|
    decreases |reqs|
  {
    if reqs == [] then []
    else (if reqs[0].columnId == columnId then [TaskIdOf(uuids[0])] else []) + IdsFor(reqs[1..], uuids[1..], columnId)
  }

  /** Creating tasks for existing columns appends to each column the ids
      bound for it, in the order of the requests, and keeps the column ids. */
  lemma {:induction false} CreateAllAppends(s: Store, reqs: seq<TaskCreate>, uuids: seq<string>, clock: seq<string>)
    requires |uuids| == |reqs| && |clock| == |reqs| && DistinctColumnIds(s.columns)
    requires forall k :: 0 <= k < |reqs| ==> ColumnOf(s.columns, reqs[k].columnId).Some?
    ensures var s' := CreateAll(s, reqs, uuids, clock);
      && |s'.columns| == |s.columns|
      && forall j :: 0 <= j < |s.columns| ==>
           s'.columns[j].id == s.columns[j].id
           && s'.columns[j].taskIds == s.columns[j].taskIds + IdsFor(reqs, uuids, s.columns[j].id)
    decreases |reqs|
  {
    if reqs != [] {
      var s1 := Create(s, reqs[0], uuids[0], clock[0]).0;
      var ci := ColumnOf(s.columns, reqs[0].columnId).value;
      forall k | 0 <= k < |reqs[1..]| ensures ColumnOf(s1.columns, reqs[1..][k].columnId).Some? {
        ColumnOfSameIds(s1.columns, s.columns, reqs[k + 1].columnId);
      }
      CreateAllAppends(s1, reqs[1..], uuids[1..], clock[1..]);
      CreateAppendsOne(s, reqs[0], uuids[0], clock[0]);
      var s' := CreateAll(s1, reqs[1..], uuids[1..], clock[1..]);
      CreateAllStep(s, reqs, uuids, clock);
      forall j | 0 <= j < |s.columns|
        ensures s'.columns[j].id == s.columns[j].id
        ensures s'.columns[j].taskIds == s.columns[j].taskIds + IdsFor(reqs, uuids, s.columns[j].id)
      {
        var id := s.columns[j].id;
        var head := if reqs[0].columnId == id then [TaskIdOf(uuids[0])] else [];
        assert IdsFor(reqs, uuids, id) == head + IdsFor(reqs[1..], uuids[1..], id);
        assert s1.columns[j].id == id && s1.columns[j].taskIds == s.columns[j].taskIds + head;
        AppendTwice(s.columns[j].taskIds, head, IdsFor(reqs[1..], uuids[1..], id));
      }
    }
  }

  /** Concatenation regrouped; stated apart so that the forall above does not
      have to find it among the store's facts. */
  lemma AppendTwice(a: seq<string>, b: seq<string>, c: seq<string>)
    ensures (a + b) + c == a + (b + c)
  {
  }

  /** One `create_task` appends the new id to the column it names and to no other. */
  lemma CreateAppendsOne(s: Store, req: TaskCreate, uuid: string, now: string)
    requires DistinctColumnIds(s.columns) && ColumnOf(s.columns, req.columnId).Some?
    ensures var s1 := Create(s, req, uuid, now).0;
      && |s1.columns| == |s.columns|
      && forall j :: 0 <= j < |s.columns| ==>
           s1.columns[j].id == s.columns[j].id
           && s1.columns[j].taskIds == s.columns[j].taskIds + (if req.columnId == s.columns[j].id then [TaskIdOf(uuid)] else [])
  {
  }

  /** Distinct uuids give as many ids. */
  lemma {:induction false} IdsFromCard(uuids: seq<string>)
    requires forall k, l :: 0 <= k < l < |uuids| ==> TaskIdOf(uuids[k]) != TaskIdOf(uuids[l])
    ensures |IdsFrom(uuids)| == |uuids|
  {
    if uuids != [] {
      IdsFromSplit(uuids);
      IdsFromCard(uuids[1..]);
      forall k | 0 <= k < |uuids[1..]| ensures TaskIdOf(uuids[1..][k]) != TaskIdOf(uuids[0]) {
        assert uuids[1..][k] == uuids[k + 1];
      }
      assert TaskIdOf(uuids[0]) !in IdsFrom(uuids[1..]);
    }
  }

  /** Every sample task names one of the start-up columns. */
  lemma SampleColumnsExist()
    ensures forall k :: 0 <= k < |SampleTasks| ==> ColumnOf(InitialColumns, SampleTasks[k].columnId).Some?
  {
    forall k | 0 <= k < |SampleTasks| ensures ColumnOf(InitialColumns, SampleTasks[k].columnId).Some? {
      var j := if k < 2 then 0 else if k < 4 then 1 else 2;
      assert SampleTasks[k].columnId == InitialColumns[j].id;
      assert ColumnOf(InitialColumns, InitialColumns[j].id).Some?;
    }
  }

  /** `generate_sample_data` on the start-up database: the invariant holds
      and the dictionary holds the five new tasks. */
  lemma SampleData(uuids: seq<string>, clock: seq<string>)
    requires |uuids| == 5 && |clock| == 5 && FreshIds(InitialStore, uuids)
    ensures Inv(CreateAll(InitialStore, SampleTasks, uuids, clock))
    ensures CreateAll(InitialStore, SampleTasks, uuids, clock).tasks.Keys == IdsFrom(uuids)
    ensures |CreateAll(InitialStore, SampleTasks, uuids, clock).tasks| == 5
  {
    InitialInv();
    SampleColumnsExist();
    CreateAllKeepsInv(InitialStore, SampleTasks, uuids, clock);
    CreateAllFromEmpty(InitialStore, SampleTasks, uuids, clock);
  }

  /** Creating tasks under distinct ids, starting from no tasks, stores
      exactly the new ids. */
  lemma CreateAllFromEmpty(s: Store, reqs: seq<TaskCreate>, uuids: seq<string>, clock: seq<string>)
    requires |uuids| == |reqs| && |clock| == |reqs| && s.tasks == map[]
    requires forall k, l :: 0 <= k < l < |uuids| ==> TaskIdOf(uuids[k]) != TaskIdOf(uuids[l])
    ensures CreateAll(s, reqs, uuids, clock).tasks.Keys == IdsFrom(uuids)
    ensures |CreateAll(s, reqs, uuids, clock).tasks| == |uuids|
  {
    CreateAllKeys(s, reqs, uuids, clock);
    IdsFromCard(uuids);
  }

  /** After `generate_sample_data` each start-up column lists the ids of the
      sample tasks bound for it, in order. */
  lemma SampleLayout(uuids: seq<string>, clock: seq<string>)
    requires |uuids| == 5 && |clock| == 5
    ensures var s := CreateAll(InitialStore, SampleTasks, uuids, clock);
      && |s.columns| == 3
      && forall j :: 0 <= j < 3 ==>
           s.columns[j].id == InitialColumns[j].id
           && s.columns[j].taskIds == IdsFor(SampleTasks, uuids, InitialColumns[j].id)
  {
    InitialInv();
    SampleColumnsExist();
    CreateAllAppends(InitialStore, SampleTasks, uuids, clock);
    InitialEmpty();
    var s := CreateAll(InitialStore, SampleTasks, uuids, clock);
    forall j | 0 <= j < 3 ensures s.columns[j].taskIds == IdsFor(SampleTasks, uuids, InitialColumns[j].id) {
      assert InitialColumns[j].taskIds == [];
    }
  }

  /** The three start-up columns list nothing. */
  lemma InitialEmpty()
    ensures |InitialColumns| == 3 && forall j :: 0 <= j < 3 ==> InitialColumns[j].taskIds == []
  {
  }

  // ---------------------------------------------------------------------
  // What `update_task` does with the board's requests

  /** The body of a frontend PATCH as pydantic reads it: `TaskUpdate` keeps
      the title, description and column id and drops every other key. */
  function FromPatch(p: Types.TaskPatch): (u: TaskUpdate)
    ensures u.title == p.title && u.description == p.description && u.columnId == p.columnId
  {
    TaskUpdate(p.title, p.description, p.columnId)
  }

  /** A resequencing update for a task already in its column changes nothing
      on the server: `sortOrder` is not a field the backend stores. */
  lemma ResequenceNotStored(s: Store, id: string, i: nat)
    requires id in s.tasks
    ensures Update(s, id, FromPatch(ColumnSort.SequencePatch(s.tasks[id].columnId, i))) == Ok((s, s.tasks[id]))
  {
    var t := s.tasks[id];
    assert Updated(t, FromPatch(ColumnSort.SequencePatch(t.columnId, i))) == t;
    assert s.tasks[id := t] == s.tasks;
  }

  /** A store with one task, "task-a", in column-1. */
  const OneTask := Store(
    [ColumnRec("column-1", "To Do", ["task-a"]), ColumnRec("column-2", "In Progress", []), ColumnRec("column-3", "Done", [])],
    map["task-a" := TaskRec("task-a", "a", None, "column-1", "t0")],
    map[])

  /** The one-task store is `create_task` of "a" into column-1 on the
      start-up database, so it satisfies the invariant. */
  lemma OneTaskInv()
    ensures Inv(OneTask)
  {
    var req := TaskCreate("a", None, "column-1");
    InitialInv();
    assert ColumnOf(InitialColumns, "column-1") == Some(0);
    CreateKeepsInv(InitialStore, req, "a", "t0");
    OneTaskBuilt();
  }

  /** OneTask is what `create_task` builds. */
  lemma OneTaskBuilt()
    ensures OneTask == Create(InitialStore, TaskCreate("a", None, "column-1"), "a", "t0").0
  {
    assert ColumnOf(InitialColumns, "column-1") == Some(0);
    assert TaskIdOf("a") == "task-a";
    assert InitialColumns[0].taskIds + ["task-a"] == ["task-a"];
  }

  /** `update_task` does not check the column it is given: naming a column
      that does not exist keeps the task in the dictionary but takes it off
      every column. */
  lemma UpdateUnknownColumnUnlists()
    ensures var r := Update(OneTask, "task-a", TaskUpdate(None, None, Some("column-9")));
      && r.Ok? && "task-a" in r.value.0.tasks && AllIds(r.value.0.columns)["task-a"] == 0
      && !Inv(r.value.0)
  {
    var cols := OneTask.columns;
    var r := Update(OneTask, "task-a", TaskUpdate(None, None, Some("column-9")));
    var removed := RemoveId(cols, Some(0), "task-a");
    assert Without(["task-a"], "task-a") == [];
    assert removed == InitialColumns;
    assert r.value.0.columns == InitialColumns;
    assert AllIds(InitialColumns) == multiset{} by {
      assert InitialColumns[1..][1..][1..] == [];
    }
  }

  /** `columnId: ""` is stored, but Python's `or` treats it as no move: the
      task stays listed in column-1 while naming no column. Deleting it then
      finds no column to filter, and column-1 goes on listing a task the
      dictionary no longer holds. */
  lemma EmptyColumnIdStrands()
    ensures var r := Update(OneTask, "task-a", TaskUpdate(None, None, Some("")));
      && r.Ok? && r.value.0.columns == OneTask.columns && r.value.1.columnId == ""
      && !Inv(r.value.0)
      && var d := Delete(r.value.0, "task-a");
         && d.Ok? && "task-a" !in d.value.tasks && "task-a" in d.value.retired
         && d.value.columns[0].taskIds == ["task-a"]
  {
    var r := Update(OneTask, "task-a", TaskUpdate(None, None, Some("")));
    var s' := r.value.0;
    assert "task-a" in s'.columns[0].taskIds && s'.tasks["task-a"].columnId != s'.columns[0].id;
  }
}
