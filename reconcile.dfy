/** What App's `handleDragEnd` does to the board (frontend/src/App.tsx:184-260),
    as a function of the columns before the move: the task is spliced out of
    the first column that holds it, optionally given its free-form position,
    given the target column id when the column changes, and pushed onto the
    end of the target column if one has that id. */
module Reconcile {
  import opened Wrappers
  import opened Types
  import opened Seqs

  /** The "Done" column whose arrivals are celebrated. */
  const DoneColumn := "column-3"

  /** The first column holding a task with the id, and the task's first index
      there: where the loop over `newBoard.columns` stops. */
  function LocateTask(cols: seq<Column>, id: string): (r: Option<(nat, nat)>)
    ensures r.Some? ==> r.value.0 < |cols| && r.value.1 < |cols[r.value.0].tasks|
    ensures r.Some? ==> r.value.1 as int == FindTaskIndex(cols[r.value.0].tasks, id)
    ensures r.Some? ==> forall j :: 0 <= j < r.value.0 ==> FindTaskIndex(cols[j].tasks, id) == -1
    ensures r.None? <==> forall j :: 0 <= j < |cols| ==> FindTaskIndex(cols[j].tasks, id) == -1
  {
    LocateFrom(cols, id, 0)
  }

  /** The loop from column `i` on. */
  function LocateFrom(cols: seq<Column>, id: string, i: nat): (r: Option<(nat, nat)>)
    requires i <= |cols|
    ensures r.Some? ==> i <= r.value.0 < |cols| && r.value.1 < |cols[r.value.0].tasks|
    ensures r.Some? ==> r.value.1 as int == FindTaskIndex(cols[r.value.0].tasks, id)
    ensures r.Some? ==> forall j :: i <= j < r.value.0 ==> FindTaskIndex(cols[j].tasks, id) == -1
    ensures r.None? <==> forall j :: i <= j < |cols| ==> FindTaskIndex(cols[j].tasks, id) == -1
    decreases |cols| - i
  {
    if i == |cols| then None
    else
      var k := FindTaskIndex(cols[i].tasks, id);
      if k != -1 then Some((i, k as nat)) else LocateFrom(cols, id, i + 1)
  }

  /** The moved copy of the task: `position` set in free-form mode when one is
      given, `columnId` set only when the column changes. */
  function MovedTask(t: Task, source: string, target: string, position: Option<Position>, freeform: bool): Task {
    var placed := if freeform && position.Some? then t.(position := position) else t;
    if source != target then placed.(columnId := target) else placed
  }

  /** The PATCH body: `columnId` always, `position` only in free-form mode
      when one is given. */
  function MovePayload(target: string, position: Option<Position>, freeform: bool): TaskPatch {
    EmptyPatch.(columnId := Some(target), position := if freeform && position.Some? then position else None)
  }

  /** `destColumn.tasks.push(task)` on the first column with the target id, if any. */
  function AppendTo(cols: seq<Column>, target: string, t: Task): seq<Column> {
    match FindColumnIndex(cols, target)
    case None => cols
    case Some(d) => cols[d := cols[d].(tasks := cols[d].tasks + [t])]
  }

  /** The board after the move, the source column, the moved task, the PATCH
      body, and the two signals: the move sound (the column changed) and the
      completion effect (a task arrived in "Done" from elsewhere). */
  datatype MoveResult = MoveResult(
    columns: seq<Column>, source: string, task: Task, payload: TaskPatch, moved: bool, completed: bool)

  /** None when no column holds the task: the handler then returns before
      changing anything or sending anything. */
  function Move(cols: seq<Column>, taskId: string, target: string, position: Option<Position>, freeform: bool)
    : Option<MoveResult>
  {
    match LocateTask(cols, taskId)
    case None => None
    case Some(p) =>
      var source := cols[p.0].id;
      var removed := cols[p.0 := cols[p.0].(tasks := RemoveAt(cols[p.0].tasks, p.1))];
      var task := MovedTask(cols[p.0].tasks[p.1], source, target, position, freeform);
      Some(MoveResult(
        AppendTo(removed, target, task), source, task, MovePayload(target, position, freeform),
        source != target, source != target && target == DoneColumn && source != DoneColumn))
  }

  /** Changing the tasks of a column leaves the lookup by column id as it was. */
  lemma FindColumnIndexTasksOnly(cols: seq<Column>, j: nat, ts: seq<Task>, id: string)
    requires j < |cols|
    ensures FindColumnIndex(cols[j := cols[j].(tasks := ts)], id) == FindColumnIndex(cols, id)
  {
    FindColumnIndexSameIds(cols[j := cols[j].(tasks := ts)], cols, id);
  }

  /** The lookup by column id depends on the column ids alone. */
  lemma {:induction false} FindColumnIndexSameIds(a: seq<Column>, b: seq<Column>, id: string)
    requires |a| == |b| && forall k :: 0 <= k < |a| ==> a[k].id == b[k].id
    ensures FindColumnIndex(a, id) == FindColumnIndex(b, id)
  {
    if a != [] && a[0].id != id {
      FindColumnIndexSameIds(a[1..], b[1..], id);
    }
  }

  /** The columns once the task has been spliced out. */
  function Removed(cols: seq<Column>, ci: nat, ti: nat): seq<Column>
    requires ci < |cols| && ti < |cols[ci].tasks|
  {
    cols[ci := cols[ci].(tasks := RemoveAt(cols[ci].tasks, ti))]
  }

  /** Move spelled out step by step. */
  lemma MoveParts(cols: seq<Column>, taskId: string, target: string, position: Option<Position>, freeform: bool)
    requires Move(cols, taskId, target, position, freeform).Some?
    ensures LocateTask(cols, taskId).Some?
    ensures var p := LocateTask(cols, taskId).value;
      var r := Move(cols, taskId, target, position, freeform).value;
      && r.source == cols[p.0].id
      && r.task == MovedTask(cols[p.0].tasks[p.1], cols[p.0].id, target, position, freeform)
      && r.columns == AppendTo(Removed(cols, p.0, p.1), target, r.task)
      && FindColumnIndex(Removed(cols, p.0, p.1), target) == FindColumnIndex(cols, target)
  {
    var p := LocateTask(cols, taskId).value;
    FindColumnIndexTasksOnly(cols, p.0, RemoveAt(cols[p.0].tasks, p.1), target);
  }

  /** The move fails exactly when no column holds a task with the id. */
  lemma MoveNotFound(cols: seq<Column>, taskId: string, target: string, position: Option<Position>, freeform: bool)
    ensures Move(cols, taskId, target, position, freeform).None? <==>
      forall j, k :: 0 <= j < |cols| && 0 <= k < |cols[j].tasks| ==> cols[j].tasks[k].id != taskId
  {
    if Move(cols, taskId, target, position, freeform).Some? {
      var p := LocateTask(cols, taskId).value;
      assert cols[p.0].tasks[p.1].id == taskId;
    }
  }

  /** What a successful move does to the task: it is the one at the first
      index holding the id in the first column holding it; its `columnId`
      changes only with the column, its position only in free-form mode;
      the PATCH carries `columnId = target` and the position only when it
      was set; the completion effect fires exactly when the task arrives in
      "Done" from another column. */
  lemma MoveSpec(cols: seq<Column>, taskId: string, target: string, position: Option<Position>, freeform: bool)
    requires Move(cols, taskId, target, position, freeform).Some?
    ensures var r := Move(cols, taskId, target, position, freeform).value;
      var ci := LocateTask(cols, taskId).value.0;
      var ti := LocateTask(cols, taskId).value.1;
      var old_ := cols[ci].tasks[ti];
      && old_.id == taskId
      && r.source == cols[ci].id
      && r.task == old_.(columnId := if r.source != target then target else old_.columnId,
                         position := if freeform && position.Some? then position else old_.position)
      && r.payload == EmptyPatch.(columnId := Some(target), position := if freeform && position.Some? then position else None)
      && r.moved == (r.source != target)
      && r.completed == (target == DoneColumn && r.source != DoneColumn)
  {
    MoveParts(cols, taskId, target, position, freeform);
  }

  /** What a successful move does to the board: the task leaves the first
      column holding it at its first index there, the other tasks keeping
      their order, and is pushed onto the end of the first column with the
      target id, even when that is its own column; nothing else changes. */
  lemma MoveLayout(cols: seq<Column>, taskId: string, target: string, position: Option<Position>, freeform: bool)
    requires Move(cols, taskId, target, position, freeform).Some?
    ensures var r := Move(cols, taskId, target, position, freeform).value;
      var ci := LocateTask(cols, taskId).value.0;
      var ti := LocateTask(cols, taskId).value.1;
      && |r.columns| == |cols|
      && (forall j :: 0 <= j < |cols| ==> r.columns[j] == cols[j].(tasks := r.columns[j].tasks))
      && (forall j :: 0 <= j < |cols| ==>
            r.columns[j].tasks ==
              (if j == ci then RemoveAt(cols[ci].tasks, ti) else cols[j].tasks) +
              (if FindColumnIndex(cols, target) == Some(j) then [r.task] else []))
  {
    var p := LocateTask(cols, taskId).value;
    var r := Move(cols, taskId, target, position, freeform).value;
    MoveParts(cols, taskId, target, position, freeform);
    var removed := Removed(cols, p.0, p.1);
    forall j | 0 <= j < |cols|
      ensures r.columns[j] == cols[j].(tasks := r.columns[j].tasks)
      ensures r.columns[j].tasks ==
        (if j == p.0 then RemoveAt(cols[p.0].tasks, p.1) else cols[j].tasks) +
        (if FindColumnIndex(cols, target) == Some(j) then [r.task] else [])
    {
      if FindColumnIndex(cols, target) != Some(j) {
        assert r.columns[j] == removed[j];
      }
    }
  }

  /** Every task id on the board, counted once per occurrence. */
  function BoardIds(cols: seq<Column>): multiset<string> {
    if cols == [] then multiset{} else multiset(IdsOf(cols[0].tasks)) + BoardIds(cols[1..])
  }

  /** Replacing one column's tasks trades its ids for the new ones. */
  lemma {:induction false} BoardIdsUpdate(cols: seq<Column>, j: nat, ts: seq<Task>)
    requires j < |cols|
    ensures BoardIds(cols[j := cols[j].(tasks := ts)]) + multiset(IdsOf(cols[j].tasks))
         == BoardIds(cols) + multiset(IdsOf(ts))
  {
    var u := cols[j := cols[j].(tasks := ts)];
    if j == 0 {
      assert u[1..] == cols[1..];
    } else {
      var m0 := multiset(IdsOf(cols[0].tasks));
      assert u[0] == cols[0];
      assert u[1..] == cols[1..][j - 1 := cols[j].(tasks := ts)];
      assert cols[1..][j - 1] == cols[j];
      BoardIdsUpdate(cols[1..], j - 1, ts);
      calc {
        BoardIds(u) + multiset(IdsOf(cols[j].tasks));
        m0 + BoardIds(u[1..]) + multiset(IdsOf(cols[j].tasks));
        m0 + (BoardIds(u[1..]) + multiset(IdsOf(cols[j].tasks)));
        m0 + (BoardIds(cols[1..]) + multiset(IdsOf(ts)));
        BoardIds(cols) + multiset(IdsOf(ts));
      }
    }
  }

  lemma IdsOfRemoveAt(ts: seq<Task>, i: nat)
    requires i < |ts|
    ensures multiset(IdsOf(RemoveAt(ts, i))) + multiset{ts[i].id} == multiset(IdsOf(ts))
  {
    var pre, post := ts[..i], ts[i + 1..];
    assert ts == pre + [ts[i]] + post;
    IdsOfConcat(pre + [ts[i]], post);
    IdsOfConcat(pre, [ts[i]]);
    IdsOfConcat(pre, post);
    assert IdsOf([ts[i]]) == [ts[i].id];
  }

  /** No two columns share an id. */
  ghost predicate DistinctColumnIds(cols: seq<Column>) {
    forall i, j :: 0 <= i < j < |cols| ==> cols[i].id != cols[j].id
  }

  /** No task id occurs twice on the board. */
  ghost predicate DistinctTaskIds(cols: seq<Column>) {
    forall id :: BoardIds(cols)[id] <= 1
  }

  /** Every task's `columnId` is the id of the column holding it. */
  ghost predicate TasksInPlace(cols: seq<Column>) {
    forall j, k :: 0 <= j < |cols| && 0 <= k < |cols[j].tasks| ==> cols[j].tasks[k].columnId == cols[j].id
  }

  /** The board's own invariant. */
  ghost predicate BoardInv(cols: seq<Column>) {
    DistinctColumnIds(cols) && DistinctTaskIds(cols) && TasksInPlace(cols)
  }

  /** Splicing a task out keeps every remaining task in place. */
  lemma RemovedInPlace(cols: seq<Column>, ci: nat, ti: nat)
    requires ci < |cols| && ti < |cols[ci].tasks| && TasksInPlace(cols)
    ensures TasksInPlace(Removed(cols, ci, ti))
  {
    var u := Removed(cols, ci, ti);
    forall j, k | 0 <= j < |u| && 0 <= k < |u[j].tasks| ensures u[j].tasks[k].columnId == u[j].id {
      if j == ci {
        assert u[j].tasks[k] == cols[ci].tasks[if k < ti then k else k + 1];
      }
    }
  }

  /** Pushing a task that names the column keeps every task in place. */
  lemma AppendedInPlace(cols: seq<Column>, d: nat, t: Task)
    requires d < |cols| && TasksInPlace(cols) && t.columnId == cols[d].id
    ensures TasksInPlace(cols[d := cols[d].(tasks := cols[d].tasks + [t])])
  {
  }

  /** Changing the tasks of a column keeps the column ids distinct. */
  lemma TasksOnlyDistinct(cols: seq<Column>, j: nat, ts: seq<Task>)
    requires j < |cols| && DistinctColumnIds(cols)
    ensures DistinctColumnIds(cols[j := cols[j].(tasks := ts)])
  {
    var u := cols[j := cols[j].(tasks := ts)];
    assert forall i :: 0 <= i < |cols| ==> u[i].id == cols[i].id;
  }

  /** Cancelling a common part: if `a + old_ == b + new_` and `old_` is `new_`
      plus `x`, then `a + x == b`. */
  lemma MultisetTrade<T>(a: multiset<T>, b: multiset<T>, old_: multiset<T>, new_: multiset<T>, x: multiset<T>)
    requires a + old_ == b + new_ && new_ + x == old_
    ensures a + x == b
  {
    forall e ensures (a + x)[e] == b[e] {
      assert (a + old_)[e] == (b + new_)[e];
      assert (new_ + x)[e] == old_[e];
    }
  }

  /** Splicing one task out of a column removes exactly its id from the board. */
  lemma RemovedIds(cols: seq<Column>, ci: nat, ti: nat)
    requires ci < |cols| && ti < |cols[ci].tasks|
    ensures BoardIds(Removed(cols, ci, ti)) + multiset{cols[ci].tasks[ti].id} == BoardIds(cols)
  {
    var ts := RemoveAt(cols[ci].tasks, ti);
    BoardIdsUpdate(cols, ci, ts);
    IdsOfRemoveAt(cols[ci].tasks, ti);
    MultisetTrade(BoardIds(Removed(cols, ci, ti)), BoardIds(cols), multiset(IdsOf(cols[ci].tasks)),
      multiset(IdsOf(ts)), multiset{cols[ci].tasks[ti].id});
  }

  /** Pushing a task onto a column adds exactly its id to the board. */
  lemma AppendedIds(cols: seq<Column>, d: nat, t: Task)
    requires d < |cols|
    ensures BoardIds(cols) + multiset{t.id} == BoardIds(cols[d := cols[d].(tasks := cols[d].tasks + [t])])
  {
    var grown := cols[d].tasks + [t];
    BoardIdsUpdate(cols, d, grown);
    IdsOfAppend(cols[d].tasks, t);
    MultisetTrade(BoardIds(cols), BoardIds(cols[d := cols[d].(tasks := grown)]), multiset(IdsOf(grown)),
      multiset(IdsOf(cols[d].tasks)), multiset{t.id});
  }

  /** A move keeps every task id on the board, except that the task is lost
      when no column has the target id. */
  lemma {:induction false} MoveKeepsIds(cols: seq<Column>, taskId: string, target: string, position: Option<Position>, freeform: bool)
    requires Move(cols, taskId, target, position, freeform).Some?
    ensures var r := Move(cols, taskId, target, position, freeform).value;
      && taskId in BoardIds(cols)
      && (FindColumnIndex(cols, target).Some? ==> BoardIds(r.columns) == BoardIds(cols))
      && (FindColumnIndex(cols, target).None? ==> BoardIds(r.columns) + multiset{taskId} == BoardIds(cols))
  {
    MoveParts(cols, taskId, target, position, freeform);
    var p := LocateTask(cols, taskId).value;
    var r := Move(cols, taskId, target, position, freeform).value;
    var removed := Removed(cols, p.0, p.1);
    RemovedIds(cols, p.0, p.1);
    match FindColumnIndex(removed, target)
    case None =>
    case Some(d) =>
      AppendedIds(removed, d, r.task);
  }

  /** The ids in one column are among the board's ids. */
  lemma {:induction false} ColumnIdsInBoard(cols: seq<Column>, j: nat)
    requires j < |cols|
    ensures multiset(IdsOf(cols[j].tasks)) <= BoardIds(cols)
  {
    if j > 0 {
      ColumnIdsInBoard(cols[1..], j - 1);
    }
  }

  /** Moving to an existing column preserves the board invariant, and the task
      then sits at the end of the target column, carrying its id. */
  lemma {:induction false} MovePreservesInv(cols: seq<Column>, taskId: string, target: string, position: Option<Position>, freeform: bool)
    requires BoardInv(cols)
    requires Move(cols, taskId, target, position, freeform).Some?
    requires FindColumnIndex(cols, target).Some?
    ensures var r := Move(cols, taskId, target, position, freeform).value;
      var d := FindColumnIndex(cols, target).value;
      && BoardInv(r.columns)
      && r.columns[d].tasks != [] && r.columns[d].tasks[|r.columns[d].tasks| - 1] == r.task
      && r.task.columnId == target
  {
    MoveParts(cols, taskId, target, position, freeform);
    MoveKeepsIds(cols, taskId, target, position, freeform);
    var p := LocateTask(cols, taskId).value;
    var r := Move(cols, taskId, target, position, freeform).value;
    var d := FindColumnIndex(cols, target).value;
    var removed := Removed(cols, p.0, p.1);
    assert r.columns == removed[d := removed[d].(tasks := removed[d].tasks + [r.task])];
    assert r.task.columnId == target by {
      if r.source == target {
        assert cols[p.0].tasks[p.1].columnId == cols[p.0].id;
      }
    }
    RemovedInPlace(cols, p.0, p.1);
    AppendedInPlace(removed, d, r.task);
    TasksOnlyDistinct(cols, p.0, RemoveAt(cols[p.0].tasks, p.1));
    TasksOnlyDistinct(removed, d, removed[d].tasks + [r.task]);
  }

  /** Two columns' ids together are among the board's ids. */
  lemma TwoColumnsInBoard(cols: seq<Column>, i: nat, j: nat)
    requires i < |cols| && j < |cols| && i != j
    ensures multiset(IdsOf(cols[i].tasks)) + multiset(IdsOf(cols[j].tasks)) <= BoardIds(cols)
  {
    var cleared := cols[i := cols[i].(tasks := [])];
    var mi, mj := multiset(IdsOf(cols[i].tasks)), multiset(IdsOf(cols[j].tasks));
    BoardIdsUpdate(cols, i, []);
    assert multiset(IdsOf([])) == multiset{};
    assert BoardIds(cleared) + mi == BoardIds(cols);
    assert cleared[j] == cols[j];
    ColumnIdsInBoard(cleared, j);
    forall e ensures (mi + mj)[e] <= BoardIds(cols)[e] {
      assert mj[e] <= BoardIds(cleared)[e];
      assert (BoardIds(cleared) + mi)[e] == BoardIds(cols)[e];
    }
  }

  /** A value that occurs at most once occurs at no earlier index. */
  lemma OnceAtEnd<T>(s: seq<T>, l: nat)
    requires l < |s| && multiset(s)[s[l]] <= 1
    ensures forall k :: 0 <= k < l ==> s[k] != s[l]
  {
    assert s == s[..l] + [s[l]] + s[l + 1..];
    assert s[l] !in multiset(s[..l]);
    assert forall k :: 0 <= k < l ==> s[k] == s[..l][k];
  }

  /** An id that occurs once on the board and is held by one column is held by no other. */
  lemma OnlyInColumn(c: seq<Column>, d: nat, j: nat, id: string)
    requires BoardIds(c)[id] <= 1 && d < |c| && j < |c| && j != d
    requires id in multiset(IdsOf(c[d].tasks))
    ensures FindTaskIndex(c[j].tasks, id) == -1
  {
    var mj := multiset(IdsOf(c[j].tasks));
    TwoColumnsInBoard(c, d, j);
    assert (multiset(IdsOf(c[d].tasks)) + mj)[id] <= BoardIds(c)[id];
    assert mj[id] == 0;
    assert forall k :: 0 <= k < |c[j].tasks| ==> IdsOf(c[j].tasks)[k] in mj;
  }

  /** A task id that occurs once on the board, found at the end of a column,
      is located there and nowhere before. */
  lemma {:induction false} LocateUnique(c: seq<Column>, d: nat, id: string)
    requires BoardIds(c)[id] <= 1
    requires d < |c| && c[d].tasks != [] && c[d].tasks[|c[d].tasks| - 1].id == id
    ensures LocateTask(c, id) == Some((d, |c[d].tasks| - 1))
  {
    var last := |c[d].tasks| - 1;
    var here := IdsOf(c[d].tasks);
    assert here[last] == id;
    forall j | 0 <= j < |c| && j != d ensures FindTaskIndex(c[j].tasks, id) == -1 {
      OnlyInColumn(c, d, j, id);
    }
    ColumnIdsInBoard(c, d);
    assert multiset(here)[id] <= BoardIds(c)[id];
    OnceAtEnd(here, last);
    LocateIs(c, id, d, last);
  }

  /** LocateTask is the first column holding the id, at the id's first index there. */
  lemma LocateIs(c: seq<Column>, id: string, d: nat, k: nat)
    requires d < |c| && FindTaskIndex(c[d].tasks, id) == k
    requires forall j :: 0 <= j < d ==> FindTaskIndex(c[j].tasks, id) == -1
    ensures LocateTask(c, id) == Some((d, k))
  {
    LocateFromIs(c, id, 0, d, k);
  }

  lemma {:induction false} LocateFromIs(c: seq<Column>, id: string, i: nat, d: nat, k: nat)
    requires i <= d < |c| && FindTaskIndex(c[d].tasks, id) == k
    requires forall j :: i <= j < d ==> FindTaskIndex(c[j].tasks, id) == -1
    ensures LocateFrom(c, id, i) == Some((d, k))
    decreases d - i
  {
    var here := FindTaskIndex(c[i].tasks, id);
    if i < d {
      assert here == -1;
      LocateFromIs(c, id, i + 1, d, k);
      assert LocateFrom(c, id, i) == LocateFrom(c, id, i + 1);
    } else {
      assert here == k as int;
      assert LocateFrom(c, id, i) == Some((i, here as nat));
    }
  }

  /** Moving the last task of the target column back to that column, when
      the move leaves the task as it is, rebuilds the same board. */
  lemma MoveBackInPlace(c: seq<Column>, d: nat, t: Task, target: string, position: Option<Position>, freeform: bool)
    requires d < |c| && c[d].tasks != [] && c[d].tasks[|c[d].tasks| - 1] == t
    requires LocateTask(c, t.id) == Some((d, |c[d].tasks| - 1))
    requires c[d].id == target && FindColumnIndex(c, target) == Some(d)
    requires MovedTask(t, target, target, position, freeform) == t
    ensures Move(c, t.id, target, position, freeform).Some?
    ensures Move(c, t.id, target, position, freeform).value.columns == c
  {
    var last := |c[d].tasks| - 1;
    MoveParts(c, t.id, target, position, freeform);
    AppendBack(c, d);
    FindColumnIndexTasksOnly(c, d, RemoveAt(c[d].tasks, last), target);
  }

  /** Taking the last task out of a column and pushing it back rebuilds the columns. */
  lemma AppendBack(c: seq<Column>, d: nat)
    requires d < |c| && c[d].tasks != []
    ensures var last := |c[d].tasks| - 1;
      var removed := Removed(c, d, last);
      removed[d := removed[d].(tasks := removed[d].tasks + [c[d].tasks[last]])] == c
  {
    var last := |c[d].tasks| - 1;
    var removed := Removed(c, d, last);
    assert RemoveAt(c[d].tasks, last) + [c[d].tasks[last]] == c[d].tasks;
    assert removed[d].(tasks := removed[d].tasks + [c[d].tasks[last]]) == c[d];
  }

  /** With distinct task ids, a second identical move after the first changes
      nothing: the task is found at the end of the target column and put back
      there unchanged. */
  lemma {:induction false} MoveIdempotent(cols: seq<Column>, taskId: string, target: string, position: Option<Position>, freeform: bool)
    requires DistinctTaskIds(cols)
    requires Move(cols, taskId, target, position, freeform).Some?
    requires FindColumnIndex(cols, target).Some?
    ensures var r := Move(cols, taskId, target, position, freeform).value;
      && Move(r.columns, taskId, target, position, freeform).Some?
      && Move(r.columns, taskId, target, position, freeform).value.columns == r.columns
  {
    MoveParts(cols, taskId, target, position, freeform);
    MoveKeepsIds(cols, taskId, target, position, freeform);
    var p := LocateTask(cols, taskId).value;
    var r := Move(cols, taskId, target, position, freeform).value;
    var d := FindColumnIndex(cols, target).value;
    var removed := Removed(cols, p.0, p.1);
    var c := r.columns;
    assert c == removed[d := removed[d].(tasks := removed[d].tasks + [r.task])];
    assert c[d].tasks[|c[d].tasks| - 1] == r.task;
    assert r.task.id == taskId;
    assert BoardIds(c)[taskId] <= 1;
    LocateUnique(c, d, taskId);
    FindColumnIndexTasksOnly(removed, d, removed[d].tasks + [r.task], target);
    MoveBackInPlace(c, d, r.task, target, position, freeform);
  }
}
