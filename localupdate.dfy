/** What App's `handleUpdateTask` does to the local board once the PATCH has
    succeeded (frontend/src/App.tsx:313-323): in every column, the first task
    with the id gets the patch spread over it. */
module LocalUpdate {
  import opened Wrappers
  import opened Types
  import opened Reconcile

  /** One column's tasks with the patch merged into the first task holding
      the id, if any. */
  function MergeInColumn(ts: seq<Task>, id: string, patch: TaskPatch): (r: seq<Task>)
    ensures |r| == |ts|
    ensures forall k :: 0 <= k < |ts| ==>
      r[k] == if ts[k].id == id && (forall k' :: 0 <= k' < k ==> ts[k'].id != id) then Merge(ts[k], patch) else ts[k]
  {
    var k := FindTaskIndex(ts, id);
    if k == -1 then ts else ts[k := Merge(ts[k], patch)]
  }

  /** The board's columns after the local merge. */
  function MergeIntoColumns(cols: seq<Column>, id: string, patch: TaskPatch): seq<Column> {
    seq(|cols|, j requires 0 <= j < |cols| => cols[j].(tasks := MergeInColumn(cols[j].tasks, id, patch)))
  }

  /** The merge keeps the columns and their lengths, and touches the tasks
      with the id alone: on a board whose task ids are distinct, exactly the
      task holding the id gets the patch, and every other task is left as it
      was. */
  lemma {:induction false} MergeTouchesOnlyTheTask(cols: seq<Column>, id: string, patch: TaskPatch)
    requires DistinctTaskIds(cols)
    ensures var r := MergeIntoColumns(cols, id, patch);
      && |r| == |cols|
      && (forall j :: 0 <= j < |cols| ==> r[j] == cols[j].(tasks := r[j].tasks) && |r[j].tasks| == |cols[j].tasks|)
      && (forall j, k :: 0 <= j < |cols| && 0 <= k < |cols[j].tasks| ==>
            r[j].tasks[k] == if cols[j].tasks[k].id == id then Merge(cols[j].tasks[k], patch) else cols[j].tasks[k])
  {
    var r := MergeIntoColumns(cols, id, patch);
    forall j, k | 0 <= j < |cols| && 0 <= k < |cols[j].tasks| && cols[j].tasks[k].id == id
      ensures r[j].tasks[k] == Merge(cols[j].tasks[k], patch)
    {
      var ids := IdsOf(cols[j].tasks);
      ColumnIdsInBoard(cols, j);
      assert ids[k] == id;
      assert multiset(ids)[ids[k]] <= BoardIds(cols)[id];
      OnceAtEnd(ids, k);
    }
  }

  /** When no task on the board has the id, the merge changes nothing. */
  lemma MergeAbsent(cols: seq<Column>, id: string, patch: TaskPatch)
    requires forall j, k :: 0 <= j < |cols| && 0 <= k < |cols[j].tasks| ==> cols[j].tasks[k].id != id
    ensures MergeIntoColumns(cols, id, patch) == cols
  {
    var r := MergeIntoColumns(cols, id, patch);
    forall j | 0 <= j < |cols| ensures r[j] == cols[j] {
      assert r[j].tasks == cols[j].tasks;
    }
  }

  /** Columns holding the same ids column by column hold the same board ids. */
  lemma {:induction false} BoardIdsSameIds(a: seq<Column>, b: seq<Column>)
    requires |a| == |b| && forall j :: 0 <= j < |a| ==> IdsOf(a[j].tasks) == IdsOf(b[j].tasks)
    ensures BoardIds(a) == BoardIds(b)
  {
    if a != [] {
      BoardIdsSameIds(a[1..], b[1..]);
    }
  }

  /** A patch that neither renames the task nor sends it to a column other
      than the one holding it keeps the board invariant. */
  lemma MergeKeepsInv(cols: seq<Column>, id: string, patch: TaskPatch)
    requires BoardInv(cols)
    requires patch.id.None?
    requires forall j :: 0 <= j < |cols| && FindTaskIndex(cols[j].tasks, id) != -1 ==>
      patch.columnId.None? || patch.columnId == Some(cols[j].id)
    ensures BoardInv(MergeIntoColumns(cols, id, patch))
  {
    var r := MergeIntoColumns(cols, id, patch);
    MergeKeepsIds(cols, id, patch);
    BoardIdsSameIds(r, cols);
    MergeInPlace(cols, id, patch);
  }

  /** A patch without an id keeps every column's id and task ids. */
  lemma MergeKeepsIds(cols: seq<Column>, id: string, patch: TaskPatch)
    requires patch.id.None?
    ensures var r := MergeIntoColumns(cols, id, patch);
      && |r| == |cols|
      && forall j :: 0 <= j < |cols| ==> r[j].id == cols[j].id && IdsOf(r[j].tasks) == IdsOf(cols[j].tasks)
  {
    var r := MergeIntoColumns(cols, id, patch);
    forall j | 0 <= j < |cols| ensures IdsOf(r[j].tasks) == IdsOf(cols[j].tasks) {
    }
  }

  /** A patch that moves the task nowhere but its own column keeps every
      task in place. */
  lemma MergeInPlace(cols: seq<Column>, id: string, patch: TaskPatch)
    requires TasksInPlace(cols)
    requires forall j :: 0 <= j < |cols| && FindTaskIndex(cols[j].tasks, id) != -1 ==>
      patch.columnId.None? || patch.columnId == Some(cols[j].id)
    ensures TasksInPlace(MergeIntoColumns(cols, id, patch))
  {
    var r := MergeIntoColumns(cols, id, patch);
    forall j, k | 0 <= j < |r| && 0 <= k < |r[j].tasks| ensures r[j].tasks[k].columnId == r[j].id {
      if k == FindTaskIndex(cols[j].tasks, id) {
        assert r[j].tasks[k] == Merge(cols[j].tasks[k], patch);
      }
    }
  }

  /** The empty patch leaves the board as it was. */
  lemma MergeEmptyPatch(cols: seq<Column>, id: string)
    ensures MergeIntoColumns(cols, id, EmptyPatch) == cols
  {
    var r := MergeIntoColumns(cols, id, EmptyPatch);
    forall j | 0 <= j < |cols| ensures r[j] == cols[j] {
      forall k | 0 <= k < |cols[j].tasks| ensures r[j].tasks[k] == cols[j].tasks[k] {
        MergeLaws(cols[j].tasks[k], EmptyPatch, EmptyPatch);
      }
    }
  }
}
