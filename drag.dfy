/** The board's drag tracking (frontend/src/components/Board.tsx:28-92): the
    task being dragged and the column it left, recorded at drag start and
    cleared at drag end, with the move forwarded to App only when the task
    lands in a column other than the recorded one. */
module DragTracking {
  import opened Wrappers

  class DragTracker {
    /** `draggedTask` and `draggedTaskSourceColumn`; None is `null`. */
    var draggedTask: Option<string>
    var draggedTaskSourceColumn: Option<string>
    /** Whether the body carries the `dragging-task` class. */
    var draggingClass: bool
    /** The calls of `onDragEnd(taskId, columnId)` made so far. */
    var forwarded: seq<(string, string)>

    /** Nothing is being dragged at first. */
    constructor ()
      ensures draggedTask.None? && draggedTaskSourceColumn.None? && !draggingClass && forwarded == []
    {
      draggedTask := None;
      draggedTaskSourceColumn := None;
      draggingClass := false;
      forwarded := [];
    }

    /** `handleDragStart(taskId, columnId)` records both ids. */
    method HandleDragStart(taskId: string, columnId: string)
      modifies this
      ensures draggedTask == Some(taskId) && draggedTaskSourceColumn == Some(columnId)
      ensures draggingClass && forwarded == old(forwarded)
    {
      draggedTask := Some(taskId);
      draggedTaskSourceColumn := Some(columnId);
      draggingClass := true;
    }

    /** `handleDragEnd(taskId, targetColumnId)`: with an empty id it does
        nothing at all; otherwise it clears the tracked drag and forwards the
        move exactly when the recorded source column is not the target. */
    method HandleDragEnd(taskId: string, targetColumnId: string)
      modifies this
      ensures taskId == "" || targetColumnId == "" ==>
        && draggedTask == old(draggedTask) && draggedTaskSourceColumn == old(draggedTaskSourceColumn)
        && draggingClass == old(draggingClass) && forwarded == old(forwarded)
      ensures taskId != "" && targetColumnId != "" ==>
        && draggedTask.None? && draggedTaskSourceColumn.None? && !draggingClass
        && forwarded == old(forwarded) +
             (if old(draggedTaskSourceColumn) != Some(targetColumnId) then [(taskId, targetColumnId)] else [])
    {
      if taskId != "" && targetColumnId != "" {
        var source := draggedTaskSourceColumn;
        draggedTask := None;
        draggedTaskSourceColumn := None;
        draggingClass := false;
        if source != Some(targetColumnId) {
          forwarded := forwarded + [(taskId, targetColumnId)];
        }
      }
    }

    /** `handleColumnDrop(e, columnId)`: the drag payload, decoded, may carry a
        task id; only a non-empty one reaches `handleDragEnd`. */
    method HandleColumnDrop(payloadTaskId: Option<string>, columnId: string)
      modifies this
      ensures payloadTaskId.None? || payloadTaskId == Some("") || columnId == "" ==>
        && draggedTask == old(draggedTask) && draggedTaskSourceColumn == old(draggedTaskSourceColumn)
        && draggingClass == old(draggingClass) && forwarded == old(forwarded)
      ensures payloadTaskId.Some? && payloadTaskId.value != "" && columnId != "" ==>
        && draggedTask.None? && draggedTaskSourceColumn.None? && !draggingClass
        && forwarded == old(forwarded) +
             (if old(draggedTaskSourceColumn) != Some(columnId) then [(payloadTaskId.value, columnId)] else [])
    {
      if payloadTaskId.Some? && payloadTaskId.value != "" {
        HandleDragEnd(payloadTaskId.value, columnId);
      }
    }
  }

  /** A drop with no drag start before it is always forwarded: the recorded
      source is `null`, which no column id equals. */
  method DropWithoutStart(taskId: string, columnId: string) returns (t: DragTracker)
    requires taskId != "" && columnId != ""
    ensures fresh(t) && t.forwarded == [(taskId, columnId)]
  {
    t := new DragTracker();
    t.HandleDragEnd(taskId, columnId);
  }

  /** A task dropped back on the column it was dragged from is not
      forwarded, and the drag is cleared. */
  method DropOnSourceColumn(taskId: string, columnId: string) returns (t: DragTracker)
    requires taskId != "" && columnId != ""
    ensures fresh(t) && t.forwarded == [] && t.draggedTask.None? && t.draggedTaskSourceColumn.None?
  {
    t := new DragTracker();
    t.HandleDragStart(taskId, columnId);
    t.HandleDragEnd(taskId, columnId);
  }

  /** A task dragged to another column is forwarded once, with the target. */
  method DropOnOtherColumn(taskId: string, source: string, target: string) returns (t: DragTracker)
    requires taskId != "" && target != "" && source != target
    ensures fresh(t) && t.forwarded == [(taskId, target)]
  {
    t := new DragTracker();
    t.HandleDragStart(taskId, source);
    t.HandleColumnDrop(Some(taskId), target);
  }
}
