/** The App component's board state and the handlers that change it
    (frontend/src/App.tsx). Each handler runs to completion before the next
    starts; an HTTP call is a request appended to `requests`, and its outcome
    is a parameter of the handler. React's `useEffect` that recomputes
    `filteredBoard` is run wherever the source's state change would trigger
    it. */
module AppState {
  import opened Wrappers
  import opened Types
  import opened Seqs
  import opened BoardView
  import opened Reconcile
  import opened LocalUpdate

  /** An HTTP request the frontend sends. */
  datatype Request = GetBoard | PatchTask(id: string, body: TaskPatch)

  const LoadFailed := "Failed to load board data. Please try again."
  const UpdateFailed := "Failed to update task. Please try again."

  /** The loop of `handleDragEnd` over the columns: the first column holding
      the task, its index there (`findIndex`), and the columns after the
      `splice`; the columns as they were when no column holds it. */
  method SpliceOut(cols: seq<Column>, taskId: string) returns (loc: Option<(nat, nat)>, spliced: seq<Column>)
    ensures loc == LocateTask(cols, taskId)
    ensures loc.None? ==> spliced == cols
    ensures loc.Some? ==>
      loc.value.0 < |cols| && loc.value.1 < |cols[loc.value.0].tasks| && spliced == Removed(cols, loc.value.0, loc.value.1)
  {
    var i := 0;
    while i < |cols|
      invariant 0 <= i <= |cols|
      invariant forall j :: 0 <= j < i ==> FindTaskIndex(cols[j].tasks, taskId) == -1
    {
      var k := FindTaskIndex(cols[i].tasks, taskId);
      if k != -1 {
        loc := Some((i, k as nat));
        spliced := cols[i := cols[i].(tasks := RemoveAt(cols[i].tasks, k))];
        return;
      }
      i := i + 1;
    }
    loc := None;
    spliced := cols;
  }

  /** The body of `handleDragEnd` on the columns: the task is spliced out of
      the first column holding it, given the target column id (and, in
      freeform mode, the drop position), and appended to the target column
      when one exists. */
  method MoveColumns(cols: seq<Column>, taskId: string, columnId: string, position: Option<Position>, freeform: bool)
    returns (r: Option<MoveResult>)
    ensures r == Move(cols, taskId, columnId, position, freeform)
  {
    var loc, spliced := SpliceOut(cols, taskId);
    if loc.None? {
      return None;
    }
    var source := cols[loc.value.0].id;
    MoveParts(cols, taskId, columnId, position, freeform);
    var task := cols[loc.value.0].tasks[loc.value.1];
    if freeform && position.Some? {
      task := task.(position := position);
    }
    var moved, completed := false, false;
    if source != columnId {
      task := task.(columnId := columnId);
      moved := true;
      completed := columnId == DoneColumn && source != DoneColumn;
    }
    var dest := FindColumnIndex(spliced, columnId);
    if dest.Some? {
      var d := dest.value;
      spliced := spliced[d := spliced[d].(tasks := spliced[d].tasks + [task])];
    }
    var update := EmptyPatch.(columnId := Some(columnId));
    if freeform && position.Some? {
      update := update.(position := position);
    }
    return Some(MoveResult(spliced, source, task, update, moved, completed));
  }

  class App {
    var board: Option<Board>
    var filteredBoard: Option<Board>
    var error: Option<string>
    var settings: Settings
    var searchTerm: string
    var activeFilter: ActiveFilter
    var requests: seq<Request>
    const locale: Locale

    /** The projected board is the view of the current board. */
    ghost predicate ViewCurrent()
      reads this
    {
      board.Some? ==> filteredBoard == Some(Project(board.value, searchTerm, activeFilter, locale))
    }

    /** The first render: no board yet, default settings unless some were
        saved, an empty search and no filter. */
    constructor (loc: Locale, saved: Option<Settings>)
      ensures board.None? && filteredBoard.None? && error.None? && requests == []
      ensures settings == saved.GetOr(DefaultSettings) && searchTerm == "" && activeFilter == NoFilter
      ensures locale == loc && ViewCurrent()
    {
      board := None;
      filteredBoard := None;
      error := None;
      settings := saved.GetOr(DefaultSettings);
      searchTerm := "";
      activeFilter := NoFilter;
      requests := [];
      locale := loc;
    }

    /** The effect on `board`, `searchTerm` and `activeFilter`: without a
        board it does nothing, otherwise it sets the projected board. */
    method FilterEffect()
      modifies this
      ensures filteredBoard == if board.Some? then Some(Project(board.value, searchTerm, activeFilter, locale)) else old(filteredBoard)
      ensures board == old(board) && error == old(error) && settings == old(settings) && requests == old(requests)
      ensures searchTerm == old(searchTerm) && activeFilter == old(activeFilter)
      ensures ViewCurrent()
    {
      if board.Some? {
        filteredBoard := Some(Project(board.value, searchTerm, activeFilter, locale));
      }
    }

    /** `setSearchTerm` from the header's search box. */
    method SetSearchTerm(term: string)
      modifies this
      ensures searchTerm == term && activeFilter == old(activeFilter)
      ensures board == old(board) && error == old(error) && settings == old(settings) && requests == old(requests)
      ensures filteredBoard == if board.Some? then Some(Project(board.value, term, activeFilter, locale)) else old(filteredBoard)
      ensures ViewCurrent()
    {
      searchTerm := term;
      FilterEffect();
    }

    /** `handleFilter`: the header's filter or sort choice. */
    method HandleFilter(kind: string, value: string)
      modifies this
      ensures activeFilter == ActiveFilter(kind, value) && searchTerm == old(searchTerm)
      ensures board == old(board) && error == old(error) && settings == old(settings) && requests == old(requests)
      ensures filteredBoard == if board.Some? then Some(Project(board.value, searchTerm, ActiveFilter(kind, value), locale)) else old(filteredBoard)
      ensures ViewCurrent()
    {
      activeFilter := ActiveFilter(kind, value);
      FilterEffect();
    }

    /** `fetchBoardData`: a GET of the board; on success the board is
        replaced and the error cleared, on failure the load error is shown
        and the board kept. */
    method FetchBoardData(response: Option<Board>)
      requires ViewCurrent()
      modifies this
      ensures requests == old(requests) + [GetBoard]
      ensures board == if response.Some? then response else old(board)
      ensures error == if response.Some? then None else Some(LoadFailed)
      ensures filteredBoard == if response.Some? then Some(Project(response.value, searchTerm, activeFilter, locale)) else old(filteredBoard)
      ensures settings == old(settings) && searchTerm == old(searchTerm) && activeFilter == old(activeFilter)
      ensures ViewCurrent()
    {
      requests := requests + [GetBoard];
      if response.Some? {
        board := response;
        error := None;
        FilterEffect();
      } else {
        error := Some(LoadFailed);
      }
    }

    /** `handleDragEnd(taskId, columnId, position)`: the move of Reconcile.Move
        applied to the board, then a PATCH; a failed PATCH shows the update
        error and refetches the board, whose outcome is `refetch`. Without a
        board, or when no column holds the task, nothing changes and nothing
        is sent. `moved` is the move sound's signal and `completed` the
        completion effect's. */
    method HandleDragEnd(taskId: string, columnId: string, position: Option<Position>, patchOk: bool, refetch: Option<Board>)
      returns (moved: bool, completed: bool)
      requires ViewCurrent()
      modifies this
      ensures settings == old(settings) && searchTerm == old(searchTerm) && activeFilter == old(activeFilter)
      ensures ViewCurrent()
      ensures old(board).None? || Move(old(board).value.columns, taskId, columnId, position, settings.freeformMode).None? ==>
        && !moved && !completed
        && board == old(board) && filteredBoard == old(filteredBoard)
        && error == old(error) && requests == old(requests)
      ensures old(board).Some? && Move(old(board).value.columns, taskId, columnId, position, settings.freeformMode).Some? ==>
        var r := Move(old(board).value.columns, taskId, columnId, position, settings.freeformMode).value;
        && moved == r.moved && completed == r.completed
        && requests == old(requests) + [PatchTask(taskId, r.payload)] + (if patchOk then [] else [GetBoard])
        && board == (if !patchOk && refetch.Some? then refetch else Some(old(board).value.(columns := r.columns)))
        && error == (if patchOk then old(error) else if refetch.Some? then None else Some(LoadFailed))
    {
      moved, completed := false, false;
      if board.None? {
        return;
      }
      var b := board.value;
      var r := MoveColumns(b.columns, taskId, columnId, position, settings.freeformMode);
      if r.None? {
        return;
      }
      moved, completed := r.value.moved, r.value.completed;
      board := Some(b.(columns := r.value.columns));
      FilterEffect();
      var update := r.value.payload;
      SendMovePatch(taskId, update, patchOk, refetch);
    }

    /** The `try`/`catch` around the PATCH of `handleDragEnd`: a failure shows
        the update error and refetches the board, whose outcome is
        `refetch`; the refetch's own result then replaces that error. */
    method SendMovePatch(taskId: string, body: TaskPatch, patchOk: bool, refetch: Option<Board>)
      requires ViewCurrent()
      modifies this
      ensures requests == old(requests) + [PatchTask(taskId, body)] + (if patchOk then [] else [GetBoard])
      ensures board == if !patchOk && refetch.Some? then refetch else old(board)
      ensures error == if patchOk then old(error) else if refetch.Some? then None else Some(LoadFailed)
      ensures patchOk ==> filteredBoard == old(filteredBoard)
      ensures settings == old(settings) && searchTerm == old(searchTerm) && activeFilter == old(activeFilter)
      ensures ViewCurrent()
    {
      requests := requests + [PatchTask(taskId, body)];
      if !patchOk {
        error := Some(UpdateFailed);
        FetchBoardData(refetch);
      }
    }

    /** `handleUpdateTask(taskId, updatedTask)`: the PATCH first; on failure
        the update error is shown and the handler fails (`ok` false) with the
        board as it was. On success the patch is merged into the local board,
        and a patch carrying `sortOrder` is followed by a refetch whose
        outcome is `refetch`. */
    method HandleUpdateTask(taskId: string, patch: TaskPatch, patchOk: bool, refetch: Option<Board>) returns (ok: bool)
      requires ViewCurrent()
      modifies this
      ensures ok == patchOk
      ensures settings == old(settings) && searchTerm == old(searchTerm) && activeFilter == old(activeFilter)
      ensures ViewCurrent()
      ensures requests == old(requests) + [PatchTask(taskId, patch)] + (if patchOk && patch.sortOrder.Some? then [GetBoard] else [])
      ensures !patchOk ==> board == old(board) && filteredBoard == old(filteredBoard) && error == Some(UpdateFailed)
      ensures patchOk ==>
        var merged := if old(board).Some? then Some(old(board).value.(columns := MergeIntoColumns(old(board).value.columns, taskId, patch))) else None;
        && board == (if patch.sortOrder.Some? && refetch.Some? then refetch else merged)
        && error == (if patch.sortOrder.None? then old(error) else if refetch.Some? then None else Some(LoadFailed))
    {
      requests := requests + [PatchTask(taskId, patch)];
      if !patchOk {
        error := Some(UpdateFailed);
        return false;
      }
      if board.Some? {
        var b := board.value;
        var cols := b.columns;
        for j := 0 to |cols|
          invariant |cols| == |b.columns|
          invariant forall j' :: 0 <= j' < j ==> cols[j'] == b.columns[j'].(tasks := MergeInColumn(b.columns[j'].tasks, taskId, patch))
          invariant forall j' :: j <= j' < |cols| ==> cols[j'] == b.columns[j']
        {
          var k := FindTaskIndex(cols[j].tasks, taskId);
          if k != -1 {
            cols := cols[j := cols[j].(tasks := cols[j].tasks[k := Merge(cols[j].tasks[k], patch)])];
          }
        }
        assert cols == MergeIntoColumns(b.columns, taskId, patch);
        board := Some(b.(columns := cols));
        FilterEffect();
      }
      if patch.sortOrder.Some? {
        FetchBoardData(refetch);
      }
      return true;
    }
  }
}
