# Kanban task board — a verified model of its board logic

The repository is a kanban board with a TypeScript/React frontend and a Python
FastAPI backend. Tasks live in columns ("To Do", "In Progress", "Done"). Users
search, filter and sort the board, drag tasks between columns, resequence a
column, and add or edit tasks through a form. The backend keeps everything in
an in-memory database.

This project models the logic under that presentation and proves properties
of it:

- **Board view** (`view.dfy`, module `BoardView`). App's `filteredBoard` is a
  pure projection of the board, the search term and the active filter. The
  model proves that the projection:
  - never adds, removes or reorders columns, and never changes a task;
  - keeps exactly the matching tasks under search, and keeps exactly the
    `high` ones under the high-priority filter, in order;
  - permutes each column under `sort`, with the promised order for each sort
    value and stability of the second pass.
- **Sorting** (`sorting.dfy`, module `Sorting`). `Array.prototype.sort` is
  modelled as a stable insertion sort `SortBy`, with its laws: permutation,
  sortedness, stability, idempotence and congruence. The comparators and
  their consistency are in `order.dfy`.
- **Drag-and-drop move** (`reconcile.dfy`, module `Reconcile`). The move is a
  function of the columns before it:
  - what is spliced out of which column, and what is pushed onto which;
  - the PATCH body, and the sound and completion signals;
  - the lost-task case when no column has the target id;
  - idempotence, and preservation of the board invariant (distinct column
    ids, distinct task ids, every task in the column its `columnId` names).
- **Local merge after an update** (`localupdate.dfy`, module `LocalUpdate`).
  The object spread `{ ...task, ...patch }` goes into the first task with the
  id in each column. The model proves that it touches only that task.
- **App** (`app.dfy`, module `AppState`). The App component is a class whose
  fields are React state. `handleDragEnd`, `handleUpdateTask`,
  `fetchBoardData`, `handleFilter` and the search box are methods. HTTP
  requests are recorded in `requests`, and their outcomes are parameters.
  Every handler keeps `filteredBoard` equal to the projection of `board`.
- **Column resequencing** (`column.dfy`, module `ColumnSort`). The three
  sort actions of a column:
  - sort a copy of the tasks;
  - send `{columnId, sortOrder: i}` updates in index order, stopping at the
    first that fails;
  - schedule a reload only when every update succeeds;
  - close the menu on every path.
- **Drag tracking** (`drag.dfy`, module `DragTracking`). The Board
  component's record of the dragged task and its source column. The model
  proves that a move is forwarded exactly when the target differs from the
  recorded source.
- **Task form** (`taskform.dfy`, modules `Trimming` and `TaskFormState`).
  ECMAScript `trim`, and the add/edit form's fields, validation, submission
  and reset.
- **Backend** (`store.dfy`, module `BackendStore`, as values; `backend.dfy`,
  module `Backend`, as a `Db` class updated in place).
  - The modelled routes are `find_column`, `create_task`, `POST /tasks`,
    `GET`/`PATCH`/`DELETE /tasks/{id}`, sample-data generation and start-up.
  - The store invariant: every record sits under its id, and is listed
    exactly once, in the column its `columnId` names.
  - Creates into existing columns keep the invariant, and so do deletes,
    updates that keep the column, and updates that name an existing column.
  - Two concrete lemmas show how an update with an unknown column id, or
    with the empty string as column id, breaks it.

`wrappers.dfy` holds `Option` and `Result`. `seqs.dfy` holds the sequence
helpers: JavaScript's `filter`, `splice` and `includes`, and Python's
list-comprehension filter. `types.dfy` holds the records of
`frontend/src/types.ts`, the object spread and `findIndex`/`find`.

Abstractions:

- A task's `createdAt` date string becomes the integer
  `new Date(...).getTime()` would give.
- `toLowerCase` is an abstract per-character function. `localeCompare` is an
  abstract comparator, assumed to be a total preorder wherever a title
  ordering is claimed. Both live in the `Locale` record.
- `uuid.uuid4()`, `datetime.now()` and every HTTP outcome are parameters.
- Handlers run one at a time to completion.
- React's `setState` takes effect after the handler. The model reads the
  pre-handler value within a handler, and the `filteredBoard` effect runs
  where the state change would trigger it.

Where the code and its documentation disagree, the model follows the code:

- **Resequencing is not stored.** The frontend sends `sortOrder` (and, from
  the form, `priority`), and `handleUpdateTask` refetches the board after a
  `sortOrder` update. The backend's `TaskUpdate` accepts only `title`,
  `description` and `columnId`, so the server drops the new order, and a
  refetch after resequencing does not reproduce it.
  `BackendStore.ResequenceNotStored` states this.
- **Deleted records stay reachable.** The backend lets the dictionary and
  the column lists alias the same task objects. A record deleted from the
  dictionary while a column still lists it stays reachable from that column.
  The model keeps such records in `retired`.

## Model

| member | source | states |
|---|---|---|
| Types.FindTaskIndex | frontend/src/App.tsx:194 | `findIndex`: the first index whose task has the id, or -1 exactly when no task has it |
| Types.FindColumnIndex | frontend/src/App.tsx:235 | `find` by column id: the first column with the id, or none exactly when no column has it |
| Types.IdsOf | frontend/src/types.ts:1-2 | the ids of a task sequence, index by index |
| Types.MergeLaws | frontend/src/App.tsx:318 | object spread: the empty patch is the identity, a patch is idempotent, two patches compose to their combination, and keys absent from the patch keep their values |
| Types.Lower | frontend/src/App.tsx:95 | `toLowerCase` keeps the length and lowers character by character |
| Order.Rank | frontend/src/App.tsx:152-155 | the priority rank is 0..3, 0 exactly for no priority and 3 exactly for `high` |
| Order.ComparatorsConsistent | frontend/src/App.tsx:147-164 | the date and priority comparators are total preorders, and the title comparator is one whenever `localeCompare` is |
| Order.SortByDateOrdered | frontend/src/components/Column.tsx:57-59 | sorting by date gives non-decreasing `createdAt` |
| Order.SortByPriorityHighOrdered | frontend/src/components/Column.tsx:93-96 | sorting by priority gives non-increasing rank |
| Order.SortByPriorityLowOrdered | frontend/src/App.tsx:157-162 | sorting by low priority gives non-decreasing rank |
| Order.SortByTitleOrdered | frontend/src/components/Column.tsx:130-132 | sorting by title gives ascending `localeCompare` order |
| Order.SortOrderIsKey | frontend/src/App.tsx:136-143 | on tasks that all have a `sortOrder`, the first-pass comparator sorts exactly as comparison of the keys |
| Order.SortOrderPass | frontend/src/App.tsx:136-143 | when every task has a `sortOrder`, the first pass yields non-decreasing `sortOrder` |
| Sorting.SortBy | frontend/src/App.tsx:133-136 | the sorted copy is a permutation of the input |
| Sorting.SortBySorted | frontend/src/App.tsx:136-164 | sorting with a total preorder yields a sorted sequence |
| Sorting.SortByStable | frontend/src/App.tsx:145-164 | sorting is stable: the elements tied with any given one appear in their input order |
| Sorting.SortBySortedIdentity | frontend/src/App.tsx:136-143 | sorting an already sorted sequence returns it unchanged |
| Sorting.SortByIdempotent | frontend/src/App.tsx:136-164 | sorting twice with the same comparator is sorting once |
| Sorting.SortByCongruent | frontend/src/App.tsx:136-143 | comparators that agree on the elements sort them identically |
| Sorting.KeepSorted | frontend/src/App.tsx:145-164 | a filtered sorted sequence stays sorted |
| Sorting.ByKeySpec | frontend/src/App.tsx:138-139 | comparing by an integer key is a total preorder, and sorted by it means non-decreasing keys |
| Seqs.Keep | frontend/src/App.tsx:100-104 | `filter` keeps only elements of the input that pass the test |
| Seqs.KeepSpec | frontend/src/App.tsx:100-104 | `filter` keeps every passing element as often as it occurs, nothing else, in order |
| Seqs.KeepConcat | frontend/src/App.tsx:100-104 | filtering a concatenation is concatenating the filtered parts |
| Seqs.RemoveAt | frontend/src/App.tsx:198 | `splice(i, 1)` drops exactly the element at i and keeps the others in order |
| Seqs.Without | backend/main.py:177 | the list-comprehension filter removes every occurrence of the id and nothing else |
| Seqs.WithoutOrder | backend/main.py:201 | the filtered list is a subsequence of the original |
| Seqs.IncludesSpec | frontend/src/App.tsx:101-103 | `includes` holds exactly when the term occurs at some index |
| BoardView.SortTasks | frontend/src/App.tsx:133-167 | one column's sort yields a permutation of its tasks |
| BoardView.ProjectNarrows | frontend/src/App.tsx:88-174 | the projection keeps the board's settings and its columns in order with their ids, titles, colours and icons; each column's tasks are drawn from that same column |
| BoardView.SearchStageNarrows | frontend/src/App.tsx:94-107 | the search step only narrows each column |
| BoardView.FilterStageNarrows | frontend/src/App.tsx:111-169 | the filter/sort step only narrows or permutes each column |
| BoardView.NarrowsTransitive | frontend/src/App.tsx:91-169 | narrowing twice is narrowing |
| BoardView.KeepNarrows | frontend/src/App.tsx:100-104 | a filtered column is a sub-multiset of the original |
| BoardView.ProjectPassThrough | frontend/src/App.tsx:94-126 | an empty term skips the search; no type or value, an unknown type, or a filter other than `high-priority` skips the second step; with neither the board is unchanged |
| BoardView.SearchSpec | frontend/src/App.tsx:95-104 | with a non-empty term a task stays exactly when it matches, every occurrence of it stays, and the survivors keep their order |
| BoardView.MatchesSearchSpec | frontend/src/App.tsx:101-103 | a task matches exactly when the lowercased term occurs in its lowercased title, its non-empty description or one of its tags |
| BoardView.HighPrioritySpec | frontend/src/App.tsx:113-124 | `filter` + `high-priority` keeps exactly the searched tasks of priority `high`, each as often as it occurs there, in order |
| BoardView.SortViewPermutes | frontend/src/App.tsx:129-169 | under `sort` each column holds a permutation of its searched tasks, so no task changes column |
| BoardView.SortTasksByDate | frontend/src/App.tsx:146-150 | `date` sorts by ascending `createdAt` |
| BoardView.SortTasksByPriorityHigh | frontend/src/App.tsx:151-156 | `priority-high` sorts by non-increasing rank |
| BoardView.SortTasksByPriorityLow | frontend/src/App.tsx:157-162 | `priority-low` sorts by non-decreasing rank |
| BoardView.SortTasksByTitle | frontend/src/App.tsx:163-165 | `title` sorts by ascending `localeCompare` |
| BoardView.SortTasksUnknownValue | frontend/src/App.tsx:133-143 | any other sort value applies only the `sortOrder` pass |
| BoardView.SortTasksStable | frontend/src/App.tsx:136-165 | the second pass keeps ties in the first pass's order, so with every `sortOrder` present ties appear in non-decreasing `sortOrder` |
| Reconcile.LocateTask | frontend/src/App.tsx:193-201 | the loop stops at the first column holding the id, at the id's first index there; none exactly when no column holds it |
| Reconcile.LocateFrom | frontend/src/App.tsx:193-201 | the same search from a given column on |
| Reconcile.MoveParts | frontend/src/App.tsx:191-238 | a successful move is the splice from the located column, then the moved task pushed onto the target column, whose lookup the splice does not change |
| Reconcile.MoveNotFound | frontend/src/App.tsx:203 | the move is abandoned exactly when no column holds a task with the id |
| Reconcile.MoveSpec | frontend/src/App.tsx:193-251 | the moved task is the located one; `columnId` changes only with the column and `position` only in free-form mode with a position; the PATCH carries `columnId = target` and the position only then; the move signal fires on a column change; the completion signal fires exactly when a task arrives in `column-3` from another column |
| Reconcile.MoveLayout | frontend/src/App.tsx:193-238 | the task leaves its column at its index with the other tasks in order, and is appended to the end of the first column with the target id, even its own; nothing else changes |
| Reconcile.BoardIdsUpdate | frontend/src/App.tsx:198-237 | replacing one column's tasks trades its ids for the new ones on the board |
| Reconcile.MoveKeepsIds | frontend/src/App.tsx:193-238 | a move keeps every task id on the board, except that the task is lost when no column has the target id |
| Reconcile.MovePreservesInv | frontend/src/App.tsx:193-238 | a move to an existing column keeps the column ids distinct, the task ids distinct and every task in its column, and leaves the task last in the target |
| Reconcile.MoveIdempotent | frontend/src/App.tsx:184-238 | with distinct task ids, repeating a move to an existing column changes nothing |
| Reconcile.LocateUnique | frontend/src/App.tsx:193-201 | a task id occurring once on the board, at the end of some column, is located exactly there |
| Reconcile.MoveBackInPlace | frontend/src/App.tsx:198-237 | moving a column's last task back to it, unchanged, rebuilds the same columns |
| LocalUpdate.MergeInColumn | frontend/src/App.tsx:316-319 | only the first task with the id gets the patch; every other task is kept, and the length too |
| LocalUpdate.MergeTouchesOnlyTheTask | frontend/src/App.tsx:313-323 | with distinct task ids exactly the task with the id gets the patch; columns and every other task are unchanged |
| LocalUpdate.MergeAbsent | frontend/src/App.tsx:316-320 | an id no task has leaves the board unchanged |
| LocalUpdate.MergeKeepsInv | frontend/src/App.tsx:313-323 | a patch that neither renames the task nor sends it to another column keeps the board invariant |
| LocalUpdate.MergeKeepsIds | frontend/src/App.tsx:313-321 | a patch without an id keeps every column's id and task ids |
| LocalUpdate.MergeInPlace | frontend/src/App.tsx:313-321 | a patch that names no other column keeps every task in its column |
| LocalUpdate.MergeEmptyPatch | frontend/src/App.tsx:318 | the empty patch leaves the board unchanged |
| LocalUpdate.BoardIdsSameIds | frontend/src/App.tsx:315-321 | columns with the same ids column by column hold the same board ids |
| AppState.SpliceOut | frontend/src/App.tsx:193-201 | the loop finds the located task and splices exactly it out, or leaves the columns alone |
| AppState.MoveColumns | frontend/src/App.tsx:191-251 | the imperative body of `handleDragEnd` computes exactly `Reconcile.Move` |
| AppState.App.constructor | frontend/src/App.tsx:23-40 | no board, default settings unless saved ones are given, an empty search and no filter (also lines 76-79) |
| AppState.App.FilterEffect | frontend/src/App.tsx:88-174 | without a board nothing changes; otherwise `filteredBoard` becomes the projection of the board |
| AppState.App.SetSearchTerm | frontend/src/App.tsx:39 | the search term is set and the view recomputed (also line 389) |
| AppState.App.HandleFilter | frontend/src/App.tsx:371-373 | the active filter is set and the view recomputed |
| AppState.App.FetchBoardData | frontend/src/App.tsx:262-274 | one GET; on success the board is replaced and the error cleared, on failure the load error is shown and the board kept |
| AppState.App.HandleDragEnd | frontend/src/App.tsx:184-260 | without a board or an unknown task nothing changes and nothing is sent; otherwise the board is the move's, one PATCH with the move's body is sent, and a failure shows the error and refetches |
| AppState.App.SendMovePatch | frontend/src/App.tsx:244-259 | the PATCH, and on failure the update error then a refetch whose outcome decides the board and the error |
| AppState.App.HandleUpdateTask | frontend/src/App.tsx:307-336 | the PATCH first; on failure the error is set, the board is kept and the call fails; on success the patch is merged into the board and a `sortOrder` patch is followed by a refetch |
| ColumnSort.ResequenceCalls | frontend/src/components/Column.tsx:68-73 | one update per sorted task |
| ColumnSort.CallIds | frontend/src/components/Column.tsx:69 | the ids the updates go to, in order |
| ColumnSort.FirstFailure | frontend/src/components/Column.tsx:68-86 | the first failing update from an index on, every one before it succeeding |
| ColumnSort.Attempted | frontend/src/components/Column.tsx:68-86 | the updates attempted are those up to and including the first failure |
| ColumnSort.FirstFailureIs | frontend/src/components/Column.tsx:68-73 | the first failure is where the successes end |
| ColumnSort.IdsOfPermutation | frontend/src/components/Column.tsx:57 | permuted tasks carry permuted ids (also lines 94, 130) |
| ColumnSort.ResequenceTouchesEachTaskOnce | frontend/src/components/Column.tsx:57-73 | the updates go to exactly the column's task ids, each as often as it occurs, whatever the comparator |
| ColumnSort.ResequenceSortedCopy | frontend/src/components/Column.tsx:57-59 | the sorted copy is a permutation, ordered by the entry's comparator, and stable (also lines 93-96, 130-132) |
| ColumnSort.ResequenceRoundTrip | frontend/src/components/Column.tsx:68-73 | applied updates stamp `sortOrder` 0, 1, ... and the column id, and the view's `sortOrder` pass returns that order |
| ColumnSort.ColumnView.constructor | frontend/src/components/Column.tsx:34 | the sort menu starts closed, with no updates and no reload |
| ColumnSort.ColumnView.ToggleSortMenu | frontend/src/components/Column.tsx:34 | the sort button flips the menu |
| ColumnSort.ColumnView.SendUpdates | frontend/src/components/Column.tsx:68-73 | updates are sent in index order up to and including the first failure, which is reported |
| ColumnSort.ColumnView.Resequence | frontend/src/components/Column.tsx:54-160 | the copy is sorted by the entry; 0 or 1 tasks send nothing; otherwise updates up to the first failure, a reload only when none fails; the menu closed on every path |
| DragTracking.DragTracker.constructor | frontend/src/components/Board.tsx:28-29 | nothing is dragged: both tracked fields are null |
| DragTracking.DragTracker.HandleDragStart | frontend/src/components/Board.tsx:57-62 | both the task id and the source column id are recorded |
| DragTracking.DragTracker.HandleDragEnd | frontend/src/components/Board.tsx:65-76 | with an empty id nothing changes; otherwise both fields are cleared and the move is forwarded exactly when the recorded source is not the target |
| DragTracking.DragTracker.HandleColumnDrop | frontend/src/components/Board.tsx:79-92 | only a payload with a task id reaches the drag end |
| DragTracking.DropWithoutStart | frontend/src/components/Board.tsx:28-29 | without a drag start the move is always forwarded (also line 72) |
| DragTracking.DropOnSourceColumn | frontend/src/components/Board.tsx:57-76 | a drop back on the source column forwards nothing |
| DragTracking.DropOnOtherColumn | frontend/src/components/Board.tsx:57-92 | a drop on another column forwards the move once |
| Trimming.Leading | frontend/src/components/TaskForm.tsx:22 | the length of the leading white-space run |
| Trimming.Trailing | frontend/src/components/TaskForm.tsx:22 | the length of the trailing white-space run |
| Trimming.TrimSpec | frontend/src/components/TaskForm.tsx:28-29 | the trim is the middle of the string between white-space runs |
| Trimming.TrimWindow | frontend/src/components/TaskForm.tsx:28-29 | the trim is the window of the string that starts where the leading run ends |
| Trimming.TrimTail | frontend/src/components/TaskForm.tsx:28-29 | everything after that window is white space |
| Trimming.TrimEnds | frontend/src/components/TaskForm.tsx:28-29 | the trim neither starts nor ends with white space |
| Trimming.TrimEmpty | frontend/src/components/TaskForm.tsx:22 | a string trims to nothing exactly when it is all white space |
| Trimming.TrimIdempotent | frontend/src/components/TaskForm.tsx:28 | trimming twice is trimming once |
| TaskFormState.TaskForm.constructor | frontend/src/components/TaskForm.tsx:13-16 | the fields start from the task being edited, else empty with medium priority, and no error |
| TaskFormState.TaskForm.HandleSubmit | frontend/src/components/TaskForm.tsx:18-38 | an empty trimmed title sets the error, sends nothing and keeps the fields; otherwise one submission of the trimmed title, the trimmed description or none, and the priority, then a reset |
| TaskFormState.TaskForm.OnTitleChange | frontend/src/components/TaskForm.tsx:60-63 | the title is taken, and the error cleared exactly when it trims to something |
| TaskFormState.TaskForm.OnDescriptionChange | frontend/src/components/TaskForm.tsx:87 | the description is taken |
| TaskFormState.TaskForm.OnPrioritySelect | frontend/src/components/TaskForm.tsx:107-129 | the priority is taken |
| TaskFormState.SubmissionTrimmed | frontend/src/components/TaskForm.tsx:27-31 | a valid submission has a non-empty title and a description, if any, with no white space at either end |
| BackendStore.ColumnOf | backend/main.py:68-72 | the first column with the id, or none exactly when no column has it |
| BackendStore.AppendId | backend/main.py:124-125 | appending keeps the column ids |
| BackendStore.RemoveId | backend/main.py:175-177 | filtering keeps the column ids |
| BackendStore.Lookup | backend/main.py:138-142 | the record exactly when the id is stored, else 404 |
| BackendStore.CreateAllStep | backend/main.py:105-106 | the sample loop is one `create_task` and then the rest |
| BackendStore.AllIdsUpdate | backend/main.py:177-182 | replacing one column's list changes the listed ids by the difference |
| BackendStore.InitialInv | backend/main.py:46-65 | the start-up database satisfies the store invariant |
| BackendStore.ListsAppend | backend/main.py:125 | appending a new id to a column lists it once more |
| BackendStore.ListsRemove | backend/main.py:201 | filtering an id out of the one column listing it unlists it |
| BackendStore.CreateKeepsInv | backend/main.py:109-127 | `create_task` with a fresh id into an existing column keeps the invariant, appends the `task-` id at the end of that column and changes no other |
| BackendStore.CreateUnlisted | backend/main.py:120-125 | a task created for a missing column is stored but on no column |
| BackendStore.HomeColumn | backend/main.py:193-199 | under the invariant the column a task names is the one listing it, and no other lists it |
| BackendStore.WithoutColumns | backend/main.py:201 | filtering the id out of its column filters it out of every column, keeping the others' order |
| BackendStore.InPlaceAfterDelete | backend/main.py:196-201 | after a delete every listed record still names its column |
| BackendStore.DeleteKeepsInv | backend/main.py:186-203 | `delete_task` refuses exactly the unknown ids, keeps the invariant, and removes the record from the dictionary |
| BackendStore.DeleteShape | backend/main.py:192-201 | after a delete no column lists the id, each keeps its other ids in order, and only the home column changes |
| BackendStore.UpdateKeepsInv | backend/main.py:153-184 | `update_task` refuses exactly the unknown ids; with no column or an existing one it keeps the invariant; only title, description and column id change; a moved task is filtered out and appended to its new column, else no column changes |
| BackendStore.UpdateStay | backend/main.py:161-173 | an update that keeps the column changes no column list |
| BackendStore.InPlaceAfterMove | backend/main.py:173-182 | after a move every listed record names its column |
| BackendStore.MovedLists | backend/main.py:175-182 | a move between columns lists every id as often as before |
| BackendStore.MovedShape | backend/main.py:175-182 | after a move every column has the id filtered out and the target has it appended |
| BackendStore.ShapeById | backend/main.py:175-182 | the moved columns, with the target told by its column id |
| BackendStore.MovedInv | backend/main.py:166-182 | a move to the column the record names keeps the invariant |
| BackendStore.UpdateMove | backend/main.py:161-182 | a move to an existing column keeps the invariant and appends the id only to the column with the new id |
| BackendStore.UpdateMoveResult | backend/main.py:155-184 | the result of a moving update spelled out column by column |
| BackendStore.ColumnOfSameIds | backend/main.py:68-72 | finding a column depends on the column ids alone |
| BackendStore.CreateAllKeepsInv | backend/main.py:104-106 | creating tasks for existing columns under fresh ids keeps the invariant |
| BackendStore.CreateAllKeys | backend/main.py:104-120 | creating tasks adds exactly the new ids to the dictionary |
| BackendStore.CreateAllFromEmpty | backend/main.py:104-120 | on an empty dictionary, creating tasks under distinct ids leaves exactly those ids, one record each |
| BackendStore.CreateAllAppends | backend/main.py:104-125 | creating tasks appends to each column the ids bound for it, in request order |
| BackendStore.CreateAppendsOne | backend/main.py:123-125 | one `create_task` appends the id to the column it names and to no other |
| BackendStore.IdsFromCard | backend/main.py:110 | distinct uuids give as many ids |
| BackendStore.SampleColumnsExist | backend/main.py:76-102 | every sample task names a start-up column |
| BackendStore.SampleData | backend/main.py:74-106 | after the sample data the invariant holds and the dictionary holds exactly the five new tasks |
| BackendStore.SampleLayout | backend/main.py:74-106 | after the sample data each start-up column lists the ids of the sample tasks bound for it, in order |
| BackendStore.FromPatch | backend/main.py:27-30 | the backend reads only title, description and column id from a PATCH body |
| BackendStore.ResequenceNotStored | backend/main.py:153-184 | a resequencing update for a task in its own column changes nothing on the server (also lines 27-30) |
| BackendStore.UpdateUnknownColumnUnlists | backend/main.py:169-182 | an update naming a missing column keeps the record but takes it off every column, breaking the invariant |
| BackendStore.OneTaskInv | backend/main.py:109-127 | one `create_task` into the first column of the start-up database keeps the invariant |
| BackendStore.OneTaskBuilt | backend/main.py:109-127 | the one-task database is what that `create_task` builds |
| BackendStore.EmptyColumnIdStrands | backend/main.py:162-201 | a `columnId` of `""` is stored without a move; a later delete leaves the column listing a deleted task |
| Backend.Db.constructor | backend/main.py:46-65 | three empty columns and no tasks |
| Backend.Db.FindColumn | backend/main.py:68-72 | the loop returns the first column with the id, or none |
| Backend.Db.CreateTask | backend/main.py:109-127 | the new state and record are those of `create_task` |
| Backend.Db.CreateTaskEndpoint | backend/main.py:144-151 | 400 with no state change when the column is missing, else `create_task` |
| Backend.Db.GetTask | backend/main.py:138-142 | the stored record, or 404 |
| Backend.Db.UpdateTask | backend/main.py:153-184 | 404 with no state change for an unknown id, else the new state and record of the update |
| Backend.Db.MoveId | backend/main.py:173-182 | the id filtered out of the old column, if found, then appended to the new one, if found; the records are untouched |
| Backend.Db.DeleteTask | backend/main.py:186-203 | 404 with no state change for an unknown id, else the delete and its message |
| Backend.Db.GenerateSampleData | backend/main.py:74-106 | `create_task` on the five sample tasks in turn |
| Backend.Db.CreateEach | backend/main.py:105-106 | the loop creates each request in turn |
| Backend.Startup | backend/main.py:205-208 | the start-up database with the sample tasks; with fresh distinct uuids it satisfies the invariant and holds five tasks |

## Left out

- I/O: the HTTP transport, FastAPI routing, CORS and uvicorn, `localStorage`, `window.location.reload` and `setTimeout` are left out. A request is a recorded command; its outcome is a parameter.
- Concurrency: async interleaving, React's state batching and overlapping drags are left out. Handlers run one at a time to completion.
- Aliasing on the frontend: `handleDragEnd` shallow-copies the board, so its `splice` and `push`, and the in-place assignment in `handleUpdateTask`, also change the arrays the old board shares. The model computes new values and does not capture those shared mutations.
- The `loading` flag and `LoadingSpinner` are left out; they only choose what is rendered.
- The first mount's fetch sets the board's theme, view, confetti and sound to defaults. `fetchBoardData` stores the response as it comes. Only the latter is modelled; the former is presentation.
- Sounds and confetti are left out; `handleDragEnd` returns only the `moved` and `completed` signals. The settings that gate them (`soundEffects`, `animations`) only gate presentation.
- `handleAddTask`, `handleDeleteTask`, `handleToggleSettings`, `handleUpdateSettings` and `get_board`/`read_root` are not part of the core modelled here. They are thin wrappers around a request and a refetch.
- `getRandomColor`, `getRandomTags` and `getRandomPriority` are random, `taskData` is never sent, and `FreeformBoard` is never rendered; all are left out.
- Rendering is left out: JSX, animation variants, colour helpers, and `TaskCard`, `Header`, `SettingsPanel` and the form's cancel button.
- A patch key that is present but `undefined` is modelled as absent.
- Dates and floats: `createdAt` parsing is an integer timestamp, and drop positions are opaque integers.
- Locale: `toLowerCase` is left abstract as a per-character function, so locale-specific mappings that change a string's length are not modelled. `localeCompare` is left abstract as a comparator.
- The drag payload's JSON decoding is an optional task id; a payload that fails to parse is the absent id.
- Python's `or` is modelled only on the values it meets here: an absent id and the empty string.
- BackendStore.CreateKeepsInv: the uuid is assumed to give a fresh id. `uuid.uuid4()` is not modelled, so a clash is not ruled out.
- Backend.Startup: the invariant is claimed only when the uuids give fresh, distinct ids, for the same reason.
- Order.SortOrderPass: nothing is claimed for a column that mixes tasks with and without `sortOrder`. The source's comparator is not a preorder there, and what `Array.prototype.sort` does with it is implementation-defined.
