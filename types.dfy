/** The records of the board (frontend/src/types.ts). A task's `createdAt` ISO
    date string is abstracted to the integer timestamp `new Date(...).getTime()`
    yields; free-form x/y coordinates are an opaque integer pair. */
module Types {
  import opened Wrappers

  datatype Priority = Low | Medium | High

  datatype Position = Position(x: int, y: int)

  datatype Task = Task(
    id: string,
    title: string,
    description: Option<string>,
    createdAt: int,
    columnId: string,
    position: Option<Position>,
    priority: Option<Priority>,
    color: Option<string>,
    completedSteps: Option<int>,
    totalSteps: Option<int>,
    tags: Option<seq<string>>,
    dueDate: Option<string>,
    isAnimating: Option<bool>,
    sortOrder: Option<int>)

  datatype Column = Column(id: string, title: string, tasks: seq<Task>, color: Option<string>, icon: Option<string>)

  datatype Theme = Light | Dark

  datatype View = Kanban | Freeform

  datatype Board = Board(columns: seq<Column>, theme: Theme, view: View, confetti: bool, sound: bool)

  datatype Settings = Settings(animations: bool, soundEffects: bool, darkMode: bool, compactView: bool, freeformMode: bool)

  /** The settings App starts with before any are loaded. */
  const DefaultSettings := Settings(true, true, false, false, false)

  /** The two locale-dependent string operations the board uses, left abstract:
      `toLowerCase` as a per-character fold and `localeCompare` as a comparator. */
  datatype Locale = Locale(lower: char -> char, compare: (string, string) -> int)

  /** `s.toLowerCase()`. */
  function Lower(loc: Locale, s: string): (r: string)
    ensures |r| == |s|
    ensures forall i :: 0 <= i < |s| ==> r[i] == loc.lower(s[i])
  {
    seq(|s|, i requires 0 <= i < |s| => loc.lower(s[i]))
  }

  /** `Partial<Task>`: the fields a PATCH carries; None is an absent key. */
  datatype TaskPatch = TaskPatch(
    id: Option<string>,
    title: Option<string>,
    description: Option<string>,
    createdAt: Option<int>,
    columnId: Option<string>,
    position: Option<Position>,
    priority: Option<Priority>,
    color: Option<string>,
    completedSteps: Option<int>,
    totalSteps: Option<int>,
    tags: Option<seq<string>>,
    dueDate: Option<string>,
    isAnimating: Option<bool>,
    sortOrder: Option<int>)

  const EmptyPatch := TaskPatch(None, None, None, None, None, None, None, None, None, None, None, None, None, None)

  function Pick<T>(update: Option<T>, current: T): T {
    if update.Some? then update.value else current
  }

  function PickOpt<T>(update: Option<T>, current: Option<T>): Option<T> {
    if update.Some? then update else current
  }

  /** `{ ...t, ...p }`: every key present in the patch wins. */
  function Merge(t: Task, p: TaskPatch): Task {
    Task(
      Pick(p.id, t.id),
      Pick(p.title, t.title),
      PickOpt(p.description, t.description),
      Pick(p.createdAt, t.createdAt),
      Pick(p.columnId, t.columnId),
      PickOpt(p.position, t.position),
      PickOpt(p.priority, t.priority),
      PickOpt(p.color, t.color),
      PickOpt(p.completedSteps, t.completedSteps),
      PickOpt(p.totalSteps, t.totalSteps),
      PickOpt(p.tags, t.tags),
      PickOpt(p.dueDate, t.dueDate),
      PickOpt(p.isAnimating, t.isAnimating),
      PickOpt(p.sortOrder, t.sortOrder))
  }

  /** `{ ...p, ...q }`: the patch that q applied after p amounts to. */
  function Combine(p: TaskPatch, q: TaskPatch): TaskPatch {
    TaskPatch(
      PickOpt(q.id, p.id),
      PickOpt(q.title, p.title),
      PickOpt(q.description, p.description),
      PickOpt(q.createdAt, p.createdAt),
      PickOpt(q.columnId, p.columnId),
      PickOpt(q.position, p.position),
      PickOpt(q.priority, p.priority),
      PickOpt(q.color, p.color),
      PickOpt(q.completedSteps, p.completedSteps),
      PickOpt(q.totalSteps, p.totalSteps),
      PickOpt(q.tags, p.tags),
      PickOpt(q.dueDate, p.dueDate),
      PickOpt(q.isAnimating, p.isAnimating),
      PickOpt(q.sortOrder, p.sortOrder))
  }

  /** Laws of the object spread: the empty patch changes nothing, a patch
      applied twice is applied once, two patches in a row are their
      combination, and a patch without a key leaves that field as it was. */
  lemma MergeLaws(t: Task, p: TaskPatch, q: TaskPatch)
    ensures Merge(t, EmptyPatch) == t
    ensures Merge(Merge(t, p), p) == Merge(t, p)
    ensures Merge(Merge(t, p), q) == Merge(t, Combine(p, q))
    ensures p.id.None? ==> Merge(t, p).id == t.id
    ensures p.title.None? ==> Merge(t, p).title == t.title
    ensures p.description.None? ==> Merge(t, p).description == t.description
    ensures p.createdAt.None? ==> Merge(t, p).createdAt == t.createdAt
    ensures p.columnId.None? ==> Merge(t, p).columnId == t.columnId
    ensures p.position.None? ==> Merge(t, p).position == t.position
    ensures p.priority.None? ==> Merge(t, p).priority == t.priority
    ensures p.color.None? ==> Merge(t, p).color == t.color
    ensures p.completedSteps.None? ==> Merge(t, p).completedSteps == t.completedSteps
    ensures p.totalSteps.None? ==> Merge(t, p).totalSteps == t.totalSteps
    ensures p.tags.None? ==> Merge(t, p).tags == t.tags
    ensures p.dueDate.None? ==> Merge(t, p).dueDate == t.dueDate
    ensures p.isAnimating.None? ==> Merge(t, p).isAnimating == t.isAnimating
    ensures p.sortOrder.None? ==> Merge(t, p).sortOrder == t.sortOrder
    ensures p.columnId.Some? ==> Merge(t, p).columnId == p.columnId.value
    ensures p.sortOrder.Some? ==> Merge(t, p).sortOrder == p.sortOrder
  {
  }

  /** `tasks.findIndex(task => task.id === id)`: the first index holding the
      id, or -1. */
  function FindTaskIndex(tasks: seq<Task>, id: string): (r: int)
    ensures -1 <= r < |tasks|
    ensures r >= 0 ==> tasks[r].id == id && forall k :: 0 <= k < r ==> tasks[k].id != id
    ensures r == -1 <==> forall k :: 0 <= k < |tasks| ==> tasks[k].id != id
  {
    if tasks == [] then -1
    else if tasks[0].id == id then 0
    else
      var r := FindTaskIndex(tasks[1..], id);
      if r == -1 then -1 else r + 1
  }

  /** `columns.find(col => col.id === id)`, as the index of that column. */
  function FindColumnIndex(columns: seq<Column>, id: string): (r: Option<nat>)
    ensures r.Some? ==> r.value < |columns| && columns[r.value].id == id
    ensures r.Some? ==> forall k :: 0 <= k < r.value ==> columns[k].id != id
    ensures r.None? <==> forall k :: 0 <= k < |columns| ==> columns[k].id != id
  {
    if columns == [] then None
    else if columns[0].id == id then Some(0)
    else
      var r := FindColumnIndex(columns[1..], id);
      if r.None? then None else Some(r.value + 1)
  }

  /** The ids of a sequence of tasks. */
  function IdsOf(tasks: seq<Task>): (r: seq<string>)
    ensures |r| == |tasks| && forall k :: 0 <= k < |tasks| ==> r[k] == tasks[k].id
  {
    seq(|tasks|, k requires 0 <= k < |tasks| => tasks[k].id)
  }

  lemma IdsOfConcat(a: seq<Task>, b: seq<Task>)
    ensures IdsOf(a + b) == IdsOf(a) + IdsOf(b)
  {
  }

  lemma IdsOfAppend(ts: seq<Task>, t: Task)
    ensures IdsOf(ts + [t]) == IdsOf(ts) + [t.id]
  {
  }
}
