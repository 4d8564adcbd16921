/** A column's resequencing actions, `sortTasksByDate`,
    `sortTasksByPriority` and `sortTasksByTitle`
    (frontend/src/components/Column.tsx:54-160): sort a copy of the column's
    tasks, then send one `{columnId, sortOrder: i}` update per task in index
    order, stopping at the first that fails. */
module ColumnSort {
  import opened Wrappers
  import opened Types
  import opened Seqs
  import opened Sorting
  import opened Order
  import opened Reconcile

  /** The three entries of the column's sort menu. */
  datatype SortKind = ByDate | ByPriority | ByTitle

  /** The comparator each entry sorts with; the priority entry puts the
      highest priority first. */
  function KindComparator(kind: SortKind, loc: Locale): (Task, Task) -> int {
    match kind
    case ByDate => CompareByDate
    case ByPriority => CompareByPriorityHigh
    case ByTitle => CompareByTitle(loc)
  }

  /** One call of `onUpdateTask(taskId, patch)`. */
  datatype UpdateCall = UpdateCall(id: string, patch: TaskPatch)

  /** `{ columnId: column.id, sortOrder: i }`. */
  function SequencePatch(columnId: string, i: nat): TaskPatch {
    EmptyPatch.(columnId := Some(columnId), sortOrder := Some(i))
  }

  /** The calls of the loop over the sorted copy, all of them. */
  function ResequenceCalls(sorted: seq<Task>, columnId: string): (r: seq<UpdateCall>)
    ensures |r| == |sorted|
  {
    seq(|sorted|, i requires 0 <= i < |sorted| => UpdateCall(sorted[i].id, SequencePatch(columnId, i)))
  }

  /** The ids the calls go to, in order. */
  function CallIds(calls: seq<UpdateCall>): (r: seq<string>)
    ensures |r| == |calls| && forall i :: 0 <= i < |calls| ==> r[i] == calls[i].id
  {
    seq(|calls|, i requires 0 <= i < |calls| => calls[i].id)
  }

  /** The index of the first call from `i` on that fails, or `n` when none
      of them does. */
  function FirstFailure(succeeds: nat -> bool, i: nat, n: nat): (r: nat)
    requires i <= n
    ensures i <= r <= n
    ensures forall j :: i <= j < r ==> succeeds(j)
    ensures r < n ==> !succeeds(r)
    decreases n - i
  {
    if i == n || !succeeds(i) then i else FirstFailure(succeeds, i + 1, n)
  }

  /** How many calls are made: up to and including the first that fails. */
  function Attempted(succeeds: nat -> bool, n: nat): (r: nat)
    ensures r <= n
    ensures r < n ==> r >= 1 && !succeeds(r - 1) && forall j :: 0 <= j < r - 1 ==> succeeds(j)
    ensures r == n ==> n == 0 || forall j :: 0 <= j < n - 1 ==> succeeds(j)
  {
    var k := FirstFailure(succeeds, 0, n);
    if k < n then k + 1 else n
  }

  /** The first failure is where the successes end. */
  lemma FirstFailureIs(succeeds: nat -> bool, n: nat, k: nat)
    requires k <= n && (forall j :: 0 <= j < k ==> succeeds(j)) && (k < n ==> !succeeds(k))
    ensures FirstFailure(succeeds, 0, n) == k
  {
  }

  /** Permuted tasks carry permuted ids. */
  lemma {:induction false} IdsOfPermutation(s: seq<Task>, t: seq<Task>)
    requires multiset(s) == multiset(t)
    ensures multiset(IdsOf(s)) == multiset(IdsOf(t))
    decreases |s|
  {
    if s == [] {
      assert |t| == |multiset(t)| == 0;
    } else {
      var x := s[0];
      assert x in multiset(t);
      var i :| 0 <= i < |t| && t[i] == x;
      var rest := RemoveAt(t, i);
      assert s == [x] + s[1..];
      assert multiset(s) == multiset{x} + multiset(s[1..]);
      assert multiset(rest) + multiset{x} == multiset(t);
      forall e ensures multiset(s[1..])[e] == multiset(rest)[e] {
        assert (multiset{x} + multiset(s[1..]))[e] == (multiset(rest) + multiset{x})[e];
      }
      IdsOfPermutation(s[1..], rest);
      IdsOfRemoveAt(t, i);
      IdsOfConcat([x], s[1..]);
      assert IdsOf([x]) == [x.id];
    }
  }

  /** The calls go to exactly the column's task ids, each as often as it
      occurs in the column, whatever the comparator. */
  lemma ResequenceTouchesEachTaskOnce(tasks: seq<Task>, columnId: string, cmp: (Task, Task) -> int)
    ensures multiset(CallIds(ResequenceCalls(SortBy(tasks, cmp), columnId))) == multiset(IdsOf(tasks))
  {
    var sorted := SortBy(tasks, cmp);
    assert CallIds(ResequenceCalls(sorted, columnId)) == IdsOf(sorted);
    IdsOfPermutation(sorted, tasks);
  }

  /** The sorted copy is a permutation of the column's tasks, ordered by the
      entry's comparator, and tasks that compare equal keep their order in
      the column (the title entry when `localeCompare` is a total preorder). */
  lemma ResequenceSortedCopy(tasks: seq<Task>, kind: SortKind, loc: Locale, t: Task)
    requires kind == ByTitle ==> Consistent(loc.compare)
    ensures var cmp := KindComparator(kind, loc);
      var sorted := SortBy(tasks, cmp);
      && multiset(sorted) == multiset(tasks)
      && Sorted(sorted, cmp)
      && Ties(sorted, t, cmp) == Ties(tasks, t, cmp)
  {
    var cmp := KindComparator(kind, loc);
    ComparatorsConsistent(loc);
    SortBySorted(tasks, cmp);
    SortByStable(tasks, t, cmp);
  }

  /** Had every update been applied to its task, the tasks would carry
      `sortOrder` 0, 1, ... in the sorted order and the column's id, and
      the view's `sortOrder` pass would give the sorted order back. */
  lemma ResequenceRoundTrip(sorted: seq<Task>, columnId: string)
    ensures var calls := ResequenceCalls(sorted, columnId);
      var stamped := seq(|sorted|, i requires 0 <= i < |sorted| => Merge(sorted[i], calls[i].patch));
      && IdsOf(stamped) == IdsOf(sorted)
      && AllHaveSortOrder(stamped)
      && (forall i :: 0 <= i < |stamped| ==> stamped[i].sortOrder == Some(i) && stamped[i].columnId == columnId)
      && SortBy(stamped, CompareBySortOrder) == stamped
  {
    var calls := ResequenceCalls(sorted, columnId);
    var stamped := seq(|sorted|, i requires 0 <= i < |sorted| => Merge(sorted[i], calls[i].patch));
    assert Sorted(stamped, CompareBySortOrder) by {
      forall i, j | 0 <= i < j < |stamped| ensures CompareBySortOrder(stamped[i], stamped[j]) <= 0 {
        assert stamped[i].sortOrder == Some(i) && stamped[j].sortOrder == Some(j);
      }
    }
    SortBySortedIdentity(stamped, CompareBySortOrder);
  }

  /** The column component's own state for resequencing. The column itself
      is a prop the component never changes; `updates` records the calls
      of `onUpdateTask`, and `reloadScheduled` the `window.location.reload`
      put off by `setTimeout`. */
  class ColumnView {
    const column: Column
    const locale: Locale
    var showSortMenu: bool
    var updates: seq<UpdateCall>
    var reloadScheduled: bool

    constructor (c: Column, loc: Locale)
      ensures column == c && locale == loc
      ensures !showSortMenu && updates == [] && !reloadScheduled
    {
      column := c;
      locale := loc;
      showSortMenu := false;
      updates := [];
      reloadScheduled := false;
    }

    /** The sort button flips the menu. */
    method ToggleSortMenu()
      modifies this
      ensures showSortMenu == !old(showSortMenu)
      ensures updates == old(updates) && reloadScheduled == old(reloadScheduled)
    {
      showSortMenu := !showSortMenu;
    }

    /** The `for` loop over the sorted copy: the call for index `i` is
        made after those for the indices before it, and the loop stops at
        the first call that fails; `failed` tells whether one did. */
    method SendUpdates(sorted: seq<Task>, succeeds: nat -> bool) returns (failed: bool)
      modifies this
      ensures updates == old(updates) + ResequenceCalls(sorted, column.id)[..Attempted(succeeds, |sorted|)]
      ensures failed == (FirstFailure(succeeds, 0, |sorted|) < |sorted|)
      ensures showSortMenu == old(showSortMenu) && reloadScheduled == old(reloadScheduled)
    {
      ghost var calls := ResequenceCalls(sorted, column.id);
      failed := false;
      var i := 0;
      while i < |sorted|
        invariant 0 <= i <= |sorted|
        invariant forall j :: 0 <= j < i ==> succeeds(j)
        invariant updates == old(updates) + calls[..i]
        invariant showSortMenu == old(showSortMenu) && reloadScheduled == old(reloadScheduled)
      {
        updates := updates + [UpdateCall(sorted[i].id, SequencePatch(column.id, i))];
        if !succeeds(i) {
          failed := true;
          FirstFailureIs(succeeds, |sorted|, i);
          assert updates == old(updates) + calls[..i + 1];
          return;
        }
        i := i + 1;
      }
      FirstFailureIs(succeeds, |sorted|, |sorted|);
    }

    /** One of the three sort actions; call `i` of `onUpdateTask` succeeds
        exactly when `succeeds(i)`. For 0 or 1 tasks nothing is sent.
        Otherwise the calls for indices 0, 1, ... are made in order until
        one fails, and a reload is scheduled only when none fails. The menu
        is closed on every path. */
    method Resequence(kind: SortKind, succeeds: nat -> bool) returns (sorted: seq<Task>)
      modifies this
      ensures sorted == SortBy(column.tasks, KindComparator(kind, locale))
      ensures !showSortMenu
      ensures |sorted| <= 1 ==> updates == old(updates) && reloadScheduled == old(reloadScheduled)
      ensures |sorted| > 1 ==>
        && updates == old(updates) + ResequenceCalls(sorted, column.id)[..Attempted(succeeds, |sorted|)]
        && reloadScheduled == (old(reloadScheduled) || FirstFailure(succeeds, 0, |sorted|) == |sorted|)
    {
      sorted := SortBy(column.tasks, KindComparator(kind, locale));
      var n := |sorted|;
      if n <= 1 {
        showSortMenu := false;
        return;
      }
      var failed := SendUpdates(sorted, succeeds);
      if !failed {
        reloadScheduled := true;
      }
      showSortMenu := false;
    }
  }
}
