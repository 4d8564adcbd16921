/** The comparators the board sorts with (frontend/src/App.tsx and
    frontend/src/components/Column.tsx), and what sorting with each means. */
module Order {
  import opened Wrappers
  import opened Types
  import opened Sorting

  /** `priorityOrder[task.priority || 'undefined'] || 0` with
      `{ high: 3, medium: 2, low: 1, undefined: 0 }`. */
  function Rank(p: Option<Priority>): (r: int)
    ensures 0 <= r <= 3
    ensures r == 0 <==> p.None?
    ensures r == 3 <==> p == Some(High)
  {
    match p
    case None => 0
    case Some(Low) => 1
    case Some(Medium) => 2
    case Some(High) => 3
  }

  /** Oldest first: `new Date(a.createdAt).getTime() - new Date(b.createdAt).getTime()`. */
  function CompareByDate(a: Task, b: Task): int {
    a.createdAt - b.createdAt
  }

  /** Highest priority first. */
  function CompareByPriorityHigh(a: Task, b: Task): int {
    Rank(b.priority) - Rank(a.priority)
  }

  /** Lowest priority first. */
  function CompareByPriorityLow(a: Task, b: Task): int {
    Rank(a.priority) - Rank(b.priority)
  }

  /** `a.title.localeCompare(b.title)`. */
  function CompareByTitle(loc: Locale): (Task, Task) -> int {
    (a: Task, b: Task) => loc.compare(a.title, b.title)
  }

  /** The first pass of the sort view: by `sortOrder` when both tasks have
      one, otherwise "equal". Mixing tasks with and without a `sortOrder`
      makes this comparator inconsistent. */
  function CompareBySortOrder(a: Task, b: Task): int {
    if a.sortOrder.Some? && b.sortOrder.Some? then a.sortOrder.value - b.sortOrder.value else 0
  }

  function SortKey(t: Task): int {
    t.sortOrder.GetOr(0)
  }

  predicate AllHaveSortOrder(s: seq<Task>) {
    forall k :: 0 <= k < |s| ==> s[k].sortOrder.Some?
  }

  /** The date and priority comparators are total preorders, and so is the
      title comparator whenever `localeCompare` is one. */
  lemma ComparatorsConsistent(loc: Locale)
    ensures Consistent(CompareByDate)
    ensures Consistent(CompareByPriorityHigh)
    ensures Consistent(CompareByPriorityLow)
    ensures Consistent(loc.compare) ==> Consistent(CompareByTitle(loc))
  {
    if Consistent(loc.compare) {
      var c := CompareByTitle(loc);
      forall a: Task, b: Task ensures c(a, b) <= 0 || c(b, a) <= 0 {
        assert loc.compare(a.title, b.title) <= 0 || loc.compare(b.title, a.title) <= 0;
      }
      forall a: Task, b: Task, d: Task | c(a, b) <= 0 && c(b, d) <= 0 ensures c(a, d) <= 0 {
        assert loc.compare(a.title, b.title) <= 0 && loc.compare(b.title, d.title) <= 0;
      }
    }
  }

  /** Sorting by date puts the tasks in non-decreasing `createdAt` order. */
  lemma SortByDateOrdered(s: seq<Task>)
    ensures var r := SortBy(s, CompareByDate);
      forall i, j :: 0 <= i < j < |r| ==> r[i].createdAt <= r[j].createdAt
  {
    ComparatorsConsistent(Locale(c => c, (x, y) => 0));
    SortBySorted(s, CompareByDate);
  }

  /** Sorting by high priority puts the ranks in non-increasing order. */
  lemma SortByPriorityHighOrdered(s: seq<Task>)
    ensures var r := SortBy(s, CompareByPriorityHigh);
      forall i, j :: 0 <= i < j < |r| ==> Rank(r[i].priority) >= Rank(r[j].priority)
  {
    ComparatorsConsistent(Locale(c => c, (x, y) => 0));
    SortBySorted(s, CompareByPriorityHigh);
  }

  /** Sorting by low priority puts the ranks in non-decreasing order. */
  lemma SortByPriorityLowOrdered(s: seq<Task>)
    ensures var r := SortBy(s, CompareByPriorityLow);
      forall i, j :: 0 <= i < j < |r| ==> Rank(r[i].priority) <= Rank(r[j].priority)
  {
    ComparatorsConsistent(Locale(c => c, (x, y) => 0));
    SortBySorted(s, CompareByPriorityLow);
  }

  /** Sorting by title puts the titles in ascending `localeCompare` order. */
  lemma SortByTitleOrdered(s: seq<Task>, loc: Locale)
    requires Consistent(loc.compare)
    ensures var r := SortBy(s, CompareByTitle(loc));
      forall i, j :: 0 <= i < j < |r| ==> loc.compare(r[i].title, r[j].title) <= 0
  {
    ComparatorsConsistent(loc);
    SortBySorted(s, CompareByTitle(loc));
  }

  /** On tasks that all have a `sortOrder`, the first-pass comparator is the
      comparison of keys. */
  lemma SortOrderIsKey(s: seq<Task>)
    requires AllHaveSortOrder(s)
    ensures SortBy(s, CompareBySortOrder) == SortBy(s, ByKey(SortKey))
  {
    forall a, b | a in s && b in s ensures CompareBySortOrder(a, b) == ByKey(SortKey)(a, b) {
      var i :| 0 <= i < |s| && s[i] == a;
      var j :| 0 <= j < |s| && s[j] == b;
      assert SortKey(a) == a.sortOrder.value && SortKey(b) == b.sortOrder.value;
      assert ByKey(SortKey)(a, b) == SortKey(a) - SortKey(b);
    }
    SortByCongruent(s, CompareBySortOrder, ByKey(SortKey));
  }

  /** When every task has a `sortOrder`, the first pass sorts by it; the result
      is a permutation in any case. */
  lemma SortOrderPass(s: seq<Task>)
    requires AllHaveSortOrder(s)
    ensures var r := SortBy(s, CompareBySortOrder);
      && AllHaveSortOrder(r)
      && (forall i, j :: 0 <= i < j < |r| ==> r[i].sortOrder.value <= r[j].sortOrder.value)
  {
    var r := SortBy(s, CompareBySortOrder);
    SortOrderIsKey(s);
    forall k | 0 <= k < |r| ensures r[k].sortOrder.Some? {
      assert r[k] in multiset(s);
      var m :| 0 <= m < |s| && s[m] == r[k];
    }
    ByKeySpec(SortKey, r);
    SortBySorted(s, ByKey(SortKey));
    assert Sorted(r, ByKey(SortKey));
  }
}
