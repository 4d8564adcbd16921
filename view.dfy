/** The filtered board App renders (frontend/src/App.tsx:88-174): a search over
    title, description and tags, then either the high-priority filter or the
    two-pass sort. Columns are never added, removed or reordered; only their
    task sequences are replaced. */
module BoardView {
  import opened Wrappers
  import opened Types
  import opened Seqs
  import opened Sorting
  import opened Order

  /** `activeFilter`: `{ type, value }`; the empty strings mean "none". */
  datatype ActiveFilter = ActiveFilter(kind: string, value: string)

  const NoFilter := ActiveFilter("", "")

  /** The search test for one task, against the lowercased term. A description
      counts only when it is a non-empty string; the tags when present. */
  predicate MatchesSearch(loc: Locale, t: Task, lterm: string) {
    || Includes(Lower(loc, t.title), lterm)
    || (t.description.Some? && t.description.value != "" && Includes(Lower(loc, t.description.value), lterm))
    || (t.tags.Some? && exists k :: 0 <= k < |t.tags.value| && Includes(Lower(loc, t.tags.value[k]), lterm))
  }

  function SearchFilter(loc: Locale, lterm: string): Task -> bool {
    t => MatchesSearch(loc, t, lterm)
  }

  const HighOnly: Task -> bool := (t: Task) => t.priority == Some(High)

  /** Step one: with a non-empty term, each column keeps its matching tasks. */
  function SearchStage(b: Board, term: string, loc: Locale): Board {
    if term == "" then b
    else
      var lterm := Lower(loc, term);
      b.(columns := seq(|b.columns|, i requires 0 <= i < |b.columns| =>
        b.columns[i].(tasks := Keep(b.columns[i].tasks, SearchFilter(loc, lterm)))))
  }

  /** The comparator of the second sort pass, if the value names one. */
  function SecondPass(value: string, loc: Locale): Option<(Task, Task) -> int> {
    if value == "date" then Some(CompareByDate)
    else if value == "priority-high" then Some(CompareByPriorityHigh)
    else if value == "priority-low" then Some(CompareByPriorityLow)
    else if value == "title" then Some(CompareByTitle(loc))
    else None
  }

  /** The sort of one column: a copy sorted by `sortOrder`, then by the value. */
  function SortTasks(tasks: seq<Task>, value: string, loc: Locale): (r: seq<Task>)
    ensures multiset(r) == multiset(tasks)
  {
    var first := SortBy(tasks, CompareBySortOrder);
    match SecondPass(value, loc)
    case None => first
    case Some(c) => SortBy(first, c)
  }

  /** Step two: runs only when both the type and the value are non-empty. */
  function FilterStage(b: Board, f: ActiveFilter, loc: Locale): Board {
    if f.kind != "" && f.value != "" then
      if f.kind == "filter" then
        if f.value == "high-priority" then
          b.(columns := seq(|b.columns|, i requires 0 <= i < |b.columns| =>
            b.columns[i].(tasks := Keep(b.columns[i].tasks, HighOnly))))
        else b
      else if f.kind == "sort" then
        b.(columns := seq(|b.columns|, i requires 0 <= i < |b.columns| =>
          b.columns[i].(tasks := SortTasks(b.columns[i].tasks, f.value, loc))))
      else b
    else b
  }

  /** `filteredBoard` as a function of `board`, `searchTerm` and `activeFilter`. */
  function Project(b: Board, term: string, f: ActiveFilter, loc: Locale): Board {
    FilterStage(SearchStage(b, term, loc), f, loc)
  }

  /** r is b with nothing but the task sequences of its columns replaced, each
      by a sub-multiset of the original. */
  ghost predicate Narrows(r: Board, b: Board) {
    && r.(columns := b.columns) == b
    && |r.columns| == |b.columns|
    && (forall i :: 0 <= i < |b.columns| ==> r.columns[i] == b.columns[i].(tasks := r.columns[i].tasks))
    && (forall i :: 0 <= i < |b.columns| ==> multiset(r.columns[i].tasks) <= multiset(b.columns[i].tasks))
  }

  lemma NarrowsTransitive(r: Board, m: Board, b: Board)
    requires Narrows(r, m) && Narrows(m, b)
    ensures Narrows(r, b)
  {
  }

  lemma KeepNarrows(s: seq<Task>, p: Task -> bool)
    ensures multiset(Keep(s, p)) <= multiset(s)
  {
    KeepSpec(s, p);
  }

  lemma {:induction false} SearchStageNarrows(b: Board, term: string, loc: Locale)
    ensures Narrows(SearchStage(b, term, loc), b)
  {
    if term != "" {
      forall i | 0 <= i < |b.columns| {
        KeepNarrows(b.columns[i].tasks, SearchFilter(loc, Lower(loc, term)));
      }
    }
  }

  lemma {:induction false} FilterStageNarrows(b: Board, f: ActiveFilter, loc: Locale)
    ensures Narrows(FilterStage(b, f, loc), b)
  {
    forall i | 0 <= i < |b.columns| {
      KeepNarrows(b.columns[i].tasks, HighOnly);
    }
  }

  /** The pipeline keeps the board's settings and its columns, in order, with
      their ids, titles, colours and icons; each column's tasks are drawn from
      that same column, each at most as often as it was there, so no task
      changes column or any field. */
  lemma {:induction false} ProjectNarrows(b: Board, term: string, f: ActiveFilter, loc: Locale)
    ensures Narrows(Project(b, term, f, loc), b)
  {
    SearchStageNarrows(b, term, loc);
    FilterStageNarrows(SearchStage(b, term, loc), f, loc);
    NarrowsTransitive(Project(b, term, f, loc), SearchStage(b, term, loc), b);
  }

  /** An empty search term skips the search step; with no filter type or no
      value, or an unknown type, or a filter other than `high-priority`, the
      second step is skipped as well. */
  lemma ProjectPassThrough(b: Board, term: string, f: ActiveFilter, loc: Locale)
    ensures Project(b, "", f, loc) == FilterStage(b, f, loc)
    ensures (f.kind == "" || f.value == "" || (f.kind != "filter" && f.kind != "sort")) ==>
      Project(b, term, f, loc) == SearchStage(b, term, loc)
    ensures f.kind == "filter" && f.value != "high-priority" ==> Project(b, term, f, loc) == SearchStage(b, term, loc)
    ensures Project(b, "", NoFilter, loc) == b
  {
  }

  /** With a non-empty term a task stays in its column exactly when the
      lowercased term occurs in its lowercased title, description or a tag;
      every occurrence of such a task stays, and the survivors keep their
      relative order. */
  lemma {:induction false} SearchSpec(b: Board, term: string, loc: Locale, i: nat)
    requires term != "" && i < |b.columns|
    ensures var r := SearchStage(b, term, loc).columns[i].tasks;
      && (forall t :: t in r <==> t in b.columns[i].tasks && MatchesSearch(loc, t, Lower(loc, term)))
      && (forall t :: multiset(r)[t] == if MatchesSearch(loc, t, Lower(loc, term)) then multiset(b.columns[i].tasks)[t] else 0)
      && IsSubsequence(r, b.columns[i].tasks)
  {
    KeepSpec(b.columns[i].tasks, SearchFilter(loc, Lower(loc, term)));
  }

  /** The search test spelled out as substring occurrence. */
  lemma MatchesSearchSpec(loc: Locale, t: Task, lterm: string)
    ensures MatchesSearch(loc, t, lterm) <==>
      || (exists j :: OccursAt(Lower(loc, t.title), lterm, j))
      || (t.description.Some? && t.description.value != "" &&
          exists j :: OccursAt(Lower(loc, t.description.value), lterm, j))
      || (t.tags.Some? && exists k :: 0 <= k < |t.tags.value| && Includes(Lower(loc, t.tags.value[k]), lterm))
  {
    IncludesSpec(Lower(loc, t.title), lterm);
    if t.description.Some? {
      IncludesSpec(Lower(loc, t.description.value), lterm);
    }
  }

  /** `filter` + `high-priority` keeps exactly the searched tasks whose
      priority is `high`, every occurrence of each, in order. */
  lemma {:induction false} HighPrioritySpec(b: Board, term: string, loc: Locale, i: nat)
    requires i < |b.columns|
    ensures var r := Project(b, term, ActiveFilter("filter", "high-priority"), loc).columns[i].tasks;
      var s := SearchStage(b, term, loc).columns[i].tasks;
      && (forall t :: t in r <==> t in s && t.priority == Some(High))
      && (forall t :: multiset(r)[t] == if t.priority == Some(High) then multiset(s)[t] else 0)
      && IsSubsequence(r, s)
      && (term == "" ==> s == b.columns[i].tasks)
  {
    SearchStageNarrows(b, term, loc);
    KeepSpec(SearchStage(b, term, loc).columns[i].tasks, HighOnly);
  }

  /** Under `sort`, each column holds a permutation of its searched tasks. */
  lemma {:induction false} SortViewPermutes(b: Board, term: string, value: string, loc: Locale, i: nat)
    requires value != "" && i < |b.columns|
    ensures multiset(Project(b, term, ActiveFilter("sort", value), loc).columns[i].tasks)
         == multiset(SearchStage(b, term, loc).columns[i].tasks)
    ensures term == "" ==>
      multiset(Project(b, term, ActiveFilter("sort", value), loc).columns[i].tasks) == multiset(b.columns[i].tasks)
  {
    SearchStageNarrows(b, term, loc);
  }

  /** `date`: oldest first. */
  lemma SortTasksByDate(s: seq<Task>, loc: Locale)
    ensures var r := SortTasks(s, "date", loc);
      forall i, j :: 0 <= i < j < |r| ==> r[i].createdAt <= r[j].createdAt
  {
    assert SecondPass("date", loc) == Some(CompareByDate);
    assert SortTasks(s, "date", loc) == SortBy(SortBy(s, CompareBySortOrder), CompareByDate);
    SortByDateOrdered(SortBy(s, CompareBySortOrder));
  }

  /** `priority-high`: ranks never increase. */
  lemma SortTasksByPriorityHigh(s: seq<Task>, loc: Locale)
    ensures var r := SortTasks(s, "priority-high", loc);
      forall i, j :: 0 <= i < j < |r| ==> Rank(r[i].priority) >= Rank(r[j].priority)
  {
    assert SecondPass("priority-high", loc) == Some(CompareByPriorityHigh);
    assert SortTasks(s, "priority-high", loc) == SortBy(SortBy(s, CompareBySortOrder), CompareByPriorityHigh);
    SortByPriorityHighOrdered(SortBy(s, CompareBySortOrder));
  }

  /** `priority-low`: ranks never decrease. */
  lemma SortTasksByPriorityLow(s: seq<Task>, loc: Locale)
    ensures var r := SortTasks(s, "priority-low", loc);
      forall i, j :: 0 <= i < j < |r| ==> Rank(r[i].priority) <= Rank(r[j].priority)
  {
    assert SecondPass("priority-low", loc) == Some(CompareByPriorityLow);
    assert SortTasks(s, "priority-low", loc) == SortBy(SortBy(s, CompareBySortOrder), CompareByPriorityLow);
    SortByPriorityLowOrdered(SortBy(s, CompareBySortOrder));
  }

  /** `title`: ascending `localeCompare`, when that is a total preorder. */
  lemma SortTasksByTitle(s: seq<Task>, loc: Locale)
    requires Consistent(loc.compare)
    ensures var r := SortTasks(s, "title", loc);
      forall i, j :: 0 <= i < j < |r| ==> loc.compare(r[i].title, r[j].title) <= 0
  {
    assert SecondPass("title", loc) == Some(CompareByTitle(loc));
    assert SortTasks(s, "title", loc) == SortBy(SortBy(s, CompareBySortOrder), CompareByTitle(loc));
    SortByTitleOrdered(SortBy(s, CompareBySortOrder), loc);
  }

  /** Any other value applies only the `sortOrder` pass. */
  lemma SortTasksUnknownValue(s: seq<Task>, value: string, loc: Locale)
    requires value !in {"date", "priority-high", "priority-low", "title"}
    ensures SortTasks(s, value, loc) == SortBy(s, CompareBySortOrder)
  {
  }

  /** The second pass is stable: tasks it ranks equal keep the order of the
      first pass. When every task has a `sortOrder`, ties of the second pass
      therefore appear in non-decreasing `sortOrder`. */
  lemma {:induction false} SortTasksStable(s: seq<Task>, value: string, loc: Locale, t: Task)
    requires SecondPass(value, loc).Some?
    requires value == "title" ==> Consistent(loc.compare)
    ensures var c := SecondPass(value, loc).value;
      var first := SortBy(s, CompareBySortOrder);
      && Ties(SortTasks(s, value, loc), t, c) == Ties(first, t, c)
      && (AllHaveSortOrder(s) ==> Sorted(Ties(SortTasks(s, value, loc), t, c), ByKey(SortKey)))
  {
    var c := SecondPass(value, loc).value;
    var first := SortBy(s, CompareBySortOrder);
    ComparatorsConsistent(loc);
    SortByStable(first, t, c);
    if AllHaveSortOrder(s) {
      SortOrderIsKey(s);
      ByKeySpec(SortKey, s);
      SortBySorted(s, ByKey(SortKey));
      KeepSorted(first, TiedWith(c, t), ByKey(SortKey));
    }
  }
}
