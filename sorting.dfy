/** `Array.prototype.sort` with a comparator, modelled as a stable insertion
    sort. A comparator returns a negative, zero or positive number; an element
    x may stand before y when cmp(x, y) <= 0. Whatever the comparator, the
    result is a permutation of the input; when the comparator is consistent
    (a total preorder) the result is sorted and stable, and since every stable
    sort gives the same result for a consistent comparator, the choice of
    insertion sort does not matter there. */
module Sorting {
  import opened Seqs

  /** The comparator orders all values as a total preorder. */
  ghost predicate Consistent<T(!new)>(cmp: (T, T) -> int) {
    && (forall a, b :: cmp(a, b) <= 0 || cmp(b, a) <= 0)
    && (forall a, b, c {:trigger cmp(a, b), cmp(b, c), cmp(a, c)} :: cmp(a, b) <= 0 && cmp(b, c) <= 0 ==> cmp(a, c) <= 0)
  }

  /** Every element may stand before every later one. */
  predicate Sorted<T>(s: seq<T>, cmp: (T, T) -> int) {
    forall i, j :: 0 <= i < j < |s| ==> cmp(s[i], s[j]) <= 0
  }

  /** x and y compare equal: a stable sort keeps their relative order. */
  predicate Tied<T>(cmp: (T, T) -> int, x: T, y: T) {
    cmp(x, y) <= 0 && cmp(y, x) <= 0
  }

  /** The predicate "compares equal to t". */
  function TiedWith<T>(cmp: (T, T) -> int, t: T): T -> bool {
    x => Tied(cmp, x, t)
  }

  /** The elements of s that compare equal to t, in their order in s. */
  function Ties<T>(s: seq<T>, t: T, cmp: (T, T) -> int): seq<T> {
    Keep(s, TiedWith(cmp, t))
  }

  /** Inserts x, which came before every element of s in the input, in front
      of the first element it may precede. */
  function Insert<T>(x: T, s: seq<T>, cmp: (T, T) -> int): (r: seq<T>)
    ensures multiset(r) == multiset{x} + multiset(s)
    ensures |r| == |s| + 1
  {
    if s == [] then [x]
    else if cmp(x, s[0]) <= 0 then [x] + s
    else
      assert s == [s[0]] + s[1..];
      [s[0]] + Insert(x, s[1..], cmp)
  }

  /** `[...s].sort(cmp)`. */
  function SortBy<T>(s: seq<T>, cmp: (T, T) -> int): (r: seq<T>)
    ensures multiset(r) == multiset(s)
    ensures |r| == |s|
  {
    if s == [] then []
    else
      assert s == [s[0]] + s[1..];
      Insert(s[0], SortBy(s[1..], cmp), cmp)
  }

  /** Putting y in front of a sorted sequence keeps it sorted when y may
      precede each of its elements. */
  lemma SortedCons<T>(y: T, s: seq<T>, cmp: (T, T) -> int)
    requires Sorted(s, cmp)
    requires forall k :: 0 <= k < |s| ==> cmp(y, s[k]) <= 0
    ensures Sorted([y] + s, cmp)
  {
    var r := [y] + s;
    forall i, j | 0 <= i < j < |r| ensures cmp(r[i], r[j]) <= 0 {
      if i == 0 {
        assert r[j] == s[j - 1];
      } else {
        assert r[i] == s[i - 1] && r[j] == s[j - 1];
      }
    }
  }

  /** A lower bound of x and of every element of s bounds the insertion. */
  lemma InsertBounded<T>(y: T, x: T, s: seq<T>, cmp: (T, T) -> int)
    requires cmp(y, x) <= 0
    requires forall k :: 0 <= k < |s| ==> cmp(y, s[k]) <= 0
    ensures forall k :: 0 <= k < |Insert(x, s, cmp)| ==> cmp(y, Insert(x, s, cmp)[k]) <= 0
  {
    var r := Insert(x, s, cmp);
    forall k | 0 <= k < |r| ensures cmp(y, r[k]) <= 0 {
      assert r[k] in multiset(r);
      if r[k] != x {
        assert r[k] in multiset(s);
        var m :| 0 <= m < |s| && s[m] == r[k];
      }
    }
  }

  lemma {:induction false} InsertSorted<T(!new)>(x: T, s: seq<T>, cmp: (T, T) -> int)
    requires Consistent(cmp) && Sorted(s, cmp)
    ensures Sorted(Insert(x, s, cmp), cmp)
  {
    if s == [] {
    } else if cmp(x, s[0]) <= 0 {
      forall k | 0 <= k < |s| ensures cmp(x, s[k]) <= 0 {
        if k > 0 {
          assert cmp(x, s[0]) <= 0 && cmp(s[0], s[k]) <= 0;
        }
      }
      SortedCons(x, s, cmp);
    } else {
      var rest := s[1..];
      assert Sorted(rest, cmp);
      InsertSorted(x, rest, cmp);
      assert cmp(s[0], x) <= 0;
      assert forall k :: 0 <= k < |rest| ==> cmp(s[0], rest[k]) <= 0 by {
        forall k | 0 <= k < |rest| ensures cmp(s[0], rest[k]) <= 0 {
          assert rest[k] == s[k + 1];
        }
      }
      InsertBounded(s[0], x, rest, cmp);
      SortedCons(s[0], Insert(x, rest, cmp), cmp);
    }
  }

  /** With a consistent comparator the result is sorted. */
  lemma {:induction false} SortBySorted<T(!new)>(s: seq<T>, cmp: (T, T) -> int)
    requires Consistent(cmp)
    ensures Sorted(SortBy(s, cmp), cmp)
  {
    if s != [] {
      SortBySorted(s[1..], cmp);
      InsertSorted(s[0], SortBy(s[1..], cmp), cmp);
    }
  }

  /** Two neighbours that do not both pass the filter can trade places
      without changing what the filter keeps. */
  lemma KeepSwap<T>(x: T, y: T, rest: seq<T>, p: T -> bool)
    requires !(p(x) && p(y))
    ensures Keep([y] + ([x] + rest), p) == Keep([x] + ([y] + rest), p)
  {
    assert ([y] + ([x] + rest))[1..] == [x] + rest;
    assert ([x] + ([y] + rest))[1..] == [y] + rest;
    assert ([x] + rest)[1..] == rest;
    assert ([y] + rest)[1..] == rest;
  }

  /** Elements that both tie with t tie with each other. */
  lemma TiedTransitive<T(!new)>(cmp: (T, T) -> int, t: T, x: T, y: T)
    requires Consistent(cmp) && Tied(cmp, x, t) && Tied(cmp, y, t)
    ensures cmp(x, y) <= 0
  {
    assert cmp(x, t) <= 0 && cmp(t, y) <= 0;
  }

  lemma {:induction false} InsertTies<T(!new)>(x: T, s: seq<T>, t: T, cmp: (T, T) -> int)
    requires Consistent(cmp)
    ensures Ties(Insert(x, s, cmp), t, cmp) == Ties([x] + s, t, cmp)
  {
    if s != [] && cmp(x, s[0]) > 0 {
      var p := TiedWith(cmp, t);
      var rest := s[1..];
      calc {
        Ties(Insert(x, s, cmp), t, cmp);
        Keep([s[0]] + Insert(x, rest, cmp), p);
        { KeepConcat([s[0]], Insert(x, rest, cmp), p); }
        Keep([s[0]], p) + Keep(Insert(x, rest, cmp), p);
        { InsertTies(x, rest, t, cmp); }
        Keep([s[0]], p) + Keep([x] + rest, p);
        { KeepConcat([s[0]], [x] + rest, p); }
        Keep([s[0]] + ([x] + rest), p);
        { if p(x) && p(s[0]) { TiedTransitive(cmp, t, x, s[0]); }
          KeepSwap(x, s[0], rest, p); }
        Keep([x] + ([s[0]] + rest), p);
        { assert [s[0]] + rest == s; }
        Ties([x] + s, t, cmp);
      }
    }
  }

  /** Stability: elements that compare equal keep their input order. */
  lemma {:induction false} SortByStable<T(!new)>(s: seq<T>, t: T, cmp: (T, T) -> int)
    requires Consistent(cmp)
    ensures Ties(SortBy(s, cmp), t, cmp) == Ties(s, t, cmp)
  {
    if s != [] {
      var p := TiedWith(cmp, t);
      var rest := SortBy(s[1..], cmp);
      SortByStable(s[1..], t, cmp);
      InsertTies(s[0], rest, t, cmp);
      KeepConcat([s[0]], rest, p);
      KeepConcat([s[0]], s[1..], p);
      assert s == [s[0]] + s[1..];
    }
  }

  /** Sorting an already sorted sequence changes nothing. */
  lemma {:induction false} SortBySortedIdentity<T>(s: seq<T>, cmp: (T, T) -> int)
    requires Sorted(s, cmp)
    ensures SortBy(s, cmp) == s
  {
    if s != [] {
      assert Sorted(s[1..], cmp);
      SortBySortedIdentity(s[1..], cmp);
      assert s == [s[0]] + s[1..];
      if |s| > 1 {
        assert cmp(s[0], s[1..][0]) <= 0;
      }
    }
  }

  /** Sorting twice equals sorting once. */
  lemma SortByIdempotent<T(!new)>(s: seq<T>, cmp: (T, T) -> int)
    requires Consistent(cmp)
    ensures SortBy(SortBy(s, cmp), cmp) == SortBy(s, cmp)
  {
    SortBySorted(s, cmp);
    SortBySortedIdentity(SortBy(s, cmp), cmp);
  }

  lemma {:induction false} InsertCongruent<T>(x: T, s: seq<T>, c1: (T, T) -> int, c2: (T, T) -> int)
    requires forall y :: y in s ==> c1(x, y) == c2(x, y)
    ensures Insert(x, s, c1) == Insert(x, s, c2)
  {
    if s != [] && c1(x, s[0]) > 0 {
      InsertCongruent(x, s[1..], c1, c2);
    }
  }

  /** The result depends only on what the comparator says about the input's
      own elements. */
  lemma {:induction false} SortByCongruent<T>(s: seq<T>, c1: (T, T) -> int, c2: (T, T) -> int)
    requires forall a, b :: a in s && b in s ==> c1(a, b) == c2(a, b)
    ensures SortBy(s, c1) == SortBy(s, c2)
  {
    if s != [] {
      SortByCongruent(s[1..], c1, c2);
      var rest := SortBy(s[1..], c1);
      forall y | y in rest ensures c1(s[0], y) == c2(s[0], y) {
        assert y in multiset(rest);
        assert y in multiset(s[1..]);
      }
      InsertCongruent(s[0], rest, c1, c2);
    }
  }

  /** Filtering a sorted sequence leaves it sorted. */
  lemma {:induction false} KeepSorted<T>(s: seq<T>, p: T -> bool, cmp: (T, T) -> int)
    requires Sorted(s, cmp)
    ensures Sorted(Keep(s, p), cmp)
  {
    if s != [] {
      assert Sorted(s[1..], cmp);
      KeepSorted(s[1..], p, cmp);
      var k := Keep(s[1..], p);
      if p(s[0]) {
        var r := [s[0]] + k;
        assert Keep(s, p) == r;
        forall i, j | 0 <= i < j < |r| ensures cmp(r[i], r[j]) <= 0 {
          if i == 0 {
            assert r[j] in k;
            var m :| 0 <= m < |s[1..]| && s[1..][m] == r[j];
            assert s[m + 1] == r[j];
          } else {
            assert r[i] == k[i - 1] && r[j] == k[j - 1];
          }
        }
      }
    }
  }

  /** The comparator `(a, b) => key(a) - key(b)`. */
  function ByKey<T>(key: T -> int): (T, T) -> int {
    (a, b) => key(a) - key(b)
  }

  /** Comparing by an integer key is consistent, and sorted means the keys
      never decrease. */
  lemma ByKeySpec<T(!new)>(key: T -> int, s: seq<T>)
    ensures Consistent(ByKey(key))
    ensures Sorted(s, ByKey(key)) <==> forall i, j :: 0 <= i < j < |s| ==> key(s[i]) <= key(s[j])
  {
  }
}
