/**
 * Sorting by a comparator, as `Array.prototype.sort(cmp)` (stable since
 * ECMAScript 2019) and Python's `sort`/`sorted` (stable) do. The comparator is
 * given as `le(a, b)`, "a may come before b" (`cmp(a, b) <= 0`); the library sorts
 * are modelled by a stable insertion sort on values with the properties the
 * callers rely on: the result is a permutation, it is ordered, records the
 * comparator ties keep their input order, and `slice(0, n)` of it is a top-n.
 */
module Sorting {
  import opened Wrappers
  import opened Seqs

  /** The comparator orders every pair, transitively. */
  ghost predicate TotalPreorder<T(!new)>(le: (T, T) -> bool)
  {
    (forall a, b :: le(a, b) || le(b, a)) &&
    (forall a, b, c :: le(a, b) && le(b, c) ==> le(a, c))
  }

  ghost predicate Sorted<T>(s: seq<T>, le: (T, T) -> bool)
  {
    forall i, j :: 0 <= i < j < |s| ==> le(s[i], s[j])
  }

  /** Inserts `x` after the last element that may precede it. */
  function Insert<T>(s: seq<T>, x: T, le: (T, T) -> bool): (r: seq<T>)
    ensures |r| == |s| + 1
    ensures multiset(r) == multiset(s) + multiset{x}
  {
    if |s| == 0 then [x]
    else if le(s[|s| - 1], x) then s + [x]
    else
      assert s == s[..|s| - 1] + [s[|s| - 1]];
      Insert(s[..|s| - 1], x, le) + [s[|s| - 1]]
  }

  /** The sorted arrangement of `s`. */
  function SortBy<T>(s: seq<T>, le: (T, T) -> bool): (r: seq<T>)
    ensures |r| == |s|
    ensures multiset(r) == multiset(s)
  {
    if |s| == 0 then []
    else
      assert s == s[..|s| - 1] + [s[|s| - 1]];
      Insert(SortBy(s[..|s| - 1], le), s[|s| - 1], le)
  }

  lemma {:induction false} InsertSorted<T(!new)>(s: seq<T>, x: T, le: (T, T) -> bool)
    requires TotalPreorder(le) && Sorted(s, le)
    ensures Sorted(Insert(s, x, le), le)
  {
    if |s| > 0 {
      var init, last := s[..|s| - 1], s[|s| - 1];
      if le(last, x) {
        assert forall i :: 0 <= i < |s| ==> le(s[i], last);
      } else {
        var r0 := Insert(init, x, le);
        assert Sorted(init, le);
        InsertSorted(init, x, le);
        forall i | 0 <= i < |r0|
          ensures le(r0[i], last)
        {
          assert r0[i] in multiset(r0);
          if r0[i] != x {
            assert r0[i] in init;
          }
        }
      }
    }
  }

  lemma {:induction false} SortBySorted<T(!new)>(s: seq<T>, le: (T, T) -> bool)
    requires TotalPreorder(le)
    ensures Sorted(SortBy(s, le), le)
  {
    if |s| > 0 {
      SortBySorted(s[..|s| - 1], le);
      InsertSorted(SortBy(s[..|s| - 1], le), s[|s| - 1], le);
    }
  }

  /** The elements the comparator ties with `t`. */
  function TiedWith<T>(le: (T, T) -> bool, t: T): T -> bool
  {
    (u: T) => le(u, t) && le(t, u)
  }

  lemma FilterSingle<T(!new)>(x: T, p: T -> bool)
    ensures Filter([x], p) == if p(x) then [x] else []
  {
    assert [x][..0] == [];
  }

  /** Inserting an element that may not follow the last one goes before it. */
  lemma InsertPast<T>(s: seq<T>, x: T, le: (T, T) -> bool)
    requires |s| > 0 && !le(s[|s| - 1], x)
    ensures Insert(s, x, le) == Insert(s[..|s| - 1], x, le) + [s[|s| - 1]]
  {
  }

  /** One step of insertion past the last element keeps the order of those passing `p` when `x` and it do not both pass. */
  lemma {:induction false} InsertStableStep<T(!new)>(s: seq<T>, x: T, le: (T, T) -> bool, p: T -> bool)
    requires |s| > 0 && !le(s[|s| - 1], x) && !(p(x) && p(s[|s| - 1]))
    requires Filter(Insert(s[..|s| - 1], x, le), p) == Filter(s[..|s| - 1], p) + Filter([x], p)
    ensures Filter(Insert(s, x, le), p) == Filter(s, p) + Filter([x], p)
  {
    var init, last := s[..|s| - 1], s[|s| - 1];
    LastSplit(s);
    InsertPast(s, x, le);
    FilterAppend(Insert(init, x, le), [last], p);
    FilterAppend(init, [last], p);
    FilterSingle(x, p);
    FilterSingle(last, p);
    SwapAroundEmpty(Filter(init, p), Filter([x], p), Filter([last], p));
  }

  lemma SwapAroundEmpty<T>(zs: seq<T>, xs: seq<T>, ls: seq<T>)
    requires xs == [] || ls == []
    ensures (zs + xs) + ls == (zs + ls) + xs
  {
    if xs == [] {
      assert zs + xs == zs && (zs + ls) + xs == zs + ls;
    } else {
      assert (zs + xs) + ls == zs + xs && zs + ls == zs;
    }
  }

  lemma InsertIntoEmpty<T(!new)>(x: T, le: (T, T) -> bool, p: T -> bool)
    ensures Filter(Insert([], x, le), p) == Filter([], p) + Filter([x], p)
  {
    assert Insert([], x, le) == [x];
    assert Filter([], p) == [];
    assert [] + Filter([x], p) == Filter([x], p);
  }

  lemma InsertAtEnd<T(!new)>(s: seq<T>, x: T, le: (T, T) -> bool, p: T -> bool)
    requires |s| > 0 && le(s[|s| - 1], x)
    ensures Filter(Insert(s, x, le), p) == Filter(s, p) + Filter([x], p)
  {
    assert Insert(s, x, le) == s + [x];
    FilterAppend(s, [x], p);
  }

  /**
   * Insertion keeps the order of the elements passing `p` when every such
   * element may precede `x`, as it then ends up after all of them.
   */
  lemma {:induction false} InsertKeepsOrder<T(!new)>(s: seq<T>, x: T, le: (T, T) -> bool, p: T -> bool)
    requires forall i :: 0 <= i < |s| && p(x) && p(s[i]) ==> le(s[i], x)
    ensures Filter(Insert(s, x, le), p) == Filter(s, p) + Filter([x], p)
  {
    if |s| == 0 {
      InsertIntoEmpty(x, le, p);
    } else {
      if le(s[|s| - 1], x) {
        InsertAtEnd(s, x, le, p);
      } else {
        var init := s[..|s| - 1];
        assert forall i :: 0 <= i < |init| ==> init[i] == s[i];
        InsertKeepsOrder(init, x, le, p);
        InsertStableStep(s, x, le, p);
      }
    }
  }

  lemma InsertStable<T(!new)>(s: seq<T>, x: T, le: (T, T) -> bool, t: T)
    requires TotalPreorder(le)
    ensures Filter(Insert(s, x, le), TiedWith(le, t)) == Filter(s, TiedWith(le, t)) + Filter([x], TiedWith(le, t))
  {
    var p := TiedWith(le, t);
    forall i | 0 <= i < |s| && p(x) && p(s[i])
      ensures le(s[i], x)
    {
      assert le(s[i], t) && le(t, x);
    }
    InsertKeepsOrder(s, x, le, p);
  }

  /** Stability: the elements tied with any `t` keep their input order. */
  lemma {:induction false} SortByStable<T(!new)>(s: seq<T>, le: (T, T) -> bool, t: T)
    requires TotalPreorder(le)
    ensures Filter(SortBy(s, le), TiedWith(le, t)) == Filter(s, TiedWith(le, t))
  {
    if |s| > 0 {
      var p := TiedWith(le, t);
      var init, last := s[..|s| - 1], s[|s| - 1];
      assert s == init + [last];
      calc {
        Filter(SortBy(s, le), p);
        Filter(Insert(SortBy(init, le), last, le), p);
        { InsertStable(SortBy(init, le), last, le, t); }
        Filter(SortBy(init, le), p) + Filter([last], p);
        { SortByStable(init, le, t); }
        Filter(init, p) + Filter([last], p);
        { FilterAppend(init, [last], p); }
        Filter(s, p);
      }
    }
  }

  /** `s.slice(0, n)`. */
  function Take<T>(s: seq<T>, n: nat): (r: seq<T>)
    ensures |r| == if n < |s| then n else |s|
    ensures r <= s
  {
    if n < |s| then s[..n] else s
  }

  /**
   * `sorted.slice(0, n)` is a top-n: it has `min(n, |s|)` elements drawn from
   * `s`, in order, and each of them may precede every element left out.
   */
  lemma TopN<T(!new)>(s: seq<T>, le: (T, T) -> bool, n: nat)
    requires TotalPreorder(le)
    ensures var r := Take(SortBy(s, le), n);
      && |r| == (if n < |s| then n else |s|)
      && Sorted(r, le)
      && multiset(r) <= multiset(s)
      && forall i, y :: 0 <= i < |r| && y in multiset(s) - multiset(r) ==> le(r[i], y)
  {
    var sorted := SortBy(s, le);
    var r := Take(sorted, n);
    SortBySorted(s, le);
    var k := |r|;
    assert sorted == r + sorted[k..];
    assert multiset(sorted) == multiset(r) + multiset(sorted[k..]);
    forall i, y | 0 <= i < |r| && y in multiset(s) - multiset(r)
      ensures le(r[i], y)
    {
      assert y in multiset(sorted[k..]);
      var j :| 0 <= j < |sorted| - k && sorted[k..][j] == y;
      assert sorted[k + j] == y;
    }
  }

  // ---------------------------------------------------------------------------
  // Comparators on a numeric key

  /** `(a, b) => key(a) - key(b)`: ascending by an integer key. */
  function ByIntKey<T>(key: T -> int): (T, T) -> bool
  {
    (a: T, b: T) => key(a) <= key(b)
  }

  /** `(a, b) => key(a) - key(b)`: ascending by a real key. */
  function ByRealKey<T>(key: T -> real): (T, T) -> bool
  {
    (a: T, b: T) => key(a) <= key(b)
  }

  /** `(a, b) => key(b) - key(a)`: descending by a real key. */
  function ByRealKeyDesc<T>(key: T -> real): (T, T) -> bool
  {
    (a: T, b: T) => key(a) >= key(b)
  }

  /** `(a, b) => key(b) - key(a)`: descending by an integer key. */
  function ByIntKeyDesc<T>(key: T -> int): (T, T) -> bool
  {
    (a: T, b: T) => key(a) >= key(b)
  }

  lemma ByIntKeyDescTotalPreorder<T(!new)>(key: T -> int)
    ensures TotalPreorder(ByIntKeyDesc(key))
  {
  }

  lemma ByIntKeyTotalPreorder<T(!new)>(key: T -> int)
    ensures TotalPreorder(ByIntKey(key))
  {
  }

  lemma ByRealKeyTotalPreorder<T(!new)>(key: T -> real)
    ensures TotalPreorder(ByRealKey(key))
  {
  }

  lemma ByRealKeyDescTotalPreorder<T(!new)>(key: T -> real)
    ensures TotalPreorder(ByRealKeyDesc(key))
  {
  }

  /** No two elements share a key. */
  ghost predicate KeysDistinct<T, K(!new)>(s: seq<T>, key: T -> K)
  {
    forall i, j :: 0 <= i < j < |s| ==> key(s[i]) != key(s[j])
  }

  /**
   * `find(x => key(x) === k)` on a sequence whose keys are distinct returns the
   * one element whose key is `k`.
   */
  lemma FindByDistinctKey<T, K(!new)>(s: seq<T>, key: T -> K, p: T -> bool, i: int)
    requires KeysDistinct(s, key)
    requires 0 <= i < |s|
    requires forall k :: 0 <= k < |s| ==> (p(s[k]) <==> key(s[k]) == key(s[i]))
    ensures FindFirst(s, p) == Some(s[i])
  {
    assert p(s[i]);
    FindFirstIsFirst(s, p);
    var j :| 0 <= j < |s| && s[j] == FindFirst(s, p).value && forall k :: 0 <= k < j ==> !p(s[k]);
    assert j <= i;
    assert j == i;
  }

  lemma {:induction false} DistinctCount<T>(s: seq<T>, x: T)
    requires forall i, j :: 0 <= i < j < |s| ==> s[i] != s[j]
    ensures multiset(s)[x] <= 1
  {
    if |s| > 0 {
      var init := s[..|s| - 1];
      DistinctCount(init, x);
      assert s == init + [s[|s| - 1]];
      assert s[|s| - 1] !in init;
    }
  }

  lemma RepeatCount<T>(s: seq<T>, i: int, j: int)
    requires 0 <= i < j < |s|
    ensures s[i] == s[j] ==> multiset(s)[s[i]] >= 2
  {
    assert s == s[..i] + [s[i]] + s[i + 1..j] + [s[j]] + s[j + 1..];
  }

  /** Rearranging elements with distinct keys keeps the keys distinct. */
  lemma KeysDistinctPermutation<T(!new), K(!new)>(s: seq<T>, t: seq<T>, key: T -> K)
    requires KeysDistinct(s, key) && multiset(s) == multiset(t)
    ensures KeysDistinct(t, key)
  {
    forall i, j | 0 <= i < j < |t|
      ensures key(t[i]) != key(t[j])
    {
      DistinctCount(s, t[i]);
      RepeatCount(t, i, j);
      assert t[i] != t[j];
      assert t[i] in multiset(s) && t[j] in multiset(s);
      var a :| 0 <= a < |s| && s[a] == t[i];
      var b :| 0 <= b < |s| && s[b] == t[j];
      if a < b {
        assert key(s[a]) != key(s[b]);
      } else {
        assert key(s[b]) != key(s[a]);
      }
    }
  }

  /** The keys strictly increase along `s`. */
  ghost predicate KeysIncreasing<T>(s: seq<T>, key: T -> int)
  {
    forall i, j :: 0 <= i < j < |s| ==> key(s[i]) < key(s[j])
  }

  lemma SortedStrictly<T>(s: seq<T>, key: T -> int)
    requires Sorted(s, ByIntKey(key)) && KeysDistinct(s, key)
    ensures KeysIncreasing(s, key)
  {
    forall i, j | 0 <= i < j < |s|
      ensures key(s[i]) < key(s[j])
    {
      assert ByIntKey(key)(s[i], s[j]);
    }
  }

  /** Sorting elements with distinct integer keys by that key makes the keys strictly increase. */
  lemma SortDistinctKeysStrict<T(!new)>(s: seq<T>, key: T -> int)
    requires KeysDistinct(s, key)
    ensures KeysIncreasing(SortBy(s, ByIntKey(key)), key)
  {
    var r := SortBy(s, ByIntKey(key));
    ByIntKeyTotalPreorder(key);
    SortBySorted(s, ByIntKey(key));
    KeysDistinctPermutation(s, r, key);
    SortedStrictly(r, key);
  }
}
