/**
 * Sequence building blocks: `filter`, `map`, the keys of a collection in
 * first-seen order (`new Set(...)`, a JavaScript `Map`'s or a Python dict's key
 * order) and grouping records by a key into a map, as the aggregation code does
 * with `Map.get(key).push(record)` and `defaultdict(list)`.
 */
module Seqs {
  import opened Wrappers

  /** `s.filter(p)`: the elements satisfying `p`, in their original order. */
  function Filter<T(!new)>(s: seq<T>, p: T -> bool): (r: seq<T>)
    ensures |r| <= |s|
  {
    if |s| == 0 then []
    else
      var init := Filter(s[..|s| - 1], p);
      if p(s[|s| - 1]) then init + [s[|s| - 1]] else init
  }

  /** The filter keeps exactly the elements that pass. */
  lemma {:induction false} FilterMembers<T(!new)>(s: seq<T>, p: T -> bool)
    ensures forall x :: x in Filter(s, p) <==> x in s && p(x)
  {
    if |s| > 0 {
      FilterMembers(s[..|s| - 1], p);
      assert forall x :: x in s <==> x in s[..|s| - 1] || x == s[|s| - 1];
    }
  }

  lemma {:induction false} FilterAppend<T(!new)>(s: seq<T>, t: seq<T>, p: T -> bool)
    ensures Filter(s + t, p) == Filter(s, p) + Filter(t, p)
    decreases |t|
  {
    if |t| == 0 {
      assert s + t == s;
    } else {
      var t0 := t[..|t| - 1];
      assert (s + t)[..|s + t| - 1] == s + t0;
      FilterAppend(s, t0, p);
    }
  }

  /** Filtering a sequence all of whose elements pass returns it unchanged. */
  lemma {:induction false} FilterAllPass<T(!new)>(s: seq<T>, p: T -> bool)
    requires forall i :: 0 <= i < |s| ==> p(s[i])
    ensures Filter(s, p) == s
  {
    if |s| > 0 {
      FilterAllPass(s[..|s| - 1], p);
    }
  }

  /** Filtering a sequence none of whose elements pass gives nothing. */
  lemma {:induction false} FilterNonePass<T(!new)>(s: seq<T>, p: T -> bool)
    requires forall i :: 0 <= i < |s| ==> !p(s[i])
    ensures Filter(s, p) == []
  {
    if |s| > 0 {
      FilterNonePass(s[..|s| - 1], p);
    }
  }

  /** Filtering by `p`, then by a stronger `q`, is filtering by `q`. */
  lemma {:induction false} FilterOfFilter<T(!new)>(s: seq<T>, p: T -> bool, q: T -> bool)
    requires forall i :: 0 <= i < |s| && q(s[i]) ==> p(s[i])
    ensures Filter(Filter(s, p), q) == Filter(s, q)
  {
    if |s| > 0 {
      var init, x := s[..|s| - 1], s[|s| - 1];
      FilterOfFilter(init, p, q);
      if p(x) {
        FilterAppend(Filter(init, p), [x], q);
      }
    }
  }

  /** Two filters can be applied in either order. */
  lemma {:induction false} FilterCommute<T(!new)>(s: seq<T>, p: T -> bool, q: T -> bool)
    ensures Filter(Filter(s, p), q) == Filter(Filter(s, q), p)
  {
    if |s| > 0 {
      var init, x := s[..|s| - 1], s[|s| - 1];
      FilterCommute(init, p, q);
      if p(x) {
        FilterAppend(Filter(init, p), [x], q);
      }
      if q(x) {
        FilterAppend(Filter(init, q), [x], p);
      }
    }
  }

  /** Two tests that agree on every element select the same elements. */
  lemma {:induction false} FilterCongruent<T(!new)>(s: seq<T>, p: T -> bool, q: T -> bool)
    requires forall i :: 0 <= i < |s| ==> p(s[i]) == q(s[i])
    ensures Filter(s, p) == Filter(s, q)
  {
    if |s| > 0 {
      FilterCongruent(s[..|s| - 1], p, q);
    }
  }

  /** How many copies of each value the filter keeps. */
  lemma {:induction false} FilterMultiset<T(!new)>(s: seq<T>, p: T -> bool, x: T)
    ensures multiset(Filter(s, p))[x] == if p(x) then multiset(s)[x] else 0
  {
    if |s| > 0 {
      var init := s[..|s| - 1];
      assert s == init + [s[|s| - 1]];
      FilterMultiset(init, p, x);
    }
  }

  /** Rearranging a sequence does not change how many of its elements pass a filter. */
  lemma FilterPermutation<T(!new)>(s: seq<T>, t: seq<T>, p: T -> bool)
    requires multiset(s) == multiset(t)
    ensures multiset(Filter(s, p)) == multiset(Filter(t, p))
    ensures |Filter(s, p)| == |Filter(t, p)|
  {
    forall x
      ensures multiset(Filter(s, p))[x] == multiset(Filter(t, p))[x]
    {
      FilterMultiset(s, p, x);
      FilterMultiset(t, p, x);
    }
    assert multiset(Filter(s, p)) == multiset(Filter(t, p));
    assert |multiset(Filter(s, p))| == |Filter(s, p)|;
    assert |multiset(Filter(t, p))| == |Filter(t, p)|;
  }

  /** Extending a prefix by one element extends its filter by that element when it passes. */
  lemma FilterPrefixStep<T(!new)>(s: seq<T>, p: T -> bool, i: int)
    requires 0 <= i < |s|
    ensures Filter(s[..i + 1], p) == Filter(s[..i], p) + (if p(s[i]) then [s[i]] else [])
  {
    assert s[..i + 1][..i] == s[..i];
  }

  /** A filter keeps no more than a filter by a weaker predicate. */
  lemma {:induction false} FilterCountMonotone<T(!new)>(s: seq<T>, p: T -> bool, q: T -> bool)
    requires forall x :: p(x) ==> q(x)
    ensures |Filter(s, p)| <= |Filter(s, q)|
  {
    if |s| > 0 {
      FilterCountMonotone(s[..|s| - 1], p, q);
    }
  }

  /** Three exclusive predicates whose union is `p` split the count of `p`. */
  lemma {:induction false} FilterCountPartition<T(!new)>(s: seq<T>, p: T -> bool, a: T -> bool, b: T -> bool, c: T -> bool)
    requires forall x :: p(x) <==> (a(x) || b(x) || c(x))
    requires forall x :: !(a(x) && b(x)) && !(a(x) && c(x)) && !(b(x) && c(x))
    ensures |Filter(s, a)| + |Filter(s, b)| + |Filter(s, c)| == |Filter(s, p)|
  {
    if |s| > 0 {
      FilterCountPartition(s[..|s| - 1], p, a, b, c);
    }
  }

  /** A prefix one longer is the prefix and the next element. */
  lemma TakeSnoc<T>(s: seq<T>, i: int)
    requires 0 <= i < |s|
    ensures s[..i + 1] == s[..i] + [s[i]]
  {
    assert s[..i + 1][..i] == s[..i];
  }

  /** A non-empty sequence is its prefix and its last element. */
  lemma LastSplit<T>(s: seq<T>)
    requires |s| > 0
    ensures s == s[..|s| - 1] + [s[|s| - 1]]
  {
  }

  lemma AppendAssoc<T>(a: seq<T>, b: seq<T>, c: seq<T>)
    ensures (a + b) + c == a + (b + c)
  {
  }

  /** `s.map(f)`. */
  function MapSeq<T, U>(s: seq<T>, f: T -> U): (r: seq<U>)
    ensures |r| == |s|
    ensures forall i :: 0 <= i < |s| ==> r[i] == f(s[i])
  {
    seq(|s|, i requires 0 <= i < |s| => f(s[i]))
  }

  predicate NoDup<T(==)>(s: seq<T>)
  {
    forall i, j :: 0 <= i < j < |s| ==> s[i] != s[j]
  }

  /**
   * The keys of `s` in the order they first occur: the iteration order of a
   * JavaScript `Map`, a `Set` or a Python dict filled from `s`.
   */
  function DistinctKeys<T, K(==,!new)>(s: seq<T>, key: T -> K): (ks: seq<K>)
    ensures NoDup(ks)
    ensures forall k :: k in ks <==> exists i :: 0 <= i < |s| && key(s[i]) == k
  {
    if |s| == 0 then []
    else
      var init := s[..|s| - 1];
      var ks := DistinctKeys(init, key);
      var k := key(s[|s| - 1]);
      assert forall i :: 0 <= i < |init| ==> init[i] == s[i];
      if k in ks then ks else ks + [k]
  }

  /** `(x) => key(x) === k`. */
  function KeyIs<T, K(==,!new)>(key: T -> K, k: K): T -> bool
  {
    (x: T) => key(x) == k
  }

  /** The records of `data` whose key is `k`, in their original order. */
  function Group<T(!new), K(==,!new)>(data: seq<T>, key: T -> K, k: K): seq<T>
  {
    Filter(data, KeyIs(key, k))
  }

  /** A group holds exactly the records with its key. */
  lemma GroupMembers<T(!new), K(!new)>(data: seq<T>, key: T -> K, k: K)
    ensures forall x :: x in Group(data, key, k) <==> x in data && key(x) == k
  {
    FilterMembers(data, KeyIs(key, k));
  }

  /** Every key that occurs has a non-empty group. */
  lemma GroupNonEmpty<T(!new), K(!new)>(data: seq<T>, key: T -> K, k: K)
    requires k in DistinctKeys(data, key)
    ensures |Group(data, key, k)| > 0
  {
    var i :| 0 <= i < |data| && key(data[i]) == k;
    GroupMembers(data, key, k);
    assert data[i] in Group(data, key, k);
  }

  /** A key that does not occur has an empty group. */
  lemma GroupAbsent<T(!new), K(!new)>(data: seq<T>, key: T -> K, k: K)
    requires k !in DistinctKeys(data, key)
    ensures Group(data, key, k) == []
  {
    var g := Group(data, key, k);
    GroupMembers(data, key, k);
    forall x | x in data
      ensures key(x) != k
    {
      var i :| 0 <= i < |data| && data[i] == x;
    }
  }

  /** The groups together hold exactly the records of `data`. */
  lemma {:induction false} GroupsPartition<T(!new), K(!new)>(data: seq<T>, key: T -> K, k: K, x: T)
    ensures multiset(Group(data, key, k))[x] == if key(x) == k then multiset(data)[x] else 0
  {
    FilterMultiset(data, KeyIs(key, k), x);
  }

  /** The sizes of the groups of the keys `ks`, added up. */
  function GroupSizes<T(!new), K(==,!new)>(data: seq<T>, key: T -> K, ks: seq<K>): nat
  {
    if |ks| == 0 then 0
    else GroupSizes(data, key, ks[..|ks| - 1]) + |Group(data, key, ks[|ks| - 1])|
  }

  lemma GroupSizesExtend<T(!new), K(!new)>(data: seq<T>, key: T -> K, ks: seq<K>, k: K)
    ensures GroupSizes(data, key, ks + [k]) == GroupSizes(data, key, ks) + |Group(data, key, k)|
  {
    assert (ks + [k])[..|ks|] == ks;
  }

  /** One more record adds one to the group sizes of distinct keys exactly when its key is among them. */
  lemma {:induction false} GroupSizesSnoc<T(!new), K(!new)>(data: seq<T>, x: T, key: T -> K, ks: seq<K>)
    requires NoDup(ks)
    ensures GroupSizes(data + [x], key, ks) == GroupSizes(data, key, ks) + (if key(x) in ks then 1 else 0)
  {
    if |ks| > 0 {
      var init, k := ks[..|ks| - 1], ks[|ks| - 1];
      assert ks == init + [k];
      assert NoDup(init);
      GroupSizesSnoc(data, x, key, init);
      assert (data + [x])[..|data|] == data;
      assert |Group(data + [x], key, k)| == |Group(data, key, k)| + (if key(x) == k then 1 else 0);
      assert key(x) in ks <==> key(x) in init || key(x) == k;
      assert k !in init;
    }
  }

  /** The group sizes of all the keys add up to the number of records. */
  lemma {:induction false} GroupSizesSum<T(!new), K(!new)>(data: seq<T>, key: T -> K)
    ensures GroupSizes(data, key, DistinctKeys(data, key)) == |data|
  {
    if |data| > 0 {
      var d, x := data[..|data| - 1], data[|data| - 1];
      assert data == d + [x];
      var ks := DistinctKeys(d, key);
      GroupSizesSum(d, key);
      GroupSizesSnoc(d, x, key, ks);
      if key(x) !in ks {
        GroupSizesExtend(data, key, ks, key(x));
        GroupAbsent(d, key, key(x));
        assert Group(data, key, key(x)) == Group(d, key, key(x)) + [x];
      }
    }
  }

  /**
   * Groups the records by key: a `Map`/dict from each key to the records with
   * that key, in input order, together with the keys in insertion order.
   */
  method GroupBy<T(!new), K(==,!new)>(data: seq<T>, key: T -> K) returns (order: seq<K>, groups: map<K, seq<T>>)
    ensures order == DistinctKeys(data, key)
    ensures groups.Keys == set k | k in order
    ensures forall k :: k in groups ==> groups[k] == Group(data, key, k)
  {
    order := [];
    groups := map[];
    for i := 0 to |data|
      invariant order == DistinctKeys(data[..i], key)
      invariant groups.Keys == set k | k in order
      invariant forall k :: k in groups ==> groups[k] == Group(data[..i], key, k)
    {
      var x := data[i];
      var k := key(x);
      assert data[..i + 1][..i] == data[..i];
      assert forall k' :: (Group(data[..i + 1], key, k') ==
        Group(data[..i], key, k') + (if key(x) == k' then [x] else []));
      if k in groups {
        groups := groups[k := groups[k] + [x]];
      } else {
        GroupAbsent(data[..i], key, k);
        groups := groups[k := [x]];
        order := order + [k];
      }
    }
    assert data[..|data|] == data;
  }

  /**
   * `Counter(key(x) for x in data)`, or a dict filled by
   * `counts[k] = counts.get(k, 0) + 1`: how many records each key has, with
   * the keys in first-seen order.
   */
  method CountBy<T(!new), K(==,!new)>(data: seq<T>, key: T -> K) returns (order: seq<K>, counts: map<K, nat>)
    ensures order == DistinctKeys(data, key)
    ensures counts.Keys == set k | k in order
    ensures forall k :: k in counts ==> counts[k] == |Group(data, key, k)|
  {
    order, counts := [], map[];
    for i := 0 to |data|
      invariant order == DistinctKeys(data[..i], key)
      invariant counts.Keys == set k | k in order
      invariant forall k :: k in counts ==> counts[k] == |Group(data[..i], key, k)|
    {
      var k := key(data[i]);
      assert data[..i + 1][..i] == data[..i];
      assert forall k' :: (Group(data[..i + 1], key, k') ==
        Group(data[..i], key, k') + (if k == k' then [data[i]] else []));
      if k in counts {
        counts := counts[k := counts[k] + 1];
      } else {
        GroupAbsent(data[..i], key, k);
        counts := counts[k := 1];
        order := order + [k];
      }
    }
    assert data[..|data|] == data;
  }

  /** The counts of the keys `ks`, added up. */
  function TotalCount<K>(counts: map<K, nat>, ks: seq<K>): nat
    requires forall i :: 0 <= i < |ks| ==> ks[i] in counts
  {
    if |ks| == 0 then 0
    else TotalCount(counts, ks[..|ks| - 1]) + counts[ks[|ks| - 1]]
  }

  /** Counts that are group sizes add up like the group sizes. */
  lemma {:induction false} TotalCountOfGroups<T(!new), K(!new)>(data: seq<T>, key: T -> K, counts: map<K, nat>, ks: seq<K>)
    requires forall i :: 0 <= i < |ks| ==> ks[i] in counts && counts[ks[i]] == |Group(data, key, ks[i])|
    ensures TotalCount(counts, ks) == GroupSizes(data, key, ks)
  {
    if |ks| > 0 {
      TotalCountOfGroups(data, key, counts, ks[..|ks| - 1]);
    }
  }

  /** The counts `CountBy` returns add up to the number of records. */
  lemma CountsAddUp<T(!new), K(!new)>(data: seq<T>, key: T -> K, counts: map<K, nat>)
    requires counts.Keys == set k | k in DistinctKeys(data, key)
    requires forall k :: k in counts ==> counts[k] == |Group(data, key, k)|
    ensures TotalCount(counts, DistinctKeys(data, key)) == |data|
  {
    TotalCountOfGroups(data, key, counts, DistinctKeys(data, key));
    GroupSizesSum(data, key);
  }

  /** When every key lies in a list of distinct keys, their group sizes add up to the number of records. */
  lemma {:induction false} GroupSizesCover<T(!new), K(!new)>(data: seq<T>, key: T -> K, ks: seq<K>)
    requires NoDup(ks)
    requires forall i :: 0 <= i < |data| ==> key(data[i]) in ks
    ensures GroupSizes(data, key, ks) == |data|
  {
    if |data| == 0 {
      GroupSizesEmpty(data, key, ks);
    } else {
      var d, x := data[..|data| - 1], data[|data| - 1];
      assert data == d + [x];
      GroupSizesCover(d, key, ks);
      GroupSizesSnoc(d, x, key, ks);
    }
  }

  lemma {:induction false} GroupSizesEmpty<T(!new), K(!new)>(data: seq<T>, key: T -> K, ks: seq<K>)
    requires |data| == 0
    ensures GroupSizes(data, key, ks) == 0
  {
    if |ks| > 0 {
      GroupSizesEmpty(data, key, ks[..|ks| - 1]);
    }
  }

  /** `(x) => !p(x)`. */
  function Not<T>(p: T -> bool): T -> bool
  {
    (x: T) => !p(x)
  }

  /** Every element passes either `p` or its negation. */
  lemma {:induction false} FilterComplement<T(!new)>(s: seq<T>, p: T -> bool)
    ensures |Filter(s, p)| + |Filter(s, Not(p))| == |s|
  {
    if |s| > 0 {
      FilterComplement(s[..|s| - 1], p);
    }
  }

  /** `s.find(p)`: the first element satisfying `p`, or `undefined`. */
  function FindFirst<T>(s: seq<T>, p: T -> bool): (r: Option<T>)
    ensures r.None? <==> forall i :: 0 <= i < |s| ==> !p(s[i])
    ensures r.Some? ==> p(r.value) && r.value in s
  {
    if |s| == 0 then None
    else if p(s[0]) then Some(s[0])
    else
      var r := FindFirst(s[1..], p);
      assert forall i :: 0 < i < |s| ==> s[i] == s[1..][i - 1];
      r
  }

  /** What `find` returns is the element at the first index that satisfies `p`. */
  lemma {:induction false} FindFirstIsFirst<T>(s: seq<T>, p: T -> bool)
    requires FindFirst(s, p).Some?
    ensures exists i :: 0 <= i < |s| && s[i] == FindFirst(s, p).value && forall j :: 0 <= j < i ==> !p(s[j])
  {
    if !p(s[0]) {
      FindFirstIsFirst(s[1..], p);
      var i :| 0 <= i < |s[1..]| && s[1..][i] == FindFirst(s[1..], p).value && forall j :: 0 <= j < i ==> !p(s[1..][j]);
      assert s[i + 1] == FindFirst(s, p).value;
      forall j | 0 <= j < i + 1
        ensures !p(s[j])
      {
        if j > 0 {
          assert s[j] == s[1..][j - 1];
        }
      }
    }
  }

  /** A rearrangement keeps a property every element has. */
  lemma PermutationKeepsAll<T>(s: seq<T>, t: seq<T>, p: T -> bool)
    requires multiset(s) == multiset(t)
    requires forall i :: 0 <= i < |s| ==> p(s[i])
    ensures forall i :: 0 <= i < |t| ==> p(t[i])
  {
    forall i | 0 <= i < |t|
      ensures p(t[i])
    {
      assert t[i] in multiset(s);
      var j :| 0 <= j < |s| && s[j] == t[i];
    }
  }

  /** A rearrangement has the same keys. */
  lemma PermutationKeepsKeys<T, K>(s: seq<T>, t: seq<T>, key: T -> K, k: K)
    requires multiset(s) == multiset(t)
    ensures (exists i :: 0 <= i < |s| && key(s[i]) == k) <==> (exists i :: 0 <= i < |t| && key(t[i]) == k)
  {
    if i :| 0 <= i < |s| && key(s[i]) == k {
      assert s[i] in multiset(t);
      var j :| 0 <= j < |t| && t[j] == s[i];
      assert key(t[j]) == k;
    }
    if i :| 0 <= i < |t| && key(t[i]) == k {
      assert t[i] in multiset(s);
      var j :| 0 <= j < |s| && s[j] == t[i];
      assert key(s[j]) == k;
    }
  }
}
