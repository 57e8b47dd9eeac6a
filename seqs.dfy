/** Sequence folds used by the LINQ pipelines of the puzzles: Sum, Max, Min,
    Distinct, Intersect, Chunk and a stable comparator sort (OrderBy). */
module Seqs {
  import opened Wrappers

  /** Sum of the elements, folded left to right. */
  function Sum(s: seq<int>): int
  {
    if s == [] then 0 else Sum(s[..|s| - 1]) + s[|s| - 1]
  }

  lemma {:induction false} SumAppend(a: seq<int>, b: seq<int>)
    ensures Sum(a + b) == Sum(a) + Sum(b)
    decreases |b|
  {
    if b == [] {
      assert a + b == a;
    } else {
      assert (a + b)[..|a + b| - 1] == a + b[..|b| - 1];
      SumAppend(a, b[..|b| - 1]);
    }
  }

  lemma {:induction false} SumNonNegative(s: seq<int>)
    requires forall i :: 0 <= i < |s| ==> s[i] >= 0
    ensures Sum(s) >= 0
  {
    if s != [] {
      SumNonNegative(s[..|s| - 1]);
    }
  }

  /** The values of options that are all present. */
  function Values<T>(s: seq<Option<T>>): seq<T>
    requires forall i :: 0 <= i < |s| ==> s[i].Some?
  {
    seq(|s|, i requires 0 <= i < |s| && s[i].Some? => s[i].value)
  }

  /** Sum of per-element results (LINQ Sum over a Select); None when some
      element has no result, where the selector throws. */
  function SumPresent(s: seq<Option<int>>): (r: Option<int>)
    ensures r.Some? <==> forall i :: 0 <= i < |s| ==> s[i].Some?
    ensures r.Some? ==> r.value == Sum(Values(s))
  {
    if s == [] then Some(0)
    else
      assert forall i :: 0 <= i < |s| - 1 ==> s[..|s| - 1][i] == s[i];
      match (SumPresent(s[..|s| - 1]), s[|s| - 1])
      case (Some(t), Some(v)) =>
        assert Values(s)[..|s| - 1] == Values(s[..|s| - 1]);
        Some(t + v)
      case (_, _) => None
  }

  /** Summing two batches together is summing each: the total exists
      exactly when both do, and is their sum. */
  lemma SumPresentAppend(a: seq<Option<int>>, b: seq<Option<int>>)
    ensures SumPresent(a + b).Some? <==> SumPresent(a).Some? && SumPresent(b).Some?
    ensures SumPresent(a + b).Some? ==> SumPresent(a + b).value == SumPresent(a).value + SumPresent(b).value
  {
    var ab := a + b;
    if SumPresent(a).None? {
      var k :| 0 <= k < |a| && a[k].None?;
      assert ab[k] == a[k];
    } else if SumPresent(b).None? {
      var k :| 0 <= k < |b| && b[k].None?;
      assert ab[|a| + k] == b[k];
    } else {
      assert forall k :: 0 <= k < |ab| ==> ab[k] == if k < |a| then a[k] else b[k - |a|];
      assert Values(ab) == Values(a) + Values(b);
      SumAppend(Values(a), Values(b));
    }
  }

  /** Product of the elements, folded left to right from 1 (LINQ Aggregate(1, *)). */
  function Product(s: seq<int>): int
  {
    if s == [] then 1 else Product(s[..|s| - 1]) * s[|s| - 1]
  }

  /** The largest element (LINQ Max); None on an empty sequence, where Max throws. */
  function Max(s: seq<int>): (r: Option<int>)
    ensures r.None? <==> s == []
    ensures r.Some? ==> r.value in s && forall i :: 0 <= i < |s| ==> s[i] <= r.value
  {
    if s == [] then None
    else
      var m := Max(s[..|s| - 1]);
      if m.None? || m.value < s[|s| - 1] then Some(s[|s| - 1]) else m
  }

  /** A position holding the largest element. */
  lemma MaxAt(s: seq<int>) returns (i: nat)
    requires s != []
    ensures i < |s| && s[i] == Max(s).value
    ensures forall m :: 0 <= m < |s| ==> s[m] <= s[i]
  {
    i :| 0 <= i < |s| && s[i] == Max(s).value;
  }

  /** The smallest element (LINQ Min); None on an empty sequence, where Min throws. */
  function Min(s: seq<int>): (r: Option<int>)
    ensures r.None? <==> s == []
    ensures r.Some? ==> r.value in s && forall i :: 0 <= i < |s| ==> r.value <= s[i]
  {
    if s == [] then None
    else
      var m := Min(s[..|s| - 1]);
      if m.None? || s[|s| - 1] < m.value then Some(s[|s| - 1]) else m
  }

  /** No element occurs twice. */
  predicate Unique<T(==)>(s: seq<T>)
  {
    forall i, j :: 0 <= i < j < |s| ==> s[i] != s[j]
  }

  /** Distinct elements in order of first appearance (LINQ Distinct). */
  function Distinct<T(==,!new)>(s: seq<T>): (r: seq<T>)
    ensures forall x :: x in r <==> x in s
    ensures Unique(r)
  {
    if s == [] then []
    else
      var d := Distinct(s[..|s| - 1]);
      if s[|s| - 1] in d then d else d + [s[|s| - 1]]
  }

  /** A sequence that is already free of repetitions is its own Distinct. */
  lemma {:induction false} DistinctOfUnique<T(!new)>(s: seq<T>)
    requires Unique(s)
    ensures Distinct(s) == s
  {
    if s != [] {
      var init := s[..|s| - 1];
      DistinctOfUnique(init);
      assert s[|s| - 1] !in init;
      assert s == init + [s[|s| - 1]];
    }
  }

  /** LINQ Intersect: the distinct elements of `a` that occur in `b`, in `a`'s order. */
  function Intersect<T(==,!new)>(a: seq<T>, b: seq<T>): (r: seq<T>)
    ensures forall x :: x in r <==> x in a && x in b
    ensures Unique(r)
  {
    Distinct(Among(a, b))
  }

  /** The elements of `a` that occur in `b`, in order. */
  function Among<T(==,!new)>(a: seq<T>, b: seq<T>): (r: seq<T>)
    ensures forall x :: x in r <==> x in a && x in b
    ensures |r| <= |a|
  {
    if a == [] then []
    else (if a[0] in b then [a[0]] else []) + Among(a[1..], b)
  }

  /** Filtering keeps a sequence free of repetitions. */
  lemma {:induction false} AmongUnique<T(!new)>(a: seq<T>, b: seq<T>)
    requires Unique(a)
    ensures Unique(Among(a, b))
  {
    if a != [] {
      assert Unique(a[1..]) by {
        forall i, j | 0 <= i < j < |a[1..]| ensures a[1..][i] != a[1..][j] {
          assert a[1..][i] == a[i + 1] && a[1..][j] == a[j + 1];
        }
      }
      AmongUnique(a[1..], b);
      assert a[0] !in a[1..];
    }
  }

  /** On a sequence free of repetitions Intersect is the order-keeping filter. */
  lemma IntersectOfUnique<T(!new)>(a: seq<T>, b: seq<T>)
    requires Unique(a)
    ensures Intersect(a, b) == Among(a, b)
  {
    AmongUnique(a, b);
    DistinctOfUnique(Among(a, b));
  }

  /** A sequence without repetitions has as many elements as its set. */
  lemma {:induction false} DistinctCardinality<T>(s: seq<T>)
    requires Unique(s)
    ensures |set x | x in s| == |s|
  {
    if s != [] {
      var init := s[..|s| - 1];
      DistinctCardinality(init);
      assert (set x | x in s) == (set x | x in init) + {s[|s| - 1]};
      assert s[|s| - 1] !in (set x | x in init);
    }
  }

  /** A sequence has at most as many distinct values as elements, and exactly
      as many only when no value repeats. */
  lemma {:induction false} SetSizeBound<T>(s: seq<T>)
    ensures |set x | x in s| <= |s|
    ensures |set x | x in s| == |s| ==> Unique(s)
  {
    if s != [] {
      var init := s[..|s| - 1];
      var last := s[|s| - 1];
      SetSizeBound(init);
      assert (set x | x in s) == (set x | x in init) + {last};
      if |set x | x in s| == |s| {
        assert last !in (set x | x in init);
        forall i, j | 0 <= i < j < |s| ensures s[i] != s[j] {
          if j < |s| - 1 {
            assert s[i] == init[i] && s[j] == init[j];
          } else {
            assert s[i] in init;
          }
        }
      }
    }
  }

  /** LINQ Distinct().Count() equals the length exactly when no value repeats. */
  lemma DistinctCountUnique<T(!new)>(s: seq<T>)
    ensures |Distinct(s)| == |s| <==> Unique(s)
  {
    DistinctCardinality(Distinct(s));
    assert (set x | x in Distinct(s)) == (set x | x in s);
    SetSizeBound(s);
    if Unique(s) {
      DistinctCardinality(s);
    }
  }

  /** The elements satisfying `p`, in order (LINQ Where). */
  function Filter<T(!new)>(s: seq<T>, p: T -> bool): (r: seq<T>)
    ensures |r| <= |s|
    ensures forall x :: x in r <==> x in s && p(x)
  {
    if s == [] then []
    else
      assert forall x :: x in s <==> x == s[0] || x in s[1..];
      (if p(s[0]) then [s[0]] else []) + Filter(s[1..], p)
  }

  /** LINQ First(predicate), as the index of the element it returns; None
      where First throws because no element matches. */
  function FirstIndex<T>(s: seq<T>, p: T -> bool): (r: Option<nat>)
    ensures r.Some? ==> r.value < |s| && p(s[r.value])
    ensures r.Some? ==> forall j :: 0 <= j < r.value ==> !p(s[j])
    ensures r.None? <==> forall j :: 0 <= j < |s| ==> !p(s[j])
  {
    if s == [] then None
    else if p(s[0]) then Some(0)
    else
      match FirstIndex(s[1..], p)
      case None => None
      case Some(i) => Some(i + 1)
  }

  /** LINQ Chunk(n): consecutive pieces of `n` elements, the last one possibly shorter. */
  function Chunk<T>(s: seq<T>, n: nat): (r: seq<seq<T>>)
    requires n > 0
    ensures forall i :: 0 <= i < |r| ==> 0 < |r[i]| <= n
    ensures Flatten(r) == s
    decreases |s|
  {
    if s == [] then []
    else if |s| <= n then [s]
    else [s[..n]] + Chunk(s[n..], n)
  }

  /** Concatenation of the pieces (LINQ SelectMany). */
  function Flatten<T>(ss: seq<seq<T>>): seq<T>
  {
    if ss == [] then [] else ss[0] + Flatten(ss[1..])
  }

  /** An element of a piece is an element of the concatenation. */
  lemma {:induction false} FlattenMember<T>(ss: seq<seq<T>>, i: nat, x: T)
    requires i < |ss|
    ensures x in ss[i] ==> x in Flatten(ss)
    decreases i
  {
    if i > 0 {
      FlattenMember(ss[1..], i - 1, x);
    }
  }

  lemma {:induction false} FlattenAppend<T>(a: seq<seq<T>>, b: seq<seq<T>>)
    ensures Flatten(a + b) == Flatten(a) + Flatten(b)
  {
    if a != [] {
      assert (a + b)[1..] == a[1..] + b;
      FlattenAppend(a[1..], b);
    } else {
      assert a + b == b;
    }
  }

  /** Reversed order (List.Reverse / LINQ Reverse). */
  function Reverse<T>(s: seq<T>): (r: seq<T>)
    ensures |r| == |s|
    ensures forall i :: 0 <= i < |s| ==> r[i] == s[|s| - 1 - i]
  {
    if s == [] then [] else Reverse(s[1..]) + [s[0]]
  }

  // ---------------------------------------------------------------------------
  // Stable sort by a three-way comparator (LINQ OrderBy / Order).
  // ---------------------------------------------------------------------------

  /** Inserts `x` after every element that does not compare greater than it, so
      that equal elements keep their input order. */
  function Insert<T>(x: T, s: seq<T>, cmp: (T, T) -> int): (r: seq<T>)
    ensures multiset(r) == multiset(s) + multiset{x}
  {
    if s == [] then [x]
    else if cmp(x, s[0]) < 0 then [x] + s
    else
      assert s == [s[0]] + s[1..];
      [s[0]] + Insert(x, s[1..], cmp)
  }

  /** The elements of `s`, ordered by `cmp`, ties in input order. */
  function SortBy<T>(s: seq<T>, cmp: (T, T) -> int): (r: seq<T>)
    ensures multiset(r) == multiset(s)
    ensures |r| == |s|
  {
    if s == [] then []
    else
      assert s == s[..|s| - 1] + [s[|s| - 1]];
      var r := Insert(s[|s| - 1], SortBy(s[..|s| - 1], cmp), cmp);
      assert |r| == |multiset(r)|;
      r
  }

  /** Neighbours are in order. */
  ghost predicate SortedBy<T>(s: seq<T>, cmp: (T, T) -> int)
  {
    forall i :: 0 <= i < |s| - 1 ==> cmp(s[i], s[i + 1]) <= 0
  }

  /** A comparator that never says "greater" both ways round on elements of `s`. */
  ghost predicate Antisymmetric<T>(s: seq<T>, cmp: (T, T) -> int)
  {
    forall a, b :: a in s && b in s && cmp(a, b) >= 0 ==> cmp(b, a) <= 0
  }

  lemma {:induction false} InsertSorted<T>(x: T, s: seq<T>, cmp: (T, T) -> int)
    requires SortedBy(s, cmp)
    requires Antisymmetric(s + [x], cmp)
    ensures SortedBy(Insert(x, s, cmp), cmp)
    ensures Insert(x, s, cmp) != [] && (Insert(x, s, cmp)[0] == x || (s != [] && Insert(x, s, cmp)[0] == s[0]))
  {
    if s != [] && cmp(x, s[0]) >= 0 {
      assert s[0] in s + [x] && x in s + [x];
      assert Antisymmetric(s[1..] + [x], cmp) by {
        forall a | a in s[1..] + [x] ensures a in s + [x] {
          if a in s[1..] {
            var k :| 0 <= k < |s[1..]| && s[1..][k] == a;
            assert s[k + 1] == a;
          }
        }
      }
      InsertSorted(x, s[1..], cmp);
    }
  }

  lemma {:induction false} SortBySorted<T>(s: seq<T>, cmp: (T, T) -> int)
    requires Antisymmetric(s, cmp)
    ensures SortedBy(SortBy(s, cmp), cmp)
  {
    if s != [] {
      var init := s[..|s| - 1];
      assert Antisymmetric(init, cmp) by {
        forall a | a in init ensures a in s {
          var k :| 0 <= k < |init| && init[k] == a;
          assert s[k] == a;
        }
      }
      SortBySorted(init, cmp);
      var sorted := SortBy(init, cmp);
      assert Antisymmetric(sorted + [s[|s| - 1]], cmp) by {
        forall a | a in sorted + [s[|s| - 1]] ensures a in s {
          if a in sorted {
            assert a in multiset(sorted);
            assert a in multiset(init);
            var k :| 0 <= k < |init| && init[k] == a;
            assert s[k] == a;
          }
        }
      }
      InsertSorted(s[|s| - 1], sorted, cmp);
    }
  }

  /** Descending integer order (LINQ OrderDescending / OrderByDescending). */
  function Descending(a: int, b: int): int { b - a }

  /** In a neighbour-sorted descending sequence every earlier element is at least every later one. */
  lemma {:induction false} DescendingSortedAll(s: seq<int>, i: int, j: int)
    requires SortedBy(s, Descending)
    requires 0 <= i <= j < |s|
    ensures s[i] >= s[j]
    decreases j - i
  {
    if i < j {
      DescendingSortedAll(s, i + 1, j);
      assert Descending(s[i], s[i + 1]) <= 0;
    }
  }

  lemma DescendingAntisymmetric(s: seq<int>)
    ensures Antisymmetric(s, Descending)
  {
  }

  /** The first element of the descending sort is the largest element. */
  lemma SortedHeadIsMax(sums: seq<int>)
    requires sums != []
    ensures SortBy(sums, Descending)[0] == Max(sums).value
  {
    var sorted := SortBy(sums, Descending);
    DescendingAntisymmetric(sums);
    SortBySorted(sums, Descending);
    var m := Max(sums).value;
    assert m in multiset(sorted);
    var k :| 0 <= k < |sorted| && sorted[k] == m;
    DescendingSortedAll(sorted, 0, k);
    assert sorted[0] in multiset(sums);
  }

  /** Reordering the elements does not change their sum. */
  lemma {:induction false} SumPermutation(a: seq<int>, b: seq<int>)
    requires multiset(a) == multiset(b)
    ensures Sum(a) == Sum(b)
    decreases |a|
  {
    if a != [] {
      var x := a[|a| - 1];
      assert x in multiset(b);
      var k :| 0 <= k < |b| && b[k] == x;
      var rest := b[..k] + b[k + 1..];
      RemoveOne(a, b, k);
      SumPermutation(a[..|a| - 1], rest);
      SumRemove(b, k);
    }
  }

  lemma RemoveOne<T>(a: seq<T>, b: seq<T>, k: nat)
    requires multiset(a) == multiset(b) && a != [] && k < |b| && b[k] == a[|a| - 1]
    ensures multiset(a[..|a| - 1]) == multiset(b[..k] + b[k + 1..])
  {
    var x := b[k];
    assert b == b[..k] + [x] + b[k + 1..];
    assert multiset(b) == multiset(b[..k] + b[k + 1..]) + multiset{x};
    assert a == a[..|a| - 1] + [x];
    assert multiset(a) == multiset(a[..|a| - 1]) + multiset{x};
    calc {
      multiset(a[..|a| - 1]);
      multiset(a) - multiset{x};
      multiset(b) - multiset{x};
      multiset(b[..k] + b[k + 1..]);
    }
  }

  lemma SumRemove(b: seq<int>, k: nat)
    requires k < |b|
    ensures Sum(b) == Sum(b[..k] + b[k + 1..]) + b[k]
  {
    var pre, post := b[..k], b[k + 1..];
    assert b == (pre + [b[k]]) + post;
    SumAppend(pre + [b[k]], post);
    assert Sum([b[k]]) == b[k] by { assert [b[k]][..0] == []; }
    SumAppend(pre, [b[k]]);
    SumAppend(pre, post);
  }

  /** Replacing one element changes the sum by the difference. */
  lemma SumUpdate(s: seq<int>, k: nat, x: int)
    requires k < |s|
    ensures Sum(s[k := x]) == Sum(s) - s[k] + x
  {
    SumRemove(s, k);
    SumRemove(s[k := x], k);
    assert s[k := x][..k] + s[k := x][k + 1..] == s[..k] + s[k + 1..];
  }

  /** Sum of the first `n` elements (LINQ Take(n).Sum()). */
  function SumTake(s: seq<int>, n: nat): int
  {
    if |s| <= n then Sum(s) else Sum(s[..n])
  }
}
