/** Stable sorting, filtering and sums over sequences.

    `Array.prototype.sort` with a comparator is stable: elements the comparator calls equal
    keep their relative order. `SortBy` is a stable insertion sort with the same contract,
    parameterised by a total preorder `le` ("a may come before b"). */
module Sequences {

  /** `le` is total and transitive. */
  ghost predicate TotalPreorder<T(!new)>(le: (T, T) -> bool) {
    && (forall a, b :: le(a, b) || le(b, a))
    && (forall a, b, c :: le(a, b) && le(b, c) ==> le(a, c))
  }

  predicate SortedBy<T>(s: seq<T>, le: (T, T) -> bool) {
    forall i, j :: 0 <= i < j < |s| ==> le(s[i], s[j])
  }

  /** Inserts `y` into `s` after every element that may come before it. */
  function Insert<T>(s: seq<T>, y: T, le: (T, T) -> bool): (r: seq<T>)
    ensures |r| == |s| + 1
    decreases |s|
  {
    if |s| == 0 then [y]
    else if le(s[|s| - 1], y) then s + [y]
    else Insert(s[..|s| - 1], y, le) + [s[|s| - 1]]
  }

  function SortBy<T>(s: seq<T>, le: (T, T) -> bool): (r: seq<T>)
    ensures |r| == |s|
    decreases |s|
  {
    if |s| == 0 then [] else Insert(SortBy(s[..|s| - 1], le), s[|s| - 1], le)
  }

  /** The subsequence of `s` whose elements `le` cannot tell apart from `x`. */
  function Equivalents<T>(s: seq<T>, x: T, le: (T, T) -> bool): seq<T>
    decreases |s|
  {
    if |s| == 0 then []
    else
      var last := s[|s| - 1];
      Equivalents(s[..|s| - 1], x, le) + (if le(last, x) && le(x, last) then [last] else [])
  }

  /** The first index of an element that may come before every element of `s`. */
  function FirstMinIndex<T>(s: seq<T>, le: (T, T) -> bool): (k: nat)
    requires |s| > 0
    ensures k < |s|
    decreases |s|
  {
    if |s| == 1 then 0
    else
      var k := FirstMinIndex(s[..|s| - 1], le);
      if le(s[k], s[|s| - 1]) then k else |s| - 1
  }

  // ---------------------------------------------------------------- insertion

  lemma {:induction false} InsertMultiset<T>(s: seq<T>, y: T, le: (T, T) -> bool)
    ensures multiset(Insert(s, y, le)) == multiset(s) + multiset{y}
    decreases |s|
  {
    if |s| > 0 && !le(s[|s| - 1], y) {
      var p := s[..|s| - 1];
      InsertMultiset(p, y, le);
      assert s == p + [s[|s| - 1]];
    }
  }

  lemma {:induction false} InsertSorted<T(!new)>(s: seq<T>, y: T, le: (T, T) -> bool)
    requires TotalPreorder(le) && SortedBy(s, le)
    ensures SortedBy(Insert(s, y, le), le)
    decreases |s|
  {
    if |s| > 0 && !le(s[|s| - 1], y) {
      var p, last := s[..|s| - 1], s[|s| - 1];
      InsertSorted(p, y, le);
      InsertMultiset(p, y, le);
      var q := Insert(p, y, le);
      forall i | 0 <= i < |q| ensures le(q[i], last) {
        assert q[i] in multiset(p) + multiset{y};
        if q[i] in p {
          var k :| 0 <= k < |p| && p[k] == q[i];
          assert s[k] == q[i];
        }
      }
    }
  }

  lemma {:induction false} InsertEquivalents<T(!new)>(s: seq<T>, y: T, x: T, le: (T, T) -> bool)
    requires TotalPreorder(le)
    ensures Equivalents(Insert(s, y, le), x, le)
         == Equivalents(s, x, le) + (if le(y, x) && le(x, y) then [y] else [])
    decreases |s|
  {
    if |s| == 0 {
      EquivalentsSnoc([], y, x, le);
      assert [] + [y] == [y];
    } else if le(s[|s| - 1], y) {
      EquivalentsSnoc(s, y, x, le);
    } else {
      var p, last := s[..|s| - 1], s[|s| - 1];
      InsertEquivalents(p, y, x, le);
      assert le(last, x) && le(x, y) ==> le(last, y);
      InsertEquivalentsPast(p, last, y, x, le);
      assert s == p + [last];
    }
  }

  /** Inserting `y` before a last element it must precede: `y` and that element cannot both
      be equivalent to `x`, so their order among the equivalents does not matter. */
  lemma InsertEquivalentsPast<T>(p: seq<T>, last: T, y: T, x: T, le: (T, T) -> bool)
    requires !le(last, y) && !(le(last, x) && le(x, y))
    requires Equivalents(Insert(p, y, le), x, le)
          == Equivalents(p, x, le) + (if le(y, x) && le(x, y) then [y] else [])
    ensures Equivalents(Insert(p + [last], y, le), x, le)
         == Equivalents(p + [last], x, le) + (if le(y, x) && le(x, y) then [y] else [])
  {
    var ys := if le(y, x) && le(x, y) then [y] else [];
    var ls := if le(last, x) && le(x, last) then [last] else [];
    var q := Insert(p, y, le);
    assert (p + [last])[..|p|] == p;
    assert Insert(p + [last], y, le) == q + [last];
    EquivalentsSnoc(q, last, x, le);
    EquivalentsSnoc(p, last, x, le);
    var ep := Equivalents(p, x, le);
    if ys == [] {
      assert ep + ys == ep;
      assert Equivalents(p + [last], x, le) + ys == ep + ls;
    } else {
      assert ls == [];
      assert ep + ls == ep;
      assert Equivalents(q, x, le) + ls == Equivalents(q, x, le);
    }
  }

  lemma EquivalentsSnoc<T>(s: seq<T>, z: T, x: T, le: (T, T) -> bool)
    ensures Equivalents(s + [z], x, le) == Equivalents(s, x, le) + (if le(z, x) && le(x, z) then [z] else [])
  {
    assert (s + [z])[..|s|] == s;
  }

  lemma {:induction false} InsertHead<T(!new)>(s: seq<T>, y: T, le: (T, T) -> bool)
    requires TotalPreorder(le) && SortedBy(s, le) && |s| > 0
    ensures Insert(s, y, le)[0] == if le(s[0], y) then s[0] else y
    decreases |s|
  {
    if !le(s[|s| - 1], y) && |s| > 1 {
      InsertHead(s[..|s| - 1], y, le);
    }
  }

  // ---------------------------------------------------------------- the sort

  /** The sort's output is ordered by `le`. */
  lemma {:induction false} SortBySorted<T(!new)>(s: seq<T>, le: (T, T) -> bool)
    requires TotalPreorder(le)
    ensures SortedBy(SortBy(s, le), le)
    decreases |s|
  {
    if |s| > 0 {
      SortBySorted(s[..|s| - 1], le);
      InsertSorted(SortBy(s[..|s| - 1], le), s[|s| - 1], le);
    }
  }

  /** The sort's output is a permutation of its input. */
  lemma {:induction false} SortByPermutation<T>(s: seq<T>, le: (T, T) -> bool)
    ensures multiset(SortBy(s, le)) == multiset(s)
    decreases |s|
  {
    if |s| > 0 {
      SortByPermutation(s[..|s| - 1], le);
      InsertMultiset(SortBy(s[..|s| - 1], le), s[|s| - 1], le);
      assert s == s[..|s| - 1] + [s[|s| - 1]];
    }
  }

  /** Stability: the elements `le` cannot tell apart keep their input order. */
  lemma {:induction false} SortByStable<T(!new)>(s: seq<T>, x: T, le: (T, T) -> bool)
    requires TotalPreorder(le)
    ensures Equivalents(SortBy(s, le), x, le) == Equivalents(s, x, le)
    decreases |s|
  {
    if |s| > 0 {
      SortByStable(s[..|s| - 1], x, le);
      SortBySorted(s[..|s| - 1], le);
      InsertEquivalents(SortBy(s[..|s| - 1], le), s[|s| - 1], x, le);
    }
  }

  /** The first element of the sorted output is the earliest element, in input order,
      among those that may come before every other one. */
  lemma {:induction false} SortByHead<T(!new)>(s: seq<T>, le: (T, T) -> bool)
    requires TotalPreorder(le) && |s| > 0
    ensures SortBy(s, le)[0] == s[FirstMinIndex(s, le)]
    decreases |s|
  {
    if |s| > 1 {
      var p := s[..|s| - 1];
      SortByHead(p, le);
      SortBySorted(p, le);
      InsertHead(SortBy(p, le), s[|s| - 1], le);
    } else {
      assert SortBy(s, le) == Insert([], s[0], le);
    }
  }

  /** `FirstMinIndex` picks an element that may precede all others, and no earlier element
      may precede it. */
  lemma {:induction false} FirstMinIndexSpec<T(!new)>(s: seq<T>, le: (T, T) -> bool)
    requires TotalPreorder(le) && |s| > 0
    ensures forall j :: 0 <= j < |s| ==> le(s[FirstMinIndex(s, le)], s[j])
    ensures forall j :: 0 <= j < FirstMinIndex(s, le) ==> !le(s[j], s[FirstMinIndex(s, le)])
    decreases |s|
  {
    if |s| > 1 {
      var p := s[..|s| - 1];
      FirstMinIndexSpec(p, le);
      var k := FirstMinIndex(p, le);
      if !le(s[k], s[|s| - 1]) {
        forall j | 0 <= j < |s| - 1 ensures !le(s[j], s[|s| - 1]) {
          assert le(s[k], s[j]);
        }
      }
    }
  }

  /** The last element of a sorted permutation of `s` may come after every element of `s`. */
  lemma SortByLast<T(!new)>(s: seq<T>, le: (T, T) -> bool)
    requires TotalPreorder(le) && |s| > 0
    ensures SortBy(s, le)[|s| - 1] in s
    ensures forall x :: x in s ==> le(x, SortBy(s, le)[|s| - 1])
  {
    var r := SortBy(s, le);
    SortBySorted(s, le);
    SortByPermutation(s, le);
    assert r[|s| - 1] in multiset(r);
    forall x | x in s ensures le(x, r[|s| - 1]) {
      assert x in multiset(r);
      var k :| 0 <= k < |r| && r[k] == x;
      if k == |s| - 1 {
        assert le(x, x);
      }
    }
  }

  // ---------------------------------------------------------------- sums

  /** The sum of `f` over `s`, accumulated from the left as `reduce` does. */
  function SumOf<T>(s: seq<T>, f: T -> real): real
    decreases |s|
  {
    if |s| == 0 then 0.0 else SumOf(s[..|s| - 1], f) + f(s[|s| - 1])
  }

  lemma {:induction false} SumOfAppend<T>(s: seq<T>, t: seq<T>, f: T -> real)
    ensures SumOf(s + t, f) == SumOf(s, f) + SumOf(t, f)
    decreases |t|
  {
    if |t| > 0 {
      SumOfAppend(s, t[..|t| - 1], f);
      assert (s + t)[..|s + t| - 1] == s + t[..|t| - 1];
    } else {
      assert s + t == s;
    }
  }

  lemma SumOfSnoc<T>(s: seq<T>, x: T, f: T -> real)
    ensures SumOf(s + [x], f) == SumOf(s, f) + f(x)
  {
    assert (s + [x])[..|s|] == s;
  }

  /** A sum does not depend on the order the sort puts its terms in. */
  lemma SumOfSortBy<T>(s: seq<T>, le: (T, T) -> bool, f: T -> real)
    ensures SumOf(SortBy(s, le), f) == SumOf(s, f)
  {
    SortByPermutation(s, le);
    SumOfPermutation(SortBy(s, le), s, f);
  }

  /** A sum does not depend on the order of its terms. */
  lemma {:induction false} SumOfPermutation<T>(s: seq<T>, t: seq<T>, f: T -> real)
    requires multiset(s) == multiset(t)
    ensures SumOf(s, f) == SumOf(t, f)
    decreases |s|
  {
    if |s| == 0 {
      assert |t| == |multiset(t)|;
    } else {
      var x := s[|s| - 1];
      assert s == s[..|s| - 1] + [x];
      assert x in multiset(t);
      var k :| 0 <= k < |t| && t[k] == x;
      var rest := t[..k] + t[k + 1..];
      assert t == t[..k] + [x] + t[k + 1..];
      assert multiset(t) == multiset(t[..k]) + multiset{x} + multiset(t[k + 1..]);
      assert multiset(s) == multiset(s[..|s| - 1]) + multiset{x};
      assert multiset(rest) == multiset(t[..k]) + multiset(t[k + 1..]);
      assert multiset(s[..|s| - 1]) == multiset(s) - multiset{x};
      assert multiset(rest) == multiset(t) - multiset{x};
      SumOfPermutation(s[..|s| - 1], rest, f);
      SumOfAppend(t[..k] + [x], t[k + 1..], f);
      SumOfAppend(t[..k], t[k + 1..], f);
      SumOfSnoc(t[..k], x, f);
    }
  }

  /** Terms that are zero off `p` can be filtered out of a sum. */
  lemma {:induction false} SumOfFilter<T>(s: seq<T>, p: T -> bool, f: T -> real)
    requires forall x :: x in s && !p(x) ==> f(x) == 0.0
    ensures SumOf(Filter(s, p), f) == SumOf(s, f)
    decreases |s|
  {
    if |s| > 0 {
      var init := s[..|s| - 1];
      SumOfFilter(init, p, f);
      if p(s[|s| - 1]) {
        SumOfSnoc(Filter(init, p), s[|s| - 1], f);
      } else {
        assert Filter(init, p) + [] == Filter(init, p);
      }
    }
  }

  // ---------------------------------------------------------------- filtering

  /** `s.filter(p)`: the elements satisfying `p`, in their order. */
  function Filter<T>(s: seq<T>, p: T -> bool): (r: seq<T>)
    ensures |r| <= |s|
    ensures forall x :: x in r ==> p(x)
    decreases |s|
  {
    if |s| == 0 then [] else Filter(s[..|s| - 1], p) + (if p(s[|s| - 1]) then [s[|s| - 1]] else [])
  }

  /** The filter keeps every satisfying element as often as it occurs, and nothing else. */
  lemma {:induction false} FilterCount<T>(s: seq<T>, p: T -> bool, x: T)
    ensures multiset(Filter(s, p))[x] == if p(x) then multiset(s)[x] else 0
    decreases |s|
  {
    if |s| > 0 {
      FilterCount(s[..|s| - 1], p, x);
      assert s == s[..|s| - 1] + [s[|s| - 1]];
    }
  }

  lemma FilterMember<T>(s: seq<T>, p: T -> bool, x: T)
    ensures x in Filter(s, p) <==> x in s && p(x)
  {
    FilterCount(s, p, x);
    assert x in Filter(s, p) <==> multiset(Filter(s, p))[x] > 0;
    assert x in s <==> multiset(s)[x] > 0;
  }

  /** Filtering keeps a sorted sequence sorted. */
  lemma {:induction false} FilterSorted<T>(s: seq<T>, p: T -> bool, le: (T, T) -> bool)
    requires SortedBy(s, le)
    ensures SortedBy(Filter(s, p), le)
    decreases |s|
  {
    if |s| > 0 {
      var init := s[..|s| - 1];
      FilterSorted(init, p, le);
      var r := Filter(init, p);
      forall i | 0 <= i < |r| ensures le(r[i], s[|s| - 1]) {
        FilterMember(init, p, r[i]);
        var k :| 0 <= k < |init| && init[k] == r[i];
      }
    }
  }

  /** Filtering keeps the relative order of the elements equivalent to `x`: picking them out
      of the filtered sequence is filtering the ones picked out of the original. */
  lemma {:induction false} FilterEquivalents<T>(s: seq<T>, p: T -> bool, x: T, le: (T, T) -> bool)
    ensures Equivalents(Filter(s, p), x, le) == Filter(Equivalents(s, x, le), p)
    decreases |s|
  {
    if |s| > 0 {
      var init, z := s[..|s| - 1], s[|s| - 1];
      FilterEquivalents(init, p, x, le);
      var e, f := Equivalents(init, x, le), Filter(init, p);
      if p(z) {
        assert Filter(s, p) == f + [z];
        EquivalentsSnoc(f, z, x, le);
      } else {
        assert Filter(s, p) == f;
      }
      if le(z, x) && le(x, z) {
        assert Equivalents(s, x, le) == e + [z];
        assert (e + [z])[..|e|] == e;
      } else {
        assert Equivalents(s, x, le) == e;
      }
    }
  }

  // ---------------------------------------------------------------- distinct elements

  predicate Distinct<T(==)>(s: seq<T>) {
    forall i, j :: 0 <= i < j < |s| ==> s[i] != s[j]
  }

  /** `le` relates two elements both ways only when they are equal. */
  ghost predicate Antisymmetric<T(!new)>(le: (T, T) -> bool) {
    forall a, b :: le(a, b) && le(b, a) ==> a == b
  }

  lemma {:induction false} DistinctCount<T>(s: seq<T>, x: T)
    requires Distinct(s)
    ensures multiset(s)[x] <= 1
    decreases |s|
  {
    if |s| > 0 {
      var init := s[..|s| - 1];
      DistinctCount(init, x);
      assert s == init + [s[|s| - 1]];
      assert s[|s| - 1] == x ==> x !in init;
    }
  }

  /** A permutation of a sequence without repetitions has none either. */
  lemma PermutationDistinct<T>(r: seq<T>, s: seq<T>)
    requires multiset(r) == multiset(s) && Distinct(s)
    ensures Distinct(r)
  {
    forall i, j | 0 <= i < j < |r| ensures r[i] != r[j] {
      if r[i] == r[j] {
        assert r == r[..j] + [r[j]] + r[j + 1..];
        assert r[i] in r[..j];
        assert multiset(r)[r[j]] >= 2;
        DistinctCount(s, r[j]);
        assert false;
      }
    }
  }

  /** Under an antisymmetric order there is one sorted arrangement of a set. */
  lemma {:induction false} SortedDistinctUnique<T(!new)>(a: seq<T>, b: seq<T>, le: (T, T) -> bool)
    requires Antisymmetric(le)
    requires SortedBy(a, le) && SortedBy(b, le) && Distinct(a) && Distinct(b)
    requires forall x :: x in a <==> x in b
    ensures a == b
    decreases |a|
  {
    assert |b| > 0 ==> b[0] in a;
    if |a| > 0 {
      assert a[0] in b;
      var k :| 0 <= k < |b| && b[k] == a[0];
      var m :| 0 <= m < |a| && a[m] == b[0];
      assert a[0] == b[0];
      forall x ensures x in a[1..] <==> x in b[1..] {
        if x in a[1..] {
          var i :| 1 <= i < |a| && a[i] == x;
          assert x in b;
          var j :| 0 <= j < |b| && b[j] == x;
          assert j != 0;
          assert b[1..][j - 1] == x;
        }
        if x in b[1..] {
          var j :| 1 <= j < |b| && b[j] == x;
          assert x in a;
          var i :| 0 <= i < |a| && a[i] == x;
          assert i != 0;
          assert a[1..][i - 1] == x;
        }
      }
      SortedDistinctUnique(a[1..], b[1..], le);
      assert a == [a[0]] + a[1..];
      assert b == [b[0]] + b[1..];
    }
  }
}
