/**
 Sorting as the source uses it: `sort.SliceStable` keeps the order of equal
 elements, `sort.Slice` promises only a sorted permutation.
 */
module Sorting {

  ghost predicate Lawful<T>(lt: (T, T) -> bool, x: T, y: T, z: T) {
    && !lt(x, x)
    && (lt(x, y) && lt(y, z) ==> lt(x, z))
    && (!lt(x, y) && !lt(y, z) ==> !lt(x, z))
  }

  /** What a comparison function must satisfy to be sorted by: irreflexive, transitive, and so is its negation. */
  ghost predicate StrictWeakOrder<T(!new)>(lt: (T, T) -> bool) {
    forall x, y, z :: Lawful(lt, x, y, z)
  }

  ghost predicate SortedBy<T>(s: seq<T>, lt: (T, T) -> bool) {
    forall i, j | 0 <= i < j < |s| :: !lt(s[j], s[i])
  }

  /** The elements of `s` that satisfy `p`, in order. */
  function Filter<T>(s: seq<T>, p: T -> bool): (r: seq<T>)
    ensures forall x | x in r :: x in s && p(x)
    ensures forall x | x in s && p(x) :: x in r
    ensures |r| <= |s|
  {
    if s == [] then []
    else Filter(s[..|s| - 1], p) + (if p(s[|s| - 1]) then [s[|s| - 1]] else [])
  }

  /** Where a stable sort places `x`: after every element that is not greater. */
  function Place<T>(s: seq<T>, x: T, lt: (T, T) -> bool): (k: nat)
    ensures k <= |s|
    ensures forall i | k <= i < |s| :: lt(x, s[i])
    ensures k > 0 ==> !lt(x, s[k - 1])
  {
    if s == [] || !lt(x, s[|s| - 1]) then |s| else Place(s[..|s| - 1], x, lt)
  }

  function Insert<T>(s: seq<T>, x: T, lt: (T, T) -> bool): seq<T> {
    var k := Place(s, x, lt);
    s[..k] + [x] + s[k..]
  }

  /** A stable sort. */
  function StableSort<T>(s: seq<T>, lt: (T, T) -> bool): seq<T> {
    if s == [] then [] else Insert(StableSort(s[..|s| - 1], lt), s[|s| - 1], lt)
  }

  lemma InsertPermutes<T>(s: seq<T>, x: T, lt: (T, T) -> bool)
    ensures multiset(Insert(s, x, lt)) == multiset(s) + multiset{x}
  {
    var k := Place(s, x, lt);
    assert s == s[..k] + s[k..];
  }

  /** Sorting only reorders. */
  lemma {:induction false} StableSortPermutes<T>(s: seq<T>, lt: (T, T) -> bool)
    ensures multiset(StableSort(s, lt)) == multiset(s)
    ensures |StableSort(s, lt)| == |s|
  {
    if s != [] {
      StableSortPermutes(s[..|s| - 1], lt);
      InsertPermutes(StableSort(s[..|s| - 1], lt), s[|s| - 1], lt);
      assert s == s[..|s| - 1] + [s[|s| - 1]];
    }
  }

  lemma InsertSorted<T(!new)>(s: seq<T>, x: T, lt: (T, T) -> bool)
    requires StrictWeakOrder(lt) && SortedBy(s, lt)
    ensures SortedBy(Insert(s, x, lt), lt)
  {
    var k := Place(s, x, lt);
    forall i | k <= i < |s|
      ensures !lt(s[i], x)
    {
      assert Lawful(lt, x, s[i], x);
    }
    forall i | 0 <= i < k
      ensures !lt(x, s[i])
    {
      assert Lawful(lt, x, s[k - 1], s[i]);
      assert i < k - 1 ==> !lt(s[k - 1], s[i]);
    }
  }

  /** `StableSort` returns a sorted list. */
  lemma {:induction false} StableSortSorts<T(!new)>(s: seq<T>, lt: (T, T) -> bool)
    requires StrictWeakOrder(lt)
    ensures SortedBy(StableSort(s, lt), lt)
  {
    if s != [] {
      StableSortSorts(s[..|s| - 1], lt);
      InsertSorted(StableSort(s[..|s| - 1], lt), s[|s| - 1], lt);
    }
  }

  /** The elements of `s` that compare equal to `y`, in order. */
  function Ties<T>(s: seq<T>, y: T, lt: (T, T) -> bool): seq<T> {
    if s == [] then []
    else
      var x := s[|s| - 1];
      Ties(s[..|s| - 1], y, lt) + (if !lt(x, y) && !lt(y, x) then [x] else [])
  }

  lemma {:induction false} TiesConcat<T>(s: seq<T>, t: seq<T>, y: T, lt: (T, T) -> bool)
    ensures Ties(s + t, y, lt) == Ties(s, y, lt) + Ties(t, y, lt)
  {
    if t == [] {
      assert s + t == s;
    } else {
      assert (s + t)[..|s + t| - 1] == s + t[..|t| - 1];
      TiesConcat(s, t[..|t| - 1], y, lt);
    }
  }

  lemma {:induction false} NoTies<T>(s: seq<T>, y: T, lt: (T, T) -> bool)
    requires forall i | 0 <= i < |s| :: lt(s[i], y) || lt(y, s[i])
    ensures Ties(s, y, lt) == []
  {
    if s != [] { NoTies(s[..|s| - 1], y, lt); }
  }

  lemma NoTiesAbove<T(!new)>(x: T, b: seq<T>, lt: (T, T) -> bool, y: T)
    requires StrictWeakOrder(lt)
    requires forall i | 0 <= i < |b| :: lt(x, b[i])
    ensures Ties([x], y, lt) == [] || Ties(b, y, lt) == []
  {
    if !lt(x, y) && !lt(y, x) {
      forall i | 0 <= i < |b|
        ensures lt(b[i], y) || lt(y, b[i])
      {
        assert Lawful(lt, x, y, b[i]);
      }
      NoTies(b, y, lt);
    } else {
      NoTies([x], y, lt);
    }
  }

  /** Moving `x` past a block of greater elements leaves every class of equals alone. */
  lemma MoveKeepsTies<T(!new)>(a: seq<T>, x: T, b: seq<T>, lt: (T, T) -> bool, y: T)
    requires StrictWeakOrder(lt)
    requires forall i | 0 <= i < |b| :: lt(x, b[i])
    ensures Ties(a + [x] + b, y, lt) == Ties(a + b + [x], y, lt)
  {
    NoTiesAbove(x, b, lt, y);
    calc {
      Ties(a + [x] + b, y, lt);
      { TiesConcat(a + [x], b, y, lt); TiesConcat(a, [x], y, lt); }
      Ties(a, y, lt) + Ties([x], y, lt) + Ties(b, y, lt);
      Ties(a, y, lt) + Ties(b, y, lt) + Ties([x], y, lt);
      { TiesConcat(a + b, [x], y, lt); TiesConcat(a, b, y, lt); }
      Ties(a + b + [x], y, lt);
    }
  }

  lemma InsertKeepsTies<T(!new)>(s: seq<T>, x: T, lt: (T, T) -> bool, y: T)
    requires StrictWeakOrder(lt)
    ensures Ties(Insert(s, x, lt), y, lt) == Ties(s + [x], y, lt)
  {
    var k := Place(s, x, lt);
    assert s == s[..k] + s[k..];
    MoveKeepsTies(s[..k], x, s[k..], lt, y);
  }

  /** Elements that compare equal keep their order: each class of equals is the same list before and after sorting. */
  lemma {:induction false} StableSortKeepsTies<T(!new)>(s: seq<T>, lt: (T, T) -> bool, y: T)
    requires StrictWeakOrder(lt)
    ensures Ties(StableSort(s, lt), y, lt) == Ties(s, y, lt)
  {
    if s != [] {
      var t, x := s[..|s| - 1], s[|s| - 1];
      StableSortKeepsTies(t, lt, y);
      InsertKeepsTies(StableSort(t, lt), x, lt, y);
      TiesConcat(StableSort(t, lt), [x], y, lt);
      TiesConcat(t, [x], y, lt);
      assert s == t + [x];
    }
  }

  ghost predicate Distinct<T>(s: seq<T>) {
    forall i, j | 0 <= i < j < |s| :: s[i] != s[j]
  }

  lemma {:induction false} DistinctCount<T>(s: seq<T>, x: T)
    requires Distinct(s)
    ensures multiset(s)[x] <= 1
  {
    if s != [] {
      assert s == s[..|s| - 1] + [s[|s| - 1]];
      DistinctCount(s[..|s| - 1], x);
      if x == s[|s| - 1] { assert x !in s[..|s| - 1]; }
    }
  }

  /** A permutation of distinct elements has distinct elements, and the same ones. */
  lemma DistinctPermutation<T>(s: seq<T>, r: seq<T>)
    requires Distinct(s) && multiset(s) == multiset(r)
    ensures Distinct(r)
    ensures forall x :: x in r <==> x in s
  {
    forall i, j | 0 <= i < j < |r|
      ensures r[i] != r[j]
    {
      DistinctCount(s, r[j]);
      assert r == r[..j] + [r[j]] + r[j + 1..];
      assert multiset(r)[r[j]] == multiset(r[..j])[r[j]] + 1 + multiset(r[j + 1..])[r[j]];
      assert r[i] in multiset(r[..j]) by { assert r[..j][i] == r[i]; }
    }
    assert forall x :: x in r <==> x in multiset(r);
    assert forall x :: x in s <==> x in multiset(s);
  }

  lemma SubsetSize<T>(a: set<T>, b: set<T>)
    requires a <= b
    ensures |a| <= |b|
  {
    assert b == a + (b - a);
  }

  /** An unstable sort: a sorted permutation, with the order of equal elements left open. */
  method SortUnstable<T(!new)>(s: seq<T>, lt: (T, T) -> bool) returns (r: seq<T>)
    requires StrictWeakOrder(lt)
    ensures multiset(r) == multiset(s) && |r| == |s|
    ensures SortedBy(r, lt)
  {
    StableSortSorts(s, lt);
    StableSortPermutes(s, lt);
    r := StableSort(s, lt);
  }
}
