/**
 Sets of strings listed in order, as `sort.Strings` lists them.
 */
module Listing {
  import opened Text
  import opened Sorting

  lemma LexLawful()
    ensures StrictWeakOrder(LexLess)
  {
    LexOrder();
    forall x, y, z ensures Lawful(LexLess, x, y, z) {}
  }

  ghost predicate StrictlySorted(s: seq<string>) {
    forall i, j | 0 <= i < j < |s| :: LexLess(s[i], s[j])
  }

  lemma SortedDistinctIsStrict(s: seq<string>)
    requires SortedBy(s, LexLess) && Distinct(s)
    ensures StrictlySorted(s)
  {
    forall i, j | 0 <= i < j < |s|
      ensures LexLess(s[i], s[j])
    {
      LexTotal(s[i], s[j]);
    }
  }

  lemma HeadNotInTail(s: seq<string>)
    requires StrictlySorted(s) && s != []
    ensures s[0] !in s[1..]
  {
    forall k | 0 <= k < |s[1..]|
      ensures s[1..][k] != s[0]
    {
      assert LexLess(s[0], s[k + 1]);
      LexIrreflexive(s[0]);
    }
  }

  /** A set of strings has one strictly sorted listing. */
  lemma {:induction false} StrictListingUnique(a: seq<string>, b: seq<string>)
    requires StrictlySorted(a) && StrictlySorted(b)
    requires forall x :: x in a <==> x in b
    ensures a == b
  {
    assert a != [] ==> a[0] in b;
    assert b != [] ==> b[0] in a;
    if a != [] && b != [] {
      assert a[0] in b && b[0] in a;
      var i :| 0 <= i < |b| && b[i] == a[0];
      var j :| 0 <= j < |a| && a[j] == b[0];
      if i > 0 && j > 0 { LexTransitive(a[0], a[j], a[0]); }
      LexIrreflexive(a[0]);
      assert a[0] == b[0];
      assert a == [a[0]] + a[1..] && b == [b[0]] + b[1..];
      HeadNotInTail(a);
      HeadNotInTail(b);
      assert forall x :: x in a <==> x == a[0] || x in a[1..];
      assert forall x :: x in b <==> x == b[0] || x in b[1..];
      StrictListingUnique(a[1..], b[1..]);
    }
  }

  /** Lists a set in order, starting from whatever order iterating over it gives. */
  method SortedListing(elements: set<string>) returns (list: seq<string>)
    ensures StrictlySorted(list)
    ensures forall x :: x in list <==> x in elements
  {
    var rest, unsorted := elements, [];
    while rest != {}
      invariant Distinct(unsorted)
      invariant forall x :: x in elements <==> x in rest || x in unsorted
      invariant forall x | x in unsorted :: x !in rest
      decreases rest
    {
      var x :| x in rest;
      unsorted, rest := unsorted + [x], rest - {x};
    }
    LexLawful();
    list := SortUnstable(unsorted, LexLess);
    DistinctPermutation(unsorted, list);
    SortedDistinctIsStrict(list);
  }
}
