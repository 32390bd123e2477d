/** Sorting natural numbers, for the blob lock order and for UID lists. */
module Sorting {
  predicate Ascending(s: seq<nat>) {
    forall i, j | 0 <= i < j < |s| :: s[i] < s[j]
  }

  predicate Distinct(s: seq<nat>) {
    forall i, j | 0 <= i < j < |s| :: s[i] != s[j]
  }

  function InsertSorted(x: nat, s: seq<nat>): (r: seq<nat>)
    ensures |r| == |s| + 1
  {
    if s == [] || x < s[0] then [x] + s else [s[0]] + InsertSorted(x, s[1..])
  }

  function Sort(s: seq<nat>): (r: seq<nat>)
    ensures |r| == |s|
  {
    if s == [] then [] else InsertSorted(s[0], Sort(s[1..]))
  }

  lemma {:induction false} InsertSortedFacts(x: nat, s: seq<nat>)
    requires Ascending(s) && x !in s
    ensures Ascending(InsertSorted(x, s))
    ensures forall y :: y in InsertSorted(x, s) <==> y == x || y in s
    decreases |s|
  {
    if s != [] && s[0] <= x {
      InsertSortedFacts(x, s[1..]);
      var rest, all := InsertSorted(x, s[1..]), InsertSorted(x, s);
      assert s[0] in s;
      assert forall i | 0 <= i < |s[1..]| :: s[1..][i] == s[i + 1];
      forall i | 0 <= i < |rest|
        ensures s[0] < rest[i]
      {
        assert rest[i] in rest;
      }
      assert forall i | 0 < i < |all| :: all[i] == rest[i - 1];
      assert s == [s[0]] + s[1..];
    }
  }

  /** Sorting distinct numbers puts them in strictly increasing order and keeps them all. */
  lemma {:induction false} SortFacts(s: seq<nat>)
    requires Distinct(s)
    ensures Ascending(Sort(s))
    ensures forall y :: y in Sort(s) <==> y in s
    decreases |s|
  {
    if s != [] {
      SortFacts(s[1..]);
      assert s == [s[0]] + s[1..];
      InsertSortedFacts(s[0], Sort(s[1..]));
    }
  }

  /** A strictly increasing sequence is determined by its elements. */
  lemma {:induction false} AscendingUnique(a: seq<nat>, b: seq<nat>)
    requires Ascending(a) && Ascending(b)
    requires forall y :: y in a <==> y in b
    ensures a == b
    decreases |a|
  {
    if a == [] || b == [] {
      HeadIsElement(a);
      HeadIsElement(b);
    } else {
      assert a[0] in b && b[0] in a;
      TailElements(a);
      TailElements(b);
      AscendingUnique(a[1..], b[1..]);
      assert a == [a[0]] + a[1..] && b == [b[0]] + b[1..];
    }
  }

  lemma HeadIsElement(a: seq<nat>)
    ensures a == [] || a[0] in a
  {
  }

  lemma TailElements(a: seq<nat>)
    requires Ascending(a) && a != []
    ensures forall y :: y in a[1..] <==> y in a && y != a[0]
    ensures forall y | y in a :: a[0] <= y
  {
    assert forall i | 0 <= i < |a[1..]| :: a[1..][i] == a[i + 1];
    assert a == [a[0]] + a[1..];
  }
}
