/** Ascending order on integer sequences, and the reference sort used by the
    player when a search algorithm needs a sorted array. */
module Sorting {

  ghost predicate Sorted(s: seq<int>) {
    forall i, j :: 0 <= i < j < |s| ==> s[i] <= s[j]
  }

  /** Inserts x in front of the first element not smaller than it. */
  function Insert(x: int, s: seq<int>): (r: seq<int>)
    requires Sorted(s)
    ensures Sorted(r)
    ensures multiset(r) == multiset(s) + multiset{x}
  {
    if s == [] then [x]
    else if x <= s[0] then [x] + s
    else
      var tail := Insert(x, s[1..]);
      assert s == [s[0]] + s[1..];
      assert forall e <- tail :: s[0] <= e by {
        forall e <- tail ensures s[0] <= e {
          assert e in multiset(tail);
          assert e == x || e in multiset(s[1..]);
        }
      }
      SortedCons(s[0], tail);
      [s[0]] + tail
  }

  lemma SortedCons(h: int, t: seq<int>)
    requires Sorted(t)
    requires forall e <- t :: h <= e
    ensures Sorted([h] + t)
  {
    var r := [h] + t;
    forall i, j | 0 <= i < j < |r| ensures r[i] <= r[j] {
      assert r[j] == t[j - 1] && t[j - 1] in t;
      if i > 0 { assert r[i] == t[i - 1]; }
    }
  }

  /** `Array.prototype.sort((a, b) => a - b)` on integers: the ascending
      rearrangement of s. */
  function SortAscending(s: seq<int>): (r: seq<int>)
    ensures Sorted(r)
    ensures multiset(r) == multiset(s)
  {
    if s == [] then []
    else
      assert s == [s[0]] + s[1..];
      Insert(s[0], SortAscending(s[1..]))
  }

  /** There is only one ascending arrangement of a multiset, so every driver
      that ends sorted and a permutation ends with SortAscending(input). */
  lemma {:induction false} SortedPermutationUnique(a: seq<int>, b: seq<int>)
    requires Sorted(a) && Sorted(b)
    requires multiset(a) == multiset(b)
    ensures a == b
    decreases |a|
  {
    if a == [] {
      assert |b| == |multiset(b)| == 0;
    } else {
      SameHead(a, b);
      DropHead(a);
      DropHead(b);
      SortedPermutationUnique(a[1..], b[1..]);
      SameTail(a, b);
    }
  }

  /** Two sorted arrangements of one non-empty multiset start alike. */
  lemma SameHead(a: seq<int>, b: seq<int>)
    requires Sorted(a) && Sorted(b) && |a| > 0
    requires multiset(a) == multiset(b)
    ensures |b| > 0 && a[0] == b[0]
  {
    assert a[0] in multiset(b);
    HeadIsLeast(b, a[0]);
    assert b[0] in multiset(a);
    HeadIsLeast(a, b[0]);
  }

  lemma SameTail(a: seq<int>, b: seq<int>)
    requires |a| > 0 && |b| > 0 && a[0] == b[0] && a[1..] == b[1..]
    ensures a == b
  {
    assert a == [a[0]] + a[1..] && b == [b[0]] + b[1..];
  }

  /** Removing the head of a sorted sequence leaves a sorted sequence with
      one occurrence of the head fewer. */
  lemma DropHead(s: seq<int>)
    requires Sorted(s) && |s| > 0
    ensures Sorted(s[1..])
    ensures multiset(s[1..]) == multiset(s) - multiset{s[0]}
  {
    assert s == [s[0]] + s[1..];
  }

  lemma HeadIsLeast(s: seq<int>, x: int)
    requires Sorted(s) && x in multiset(s)
    ensures |s| > 0 && s[0] <= x
  {
    var i :| 0 <= i < |s| && s[i] == x;
  }

  /** a with the elements at i and j exchanged (`[t[i], t[j]] = [t[j], t[i]]`). */
  function Swapped(a: seq<int>, i: int, j: int): (r: seq<int>)
    requires 0 <= i < |a| && 0 <= j < |a|
    ensures |r| == |a| && r[i] == a[j] && r[j] == a[i]
    ensures forall k :: 0 <= k < |a| && k != i && k != j ==> r[k] == a[k]
  {
    a[i := a[j]][j := a[i]]
  }

  /** A swap rearranges the elements and keeps them all. */
  lemma SwappedElements(a: seq<int>, i: int, j: int)
    requires 0 <= i < |a| && 0 <= j < |a|
    ensures multiset(Swapped(a, i, j)) == multiset(a)
  {
  }

  /** w equals w0 outside [start, end): an operation on that segment leaves
      the rest alone. */
  ghost predicate SameOutside(w: seq<int>, w0: seq<int>, start: int, end: int) {
    |w| == |w0| && forall p :: 0 <= p < |w| && !(start <= p < end) ==> w[p] == w0[p]
  }

  lemma SameOutsideWider(a: seq<int>, b: seq<int>, c: seq<int>, s1: int, e1: int, s2: int, e2: int, s: int, e: int)
    requires SameOutside(a, b, s1, e1) && SameOutside(b, c, s2, e2)
    requires s <= s1 && s <= s2 && e1 <= e && e2 <= e
    ensures SameOutside(a, c, s, e)
  {
  }
}
