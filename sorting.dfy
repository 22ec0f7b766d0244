/** Python's `list.sort()` on a list of byte values, as an insertion sort
    over sequences, together with the order statistics the median filter
    relies on. Sorting integers is deterministic: the sorted permutation of
    a sequence is unique, so any correct sort gives the same list. */
module Sorting {
  import opened Common

  predicate IsSorted(s: seq<Byte>) {
    forall i, j :: 0 <= i < j < |s| ==> s[i] <= s[j]
  }

  /** `v` inserted into a sorted sequence before its first larger-or-equal element. */
  function Insert(v: Byte, s: seq<Byte>): (r: seq<Byte>)
    requires IsSorted(s)
    ensures IsSorted(r) && multiset(r) == multiset(s) + multiset{v} && |r| == |s| + 1
  {
    if s == [] || v <= s[0] then [v] + s
    else
      var tail := Insert(v, s[1..]);
      assert s == [s[0]] + s[1..];
      LowerBound(s[0], tail, s[1..], v);
      [s[0]] + tail
  }

  /** Every element of a permutation of `rest + [v]` is at least `low` when
      `v` and all of `rest` are. */
  lemma LowerBound(low: Byte, tail: seq<Byte>, rest: seq<Byte>, v: Byte)
    requires multiset(tail) == multiset(rest) + multiset{v}
    requires low <= v && forall k :: 0 <= k < |rest| ==> low <= rest[k]
    ensures forall k :: 0 <= k < |tail| ==> low <= tail[k]
  {
    forall k | 0 <= k < |tail| ensures low <= tail[k] {
      assert tail[k] in multiset(tail);
    }
  }

  /** The ascending permutation of `s`. */
  function Sort(s: seq<Byte>): (r: seq<Byte>)
    ensures IsSorted(r) && multiset(r) == multiset(s) && |r| == |s|
  {
    if s == [] then []
    else
      assert s == [s[0]] + s[1..];
      Insert(s[0], Sort(s[1..]))
  }

  /** The number of elements of `s` that satisfy `p`. */
  function Count(s: seq<Byte>, p: Byte -> bool): (n: nat)
    ensures n <= |s|
  {
    if s == [] then 0 else Count(s[..|s| - 1], p) + (if p(s[|s| - 1]) then 1 else 0)
  }

  lemma {:induction false} CountAppend(a: seq<Byte>, b: seq<Byte>, p: Byte -> bool)
    ensures Count(a + b, p) == Count(a, p) + Count(b, p)
    decreases |b|
  {
    if b != [] {
      assert (a + b)[..|a + b| - 1] == a + b[..|b| - 1];
      CountAppend(a, b[..|b| - 1], p);
    } else {
      assert a + b == a;
    }
  }

  lemma {:induction false} CountNone(s: seq<Byte>, p: Byte -> bool)
    requires forall k :: 0 <= k < |s| ==> !p(s[k])
    ensures Count(s, p) == 0
  {
    if s != [] {
      CountNone(s[..|s| - 1], p);
    }
  }

  /** Counting is blind to order: permutations have equal counts. */
  lemma {:induction false} CountPermutation(a: seq<Byte>, b: seq<Byte>, p: Byte -> bool)
    requires multiset(a) == multiset(b)
    ensures Count(a, p) == Count(b, p)
    decreases |a|
  {
    if a == [] {
      assert |b| == |multiset(b)| == 0;
    } else {
      var last := a[|a| - 1];
      assert a == a[..|a| - 1] + [last];
      assert last in multiset(b);
      var k :| 0 <= k < |b| && b[k] == last;
      CountPermutation(a[..|a| - 1], RemoveAt(b, k), p);
      assert RemoveAt(b, k) == b[..k] + b[k + 1..];
      CountRemoveAt(b, k, p);
    }
  }

  /** `b` without its element at `k`. */
  function RemoveAt(b: seq<Byte>, k: nat): (r: seq<Byte>)
    requires k < |b|
    ensures multiset(r) == multiset(b) - multiset{b[k]} && |r| == |b| - 1
  {
    assert b == b[..k] + [b[k]] + b[k + 1..];
    b[..k] + b[k + 1..]
  }

  /** Removing one element lowers the count by that element's share. */
  lemma CountRemoveAt(b: seq<Byte>, k: nat, p: Byte -> bool)
    requires k < |b|
    ensures Count(b, p) == Count(b[..k] + b[k + 1..], p) + (if p(b[k]) then 1 else 0)
  {
    SplitAt(b, k);
    CountMiddle(b[..k], b[k], b[k + 1..], p);
  }

  lemma SplitAt(b: seq<Byte>, k: nat)
    requires k < |b|
    ensures b == b[..k] + [b[k]] + b[k + 1..]
  {
  }

  lemma CountMiddle(front: seq<Byte>, v: Byte, back: seq<Byte>, p: Byte -> bool)
    ensures Count(front + [v] + back, p) == Count(front + back, p) + (if p(v) then 1 else 0)
  {
    CountAppend(front + [v], back, p);
    CountAppend(front, back, p);
    assert (front + [v])[..|front|] == front;
  }

  /** No element from index `k` on satisfies `p`: at most `k` do. */
  lemma CountBeforeBound(t: seq<Byte>, k: nat, p: Byte -> bool)
    requires k <= |t| && forall j :: k <= j < |t| ==> !p(t[j])
    ensures Count(t, p) <= k
  {
    assert t == t[..k] + t[k..];
    CountAppend(t[..k], t[k..], p);
    CountNone(t[k..], p);
  }

  /** No element up to index `k` satisfies `p`: at most `|t| - 1 - k` do. */
  lemma CountAfterBound(t: seq<Byte>, k: nat, p: Byte -> bool)
    requires k < |t| && forall j :: 0 <= j <= k ==> !p(t[j])
    ensures Count(t, p) <= |t| - 1 - k
  {
    assert t == t[..k + 1] + t[k + 1..];
    CountAppend(t[..k + 1], t[k + 1..], p);
    CountNone(t[..k + 1], p);
  }

  /** In a sorted sequence at most `k` elements lie below `t[k]` and at most
      `|t| - 1 - k` above it. */
  lemma SortedRank(t: seq<Byte>, k: nat)
    requires IsSorted(t) && k < |t|
    ensures Count(t, b => b < t[k]) <= k
    ensures Count(t, b => b > t[k]) <= |t| - 1 - k
  {
    CountBeforeBound(t, k, b => b < t[k]);
    CountAfterBound(t, k, b => b > t[k]);
  }
}
