/** Stable insertion sort: what sort.SliceStable and ORDER BY promise, and an in-place version of it. */
module Sorting {

  /** Puts x behind the last element it does not have to precede. */
  function InsertLast<T>(less: (T, T) -> bool, s: seq<T>, x: T): seq<T> {
    if s == [] || !less(x, s[|s| - 1]) then s + [x]
    else InsertLast(less, s[..|s| - 1], x) + [s[|s| - 1]]
  }

  function StableSort<T>(less: (T, T) -> bool, s: seq<T>): seq<T> {
    if s == [] then [] else InsertLast(less, StableSort(less, s[..|s| - 1]), s[|s| - 1])
  }

  /** No element has to precede an earlier one. */
  ghost predicate InOrder<T>(less: (T, T) -> bool, s: seq<T>) {
    forall i, j :: 0 <= i < j < |s| ==> !less(s[j], s[i])
  }

  ghost predicate StrictWeak<T(!new)>(less: (T, T) -> bool) {
    && (forall a, b :: less(a, b) ==> !less(b, a))
    && (forall a, b, c :: less(a, b) && less(b, c) ==> less(a, c))
    && (forall a, b, c :: !less(b, a) && !less(c, b) ==> !less(c, a))
  }

  lemma AppendInOrder<T>(less: (T, T) -> bool, s: seq<T>, x: T)
    requires InOrder(less, s) && forall e :: e in s ==> !less(x, e)
    ensures InOrder(less, s + [x])
  {
  }

  lemma BelowAll<T(!new)>(less: (T, T) -> bool, s: seq<T>, x: T)
    requires StrictWeak(less) && InOrder(less, s) && s != [] && !less(x, s[|s| - 1])
    ensures forall e :: e in s ==> !less(x, e)
  {
    forall i | 0 <= i < |s| ensures !less(x, s[i]) {
      var last := s[|s| - 1];
      if i < |s| - 1 { assert !less(last, s[i]); }
    }
  }

  lemma {:induction false} InsertLastInOrder<T(!new)>(less: (T, T) -> bool, s: seq<T>, x: T)
    requires StrictWeak(less) && InOrder(less, s)
    ensures InOrder(less, InsertLast(less, s, x))
    ensures forall e :: e in InsertLast(less, s, x) ==> e == x || e in s
    ensures multiset(InsertLast(less, s, x)) == multiset(s) + multiset{x}
    decreases |s|
  {
    if s == [] {
    } else if !less(x, s[|s| - 1]) {
      BelowAll(less, s, x);
      AppendInOrder(less, s, x);
    } else {
      var front, last := s[..|s| - 1], s[|s| - 1];
      assert s == front + [last];
      InsertLastInOrder(less, front, x);
      assert forall e :: e in front ==> !less(last, e);
      AppendInOrder(less, InsertLast(less, front, x), last);
    }
  }

  /** The result is in order and holds the same elements. */
  lemma {:induction false} StableSortSorts<T(!new)>(less: (T, T) -> bool, s: seq<T>)
    requires StrictWeak(less)
    ensures InOrder(less, StableSort(less, s)) && multiset(StableSort(less, s)) == multiset(s)
    decreases |s|
  {
    if s != [] {
      assert s == s[..|s| - 1] + [s[|s| - 1]];
      StableSortSorts(less, s[..|s| - 1]);
      InsertLastInOrder(less, StableSort(less, s[..|s| - 1]), s[|s| - 1]);
    }
  }

  /** Sorting what is already in order changes nothing. */
  lemma {:induction false} StableSortFixed<T>(less: (T, T) -> bool, s: seq<T>)
    requires InOrder(less, s)
    ensures StableSort(less, s) == s
    decreases |s|
  {
    if s != [] {
      StableSortFixed(less, s[..|s| - 1]);
    }
  }

  /** The inner loop: a[i] moves down to its place among the sorted elements before it. */
  method Sink<T>(less: (T, T) -> bool, a: array<T>, i: nat)
    requires i < a.Length
    modifies a
    ensures a[..i + 1] == InsertLast(less, old(a[..i]), old(a[i])) && a[i + 1..] == old(a[i + 1..])
  {
    var j := i;
    ghost var done, x := a[..i], a[i];
    assert done[..i] == done;
    while j > 0 && less(a[j], a[j - 1])
      invariant 0 <= j <= i && a[j] == x
      invariant forall k :: 0 <= k < j ==> a[k] == done[k]
      invariant forall k :: j < k <= i ==> a[k] == done[k - 1]
      invariant forall k :: i < k < a.Length ==> a[k] == old(a[k])
      invariant InsertLast(less, done, x) == InsertLast(less, done[..j], x) + done[j..]
    {
      InsertStep(less, done, x, j);
      a[j], a[j - 1] := a[j - 1], a[j];
      j := j - 1;
    }
    assert InsertLast(less, done[..j], x) == done[..j] + [x];
  }

  lemma InsertStep<T>(less: (T, T) -> bool, s: seq<T>, x: T, j: nat)
    requires 0 < j <= |s| && less(x, s[j - 1])
    ensures InsertLast(less, s[..j], x) + s[j..] == InsertLast(less, s[..j - 1], x) + s[j - 1..]
  {
    assert s[..j][..j - 1] == s[..j - 1];
  }

  method SortInPlace<T>(less: (T, T) -> bool, a: array<T>)
    modifies a
    ensures a[..] == StableSort(less, old(a[..]))
  {
    ghost var was := a[..];
    var i := 0;
    while i < a.Length
      invariant 0 <= i <= a.Length
      invariant a[..i] == StableSort(less, was[..i]) && a[i..] == was[i..]
    {
      assert was[..i + 1][..i] == was[..i] && a[i] == a[i..][0] == was[i];
      assert was[i + 1..] == was[i..][1..] && a[i + 1..] == a[i..][1..];
      Sink(less, a, i);
      i := i + 1;
    }
    assert was[..i] == was && a[..i] == a[..];
  }
}
