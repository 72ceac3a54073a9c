/** Sorting with respect to a total preorder. One insertion sort serves both
    orders the client needs: identifiers by Go's string order (`sort.Strings`)
    and stored rows by timestamp (`ORDER BY timestamp ASC`). */
module Ordering {

  /** Every pair is comparable and comparison chains. */
  ghost predicate TotalPreorder<T(!new)>(le: (T, T) -> bool) {
    && (forall a, b :: le(a, b) || le(b, a))
    && (forall a, b, c :: le(a, b) && le(b, c) ==> le(a, c))
  }

  ghost predicate Antisymmetric<T(!new)>(le: (T, T) -> bool) {
    forall a, b :: le(a, b) && le(b, a) ==> a == b
  }

  ghost predicate Sorted<T>(s: seq<T>, le: (T, T) -> bool) {
    forall i, j :: 0 <= i < j < |s| ==> le(s[i], s[j])
  }

  /** Every element of `s` is at least `x`. */
  ghost predicate Below<T>(x: T, s: seq<T>, le: (T, T) -> bool) {
    forall k :: 0 <= k < |s| ==> le(x, s[k])
  }

  lemma BelowPermutation<T>(x: T, s: seq<T>, t: seq<T>, le: (T, T) -> bool)
    requires Below(x, s, le) && multiset(t) <= multiset(s)
    ensures Below(x, t, le)
  {
    forall k | 0 <= k < |t|
      ensures le(x, t[k])
    {
      assert t[k] in multiset(t);
      assert t[k] in s;
    }
  }

  /** Places `x` before the first element it does not exceed; an element equal
      to `x` therefore stays behind it. */
  function Insert<T(!new)>(x: T, s: seq<T>, le: (T, T) -> bool): (r: seq<T>)
    requires TotalPreorder(le) && Sorted(s, le)
    ensures Sorted(r, le)
    ensures multiset(r) == multiset(s) + multiset{x}
    decreases |s|
  {
    if |s| == 0 || le(x, s[0]) then
      [x] + s
    else
      var rest := Insert(x, s[1..], le);
      assert s == [s[0]] + s[1..];
      assert Below(s[0], s[1..] + [x], le);
      assert multiset(rest) == multiset(s[1..] + [x]);
      BelowPermutation(s[0], s[1..] + [x], rest, le);
      [s[0]] + rest
  }

  /** Insertion sort: a sorted rearrangement of `s`. */
  function Sort<T(!new)>(s: seq<T>, le: (T, T) -> bool): (r: seq<T>)
    requires TotalPreorder(le)
    ensures Sorted(r, le)
    ensures multiset(r) == multiset(s)
    decreases |s|
  {
    if |s| == 0 then []
    else
      assert s == [s[0]] + s[1..];
      Insert(s[0], Sort(s[1..], le), le)
  }

  /** The head of a sorted sequence is at most each of its elements. */
  lemma SortedHeadLeast<T(!new)>(a: seq<T>, x: T, le: (T, T) -> bool)
    requires TotalPreorder(le) && Sorted(a, le) && x in a
    ensures le(a[0], x)
  {
    var i :| 0 <= i < |a| && a[i] == x;
    if i == 0 {
      assert le(x, x) || le(x, x);
    }
  }

  /** Under an antisymmetric order a multiset has exactly one sorted
      arrangement, so every correct sorting algorithm returns the same
      sequence as `Sort`. */
  lemma {:induction false} SortedArrangementUnique<T(!new)>(a: seq<T>, b: seq<T>, le: (T, T) -> bool)
    requires TotalPreorder(le) && Antisymmetric(le)
    requires Sorted(a, le) && Sorted(b, le) && multiset(a) == multiset(b)
    ensures a == b
    decreases |a|
  {
    assert |a| == |multiset(a)| == |multiset(b)| == |b|;
    if |a| > 0 {
      assert a[0] in multiset(b) && b[0] in multiset(a);
      SortedHeadLeast(b, a[0], le);
      SortedHeadLeast(a, b[0], le);
      var h := a[0];
      assert h == b[0];
      assert a == [h] + a[1..] && b == [h] + b[1..];
      assert multiset(a[1..]) == multiset(a) - multiset{h};
      assert multiset(b[1..]) == multiset(b) - multiset{h};
      SortedArrangementUnique(a[1..], b[1..], le);
    }
  }

  /** Sorting a sorted sequence with one element put in front is inserting
      that element in place. */
  lemma SortIsInsert<T(!new)>(x: T, s: seq<T>, le: (T, T) -> bool)
    requires TotalPreorder(le) && Antisymmetric(le) && Sorted(s, le)
    ensures Sort([x] + s, le) == Insert(x, s, le)
  {
    assert multiset([x] + s) == multiset(s) + multiset{x};
    SortedArrangementUnique(Sort([x] + s, le), Insert(x, s, le), le);
  }
}
