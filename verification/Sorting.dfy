/** Sorting as std::sort and std::nth_element are used: by a strict order. */
module Sorting {
  /** What the standard library asks of a comparison. */
  ghost predicate StrictOrder<T(!new)>(less: (T, T) -> bool) {
    && (forall a, b :: less(a, b) ==> !less(b, a))
    && forall a, b, c :: less(a, c) ==> less(a, b) || less(b, c)
  }

  function Insert<T>(x: T, s: seq<T>, less: (T, T) -> bool): (r: seq<T>)
    ensures multiset(r) == multiset(s) + multiset{x}
  {
    if s == [] || less(x, s[0]) then [x] + s
    else
      assert s == [s[0]] + s[1..];
      [s[0]] + Insert(x, s[1..], less)
  }

  function Sorted<T>(s: seq<T>, less: (T, T) -> bool): (r: seq<T>)
    ensures multiset(r) == multiset(s)
  {
    if s == [] then []
    else
      assert s == [s[0]] + s[1..];
      Insert(s[0], Sorted(s[1..], less), less)
  }

  /** Each element, and nothing behind it that is less. */
  ghost predicate Ascending<T>(s: seq<T>, less: (T, T) -> bool) {
    s == [] || (Leads(s[0], s[1..], less) && Ascending(s[1..], less))
  }

  ghost predicate Leads<T>(x: T, s: seq<T>, less: (T, T) -> bool) {
    forall y | y in s :: !less(y, x)
  }

  /** No two elements are equivalent. */
  ghost predicate NoTies<T>(s: seq<T>, less: (T, T) -> bool) {
    s == [] || (Differs(s[0], s[1..], less) && NoTies(s[1..], less))
  }

  ghost predicate Differs<T>(x: T, s: seq<T>, less: (T, T) -> bool) {
    forall y | y in s :: less(x, y) || less(y, x)
  }

  lemma SameElements<T>(s: seq<T>, r: seq<T>)
    requires multiset(r) == multiset(s)
    ensures |r| == |s| && forall x :: x in r <==> x in s
  {
    assert |multiset(r)| == |r| && |multiset(s)| == |s|;
    forall x ensures x in r <==> x in s {
      assert x in r <==> x in multiset(r);
      assert x in s <==> x in multiset(s);
    }
  }

  lemma InsertElements<T>(x: T, s: seq<T>, less: (T, T) -> bool)
    ensures |Insert(x, s, less)| == |s| + 1
    ensures forall y :: y in Insert(x, s, less) <==> y == x || y in s
  {
    assert multiset([x] + s) == multiset(s) + multiset{x};
    SameElements([x] + s, Insert(x, s, less));
  }

  lemma {:induction false} InsertKeeps<T(!new)>(x: T, s: seq<T>, less: (T, T) -> bool)
    requires StrictOrder(less) && Ascending(s, less)
    ensures Ascending(Insert(x, s, less), less)
    ensures NoTies(s, less) && Differs(x, s, less) ==> NoTies(Insert(x, s, less), less)
  {
    if s != [] {
      var head, tail := s[0], s[1..];
      assert s == [head] + tail;
      if less(x, head) {
        assert ([x] + s)[1..] == s;
        assert forall y | y in s :: y == head || y in tail;
      } else {
        InsertKeeps(x, tail, less);
        InsertElements(x, tail, less);
        assert ([head] + Insert(x, tail, less))[1..] == Insert(x, tail, less);
      }
    }
  }

  /** Sorting leaves the same elements in order, and no ties where there were
      none. */
  lemma {:induction false} SortedIs<T(!new)>(s: seq<T>, less: (T, T) -> bool)
    requires StrictOrder(less)
    ensures Ascending(Sorted(s, less), less)
    ensures NoTies(s, less) ==> NoTies(Sorted(s, less), less)
  {
    if s != [] {
      SortedIs(s[1..], less);
      InsertKeeps(s[0], Sorted(s[1..], less), less);
      SameElements(s[1..], Sorted(s[1..], less));
      hide Insert, StrictOrder;
    }
  }

  lemma {:induction false} AscendingAt<T>(s: seq<T>, less: (T, T) -> bool, i: nat, j: nat)
    requires Ascending(s, less) && i < j < |s|
    ensures !less(s[j], s[i])
    ensures NoTies(s, less) ==> less(s[i], s[j])
    decreases i
  {
    if i > 0 {
      AscendingAt(s[1..], less, i - 1, j - 1);
    } else {
      assert s[1..][j - 1] == s[j];
    }
  }
}
