/** Sorting under a caller-supplied order.  `Sort` is the reference definition
    behind `slices.Sort`, `sort.Strings` and `sort.Slice`: whatever algorithm
    the library runs, a sorted permutation is unique (SortedPermutationUnique),
    so every correct sort returns `Sort(s, le)`. */
module Sorting {

  /** `le` orders the elements of `s` totally.  It is required only of the
      elements that occur, so an order that is total on distinct keys fits. */
  ghost predicate TotalOn<T>(le: (T, T) -> bool, s: seq<T>) {
    && (forall x, y :: x in s && y in s ==> le(x, y) || le(y, x))
    && (forall x, y :: x in s && y in s && le(x, y) && le(y, x) ==> x == y)
    && (forall x, y, z :: x in s && y in s && z in s && le(x, y) && le(y, z) ==> le(x, z))
  }

  ghost predicate Sorted<T>(s: seq<T>, le: (T, T) -> bool) {
    forall i, j :: 0 <= i < j < |s| ==> le(s[i], s[j])
  }

  function Insert<T>(x: T, s: seq<T>, le: (T, T) -> bool): (r: seq<T>)
    ensures |r| == |s| + 1
  {
    if s == [] || le(x, s[0]) then [x] + s else [s[0]] + Insert(x, s[1..], le)
  }

  function Sort<T>(s: seq<T>, le: (T, T) -> bool): (r: seq<T>)
    ensures |r| == |s|
  {
    if s == [] then [] else Insert(s[|s| - 1], Sort(s[..|s| - 1], le), le)
  }

  lemma {:induction false} InsertPermutes<T>(x: T, s: seq<T>, le: (T, T) -> bool)
    ensures multiset(Insert(x, s, le)) == multiset(s) + multiset{x}
  {
    if s != [] && !le(x, s[0]) {
      InsertPermutes(x, s[1..], le);
      assert s == [s[0]] + s[1..];
    }
  }

  lemma {:induction false} SortPermutes<T>(s: seq<T>, le: (T, T) -> bool)
    ensures multiset(Sort(s, le)) == multiset(s)
  {
    if s != [] {
      SortPermutes(s[..|s| - 1], le);
      InsertPermutes(s[|s| - 1], Sort(s[..|s| - 1], le), le);
      assert s == s[..|s| - 1] + [s[|s| - 1]];
    }
  }

  lemma SameElements<T>(a: seq<T>, b: seq<T>)
    requires multiset(a) == multiset(b)
    ensures |a| == |b|
    ensures forall i :: 0 <= i < |a| ==> a[i] in b
    ensures forall i :: 0 <= i < |b| ==> b[i] in a
  {
    assert |multiset(a)| == |a| && |multiset(b)| == |b|;
    assert forall i :: 0 <= i < |a| ==> a[i] in multiset(a);
    assert forall i :: 0 <= i < |b| ==> b[i] in multiset(b);
  }

  lemma {:induction false} InsertAddsOnly<T>(x: T, s: seq<T>, le: (T, T) -> bool)
    ensures forall k :: 0 <= k < |Insert(x, s, le)| ==> Insert(x, s, le)[k] == x || Insert(x, s, le)[k] in s
  {
    if s != [] && !le(x, s[0]) {
      InsertAddsOnly(x, s[1..], le);
    }
  }

  lemma {:induction false} InsertKeepsSorted<T>(x: T, s: seq<T>, le: (T, T) -> bool)
    requires TotalOn(le, [x] + s)
    requires Sorted(s, le)
    ensures Sorted(Insert(x, s, le), le)
  {
    if s != [] && !le(x, s[0]) {
      assert x in [x] + s && forall y :: y in s ==> y in [x] + s;
      assert le(s[0], x);
      assert forall y :: y in [x] + s[1..] ==> y in [x] + s;
      InsertKeepsSorted(x, s[1..], le);
      InsertAddsOnly(x, s[1..], le);
    } else if s != [] {
      forall j | 0 <= j < |s|
        ensures le(x, s[j])
      {
        assert s[0] in [x] + s && s[j] in [x] + s && x in [x] + s;
      }
    }
  }

  lemma {:induction false} SortIsSorted<T>(s: seq<T>, le: (T, T) -> bool)
    requires TotalOn(le, s)
    ensures Sorted(Sort(s, le), le)
  {
    if s != [] {
      var front, x := s[..|s| - 1], s[|s| - 1];
      SortIsSorted(front, le);
      SortPermutes(front, le);
      SameElements(Sort(front, le), front);
      assert forall y :: y in [x] + Sort(front, le) ==> y in s;
      InsertKeepsSorted(x, Sort(front, le), le);
    }
  }

  lemma SortedHeadsAgree<T>(a: seq<T>, b: seq<T>, le: (T, T) -> bool)
    requires TotalOn(le, a)
    requires Sorted(a, le) && Sorted(b, le)
    requires a != [] && b != [] && a[0] in b && b[0] in a
    ensures a[0] == b[0]
  {
    var i :| 0 <= i < |b| && b[i] == a[0];
    var j :| 0 <= j < |a| && a[j] == b[0];
    assert i == 0 || le(b[0], a[0]);
    assert j == 0 || le(a[0], b[0]);
  }

  lemma TailsKeepOrder<T>(a: seq<T>, le: (T, T) -> bool)
    requires a != []
    ensures TotalOn(le, a) ==> TotalOn(le, a[1..])
    ensures Sorted(a, le) ==> Sorted(a[1..], le)
  {
    assert forall y :: y in a[1..] ==> y in a;
  }

  lemma TailsPermute<T>(a: seq<T>, b: seq<T>)
    requires a != [] && b != [] && a[0] == b[0] && multiset(a) == multiset(b)
    ensures multiset(a[1..]) == multiset(b[1..])
  {
    TailMultiset(a);
    TailMultiset(b);
  }

  /** A list has only one sorted rearrangement. */
  lemma {:induction false} SortedPermutationUnique<T>(a: seq<T>, b: seq<T>, le: (T, T) -> bool)
    requires TotalOn(le, a)
    requires Sorted(a, le) && Sorted(b, le)
    requires multiset(a) == multiset(b)
    ensures a == b
  {
    hide TotalOn, Sorted;
    SameElements(a, b);
    if a != [] {
      assert a[0] in b && b[0] in a;
      SortedHeadsAgree(a, b, le);
      TailsPermute(a, b);
      TailsKeepOrder(a, le);
      TailsKeepOrder(b, le);
      SortedPermutationUnique(a[1..], b[1..], le);
      assert a == [a[0]] + a[1..] && b == [b[0]] + b[1..];
    }
  }

  lemma TailMultiset<T>(s: seq<T>)
    requires s != []
    ensures multiset(s[1..]) == multiset(s) - multiset{s[0]}
  {
    assert s == [s[0]] + s[1..];
  }

  lemma TotalOnPart<T>(a: seq<T>, b: seq<T>, le: (T, T) -> bool)
    requires TotalOn(le, a) && forall i :: 0 <= i < |b| ==> b[i] in a
    ensures TotalOn(le, b)
  {
  }

  /** Sorting sees only which elements occur and how often. */
  lemma SortDependsOnMultiset<T>(a: seq<T>, b: seq<T>, le: (T, T) -> bool)
    requires TotalOn(le, a)
    requires multiset(a) == multiset(b)
    ensures Sort(a, le) == Sort(b, le)
  {
    hide TotalOn, Sorted, Sort;
    SameElements(a, b);
    TotalOnPart(a, b, le);
    SortIsSorted(a, le);
    SortIsSorted(b, le);
    SortPermutes(a, le);
    SortPermutes(b, le);
    SameElements(Sort(a, le), a);
    TotalOnPart(a, Sort(a, le), le);
    SortedPermutationUnique(Sort(a, le), Sort(b, le), le);
  }

  lemma {:induction false} SortedIsFixpoint<T>(a: seq<T>, le: (T, T) -> bool)
    requires TotalOn(le, a) && Sorted(a, le)
    ensures Sort(a, le) == a
  {
    SortIsSorted(a, le);
    SortPermutes(a, le);
    SameElements(Sort(a, le), a);
    SortedPermutationUnique(Sort(a, le), a, le);
  }

  /* ---- Listing a set ---- */

  /** s has each element of the set once and no others. */
  ghost predicate Lists<T>(s: seq<T>, content: set<T>) {
    && (forall i, j :: 0 <= i < j < |s| ==> s[i] != s[j])
    && (forall x :: x in s ==> x in content) && (forall x :: x in content ==> x in s)
  }

  lemma {:induction false} ListMultiset<T>(s: seq<T>, content: set<T>)
    requires Lists(s, content)
    ensures multiset(s) == multiset(content)
  {
    if s != [] {
      var front, last := s[..|s| - 1], s[|s| - 1];
      assert s == front + [last];
      ListMultiset(front, content - {last});
    }
  }

  lemma {:induction false} OnceEach<T>(s: seq<T>)
    requires forall x :: multiset(s)[x] <= 1
    ensures forall i, j :: 0 <= i < j < |s| ==> s[i] != s[j]
  {
    if s != [] {
      var front, last := s[..|s| - 1], s[|s| - 1];
      assert s == front + [last];
      assert forall x :: multiset(front)[x] <= multiset(s)[x];
      OnceEach(front);
      assert multiset(s) == multiset(front) + multiset{last};
      assert multiset(front)[last] == 0;
      assert last !in front;
    }
  }

  lemma PermutedListLists<T>(a: seq<T>, b: seq<T>, content: set<T>)
    requires Lists(a, content) && multiset(a) == multiset(b)
    ensures Lists(b, content)
  {
    SameElements(a, b);
    ListMultiset(a, content);
    OnceEach(b);
  }

  /** In-place sort of an array, proved against `Sort`. */
  method SortArray<T>(a: array<T>, le: (T, T) -> bool)
    modifies a
    ensures a[..] == Sort(old(a[..]), le)
  {
    ghost var was := a[..];
    var n := 0;
    while n < a.Length
      invariant 0 <= n <= a.Length
      invariant a[..n] == Sort(was[..n], le)
      invariant a[n..] == was[n..]
    {
      var x := a[n];
      assert was[..n + 1][..n] == was[..n] && was[..n + 1][n] == x;
      ghost var done := a[..n];
      InsertInto(a, n, le);
      n := n + 1;
      assert a[..n] == Insert(x, done, le);
    }
    assert a[..] == a[..n] && was == was[..n];
  }

  /** The slot at which `Insert` puts x: the first element not below it. */
  method FindSlot<T>(s: seq<T>, x: T, le: (T, T) -> bool) returns (i: nat)
    ensures i <= |s| && Insert(x, s, le) == s[..i] + [x] + s[i..]
  {
    i := 0;
    while i < |s| && !le(x, s[i])
      invariant i <= |s|
      invariant Insert(x, s, le) == s[..i] + Insert(x, s[i..], le)
    {
      assert s[i..][1..] == s[i + 1..];
      assert s[..i + 1] == s[..i] + [s[i]];
      i := i + 1;
    }
    assert Insert(x, s[i..], le) == [x] + s[i..];
  }

  /** s with the elements from k to n - 1 moved up by one, over the n-th. */
  ghost function Shifted<T>(s: seq<T>, k: nat, n: nat): (r: seq<T>)
    requires k <= n < |s|
    ensures |r| == |s|
  {
    s[..k + 1] + s[k..n] + s[n + 1..]
  }

  lemma ShiftOneMore<T>(s: seq<T>, k: nat, n: nat)
    requires 0 < k <= n < |s|
    ensures Shifted(s, k, n)[k - 1] == s[k - 1]
    ensures Shifted(s, k, n)[k := s[k - 1]] == Shifted(s, k - 1, n)
  {
  }

  lemma ShiftedThenPlaced<T>(s: seq<T>, i: nat, n: nat, x: T)
    requires i <= n < |s|
    ensures Shifted(s, n, n) == s
    ensures Shifted(s, i, n)[i := x] == s[..i] + [x] + s[i..n] + s[n + 1..]
  {
  }

  /** Moves a[n] to its place among the sorted a[..n]. */
  method InsertInto<T>(a: array<T>, n: nat, le: (T, T) -> bool)
    requires n < a.Length
    modifies a
    ensures a[..n + 1] == Insert(old(a[n]), old(a[..n]), le)
    ensures a[n + 1..] == old(a[n + 1..])
  {
    hide Insert, Shifted;
    ghost var was := a[..];
    var x := a[n];
    var i := FindSlot(a[..n], x, le);
    var k := n;
    ShiftedThenPlaced(was, i, n, x);
    while k > i
      invariant i <= k <= n
      invariant a[..] == Shifted(was, k, n)
    {
      ShiftOneMore(was, k, n);
      assert a[k - 1] == a[..][k - 1];
      a[k] := a[k - 1];
      k := k - 1;
    }
    a[i] := x;
    assert a[..] == was[..i] + [x] + was[i..n] + was[n + 1..];
    assert a[..n + 1] == was[..n][..i] + [x] + was[..n][i..];
  }
}
