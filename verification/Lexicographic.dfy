/** Byte order on strings, as `sort.Strings` uses it, and sorted listings of
    string sets. */
module Lexicographic {
  import Sorting

  predicate LexLe(a: string, b: string) {
    a == "" || (b != "" && (a[0] < b[0] || (a[0] == b[0] && LexLe(a[1..], b[1..]))))
  }

  lemma {:induction false} LexTotal(a: string, b: string)
    ensures LexLe(a, b) || LexLe(b, a)
  {
    if a != "" && b != "" {
      LexTotal(a[1..], b[1..]);
    }
  }

  lemma {:induction false} LexAntisymmetric(a: string, b: string)
    requires LexLe(a, b) && LexLe(b, a)
    ensures a == b
  {
    if a != "" {
      LexAntisymmetric(a[1..], b[1..]);
      assert a == [a[0]] + a[1..] && b == [b[0]] + b[1..];
    }
  }

  lemma {:induction false} LexTransitive(a: string, b: string, c: string)
    requires LexLe(a, b) && LexLe(b, c)
    ensures LexLe(a, c)
  {
    if a != "" && b[0] == a[0] && c[0] == b[0] {
      LexTransitive(a[1..], b[1..], c[1..]);
    }
  }

  lemma LexIsTotalOn(s: seq<string>)
    ensures Sorting.TotalOn(LexLe, s)
  {
    forall a, b | a in s && b in s
      ensures LexLe(a, b) || LexLe(b, a)
      ensures LexLe(a, b) && LexLe(b, a) ==> a == b
    {
      LexTotal(a, b);
      if LexLe(a, b) && LexLe(b, a) {
        LexAntisymmetric(a, b);
      }
    }
    forall a, b, c | a in s && b in s && c in s && LexLe(a, b) && LexLe(b, c)
      ensures LexLe(a, c)
    {
      LexTransitive(a, b, c);
    }
  }

  /** `names` lists exactly the elements of `content`, once each, in order. */
  ghost predicate IsListing(names: seq<string>, content: set<string>) {
    Sorting.Sorted(names, LexLe) && Sorting.Lists(names, content)
  }

  /** Two sets have equal listings exactly when they are equal. */
  lemma ListingsAgree(a: seq<string>, b: seq<string>, s: set<string>, t: set<string>)
    requires IsListing(a, s) && IsListing(b, t)
    ensures a == b <==> s == t
  {
    if a == b {
      forall x
        ensures x in s <==> x in t
      {
        assert x in a <==> x in s;
        assert x in b <==> x in t;
      }
    }
    if s == t {
      Sorting.ListMultiset(a, s);
      Sorting.ListMultiset(b, s);
      LexIsTotalOn(a);
      Sorting.SortedPermutationUnique(a, b, LexLe);
    }
  }

  /** Collects a set in whatever order it is iterated, then sorts. */
  method Listing(content: set<string>) returns (names: seq<string>)
    ensures IsListing(names, content)
  {
    var rest := content;
    var found: seq<string> := [];
    while rest != {}
      invariant rest <= content
      invariant Sorting.Lists(found, content - rest)
      decreases rest
    {
      var x :| x in rest;
      assert x !in found;
      rest := rest - {x};
      found := found + [x];
    }
    var a := new string[|found|](i requires 0 <= i < |found| => found[i]);
    assert a[..] == found;
    Sorting.SortArray(a, LexLe);
    names := a[..];
    assert content - rest == content;
    LexIsTotalOn(found);
    Sorting.SortIsSorted(found, LexLe);
    Sorting.SortPermutes(found, LexLe);
    Sorting.PermutedListLists(found, names, content);
  }

  /** a is a beginning of b, or smaller where they first differ. */
  ghost predicate Before(a: string, b: string, k: nat) {
    k <= |a| && k <= |b| && a[..k] == b[..k] && (k == |a| || (k < |b| && a[k] < b[k]))
  }

  lemma {:induction false} LexMeans(a: string, b: string)
    ensures LexLe(a, b) <==> exists k: nat :: Before(a, b, k)
  {
    if a == "" || b == "" || a[0] != b[0] {
      if LexLe(a, b) {
        assert Before(a, b, 0);
      }
      if k: nat :| Before(a, b, k) {
        assert k > 0 ==> a[..k][0] == b[..k][0];
      }
    } else {
      LexMeans(a[1..], b[1..]);
      if LexLe(a, b) {
        var k: nat :| Before(a[1..], b[1..], k);
        assert a[..k + 1] == [a[0]] + a[1..][..k] && b[..k + 1] == [b[0]] + b[1..][..k];
        assert Before(a, b, k + 1);
      }
      if k: nat :| Before(a, b, k) {
        assert k > 0;
        assert a[1..][..k - 1] == a[..k][1..] && b[1..][..k - 1] == b[..k][1..];
        assert Before(a[1..], b[1..], k - 1);
      }
    }
  }
}
