/** Splitting and joining at a separator. */
module Separators {
  import opened Sequences

  /** strings.Split for a separator of one element: never empty. */
  function Split<T(==)>(s: seq<T>, sep: T): (r: seq<seq<T>>)
    ensures r != []
  {
    if s == [] then [[]]
    else
      var front, c := Split(s[..|s| - 1], sep), s[|s| - 1];
      if c == sep then front + [[]]
      else front[..|front| - 1] + [front[|front| - 1] + [c]]
  }

  /** strings.Join. */
  function Join<T>(parts: seq<seq<T>>, sep: T): seq<T> {
    if parts == [] then []
    else if |parts| == 1 then parts[0]
    else Join(parts[..|parts| - 1], sep) + [sep] + parts[|parts| - 1]
  }

  lemma {:induction false} SplitOfLastPart<T>(s: seq<T>, t: seq<T>, sep: T)
    requires sep !in t
    ensures Split(s + [sep] + t, sep) == Split(s, sep) + [t]
  {
    var u := s + [sep] + t;
    if t == [] {
      assert u[..|u| - 1] == s && u[|u| - 1] == sep;
    } else {
      var front := t[..|t| - 1];
      assert t == front + [t[|t| - 1]];
      assert u[..|u| - 1] == s + [sep] + front && u[|u| - 1] == t[|t| - 1];
      SplitOfLastPart(s, front, sep);
      assert (Split(s, sep) + [front])[..|Split(s, sep)|] == Split(s, sep);
    }
  }

  lemma {:induction false} SplitOfOnePart<T>(t: seq<T>, sep: T)
    requires sep !in t
    ensures Split(t, sep) == [t]
  {
    if t != [] {
      SplitOfOnePart(t[..|t| - 1], sep);
      assert t == t[..|t| - 1] + [t[|t| - 1]];
    }
  }

  ghost predicate Free<T>(parts: seq<seq<T>>, sep: T) {
    forall i :: 0 <= i < |parts| ==> sep !in parts[i]
  }

  /** Splitting inverts joining parts that are free of the separator. */
  lemma {:induction false} SplitOfJoin<T>(parts: seq<seq<T>>, sep: T)
    requires parts != [] && Free(parts, sep)
    ensures Split(Join(parts, sep), sep) == parts
  {
    if |parts| == 1 {
      SplitOfOnePart(parts[0], sep);
    } else {
      var front, last := parts[..|parts| - 1], parts[|parts| - 1];
      SplitOfJoin(front, sep);
      SplitOfLastPart(Join(front, sep), last, sep);
      assert parts == front + [last];
    }
  }

  lemma JoinsDiffer<T>(a: seq<seq<T>>, b: seq<seq<T>>, sep: T)
    requires a != [] && b != [] && Free(a, sep) && Free(b, sep)
    ensures Join(a, sep) == Join(b, sep) <==> a == b
  {
    SplitOfJoin(a, sep);
    SplitOfJoin(b, sep);
  }

  lemma LastOfJoin<T>(front: seq<seq<T>>, last: seq<T>, sep: T)
    ensures Join(front + [last], sep) == if front == [] then last else Join(front, sep) + [sep] + last
  {
    assert (front + [last])[..|front|] == front;
  }

  lemma JoinWithEmptyPart<T>(parts: seq<seq<T>>, sep: T)
    requires parts != []
    ensures Join(parts + [[]], sep) == Join(parts, sep) + [sep]
  {
    LastOfJoin(parts, [], sep);
  }

  lemma JoinWithLongerLast<T>(front: seq<seq<T>>, last: seq<T>, more: seq<T>, sep: T)
    ensures Join(front + [last + more], sep) == Join(front + [last], sep) + more
  {
    hide Join;
    LastOfJoin(front, last, sep);
    LastOfJoin(front, last + more, sep);
    Reassociate(Join(front, sep) + [sep], last, more);
  }

  lemma JoinWithLongerPart<T>(parts: seq<seq<T>>, more: seq<T>, sep: T)
    requires parts != []
    ensures Join(parts[..|parts| - 1] + [parts[|parts| - 1] + more], sep) == Join(parts, sep) + more
  {
    var front, last := parts[..|parts| - 1], parts[|parts| - 1];
    JoinWithLongerLast(front, last, more, sep);
    hide *;
    assert Join(front + [last], sep) == Join(parts, sep) by {
      assert parts == front + [last];
    }
  }

  /** Joining adds no element but the separator. */
  lemma {:induction false} JoinIsFree<T>(parts: seq<seq<T>>, sep: T, other: T)
    requires Free(parts, other) && sep != other
    ensures other !in Join(parts, sep)
  {
    if |parts| > 1 {
      JoinIsFree(parts[..|parts| - 1], sep, other);
    }
  }

  /** Texts that agree agree up to the first separator and after it. */
  lemma CutAtFirst<T>(a: seq<T>, x: seq<T>, b: seq<T>, y: seq<T>, sep: T)
    requires sep !in a && sep !in b
    requires a + [sep] + x == b + [sep] + y
    ensures a == b && x == y
  {
    FirstSeparator(a, x, sep);
    FirstSeparator(b, y, sep);
    var u, v := a + [sep] + x, b + [sep] + y;
    assert u[|a|] == sep && v[|b|] == sep;
    assert u[..|a|] == a && v[..|b|] == b;
    assert u[|a| + 1..] == x && v[|b| + 1..] == y;
  }

  lemma FirstSeparator<T>(a: seq<T>, x: seq<T>, sep: T)
    requires sep !in a
    ensures var u := a + [sep] + x; u[|a|] == sep && forall k :: 0 <= k < |a| ==> u[k] != sep
  {
    assert forall k :: 0 <= k < |a| ==> (a + [sep] + x)[k] == a[k];
  }

  lemma {:induction false} JoinOfCons<T>(x: seq<T>, parts: seq<seq<T>>, sep: T)
    requires parts != []
    ensures Join([x] + parts, sep) == x + [sep] + Join(parts, sep)
  {
    var front, last := parts[..|parts| - 1], parts[|parts| - 1];
    assert parts == front + [last] && [x] + parts == ([x] + front) + [last];
    LastOfJoin([x] + front, last, sep);
    LastOfJoin(front, last, sep);
    if front == [] {
      assert [x] + front == [x];
    } else {
      JoinOfCons(x, front, sep);
      assert x + [sep] + Join(front, sep) + [sep] + last == x + [sep] + (Join(front, sep) + [sep] + last);
    }
  }

  /** A start of the text that ends at a separator, and is longer than the
      first part, has the whole second part in it. */
  lemma LongerStart<T>(s: seq<T>, d: seq<T>, x: seq<T>, longer: seq<T>, y: seq<T>, sep: T)
    requires s + [sep] + (d + x) == longer + [sep] + y && sep !in d && |longer| > |s|
    ensures sep in longer && |longer| >= |s| + 1 + |d| && longer == (s + [sep]) + d + longer[|s| + 1 + |d|..]
  {
    var u := s + [sep] + (d + x);
    assert longer == u[..|longer|];
    assert longer[|s|] == u[|s|] == sep;
    forall k | |s| < k <= |s| + |d|
      ensures u[k] != sep
    {
      assert u[k] == d[k - |s| - 1];
    }
    assert u[|longer|] == sep;
    assert u[..|s| + 1 + |d|] == s + [sep] + d;
  }

  /** One separator can be the end of one first half only. */
  lemma OneSeparator<T>(a: seq<T>, x: seq<T>, b: seq<T>, y: seq<T>, sep: T)
    requires sep !in a && sep !in x && a + [sep] + x == b + [sep] + y
    ensures a == b && x == y
  {
    var u := a + [sep] + x;
    assert u[|b|] == sep;
    assert forall k :: 0 <= k < |u| && k != |a| ==> u[k] != sep by {
      forall k | 0 <= k < |u| && k != |a|
        ensures u[k] != sep
      {
        assert k < |a| ==> u[k] == a[k];
        assert k > |a| ==> u[k] == x[k - |a| - 1];
      }
    }
    assert |a| == |b|;
    assert u[..|a|] == a && (b + [sep] + y)[..|b|] == b;
    assert u[|a| + 1..] == x && (b + [sep] + y)[|b| + 1..] == y;
  }

  lemma CutSomewhere<T>(s: seq<T>, sep: T) returns (a: seq<T>, b: seq<T>)
    requires sep in s
    ensures s == a + [sep] + b
  {
    var k :| 0 <= k < |s| && s[k] == sep;
    a, b := s[..k], s[k + 1..];
  }

  /** A join has a separator between any two parts, and those in the parts. */
  lemma {:induction false} SeparatorsOfJoin<T>(parts: seq<seq<T>>, sep: T)
    requires parts != []
    ensures multiset(Join(parts, sep))[sep] >= |parts| - 1
    ensures multiset(Join(parts, sep))[sep] == |parts| - 1 <==> Free(parts, sep)
  {
    var front, last := parts[..|parts| - 1], parts[|parts| - 1];
    assert parts == front + [last];
    LastOfJoin(front, last, sep);
    FreeOfLast(front, last, sep);
    hide *;
    if front == [] {
      Occurrences([], last, sep);
    } else {
      SeparatorsOfJoin(front, sep);
      Occurrences(Join(front, sep), last, sep);
    }
  }

  lemma FreeOfLast<T>(front: seq<seq<T>>, last: seq<T>, sep: T)
    ensures Free(front + [last], sep) <==> Free(front, sep) && sep !in last
    ensures Free([], sep)
  {
    var parts := front + [last];
    assert parts[|front|] == last && forall i :: 0 <= i < |front| ==> parts[i] == front[i];
  }

  lemma Occurrences<T>(a: seq<T>, b: seq<T>, sep: T)
    ensures multiset(a + [sep] + b)[sep] == multiset(a)[sep] + 1 + multiset(b)[sep]
    ensures sep in b <==> multiset(b)[sep] > 0
  {
  }

  /** Two neighbours and what they are joined to have the same join. */
  lemma {:induction false} MergeParts<T>(head: seq<seq<T>>, u: seq<T>, v: seq<T>, tail: seq<seq<T>>, sep: T)
    ensures Join(head + [u, v] + tail, sep) == Join(head + [u + [sep] + v] + tail, sep)
  {
    hide Join;
    if tail == [] {
      Reassociate(u, [sep], v);
      assert head + [u, v] + tail == (head + [u]) + [v];
      assert head + [u + [sep] + v] + tail == head + [u + ([sep] + v)];
      LastOfJoin(head + [u], v, sep);
      JoinWithLongerLast(head, u, [sep] + v, sep);
      Reassociate(Join(head + [u], sep), [sep], v);
    } else {
      var front, last := tail[..|tail| - 1], tail[|tail| - 1];
      MergeParts(head, u, v, front, sep);
      assert head + [u, v] + tail == (head + [u, v] + front) + [last];
      assert head + [u + [sep] + v] + tail == (head + [u + [sep] + v] + front) + [last];
      LastOfJoin(head + [u, v] + front, last, sep);
      LastOfJoin(head + [u + [sep] + v] + front, last, sep);
    }
  }

  /** A separator inside a part can change sides with one between parts. */
  lemma SeparatorsMove<T>(head: seq<seq<T>>, x: seq<T>, y: seq<T>, z: seq<T>, tail: seq<seq<T>>, sep: T)
    ensures Join(head + [x + [sep] + y, z] + tail, sep) == Join(head + [x, y + [sep] + z] + tail, sep)
  {
    MergeParts(head, x + [sep] + y, z, tail, sep);
    MergeParts(head, x, y + [sep] + z, tail, sep);
    assert (x + [sep] + y) + [sep] + z == x + [sep] + (y + [sep] + z);
  }

  lemma AnotherSplitting<T>(parts: seq<seq<T>>, sep: T) returns (other: seq<seq<T>>)
    requires |parts| > 1 && !Free(parts, sep)
    ensures |other| == |parts| && other != parts && Join(other, sep) == Join(parts, sep)
  {
    hide Join;
    var i :| 0 <= i < |parts| && sep in parts[i];
    var x, y := CutSomewhere(parts[i], sep);
    if i < |parts| - 1 {
      var head, z, tail := parts[..i], parts[i + 1], parts[i + 2..];
      SeparatorsMove(head, x, y, z, tail, sep);
      assert parts == head + [x + [sep] + y, z] + tail;
      other := head + [x, y + [sep] + z] + tail;
      assert |other[i]| < |parts[i]|;
    } else {
      var head, w := parts[..i - 1], parts[i - 1];
      SeparatorsMove(head, w, x, y, [], sep);
      assert parts == head + [w, x + [sep] + y] + [];
      other := head + [w + [sep] + x, y] + [];
      assert |other[i]| < |parts[i]|;
    }
  }

  /** Among lists of its length a list is told by its join from every other
      exactly when it has at most one part or no part with the separator. */
  lemma JoinIsUniqueIff<T(!new)>(parts: seq<seq<T>>, sep: T)
    ensures (forall other :: |other| == |parts| && Join(other, sep) == Join(parts, sep) ==> other == parts)
       <==> |parts| <= 1 || Free(parts, sep)
  {
    hide Free;
    if |parts| <= 1 {
      forall other | |other| == |parts| && Join(other, sep) == Join(parts, sep)
        ensures other == parts
      {
        if parts != [] {
          assert other == [other[0]] && parts == [parts[0]];
        }
      }
    } else if Free(parts, sep) {
      hide Join;
      forall other | |other| == |parts| && Join(other, sep) == Join(parts, sep)
        ensures other == parts
      {
        SeparatorsOfJoin(parts, sep);
        SeparatorsOfJoin(other, sep);
        JoinsDiffer(other, parts, sep);
      }
    } else {
      var other := AnotherSplitting(parts, sep);
    }
  }
}
