/** Rearranging concatenations and slices. */
module Sequences {

  lemma Reassociate<T>(a: seq<T>, b: seq<T>, c: seq<T>)
    ensures a + (b + c) == (a + b) + c
  {
  }

  lemma Consed<T>(x: T, rest: seq<T>)
    ensures ([x] + rest)[0] == x && ([x] + rest)[1..] == rest
  {
  }

  lemma SliceInThree<T>(s: seq<T>, i: nat, x: nat, y: nat)
    requires i <= x <= y <= |s|
    ensures s[i..] == s[i..x] + s[x..y] + s[y..]
  {
  }

  lemma SliceOfTail<T>(a: seq<T>, b: seq<T>, lo: nat, n: nat)
    requires lo + n <= |b|
    ensures (a + b)[|a| + lo..|a| + lo + n] == b[lo..lo + n]
  {
  }

  lemma TakeAfterHead<T>(x: T, s: seq<T>, n: nat)
    requires 1 <= n <= |s| + 1
    ensures ([x] + s)[0..n] == [x] + s[..n - 1]
  {
  }

  lemma SliceOfSlice<T>(s: seq<T>, a: nat, b: nat, lo: nat, hi: nat)
    requires a <= b <= |s| && lo <= hi <= b - a
    ensures s[a..b][lo..hi] == s[a + lo..a + hi]
  {
    var part := s[a..b];
    forall k | 0 <= k < hi - lo
      ensures part[lo..hi][k] == s[a + lo..a + hi][k]
    {
      assert part[lo + k] == s[a + lo + k];
    }
  }

  function Elements<T>(s: seq<T>): set<T> { set x | x in s }
}
