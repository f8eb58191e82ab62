/** Ranking of search hits: the total order, the top k of a set of hits, and
    why keeping only k hits while reading gives the same list. */
module VectorSearch {
  import opened Prelude
  import opened RagModel
  import Lexicographic
  import Sorting

  /** A float64: infinities and NaN are set apart. */
  datatype Float = Finite(value: real) | NotFinite

  type Vector = seq<Float>

  /** The similarity of two vectors. */
  type Scorer = (Vector, Vector) -> real

  datatype Entry = Entry(chunk: Chunk, vector: Vector)

  datatype Hit = Hit(chunk: Chunk, score: real)

  datatype Options = Options(topK: int, minScore: real, now: int)

  datatype Error = InvalidInput | DocumentNotFound | ScopeCapacity | Unavailable | Cancelled | DuplicateKey

  datatype SearchResult = SearchFailed(error: Error) | Found(hits: seq<Hit>)

  predicate ValidVector(v: Vector, dim: nat) { |v| == dim && forall i :: 0 <= i < |v| ==> v[i].Finite? }

  predicate Expired(c: Chunk, now: int) { c.expiresAt.Some? && c.expiresAt.value <= now }

  function Limit(options: Options): nat { if options.topK <= 0 then 5 else options.topK }

  /* ---- Order ---- */

  /** a may come before b: higher score, and the smaller id among equals. */
  predicate Ahead(a: Hit, b: Hit) {
    a.score > b.score || (a.score == b.score && Lexicographic.LexLe(a.chunk.id, b.chunk.id))
  }

  ghost predicate IdsTell(hits: seq<Hit>) {
    forall a, b :: a in hits && b in hits && a.chunk.id == b.chunk.id ==> a == b
  }

  lemma AheadIsTotal(hits: seq<Hit>)
    requires IdsTell(hits)
    ensures Sorting.TotalOn(Ahead, hits)
  {
    hide Lexicographic.LexLe;
    forall a, b | a in hits && b in hits
      ensures Ahead(a, b) || Ahead(b, a)
      ensures Ahead(a, b) && Ahead(b, a) ==> a == b
    {
      Lexicographic.LexTotal(a.chunk.id, b.chunk.id);
      if Ahead(a, b) && Ahead(b, a) {
        Lexicographic.LexAntisymmetric(a.chunk.id, b.chunk.id);
      }
    }
    forall a, b, c | a in hits && b in hits && c in hits && Ahead(a, b) && Ahead(b, c)
      ensures Ahead(a, c)
    {
      if a.score == b.score == c.score {
        Lexicographic.LexTransitive(a.chunk.id, b.chunk.id, c.chunk.id);
      }
    }
  }

  /* ---- The first k ---- */

  function Take<T>(s: seq<T>, k: nat): (r: seq<T>)
    ensures |r| == if |s| > k then k else |s|
  {
    if |s| > k then s[..k] else s
  }

  /** `hits` are the first k of the ranking of `all`. */
  ghost predicate IsTop(hits: seq<Hit>, all: set<Hit>, k: nat) {
    exists ranking :: IsRanking(ranking, all) && hits == Take(ranking, k)
  }

  ghost predicate IsRanking(ranking: seq<Hit>, all: set<Hit>) {
    Sorting.Lists(ranking, all) && Sorting.Sorted(ranking, Ahead)
  }

  ghost predicate IdsTellApart(all: set<Hit>) {
    forall a, b :: a in all && b in all && a.chunk.id == b.chunk.id ==> a == b
  }

  /** What it means to be the top k: no hit outside `all`, none twice, in
      order, k of them if there are as many, and none passed over for a lesser. */
  lemma TopMeans(hits: seq<Hit>, all: set<Hit>, k: nat)
    requires IsTop(hits, all, k)
    ensures forall h :: h in hits ==> h in all
    ensures forall i, j :: 0 <= i < j < |hits| ==> hits[i] != hits[j] && Ahead(hits[i], hits[j])
    ensures |hits| == if |all| > k then k else |all|
    ensures forall h, g :: h in all && h !in hits && g in hits ==> Ahead(g, h)
  {
    hide Ahead;
    var ranking :| IsRanking(ranking, all) && hits == Take(ranking, k);
    Sorting.ListMultiset(ranking, all);
    assert |ranking| == |multiset(ranking)| == |multiset(all)| == |all|;
    forall h, g | h in all && h !in hits && g in hits
      ensures Ahead(g, h)
    {
      assert h in ranking;
      var i :| 0 <= i < |ranking| && ranking[i] == h;
      var j :| 0 <= j < |hits| && hits[j] == g;
      assert ranking[j] == g;
      assert forall x :: 0 <= x < |hits| ==> ranking[x] in hits;
      assert i >= |hits|;
    }
  }

  /** The top k are determined. */
  lemma TopIsUnique(a: seq<Hit>, b: seq<Hit>, all: set<Hit>, k: nat)
    requires IdsTellApart(all) && IsTop(a, all, k) && IsTop(b, all, k)
    ensures a == b
  {
    hide Ahead;
    var r :| IsRanking(r, all) && a == Take(r, k);
    var q :| IsRanking(q, all) && b == Take(q, k);
    Sorting.ListMultiset(r, all);
    Sorting.ListMultiset(q, all);
    AheadIsTotal(r);
    Sorting.SortedPermutationUnique(r, q, Ahead);
  }

  /** Batch: sorting any listing of the hits and cutting it gives the top k. */
  lemma BatchIsTop(list: seq<Hit>, all: set<Hit>, k: nat)
    requires IdsTellApart(all) && Sorting.Lists(list, all)
    ensures IsTop(Take(Sorting.Sort(list, Ahead), k), all, k)
  {
    hide Ahead;
    AheadIsTotal(list);
    Sorting.SortIsSorted(list, Ahead);
    Sorting.SortPermutes(list, Ahead);
    Sorting.PermutedListLists(list, Sorting.Sort(list, Ahead), all);
    assert IsRanking(Sorting.Sort(list, Ahead), all);
  }

  /* ---- Streaming ---- */

  /** Inserting below the first k does not change the first k. */
  lemma {:induction false} TakeOfInsert(h: Hit, s: seq<Hit>, k: nat)
    ensures Take(Sorting.Insert(h, s, Ahead), k) == Take(Sorting.Insert(h, Take(s, k), Ahead), k)
  {
    hide Ahead;
    if s != [] && k > 0 && !Ahead(h, s[0]) {
      var t := Take(s, k);
      TakeOfInsert(h, s[1..], k - 1);
      assert t[0] == s[0] && t[1..] == Take(s[1..], k - 1);
      TakeOfCons(s[0], Sorting.Insert(h, s[1..], Ahead), k);
      TakeOfCons(s[0], Sorting.Insert(h, t[1..], Ahead), k);
    } else if s != [] && k == 0 {
      assert Take(s, k) == [];
    } else if s != [] {
      TakeOfCons(h, s, k);
      TakeOfCons(h, Take(s, k), k);
      TakeTwice(s, k);
    }
  }

  lemma TakeOfCons<T>(x: T, s: seq<T>, k: nat)
    requires k > 0
    ensures Take([x] + s, k) == [x] + Take(s, k - 1)
  {
  }

  lemma TakeTwice<T>(s: seq<T>, k: nat)
    requires k > 0
    ensures Take(Take(s, k), k - 1) == Take(s, k - 1)
  {
  }

  lemma KeptIsSorted(read: seq<Hit>, k: nat)
    requires IdsTell(read)
    ensures var kept := Take(Sorting.Sort(read, Ahead), k); Sorting.Sort(kept, Ahead) == kept
  {
    hide Ahead, Sorting.Sort;
    var sorted := Sorting.Sort(read, Ahead);
    AheadIsTotal(read);
    Sorting.SortIsSorted(read, Ahead);
    Sorting.SortPermutes(read, Ahead);
    Sorting.SameElements(sorted, read);
    var kept := Take(sorted, k);
    assert forall x :: x in kept ==> x in sorted;
    AheadIsTotal(kept);
    Sorting.SortedIsFixpoint(kept, Ahead);
  }

  /** One more row: append, sort and cut the k hits kept so far gives what
      sorting and cutting everything read so far gives. */
  lemma StreamStep(kept: seq<Hit>, read: seq<Hit>, h: Hit, k: nat)
    requires IdsTell(read + [h]) && kept == Take(Sorting.Sort(read, Ahead), k)
    ensures Take(Sorting.Sort(kept + [h], Ahead), k) == Take(Sorting.Sort(read + [h], Ahead), k)
  {
    hide Ahead, Sorting.Sort, Sorting.Insert;
    assert forall x :: x in read ==> x in read + [h];
    KeptIsSorted(read, k);
    SortOfAppend(read, h);
    SortOfAppend(kept, h);
    TakeOfInsert(h, Sorting.Sort(read, Ahead), k);
  }

  lemma SortOfAppend(s: seq<Hit>, h: Hit)
    ensures Sorting.Sort(s + [h], Ahead) == Sorting.Insert(h, Sorting.Sort(s, Ahead), Ahead)
  {
    assert (s + [h])[..|s|] == s;
  }
}
