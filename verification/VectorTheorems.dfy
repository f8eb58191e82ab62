/** What searches return after documents are replaced or deleted, and that the
    two stores answer alike. */
module VectorTheorems {
  import opened Prelude
  import opened RagModel
  import opened VectorSearch
  import opened VectorStores
  import Lexicographic
  import Sorting

  lemma HitHasEntry(es: Entries, ask: Ask, h: Hit) returns (id: string)
    requires h in Matching(es, ask)
    ensures id in es && Eligible(es[id], ask) && h == HitOf(es[id], ask) && h.chunk == es[id].chunk
  {
    id :| id in es.Keys && id in es && Eligible(es[id], ask) && HitOf(es[id], ask) == h;
  }

  /** After a batch, a search finds of the batch's documents only chunks of the
      batch: nothing of an older version is left. */
  lemma OnlyTheNewVersionIsFound(es: Entries, chunks: seq<Chunk>, vectors: seq<Vector>, ask: Ask, hits: seq<Hit>, k: nat, h: Hit)
    requires |chunks| == |vectors| && IsTop(hits, Matching(Replaced(es, chunks, vectors), ask), k)
    requires h in hits && InBatch(h.chunk, chunks)
    ensures h.chunk in chunks && h.chunk.scope == ask.scope
  {
    hide Replaced, Matching;
    TopMeans(hits, Matching(Replaced(es, chunks, vectors), ask), k);
    var id := HitHasEntry(Replaced(es, chunks, vectors), ask, h);
    ReplacedEntries(es, chunks, vectors, id);
    assert HasId(chunks, id);
    var i :| 0 <= i < |chunks| && chunks[i].id == id && Replaced(es, chunks, vectors)[id] == Entry(chunks[i], vectors[i]);
  }

  /** A batch with none of a scope's documents and none of its chunk ids leaves
      every search of that scope as it was. */
  lemma OtherScopesAreUntouched(es: Entries, chunks: seq<Chunk>, vectors: seq<Vector>, ask: Ask)
    requires |chunks| == |vectors| && forall i :: 0 <= i < |chunks| ==> chunks[i].scope != ask.scope
    requires forall id :: id in es && es[id].chunk.scope == ask.scope ==> !HasId(chunks, id)
    ensures Matching(Replaced(es, chunks, vectors), ask) == Matching(es, ask)
  {
    hide Replaced, HasId;
    var after := Replaced(es, chunks, vectors);
    forall id | id in es && Eligible(es[id], ask)
      ensures id in after && after[id] == es[id]
    {
      ReplacedEntries(es, chunks, vectors, id);
      assert !InBatch(es[id].chunk, chunks);
    }
    forall id | id in after && Eligible(after[id], ask)
      ensures id in es && after[id] == es[id]
    {
      ReplacedEntries(es, chunks, vectors, id);
      assert !HasId(chunks, id);
    }
    forall h | h in Matching(es, ask)
      ensures h in Matching(after, ask)
    {
      var id := HitHasEntry(es, ask, h);
      assert id in after.Keys;
    }
    forall h | h in Matching(after, ask)
      ensures h in Matching(es, ask)
    {
      var id := HitHasEntry(after, ask, h);
      assert id in es.Keys;
    }
  }

  /** A deleted document is found no more. */
  lemma DeletedDocumentsAreNotFound(es: Entries, documentId: string, ask: Ask, hits: seq<Hit>, k: nat, h: Hit)
    requires IsTop(hits, Matching(DropDocument(es, ask.scope, documentId), ask), k) && h in hits
    ensures h.chunk.documentId != documentId
  {
    hide Matching;
    TopMeans(hits, Matching(DropDocument(es, ask.scope, documentId), ask), k);
    var id := HitHasEntry(DropDocument(es, ask.scope, documentId), ask, h);
  }

  lemma {:induction false} PutAllDecides(a: Entries, b: Entries, chunks: seq<Chunk>, vectors: seq<Vector>, id: string)
    requires |chunks| == |vectors| && HasId(chunks, id)
    ensures id in PutAll(a, chunks, vectors) && id in PutAll(b, chunks, vectors)
    ensures PutAll(a, chunks, vectors)[id] == PutAll(b, chunks, vectors)[id]
  {
    var k := |chunks| - 1;
    if chunks[k].id != id {
      assert HasId(chunks[..k], id) by {
        var i :| 0 <= i < |chunks| && chunks[i].id == id;
        assert chunks[..k][i].id == id;
      }
      PutAllDecides(a, b, chunks[..k], vectors[..k], id);
    }
  }

  /** Ingesting the same batch again changes nothing. */
  lemma ReplacingIsIdempotent(es: Entries, chunks: seq<Chunk>, vectors: seq<Vector>)
    requires |chunks| == |vectors|
    ensures Replaced(Replaced(es, chunks, vectors), chunks, vectors) == Replaced(es, chunks, vectors)
  {
    var once := Replaced(es, chunks, vectors);
    var twice := Replaced(once, chunks, vectors);
    forall id
      ensures id in twice <==> id in once
      ensures id in once ==> twice[id] == once[id]
    {
      ReplacedEntries(es, chunks, vectors, id);
      ReplacedEntries(once, chunks, vectors, id);
      if HasId(chunks, id) {
        PutAllDecides(DropAll(es, chunks), DropAll(once, chunks), chunks, vectors, id);
      }
    }
  }

  /* ---- The two stores ---- */

  /** On the same chunks, all of them marked untrusted, the store that reads
      row by row and the one that sorts everything return the same hits. */
  lemma StoresAnswerAlike(es: Entries, score: Scorer, scope: Scope, query: Vector, options: Options,
                          streamed: seq<Hit>, batched: seq<Hit>)
    requires Keyed(es) && forall id :: id in es ==> es[id].chunk.untrusted
    requires IsTop(streamed, Matching(es, Ask(score, scope, query, options, false)), Limit(options))
    requires IsTop(batched, Matching(es, Ask(score, scope, query, options, true)), Limit(options))
    ensures streamed == batched
  {
    var strict, lax := Ask(score, scope, query, options, false), Ask(score, scope, query, options, true);
    assert Matching(es, strict) == Matching(es, lax) by {
      forall h
        ensures h in Matching(es, strict) <==> h in Matching(es, lax)
      {
        if h in Matching(es, strict) {
          var id := HitHasEntry(es, strict, h);
          assert id in es.Keys && Eligible(es[id], lax);
        }
        if h in Matching(es, lax) {
          var id := HitHasEntry(es, lax, h);
          assert id in es.Keys && Eligible(es[id], strict);
        }
      }
    }
    MatchesTellApart(es, lax);
    TopIsUnique(streamed, batched, Matching(es, lax), Limit(options));
  }

  /* ---- Capacity ---- */

  function IdsOf(chunks: seq<Chunk>): set<string> { set c | c in chunks :: c.id }

  lemma {:induction false} NoMoreIdsThanChunks(chunks: seq<Chunk>)
    ensures |IdsOf(chunks)| <= |chunks|
  {
    if chunks != [] {
      var front, last := chunks[..|chunks| - 1], chunks[|chunks| - 1];
      assert chunks == front + [last];
      NoMoreIdsThanChunks(front);
      assert IdsOf(chunks) == IdsOf(front) + {last.id};
    }
  }

  lemma SubsetIsSmaller<T>(a: set<T>, b: set<T>)
    requires a <= b
    ensures |a| <= |b|
  {
    assert b == a + (b - a);
  }

  lemma RowsAfterUpsert(es: Entries, chunks: seq<Chunk>, vectors: seq<Vector>, dim: nat, scope: Scope)
    requires UpsertError(es, chunks, vectors, dim).None?
    ensures scope == chunks[0].scope ==>
      RowsOf(Replaced(es, chunks, vectors), scope) <= OtherRows(es, scope, chunks[0].documentId) + IdsOf(chunks)
    ensures scope != chunks[0].scope ==> RowsOf(Replaced(es, chunks, vectors), scope) <= RowsOf(es, scope)
  {
    hide Replaced, ValidScope, ValidVector, Collides;
    var after := Replaced(es, chunks, vectors);
    forall id | id in RowsOf(after, scope)
      ensures scope == chunks[0].scope ==> id in OtherRows(es, scope, chunks[0].documentId) + IdsOf(chunks)
      ensures scope != chunks[0].scope ==> id in RowsOf(es, scope)
    {
      ReplacedEntries(es, chunks, vectors, id);
      if HasId(chunks, id) {
        var i :| 0 <= i < |chunks| && chunks[i].id == id && after[id] == Entry(chunks[i], vectors[i]);
        assert chunks[i] in chunks;
      } else {
        assert !InBatch(es[id].chunk, chunks);
        assert OfDocument(chunks[0], chunks[0].scope, chunks[0].documentId);
      }
    }
  }

  /** Accepted batches keep every scope within its capacity and every stored
      vector valid, so a search never fails on what was stored. */
  lemma UpsertKeepsSearchable(es: Entries, chunks: seq<Chunk>, vectors: seq<Vector>, dim: nat)
    requires WithinCapacity(es) && VectorsValid(es, dim) && UpsertError(es, chunks, vectors, dim).None?
    ensures WithinCapacity(Replaced(es, chunks, vectors)) && VectorsValid(Replaced(es, chunks, vectors), dim)
  {
    hide Replaced, ValidScope, ValidVector, Collides, RowsOf, OtherRows;
    var after := Replaced(es, chunks, vectors);
    forall scope: Scope
      ensures |RowsOf(after, scope)| <= MAX_SCOPE_CHUNKS
    {
      RowsAfterUpsert(es, chunks, vectors, dim, scope);
      NoMoreIdsThanChunks(chunks);
      if scope == chunks[0].scope {
        SubsetIsSmaller(RowsOf(after, scope), OtherRows(es, scope, chunks[0].documentId) + IdsOf(chunks));
      } else {
        SubsetIsSmaller(RowsOf(after, scope), RowsOf(es, scope));
      }
    }
    forall id | id in after
      ensures ValidVector(after[id].vector, dim)
    {
      ReplacedEntries(es, chunks, vectors, id);
    }
  }

  /* ---- What a search returns and what a store accepts, on the fields ---- */

  /** The chunk may be shown: in the scope asked for, not expired, marked as
      untrusted where that is asked, and similar enough. */
  predicate MayBeShown(e: Entry, ask: Ask) {
    && e.chunk.scope.tenant == ask.scope.tenant && e.chunk.scope.project == ask.scope.project
    && (e.chunk.expiresAt == None || e.chunk.expiresAt.value > ask.options.now)
    && (ask.trustedToo || e.chunk.untrusted)
    && ask.options.minScore <= ask.score(ask.query, e.vector)
  }

  /** a is shown before b. */
  ghost predicate ShownBefore(a: Hit, b: Hit) {
    a.score > b.score || (a.score == b.score && exists k: nat :: Lexicographic.Before(a.chunk.id, b.chunk.id, k))
  }

  lemma MatchesMayBeShown(es: Entries, ask: Ask, h: Hit)
    ensures h in Matching(es, ask) <==>
      exists id :: id in es && MayBeShown(es[id], ask) && h == Hit(es[id].chunk, ask.score(ask.query, es[id].vector))
  {
    if h in Matching(es, ask) {
      var id := HitHasEntry(es, ask, h);
      assert MayBeShown(es[id], ask);
    }
    if id :| id in es && MayBeShown(es[id], ask) && h == Hit(es[id].chunk, ask.score(ask.query, es[id].vector)) {
      assert id in es.Keys && Eligible(es[id], ask) && HitOf(es[id], ask) == h;
    }
  }

  /** A search returns only chunks that may be shown, by falling score and then
      by rising identifier, no more than asked for (five if nothing is), and
      leaves one out only if the answer is full of ones shown before it. */
  lemma SearchReturns(es: Entries, ask: Ask, hits: seq<Hit>)
    requires IsTop(hits, Matching(es, ask), Limit(ask.options))
    ensures |hits| <= if ask.options.topK <= 0 then 5 else ask.options.topK
    ensures forall h :: h in hits ==>
      exists id :: id in es && MayBeShown(es[id], ask) && h == Hit(es[id].chunk, ask.score(ask.query, es[id].vector))
    ensures forall i, j :: 0 <= i < j < |hits| ==> ShownBefore(hits[i], hits[j])
    ensures forall id :: id in es && MayBeShown(es[id], ask) ==>
      var h := Hit(es[id].chunk, ask.score(ask.query, es[id].vector));
      || h in hits
      || (|hits| == (if ask.options.topK <= 0 then 5 else ask.options.topK) && forall g :: g in hits ==> ShownBefore(g, h))
  {
    hide Matching, MayBeShown, Lexicographic.LexLe, Lexicographic.Before, IsTop;
    TopMeans(hits, Matching(es, ask), Limit(ask.options));
    forall h | h in hits
      ensures exists id :: id in es && MayBeShown(es[id], ask) && h == Hit(es[id].chunk, ask.score(ask.query, es[id].vector))
    {
      MatchesMayBeShown(es, ask, h);
    }
    forall i, j | 0 <= i < j < |hits|
      ensures ShownBefore(hits[i], hits[j])
    {
      Lexicographic.LexMeans(hits[i].chunk.id, hits[j].chunk.id);
    }
    forall id | id in es && MayBeShown(es[id], ask)
      ensures var h := Hit(es[id].chunk, ask.score(ask.query, es[id].vector));
        || h in hits
        || (|hits| == (if ask.options.topK <= 0 then 5 else ask.options.topK) && forall g :: g in hits ==> ShownBefore(g, h))
    {
      var h := Hit(es[id].chunk, ask.score(ask.query, es[id].vector));
      MatchesMayBeShown(es, ask, h);
      if h !in hits {
        forall g | g in hits
          ensures ShownBefore(g, h)
        {
          assert Ahead(g, h);
          Lexicographic.LexMeans(g.chunk.id, h.chunk.id);
        }
        FullWithout(hits, Matching(es, ask), h, Limit(ask.options));
      }
    }
  }

  /** An answer that leaves a match out is full. */
  lemma FullWithout(hits: seq<Hit>, all: set<Hit>, h: Hit, k: nat)
    requires (forall g :: g in hits ==> g in all) && (forall i, j :: 0 <= i < j < |hits| ==> hits[i] != hits[j])
    requires h in all && h !in hits && |hits| == if |all| > k then k else |all|
    ensures |hits| == k
  {
    if |all| <= k {
      CountHits(hits);
      var found := set g | g in hits;
      SubsetIsSmaller(found + {h}, all);
    }
  }

  lemma {:induction false} CountHits(hits: seq<Hit>)
    requires forall i, j :: 0 <= i < j < |hits| ==> hits[i] != hits[j]
    ensures |set g | g in hits| == |hits|
  {
    if hits != [] {
      var front, last := hits[..|hits| - 1], hits[|hits| - 1];
      CountHits(front);
      assert hits == front + [last];
      assert last !in front;
      assert (set g | g in hits) == (set g | g in front) + {last};
    } else {
      assert (set g: Hit | g in hits) == {};
    }
  }

  /** A name of at most 64 bytes that is not blank. */
  ghost predicate ProperName(name: string) {
    |name| <= 64 && exists i :: 0 <= i < |name| && !IsSpace(name[i] as int)
  }

  ghost predicate ProperVector(v: Vector, dim: nat) {
    |v| == dim && forall i :: 0 <= i < |v| ==> v[i] != NotFinite
  }

  /** The store in memory accepts a batch exactly if every chunk has a proper
      scope, an identifier and a finite vector of the right dimension. */
  lemma BatchIsAcceptedIff(chunks: seq<Chunk>, vectors: seq<Vector>, dim: nat)
    ensures BatchError(chunks, vectors, dim, false).None? <==>
      && |chunks| == |vectors|
      && forall i :: 0 <= i < |chunks| && i < |vectors| ==>
           && ProperName(chunks[i].scope.tenant) && ProperName(chunks[i].scope.project) && chunks[i].id != ""
           && ProperVector(vectors[i], dim)
  {
    if |chunks| == |vectors| {
      forall i | 0 <= i < |chunks|
        ensures BadChunk(chunks[i], vectors[i], dim) <==>
          !(ProperName(chunks[i].scope.tenant) && ProperName(chunks[i].scope.project) && chunks[i].id != "" && ProperVector(vectors[i], dim))
      {
        GoodChunk(chunks[i], vectors[i], dim);
      }
    }
  }

  lemma GoodChunk(c: Chunk, v: Vector, dim: nat)
    ensures !BadChunk(c, v, dim) <==>
      ProperName(c.scope.tenant) && ProperName(c.scope.project) && c.id != "" && ProperVector(v, dim)
  {
    assert forall i :: 0 <= i < |v| ==> (v[i] != NotFinite <==> v[i].Finite?);
  }

  /** The one over MySQL, if it has 1 to 128 chunks, all of one document, version
      and digest in a proper scope, with identifiers that are new outside the
      document and distinct, and room for them. */
  lemma UpsertIsAcceptedIff(es: Entries, chunks: seq<Chunk>, vectors: seq<Vector>, dim: nat)
    ensures UpsertError(es, chunks, vectors, dim).None? <==>
      && 1 <= |chunks| <= 128 && |chunks| == |vectors|
      && ProperName(chunks[0].scope.tenant) && ProperName(chunks[0].scope.project)
      && |chunks[0].documentId| <= 128 && |chunks[0].version| <= 128
      && (forall i :: 0 <= i < |chunks| && i < |vectors| ==>
            && chunks[i].scope == chunks[0].scope && chunks[i].documentId == chunks[0].documentId
            && chunks[i].version == chunks[0].version && chunks[i].documentSHA == chunks[0].documentSHA
            && chunks[i].id != "" && ProperVector(vectors[i], dim))
      && |OtherRows(es, chunks[0].scope, chunks[0].documentId)| + |chunks| <= 10_000
      && (forall i, k :: 0 <= i < k < |chunks| ==> chunks[i].id != chunks[k].id)
      && (forall i :: 0 <= i < |chunks| && chunks[i].id in es ==>
            es[chunks[i].id].chunk.scope == chunks[0].scope && es[chunks[i].id].chunk.documentId == chunks[0].documentId)
  {
    if 1 <= |chunks| <= 128 && |chunks| == |vectors| {
      ProperScope(chunks[0].scope);
      forall i | 0 <= i < |vectors|
        ensures ValidVector(vectors[i], dim) <==> ProperVector(vectors[i], dim)
      {
        assert forall x :: 0 <= x < |vectors[i]| ==> (vectors[i][x] != NotFinite <==> vectors[i][x].Finite?);
      }
      CollisionsMean(es, chunks);
      hide ValidScope, ValidVector, ProperVector, ProperName, OtherRows, Collides, DropDocument;
    }
  }

  lemma ProperScope(s: Scope)
    ensures ValidScope(s) <==> ProperName(s.tenant) && ProperName(s.project)
  {
  }

  lemma CollisionsMean(es: Entries, chunks: seq<Chunk>)
    requires chunks != []
    ensures !Collides(DropDocument(es, chunks[0].scope, chunks[0].documentId), chunks) <==>
      && (forall i, k :: 0 <= i < k < |chunks| ==> chunks[i].id != chunks[k].id)
      && (forall i :: 0 <= i < |chunks| && chunks[i].id in es ==>
            es[chunks[i].id].chunk.scope == chunks[0].scope && es[chunks[i].id].chunk.documentId == chunks[0].documentId)
  {
    var left := DropDocument(es, chunks[0].scope, chunks[0].documentId);
    if Collides(left, chunks) {
      var i :| 0 <= i < |chunks| && (chunks[i].id in left || HasId(chunks[..i], chunks[i].id));
      if chunks[i].id !in left {
        var x :| 0 <= x < |chunks[..i]| && chunks[..i][x].id == chunks[i].id;
        assert chunks[x].id == chunks[i].id;
      }
    } else {
      forall i, k | 0 <= i < k < |chunks|
        ensures chunks[i].id != chunks[k].id
      {
        assert !HasId(chunks[..k], chunks[k].id);
        assert chunks[..k][i] == chunks[i];
      }
    }
  }

  /** The search over MySQL answers exactly if the question is proper, asks for
      no more than 20, and the scope holds at most 10000 chunks, all with a
      finite vector of the right dimension. */
  lemma MySqlSearchAnswersIff(es: Entries, scope: Scope, query: Vector, options: Options, dim: nat)
    ensures SearchError(es, scope, query, options, dim).None? <==>
      && ProperName(scope.tenant) && ProperName(scope.project) && ProperVector(query, dim) && options.topK <= 20
      && |RowsOf(es, scope)| <= 10_000
      && forall id :: id in es && es[id].chunk.scope == scope ==> ProperVector(es[id].vector, dim)
  {
    ProperScope(scope);
    forall v
      ensures ValidVector(v, dim) <==> ProperVector(v, dim)
    {
      ProperVectors(v, dim);
    }
    hide ValidScope, ValidVector, ProperName, ProperVector;
    if |RowsOf(es, scope)| <= 10_000 {
      forall id | id in RowsOf(es, scope)
        ensures |RowsBefore(es, scope, id)| < MAX_SCOPE_CHUNKS
      {
        SubsetIsSmaller(RowsBefore(es, scope, id) + {id}, RowsOf(es, scope));
      }
      assert forall id :: id in es && es[id].chunk.scope == scope <==> id in RowsOf(es, scope);
    }
  }

  lemma ProperVectors(v: Vector, dim: nat)
    ensures ValidVector(v, dim) <==> ProperVector(v, dim)
  {
    assert forall i :: 0 <= i < |v| ==> (v[i] != NotFinite <==> v[i].Finite?);
  }
}
