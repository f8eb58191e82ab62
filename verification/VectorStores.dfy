/** The two vector stores, one in memory and one over MySQL: replacing the
    chunks of a document by those of a new version, and ranked search. */
module VectorStores {
  import opened Prelude
  import opened RagModel
  import opened Sequences
  import opened VectorSearch
  import Lexicographic
  import Sorting

  /** Entries by chunk id. */
  type Entries = map<string, Entry>

  const MAX_SCOPE_CHUNKS := 10_000

  ghost predicate Keyed(es: Entries) { forall id :: id in es ==> es[id].chunk.id == id }

  predicate OfDocument(c: Chunk, scope: Scope, documentId: string) { c.scope == scope && c.documentId == documentId }

  /* ---- Replacing documents ---- */

  function DropDocument(es: Entries, scope: Scope, documentId: string): Entries {
    map id | id in es && !OfDocument(es[id].chunk, scope, documentId) :: es[id]
  }

  function DropAll(es: Entries, chunks: seq<Chunk>): Entries {
    if chunks == [] then es
    else
      var c := chunks[|chunks| - 1];
      DropDocument(DropAll(es, chunks[..|chunks| - 1]), c.scope, c.documentId)
  }

  function PutAll(es: Entries, chunks: seq<Chunk>, vectors: seq<Vector>): Entries
    requires |chunks| == |vectors|
  {
    if chunks == [] then es
    else
      var k := |chunks| - 1;
      PutAll(es, chunks[..k], vectors[..k])[chunks[k].id := Entry(chunks[k], vectors[k])]
  }

  function Replaced(es: Entries, chunks: seq<Chunk>, vectors: seq<Vector>): Entries
    requires |chunks| == |vectors|
  {
    PutAll(DropAll(es, chunks), chunks, vectors)
  }

  predicate InBatch(c: Chunk, chunks: seq<Chunk>) {
    exists i :: 0 <= i < |chunks| && OfDocument(c, chunks[i].scope, chunks[i].documentId)
  }

  predicate HasId(chunks: seq<Chunk>, id: string) { exists i :: 0 <= i < |chunks| && chunks[i].id == id }

  /** e is a chunk of the batch with this id. */
  predicate IsOneOf(e: Entry, chunks: seq<Chunk>, vectors: seq<Vector>, id: string)
    requires |chunks| == |vectors|
  {
    exists i :: 0 <= i < |chunks| && chunks[i].id == id && e == Entry(chunks[i], vectors[i])
  }

  lemma {:induction false} DropAllKeeps(es: Entries, chunks: seq<Chunk>, id: string)
    ensures id in DropAll(es, chunks) <==> id in es && !InBatch(es[id].chunk, chunks)
    ensures id in DropAll(es, chunks) ==> DropAll(es, chunks)[id] == es[id]
  {
    if chunks != [] {
      var front, last := chunks[..|chunks| - 1], chunks[|chunks| - 1];
      DropAllKeeps(es, front, id);
      assert chunks == front + [last];
      if id in es {
        assert InBatch(es[id].chunk, chunks) <==>
          InBatch(es[id].chunk, front) || OfDocument(es[id].chunk, last.scope, last.documentId);
      }
    }
  }

  lemma {:induction false} PutAllKeeps(es: Entries, chunks: seq<Chunk>, vectors: seq<Vector>, id: string)
    requires |chunks| == |vectors|
    ensures id in PutAll(es, chunks, vectors) <==> id in es || HasId(chunks, id)
    ensures id in es && !HasId(chunks, id) ==> PutAll(es, chunks, vectors)[id] == es[id]
    ensures HasId(chunks, id) ==> IsOneOf(PutAll(es, chunks, vectors)[id], chunks, vectors, id)
  {
    if chunks != [] {
      var k := |chunks| - 1;
      PutAllKeeps(es, chunks[..k], vectors[..k], id);
      assert HasId(chunks, id) <==> HasId(chunks[..k], id) || chunks[k].id == id;
    }
  }

  /** What is in the store after a batch: the batch, and every other entry that
      belongs to no document of the batch and has none of its ids. */
  lemma ReplacedEntries(es: Entries, chunks: seq<Chunk>, vectors: seq<Vector>, id: string)
    requires |chunks| == |vectors|
    ensures !HasId(chunks, id) ==>
      (id in Replaced(es, chunks, vectors) <==> id in es && !InBatch(es[id].chunk, chunks))
      && (id in Replaced(es, chunks, vectors) ==> Replaced(es, chunks, vectors)[id] == es[id])
    ensures HasId(chunks, id) ==>
      id in Replaced(es, chunks, vectors) && IsOneOf(Replaced(es, chunks, vectors)[id], chunks, vectors, id)
  {
    DropAllKeeps(es, chunks, id);
    PutAllKeeps(DropAll(es, chunks), chunks, vectors, id);
  }

  lemma ReplacedIsKeyed(es: Entries, chunks: seq<Chunk>, vectors: seq<Vector>)
    requires |chunks| == |vectors| && Keyed(es)
    ensures Keyed(Replaced(es, chunks, vectors))
  {
    forall id | id in Replaced(es, chunks, vectors)
      ensures Replaced(es, chunks, vectors)[id].chunk.id == id
    {
      ReplacedEntries(es, chunks, vectors, id);
    }
  }

  /* ---- Matching ---- */

  datatype Ask = Ask(score: Scorer, scope: Scope, query: Vector, options: Options, trustedToo: bool)

  predicate Eligible(e: Entry, ask: Ask) {
    && e.chunk.scope == ask.scope && !Expired(e.chunk, ask.options.now) && (ask.trustedToo || e.chunk.untrusted)
    && ask.score(ask.query, e.vector) >= ask.options.minScore
  }

  function HitOf(e: Entry, ask: Ask): Hit { Hit(e.chunk, ask.score(ask.query, e.vector)) }

  /** The hits among the entries with these ids. */
  function MatchingAmong(es: Entries, ids: set<string>, ask: Ask): set<Hit> {
    set id | id in ids && id in es && Eligible(es[id], ask) :: HitOf(es[id], ask)
  }

  function Matching(es: Entries, ask: Ask): set<Hit> { MatchingAmong(es, es.Keys, ask) }

  lemma MatchingGrows(es: Entries, ids: set<string>, id: string, ask: Ask)
    requires Keyed(es) && id in es && id !in ids
    ensures MatchingAmong(es, ids + {id}, ask)
         == MatchingAmong(es, ids, ask) + if Eligible(es[id], ask) then {HitOf(es[id], ask)} else {}
    ensures HitOf(es[id], ask) !in MatchingAmong(es, ids, ask)
  {
    hide Eligible;
  }

  lemma MatchesTellApart(es: Entries, ask: Ask)
    requires Keyed(es)
    ensures IdsTellApart(Matching(es, ask))
  {
    hide Eligible;
  }

  lemma ListsGrow(found: seq<Hit>, all: set<Hit>, h: Hit)
    requires Sorting.Lists(found, all) && h !in all
    ensures Sorting.Lists(found + [h], all + {h})
  {
  }

  /* ---- In memory ---- */

  predicate BadChunk(c: Chunk, v: Vector, dim: nat) { !ValidScope(c.scope) || c.id == "" || !ValidVector(v, dim) }

  /** Why a batch is refused. */
  function BatchError(chunks: seq<Chunk>, vectors: seq<Vector>, dim: nat, cancelled: bool): Option<Error> {
    if |chunks| != |vectors| then Some(InvalidInput)
    else if exists i :: 0 <= i < |chunks| && BadChunk(chunks[i], vectors[i], dim) then Some(InvalidInput)
    else if cancelled then Some(Cancelled)
    else None
  }

  class MemoryVectorStore {
    var entries: Entries
    const dim: nat

    constructor (dim: nat)
      ensures this.dim == dim && entries == map[] && Keyed(entries)
    {
      this.dim := dim;
      entries := map[];
    }

    /** The whole batch is checked before anything is replaced. */
    method Upsert(chunks: seq<Chunk>, vectors: seq<Vector>, cancelled: bool) returns (error: Option<Error>)
      requires Keyed(entries)
      modifies this
      ensures Keyed(entries) && error == BatchError(chunks, vectors, dim, cancelled)
      ensures error.Some? ==> entries == old(entries)
      ensures error.None? ==> |chunks| == |vectors| && entries == Replaced(old(entries), chunks, vectors)
    {
      hide BadChunk;
      if |chunks| != |vectors| {
        return Some(InvalidInput);
      }
      var i := 0;
      while i < |chunks|
        invariant 0 <= i <= |chunks|
        invariant forall k :: 0 <= k < i ==> !BadChunk(chunks[k], vectors[k], dim)
      {
        if BadChunk(chunks[i], vectors[i], dim) {
          return Some(InvalidInput);
        }
        i := i + 1;
      }
      if cancelled {
        return Some(Cancelled);
      }
      i := 0;
      while i < |chunks|
        invariant 0 <= i <= |chunks|
        invariant entries == DropAll(old(entries), chunks[..i])
      {
        assert chunks[..i + 1][..i] == chunks[..i];
        DropOne(chunks[i].scope, chunks[i].documentId);
        i := i + 1;
      }
      assert chunks[..|chunks|] == chunks && vectors[..|chunks|] == vectors;
      ghost var cleared := entries;
      i := 0;
      while i < |chunks|
        invariant 0 <= i <= |chunks|
        invariant entries == PutAll(cleared, chunks[..i], vectors[..i])
      {
        assert chunks[..i + 1][..i] == chunks[..i] && vectors[..i + 1][..i] == vectors[..i];
        entries := entries[chunks[i].id := Entry(chunks[i], vectors[i])];
        i := i + 1;
      }
      ReplacedIsKeyed(old(entries), chunks, vectors);
      error := None;
    }

    /** Deletes, while going through the map, what belongs to one document. */
    method DropOne(scope: Scope, documentId: string)
      modifies this
      ensures entries == DropDocument(old(entries), scope, documentId)
    {
      ghost var was := entries;
      var rest := entries.Keys;
      while rest != {}
        invariant rest <= was.Keys
        invariant entries == map id | id in was && (id in rest || !OfDocument(was[id].chunk, scope, documentId)) :: was[id]
        decreases rest
      {
        var id :| id in rest;
        rest := rest - {id};
        if OfDocument(entries[id].chunk, scope, documentId) {
          entries := entries - {id};
        }
      }
    }

    method Search(score: Scorer, scope: Scope, query: Vector, options: Options) returns (r: SearchResult)
      requires Keyed(entries)
      ensures r.Found? <==> ValidScope(scope) && ValidVector(query, dim)
      ensures r.SearchFailed? ==> r.error == InvalidInput
      ensures r.Found? ==> IsTop(r.hits, Matching(entries, Ask(score, scope, query, options, true)), Limit(options))
    {
      hide Sorting.Sort, Eligible, Sorting.Lists, IdsTellApart, IsTop;
      if !ValidScope(scope) || !ValidVector(query, dim) {
        return SearchFailed(InvalidInput);
      }
      var ask := Ask(score, scope, query, options, true);
      var rest := entries.Keys;
      var found: seq<Hit> := [];
      NothingFound(entries, ask);
      while rest != {}
        invariant rest <= entries.Keys
        invariant Sorting.Lists(found, MatchingAmong(entries, entries.Keys - rest, ask))
        decreases rest
      {
        var id :| id in rest;
        var h := HitOf(entries[id], ask);
        MatchingGrows(entries, entries.Keys - rest, id, ask);
        ListsGrow(found, MatchingAmong(entries, entries.Keys - rest, ask), h);
        assert entries.Keys - (rest - {id}) == (entries.Keys - rest) + {id};
        rest := rest - {id};
        if Eligible(entries[id], ask) {
          found := found + [h];
        } else {
          assert MatchingAmong(entries, entries.Keys - rest - {id}, ask) + {} == MatchingAmong(entries, entries.Keys - rest - {id}, ask);
        }
      }
      assert entries.Keys - rest == entries.Keys;
      MatchesTellApart(entries, ask);
      BatchIsTop(found, Matching(entries, ask), Limit(options));
      var a := new Hit[|found|](k requires 0 <= k < |found| => found[k]);
      assert a[..] == found;
      Sorting.SortArray(a, Ahead);
      r := Found(Take(a[..], Limit(options)));
    }

    /** A cancellation is noticed before the next entry is looked at: after
        `patience` of them, if there are more.  `seen` are the entries the
        loop got to, which may be any of them. */
    method DeleteDocument(scope: Scope, documentId: string, patience: Option<nat>)
      returns (error: Option<Error>, ghost seen: set<string>)
      modifies this
      ensures error == DeleteError(old(entries), scope, documentId, patience)
      ensures seen <= old(entries).Keys
      ensures |seen| == if error == Some(InvalidInput) then 0
                        else if error == Some(Cancelled) then patience.value else |old(entries)|
      ensures entries == AfterVisits(old(entries), seen, scope, documentId)
      ensures error.None? ==> entries == DropDocument(old(entries), scope, documentId) && entries != old(entries)
      ensures error == Some(InvalidInput) || error == Some(DocumentNotFound) ==> entries == old(entries)
    {
      hide ValidScope, BlankName, OfDocument, AfterVisits, DropDocument;
      ghost var was := entries;
      NothingVisited(was, scope, documentId);
      if !ValidScope(scope) || BlankName(documentId) {
        return Some(InvalidInput), {};
      }
      var found, turns := false, 0;
      var rest := entries.Keys;
      assert |rest| == |was|;
      while rest != {}
        invariant rest <= was.Keys && |was.Keys - rest| == turns && turns + |rest| == |was|
        invariant patience.Some? ==> turns <= patience.value
        invariant entries == AfterVisits(was, was.Keys - rest, scope, documentId)
        invariant found <==> entries != was
        decreases rest
      {
        if patience == Some(turns) {
          return Some(Cancelled), was.Keys - rest;
        }
        turns := turns + 1;
        var id :| id in rest;
        VisitOne(was, rest, id, scope, documentId);
        rest := rest - {id};
        if OfDocument(entries[id].chunk, scope, documentId) {
          entries := entries - {id};
          found := true;
        }
      }
      seen := was.Keys;
      assert was.Keys - rest == was.Keys;
      AllVisited(was, scope, documentId);
      error := if found then None else Some(DocumentNotFound);
    }
  }

  /* ---- Deletes that are cancelled ---- */

  /** The ids of a document's entries. */
  function DocumentRows(es: Entries, scope: Scope, documentId: string): set<string> {
    set id | id in es && OfDocument(es[id].chunk, scope, documentId)
  }

  /** What is left when a delete has got to these entries. */
  function AfterVisits(es: Entries, seen: set<string>, scope: Scope, documentId: string): Entries {
    map id | id in es && !(id in seen && OfDocument(es[id].chunk, scope, documentId)) :: es[id]
  }

  function DeleteError(es: Entries, scope: Scope, documentId: string, patience: Option<nat>): Option<Error> {
    if !ValidScope(scope) || BlankName(documentId) then Some(InvalidInput)
    else if patience.Some? && patience.value < |es| then Some(Cancelled)
    else if DocumentRows(es, scope, documentId) == {} then Some(DocumentNotFound)
    else None
  }

  lemma NothingVisited(es: Entries, scope: Scope, documentId: string)
    ensures AfterVisits(es, {}, scope, documentId) == es && es.Keys - es.Keys == {}
    ensures |es| == |es.Keys|
  {
  }

  lemma VisitOne(es: Entries, rest: set<string>, id: string, scope: Scope, documentId: string)
    requires rest <= es.Keys && id in rest
    ensures var before, seen := AfterVisits(es, es.Keys - rest, scope, documentId), es.Keys - (rest - {id});
      && seen == (es.Keys - rest) + {id} && |seen| == |es.Keys - rest| + 1 && id in before && before[id] == es[id]
      && before - {id} != es
      && AfterVisits(es, seen, scope, documentId) == if OfDocument(es[id].chunk, scope, documentId) then before - {id} else before
  {
    var before, seen := AfterVisits(es, es.Keys - rest, scope, documentId), es.Keys - (rest - {id});
    assert seen == (es.Keys - rest) + {id};
    assert id !in before - {id};
  }

  lemma AllVisited(es: Entries, scope: Scope, documentId: string)
    ensures AfterVisits(es, es.Keys, scope, documentId) == DropDocument(es, scope, documentId)
    ensures DropDocument(es, scope, documentId) == es <==> DocumentRows(es, scope, documentId) == {}
  {
    if id :| id in DocumentRows(es, scope, documentId) {
      assert id !in DropDocument(es, scope, documentId);
    } else {
      assert forall id :: id in es ==> !OfDocument(es[id].chunk, scope, documentId) by {
        forall id | id in es
          ensures !OfDocument(es[id].chunk, scope, documentId)
        {
          assert id !in DocumentRows(es, scope, documentId);
        }
      }
    }
  }

  /** The document is neither untouched nor gone. */
  ghost predicate HalfDeleted(es: Entries, seen: set<string>, scope: Scope, documentId: string) {
    && AfterVisits(es, seen, scope, documentId) != es
    && AfterVisits(es, seen, scope, documentId) != DropDocument(es, scope, documentId)
  }

  lemma HalfDeletedMeans(es: Entries, seen: set<string>, scope: Scope, documentId: string)
    requires seen <= es.Keys
    ensures HalfDeleted(es, seen, scope, documentId) <==>
      && (exists x :: x in DocumentRows(es, scope, documentId) && x in seen)
      && (exists y :: y in DocumentRows(es, scope, documentId) && y !in seen)
  {
    var after, gone := AfterVisits(es, seen, scope, documentId), DropDocument(es, scope, documentId);
    if x :| x in DocumentRows(es, scope, documentId) && x in seen {
      assert x !in after;
    }
    if y :| y in DocumentRows(es, scope, documentId) && y !in seen {
      assert y in after && y !in gone;
    }
  }

  lemma {:induction false} SubsetOfSize(s: set<string>, k: nat) returns (t: set<string>)
    requires k <= |s|
    ensures t <= s && |t| == k
  {
    if k == 0 {
      t := {};
    } else {
      var x :| x in s;
      t := SubsetOfSize(s - {x}, k - 1);
      t := t + {x};
    }
  }

  lemma TwoMembers(s: set<string>, x: string, y: string)
    requires x in s && y in s && x != y
    ensures |s| >= 2 && |s - {x, y}| == |s| - 2
  {
    assert s - {x, y} == (s - {x}) - {y};
    assert |s - {x}| == |s| - 1 && |(s - {x}) - {y}| == |s - {x}| - 1;
  }

  lemma HalfDeletedNeeds(es: Entries, seen: set<string>, scope: Scope, documentId: string)
    requires seen <= es.Keys && HalfDeleted(es, seen, scope, documentId)
    ensures 0 < |seen| < |es| && |DocumentRows(es, scope, documentId)| >= 2
  {
    HalfDeletedMeans(es, seen, scope, documentId);
    var x :| x in DocumentRows(es, scope, documentId) && x in seen;
    var y :| y in DocumentRows(es, scope, documentId) && y !in seen;
    TwoMembers(DocumentRows(es, scope, documentId), x, y);
    assert seen <= es.Keys - {y};
    FewerMembers(seen, es.Keys - {y});
  }

  lemma FewerMembers(s: set<string>, t: set<string>)
    requires s <= t
    ensures |s| <= |t|
  {
    assert t == s + (t - s);
  }

  /** A delete that is cancelled after p entries can leave half a document
      exactly when it got to one entry, not to all, and the document has two. */
  lemma CancelledDeleteIsPartialIff(es: Entries, p: nat, scope: Scope, documentId: string)
    ensures (exists seen :: seen <= es.Keys && |seen| == p && HalfDeleted(es, seen, scope, documentId))
       <==> 0 < p < |es| && |DocumentRows(es, scope, documentId)| >= 2
  {
    forall seen | seen <= es.Keys && |seen| == p && HalfDeleted(es, seen, scope, documentId)
      ensures 0 < p < |es| && |DocumentRows(es, scope, documentId)| >= 2
    {
      HalfDeletedNeeds(es, seen, scope, documentId);
    }
    var rows := DocumentRows(es, scope, documentId);
    if 0 < p < |es| && |rows| >= 2 {
      var x :| x in rows;
      assert |rows - {x}| >= 1;
      var y :| y in rows - {x};
      TwoMembers(es.Keys, x, y);
      var others := SubsetOfSize(es.Keys - {x, y}, p - 1);
      var seen := others + {x};
      assert seen <= es.Keys && |seen| == p && x in seen && y !in seen;
      HalfDeletedMeans(es, seen, scope, documentId);
    }
  }

  /** How much of the document is gone by then: at most p of its entries, and
      at least p less the entries that are not its own. */
  lemma CancelledDeleteRemoves(es: Entries, seen: set<string>, scope: Scope, documentId: string)
    requires seen <= es.Keys
    ensures var rows, left := DocumentRows(es, scope, documentId), DocumentRows(AfterVisits(es, seen, scope, documentId), scope, documentId);
      && left <= rows && rows - left == seen * rows
      && |seen| - (|es| - |rows|) <= |rows - left| <= |seen|
  {
    var rows, left := DocumentRows(es, scope, documentId), DocumentRows(AfterVisits(es, seen, scope, documentId), scope, documentId);
    assert left <= rows && rows - left == seen * rows && rows <= es.Keys && |es| == |es.Keys|;
    hide *;
    ManyInCommon(seen, rows, es.Keys);
  }

  lemma ManyInCommon(s: set<string>, t: set<string>, all: set<string>)
    requires s <= all && t <= all
    ensures |s| - (|all| - |t|) <= |s * t| <= |s|
  {
    FewerMembers(s * t, s);
    FewerMembers(s - t, all - t);
    assert s == s * t + (s - t);
    assert all == t + (all - t);
  }

  /** For instance: with two chunks of a document in the store, a delete that
      is cancelled after one entry always leaves the other. */
  lemma HalfADocumentIsLeft(a: Chunk, b: Chunk, v: Vector, seen: set<string>)
    requires OfDocument(b, a.scope, a.documentId) && a.id != b.id && ValidScope(a.scope) && !BlankName(a.documentId)
    requires seen <= {a.id, b.id} && |seen| == 1
    ensures var es := map[a.id := Entry(a, v), b.id := Entry(b, v)];
      && DeleteError(es, a.scope, a.documentId, Some(1)) == Some(Cancelled)
      && |es| == 2 && |AfterVisits(es, seen, a.scope, a.documentId)| == 1
      && HalfDeleted(es, seen, a.scope, a.documentId)
  {
    hide ValidScope, BlankName;
    var es := map[a.id := Entry(a, v), b.id := Entry(b, v)];
    assert es.Keys == {a.id, b.id};
    var x :| x in seen;
    assert |seen - {x}| == 0;
    assert seen == {x};
    var other := if x == a.id then b.id else a.id;
    assert x in DocumentRows(es, a.scope, a.documentId) && other in DocumentRows(es, a.scope, a.documentId);
    HalfDeletedMeans(es, seen, a.scope, a.documentId);
    var after := AfterVisits(es, seen, a.scope, a.documentId);
    assert after.Keys == {other};
    assert |after| == |after.Keys|;
    assert |es| == |es.Keys|;
  }

  lemma NothingFound(es: Entries, ask: Ask)
    ensures Sorting.Lists([], MatchingAmong(es, es.Keys - es.Keys, ask))
  {
  }

  /* ---- Over MySQL ---- */

  /** The ids of a scope's chunks, or of those outside one of its documents. */
  function RowsOf(es: Entries, scope: Scope): set<string> { set id | id in es && es[id].chunk.scope == scope }

  function OtherRows(es: Entries, scope: Scope, documentId: string): set<string> {
    set id | id in es && es[id].chunk.scope == scope && es[id].chunk.documentId != documentId
  }

  ghost predicate WithinCapacity(es: Entries) { forall scope: Scope :: |RowsOf(es, scope)| <= MAX_SCOPE_CHUNKS }

  ghost predicate VectorsValid(es: Entries, dim: nat) { forall id :: id in es ==> ValidVector(es[id].vector, dim) }

  predicate OneVersion(chunks: seq<Chunk>, vectors: seq<Vector>, dim: nat)
    requires |chunks| == |vectors| > 0
  {
    forall i :: 0 <= i < |chunks| ==>
      && OfDocument(chunks[i], chunks[0].scope, chunks[0].documentId) && chunks[i].version == chunks[0].version
      && chunks[i].documentSHA == chunks[0].documentSHA && chunks[i].id != "" && ValidVector(vectors[i], dim)
  }

  /** INSERT meets a key that is there already. */
  predicate Collides(es: Entries, chunks: seq<Chunk>) {
    exists i :: 0 <= i < |chunks| && (chunks[i].id in es || HasId(chunks[..i], chunks[i].id))
  }

  function UpsertError(es: Entries, chunks: seq<Chunk>, vectors: seq<Vector>, dim: nat): Option<Error> {
    if |chunks| == 0 || |chunks| > 128 || |chunks| != |vectors| then Some(InvalidInput)
    else if !ValidScope(chunks[0].scope) || |chunks[0].documentId| > 128 || |chunks[0].version| > 128 then Some(InvalidInput)
    else if !OneVersion(chunks, vectors, dim) then Some(InvalidInput)
    else if |OtherRows(es, chunks[0].scope, chunks[0].documentId)| + |chunks| > MAX_SCOPE_CHUNKS then Some(ScopeCapacity)
    else if Collides(DropDocument(es, chunks[0].scope, chunks[0].documentId), chunks) then Some(DuplicateKey)
    else None
  }

  /** The document row: the digest and version the chunks were made from. */
  datatype Recorded = Recorded(documentSHA: string, version: string)

  /** The rows the search reads before this one. */
  ghost function RowsBefore(es: Entries, scope: Scope, id: string): set<string> {
    set other | other in RowsOf(es, scope) && other != id && Lexicographic.LexLe(other, id)
  }

  /** Among the first MAX_SCOPE_CHUNKS rows of the scope is a bad vector. */
  ghost predicate MeetsBadVector(es: Entries, scope: Scope, dim: nat) {
    exists id :: id in RowsOf(es, scope) && |RowsBefore(es, scope, id)| < MAX_SCOPE_CHUNKS && !ValidVector(es[id].vector, dim)
  }

  ghost function SearchError(es: Entries, scope: Scope, query: Vector, options: Options, dim: nat): Option<Error> {
    if !ValidScope(scope) || !ValidVector(query, dim) || Limit(options) > 20 then Some(InvalidInput)
    else if MeetsBadVector(es, scope, dim) then Some(Unavailable)
    else if |RowsOf(es, scope)| > MAX_SCOPE_CHUNKS then Some(ScopeCapacity)
    else None
  }

  class MySqlVectorStore {
    var rows: Entries
    var documents: map<(Scope, string), Recorded>
    const dim: nat

    constructor (dim: nat)
      ensures this.dim == dim && rows == map[] && documents == map[] && Keyed(rows)
    {
      this.dim := dim;
      rows, documents := map[], map[];
    }

    /** One transaction: delete the document's rows, insert the new ones; a
        failed insert rolls everything back. */
    method Upsert(chunks: seq<Chunk>, vectors: seq<Vector>) returns (error: Option<Error>)
      requires Keyed(rows)
      modifies this
      ensures Keyed(rows) && error == UpsertError(old(rows), chunks, vectors, dim)
      ensures error.Some? ==> rows == old(rows) && documents == old(documents)
      ensures error.None? ==> |chunks| == |vectors| > 0 && rows == Replaced(old(rows), chunks, vectors)
      ensures error.None? ==>
        documents == old(documents)[(chunks[0].scope, chunks[0].documentId) := Recorded(chunks[0].documentSHA, chunks[0].version)]
    {
      hide ValidScope, ValidVector, Keyed, PutAll, DropDocument, DropAll, HasId, OtherRows;
      if |chunks| == 0 || |chunks| > 128 || |chunks| != |vectors| {
        return Some(InvalidInput);
      }
      var first := chunks[0];
      if !ValidScope(first.scope) || |first.documentId| > 128 || |first.version| > 128 {
        return Some(InvalidInput);
      }
      if !OneVersion(chunks, vectors, dim) {
        return Some(InvalidInput);
      }
      if |OtherRows(rows, first.scope, first.documentId)| + |chunks| > MAX_SCOPE_CHUNKS {
        return Some(ScopeCapacity);
      }
      var cleared := DropDocument(rows, first.scope, first.documentId);
      var table := cleared;
      var i := 0;
      NothingPut(cleared, chunks, vectors);
      while i < |chunks|
        invariant 0 <= i <= |chunks| && rows == old(rows) && documents == old(documents)
        invariant table == PutAll(cleared, chunks[..i], vectors[..i])
        invariant forall k :: 0 <= k < i ==> chunks[k].id !in cleared && !HasId(chunks[..k], chunks[k].id)
      {
        PutOneMore(cleared, chunks, vectors, i);
        PutAllKeeps(cleared, chunks[..i], vectors[..i], chunks[i].id);
        if chunks[i].id in table {
          return Some(DuplicateKey);
        }
        table := table[chunks[i].id := Entry(chunks[i], vectors[i])];
        i := i + 1;
      }
      assert chunks[..|chunks|] == chunks && vectors[..|chunks|] == vectors;
      OneDocumentDropsOnce(rows, chunks);
      ReplacedIsKeyed(rows, chunks, vectors);
      rows := table;
      documents := documents[(first.scope, first.documentId) := Recorded(first.documentSHA, first.version)];
      error := None;
    }

    /** Reads the scope's rows by id, keeping only the best k as it goes. */
    method Search(score: Scorer, scope: Scope, query: Vector, options: Options) returns (r: SearchResult)
      requires Keyed(rows)
      ensures match SearchError(rows, scope, query, options, dim)
              case Some(error) => r == SearchFailed(error)
              case None => r.Found?
      ensures r.Found? ==> IsTop(r.hits, Matching(rows, Ask(score, scope, query, options, false)), Limit(options))
    {
      hide Sorting.Sort, Eligible, IsTop, ValidScope, ValidVector, MatchingAmong, Lexicographic.IsListing, Ahead, Sorting.Lists, RowsBefore, MeetsBadVector;
      if !ValidScope(scope) || !ValidVector(query, dim) {
        return SearchFailed(InvalidInput);
      }
      var limit := Limit(options);
      if limit > 20 {
        return SearchFailed(InvalidInput);
      }
      var ask := Ask(score, scope, query, options, false);
      var ids := Lexicographic.Listing(RowsOf(rows, scope));
      ListedIds(ids, RowsOf(rows, scope));
      ReadInOrder(rows, scope, ids, dim);
      var hits: seq<Hit> := [];
      ghost var read: seq<Hit> := [];
      var count := 0;
      NothingRead(rows, ids, ask);
      while count < |ids|
        invariant 0 <= count <= |ids|
        invariant forall k :: 0 <= k < count ==> ValidVector(rows[ids[k]].vector, dim)
        invariant count <= MAX_SCOPE_CHUNKS
        invariant hits == Take(Sorting.Sort(read, Ahead), limit)
        invariant Sorting.Lists(read, MatchingAmong(rows, Elements(ids[..count]), ask))
      {
        var e := rows[ids[count]];
        if count + 1 > MAX_SCOPE_CHUNKS {
          return SearchFailed(ScopeCapacity);
        }
        if !ValidVector(e.vector, dim) {
          return SearchFailed(Unavailable);
        }
        OneMoreId(rows, ids, count, ask, read);
        count := count + 1;
        if !Eligible(e, ask) {
          continue;
        }
        var h := HitOf(e, ask);
        StreamStep(hits, read, h, limit);
        read := read + [h];
        var a := new Hit[|hits| + 1](k requires 0 <= k < |hits| + 1 => if k < |hits| then hits[k] else h);
        assert a[..] == hits + [h];
        Sorting.SortArray(a, Ahead);
        hits := Take(a[..], limit);
      }
      AllRead(rows, ids, ask);
      MatchesTellApart(rows, ask);
      BatchIsTop(read, Matching(rows, ask), limit);
      r := Found(hits);
    }

    method DeleteDocument(scope: Scope, documentId: string) returns (error: Option<Error>)
      modifies this
      ensures error == if !ValidScope(scope) || documentId == "" then Some(InvalidInput)
                       else if (scope, documentId) !in old(documents) then Some(DocumentNotFound) else None
      ensures error.Some? ==> rows == old(rows) && documents == old(documents)
      ensures error.None? ==>
        rows == DropDocument(old(rows), scope, documentId) && documents == old(documents) - {(scope, documentId)}
    {
      if !ValidScope(scope) || documentId == "" {
        return Some(InvalidInput);
      }
      if (scope, documentId) !in documents {
        return Some(DocumentNotFound);
      }
      documents := documents - {(scope, documentId)};
      rows := DropDocument(rows, scope, documentId);
      error := None;
    }
  }

  lemma {:induction false} DropsOnce(es: Entries, chunks: seq<Chunk>, c: Chunk)
    requires chunks != [] && forall i :: 0 <= i < |chunks| ==> OfDocument(chunks[i], c.scope, c.documentId)
    ensures DropAll(es, chunks) == DropDocument(es, c.scope, c.documentId)
  {
    if |chunks| > 1 {
      DropsOnce(es, chunks[..|chunks| - 1], c);
    }
  }

  lemma NothingPut(es: Entries, chunks: seq<Chunk>, vectors: seq<Vector>)
    ensures PutAll(es, chunks[..0], vectors[..0]) == es
  {
  }

  lemma PutOneMore(es: Entries, chunks: seq<Chunk>, vectors: seq<Vector>, i: nat)
    requires i < |chunks| == |vectors|
    ensures PutAll(es, chunks[..i + 1], vectors[..i + 1])
         == PutAll(es, chunks[..i], vectors[..i])[chunks[i].id := Entry(chunks[i], vectors[i])]
  {
    assert chunks[..i + 1][..i] == chunks[..i] && vectors[..i + 1][..i] == vectors[..i];
  }

  lemma OneDocumentDropsOnce(es: Entries, chunks: seq<Chunk>)
    requires chunks != [] && forall i :: 0 <= i < |chunks| ==> OfDocument(chunks[i], chunks[0].scope, chunks[0].documentId)
    ensures DropAll(es, chunks) == DropDocument(es, chunks[0].scope, chunks[0].documentId)
  {
    DropsOnce(es, chunks, chunks[0]);
  }

  lemma ListedIds(ids: seq<string>, content: set<string>)
    requires Lexicographic.IsListing(ids, content)
    ensures |ids| == |content| && Elements(ids) == content && (forall id :: id in content ==> id in ids)
    ensures forall i :: 0 <= i < |ids| ==> ids[i] in content && ids[i] !in ids[..i]
  {
    Sorting.ListMultiset(ids, content);
    assert |ids| == |multiset(ids)| == |multiset(content)| == |content|;
    assert forall i :: 0 <= i < |ids| ==> ids[i] in ids;
  }

  lemma ListedBefore(es: Entries, scope: Scope, ids: seq<string>, k: nat)
    requires Lexicographic.IsListing(ids, RowsOf(es, scope)) && k < |ids|
    ensures RowsBefore(es, scope, ids[k]) == Elements(ids[..k]) && |RowsBefore(es, scope, ids[k])| == k
  {
    ListedIds(ids, RowsOf(es, scope));
    Lexicographic.LexIsTotalOn(ids);
    hide Lexicographic.LexLe;
    forall other | other in RowsOf(es, scope)
      ensures other in RowsBefore(es, scope, ids[k]) <==> other in ids[..k]
    {
      assert other in ids;
      var i :| 0 <= i < |ids| && ids[i] == other;
      if i < k {
        assert Lexicographic.LexLe(ids[i], ids[k]);
        assert ids[..k][i] == other;
        assert ids[i] != ids[k];
      } else if k < i {
        assert Lexicographic.LexLe(ids[k], ids[i]);
        assert ids[i] !in ids[..i];
        assert forall x :: x in ids[..k] ==> x in ids[..i];
      }
    }
    CountDistinct(ids[..k]);
  }

  lemma {:induction false} CountDistinct(ids: seq<string>)
    requires forall i :: 0 <= i < |ids| ==> ids[i] !in ids[..i]
    ensures |Elements(ids)| == |ids|
  {
    if ids != [] {
      var front, last := ids[..|ids| - 1], ids[|ids| - 1];
      assert forall i :: 0 <= i < |front| ==> front[..i] == ids[..i];
      CountDistinct(front);
      assert ids == front + [last];
      assert Elements(ids) == Elements(front) + {last};
    }
  }

  /** The first bad vector in reading order decides. */
  lemma ReadInOrder(es: Entries, scope: Scope, ids: seq<string>, dim: nat)
    requires Lexicographic.IsListing(ids, RowsOf(es, scope))
    ensures forall i :: 0 <= i < |ids| ==> ids[i] in es
    ensures MeetsBadVector(es, scope, dim) <==>
      exists k :: 0 <= k < |ids| && k < MAX_SCOPE_CHUNKS && !ValidVector(es[ids[k]].vector, dim)
  {
    hide ValidVector, RowsBefore;
    ListedIds(ids, RowsOf(es, scope));
    forall k | 0 <= k < |ids|
      ensures |RowsBefore(es, scope, ids[k])| == k && ids[k] in RowsOf(es, scope)
    {
      ListedBefore(es, scope, ids, k);
    }
    if MeetsBadVector(es, scope, dim) {
      var id :| id in RowsOf(es, scope) && |RowsBefore(es, scope, id)| < MAX_SCOPE_CHUNKS && !ValidVector(es[id].vector, dim);
      assert id in ids;
      var k :| 0 <= k < |ids| && ids[k] == id;
    }
  }

  lemma NothingRead(es: Entries, ids: seq<string>, ask: Ask)
    ensures Sorting.Lists([], MatchingAmong(es, Elements(ids[..0]), ask))
    ensures Sorting.Sort([], Ahead) == []
  {
  }

  lemma OneMoreId(es: Entries, ids: seq<string>, count: nat, ask: Ask, read: seq<Hit>)
    requires Keyed(es) && count < |ids| && ids[count] in es && ids[count] !in ids[..count]
    requires Sorting.Lists(read, MatchingAmong(es, Elements(ids[..count]), ask))
    ensures var h := HitOf(es[ids[count]], ask); var after := MatchingAmong(es, Elements(ids[..count + 1]), ask);
      && (Eligible(es[ids[count]], ask) ==> Sorting.Lists(read + [h], after) && IdsTell(read + [h]))
      && (!Eligible(es[ids[count]], ask) ==> Sorting.Lists(read, after))
  {
    hide Eligible;
    var id, before := ids[count], Elements(ids[..count]);
    var h := HitOf(es[id], ask);
    assert ids[..count + 1] == ids[..count] + [id];
    assert Elements(ids[..count + 1]) == before + {id};
    MatchingGrows(es, before, id, ask);
    ListsGrow(read, MatchingAmong(es, before, ask), h);
    assert MatchingAmong(es, before, ask) + {} == MatchingAmong(es, before, ask);
    if Eligible(es[id], ask) {
      assert forall x :: x in read + [h] ==> x in MatchingAmong(es, before + {id}, ask);
    }
  }

  /** The rows of the scope are the only ones that can match. */
  lemma AllRead(es: Entries, ids: seq<string>, ask: Ask)
    requires Elements(ids) == RowsOf(es, ask.scope)
    ensures MatchingAmong(es, Elements(ids[..|ids|]), ask) == Matching(es, ask)
  {
    assert ids[..|ids|] == ids;
  }
}
