/** Cutting a document into overlapping windows of bounded size that prefer to
    end at a line break, and the chunks left of them. */
module Chunker {
  import opened Prelude
  import opened RagModel
  import opened Sequences

  const NEWLINE_RUNE: Rune := 10

  datatype Config = Config(maxRunes: int, overlapRunes: int) {
    predicate Valid() { 32 <= maxRunes <= 16_000 && 0 <= overlapRunes < maxRunes }

    /** Zero stands for a default; None is the refusal. */
    function Normalized(): (r: Option<Config>)
      ensures r.Some? ==> r.value.Valid()
      ensures Valid() && overlapRunes > 0 ==> r == Some(this)
      ensures r.Some? && maxRunes == 0 ==> r.value.maxRunes == 800
      ensures r.Some? && overlapRunes == 0 ==> r.value.overlapRunes == 100
      ensures r.Some? <==>
        && (maxRunes == 0 || 32 <= maxRunes <= 16_000)
        && 0 <= overlapRunes && (maxRunes == 0 ==> overlapRunes < 800) && (maxRunes != 0 ==> overlapRunes < maxRunes)
        && (overlapRunes == 0 && maxRunes != 0 ==> maxRunes > 100)
    {
      var c := Config(if maxRunes == 0 then 800 else maxRunes, if overlapRunes == 0 then 100 else overlapRunes);
      if c.Valid() then Some(c) else None
    }
  }

  /* ---- Windows ---- */

  datatype Window = Window(start: nat, end: nat)

  /** The largest cut in (floor, candidate] just behind a line break. */
  function LastBreak(runes: seq<Rune>, candidate: nat, floor: nat): (r: Option<nat>)
    requires candidate <= |runes|
    ensures r.Some? ==> floor < r.value <= candidate && runes[r.value - 1] == NEWLINE_RUNE
    ensures r.Some? ==> forall k :: r.value <= k < candidate ==> runes[k] != NEWLINE_RUNE
    ensures r.None? ==> forall k :: floor <= k < candidate ==> runes[k] != NEWLINE_RUNE
  {
    if candidate <= floor then None
    else if runes[candidate - 1] == NEWLINE_RUNE then Some(candidate)
    else LastBreak(runes, candidate - 1, floor)
  }

  function HardEnd(runes: seq<Rune>, start: nat, max: nat): nat {
    if start + max > |runes| then |runes| else start + max
  }

  function EndOf(runes: seq<Rune>, start: nat, max: nat): (end: nat)
    requires start < |runes| && max >= 1
    ensures start < end <= |runes| && end <= start + max
  {
    var end := HardEnd(runes, start, max);
    if end == |runes| then end
    else
      match LastBreak(runes, end, start + max / 2)
      case Some(candidate) => candidate
      case None => end
  }

  function NextStart(start: nat, end: nat, overlap: nat): (next: nat)
    requires start < end
    ensures start < next <= end
    ensures end - next == overlap || end == next
  {
    if end - overlap <= start then end else end - overlap
  }

  /** All windows from `start` on.  Each starts behind the one before it even
      when the overlap is more than half a window. */
  function Windows(runes: seq<Rune>, start: nat, cfg: Config): (ws: seq<Window>)
    requires start < |runes| && cfg.Valid()
    ensures ws != [] && ws[0].start == start
    decreases |runes| - start
  {
    var end := EndOf(runes, start, cfg.maxRunes);
    [Window(start, end)] + if end == |runes| then [] else Windows(runes, NextStart(start, end, cfg.overlapRunes), cfg)
  }

  /** Even a window that only goes back to a line break it shares with the one
      before it ends no earlier. */
  lemma NextEndsNoEarlier(runes: seq<Rune>, start: nat, cfg: Config)
    requires cfg.Valid() && start < |runes| && EndOf(runes, start, cfg.maxRunes) < |runes|
    ensures var end := EndOf(runes, start, cfg.maxRunes);
      EndOf(runes, NextStart(start, end, cfg.overlapRunes), cfg.maxRunes) >= end
  {
    var max := cfg.maxRunes;
    var end := EndOf(runes, start, max);
    var next := NextStart(start, end, cfg.overlapRunes);
    var full := HardEnd(runes, next, max);
    var cut := LastBreak(runes, full, next + max / 2);
    var own := LastBreak(runes, HardEnd(runes, start, max), start + max / 2);
    assert cut.Some? ==> runes[cut.value - 1] == NEWLINE_RUNE;
    assert own.Some? ==> runes[own.value - 1] == NEWLINE_RUNE;
  }

  /** The i-th window, and how the next one continues it. */
  lemma {:induction false} WindowAt(runes: seq<Rune>, start: nat, cfg: Config, i: nat)
    requires start < |runes| && cfg.Valid() && i < |Windows(runes, start, cfg)|
    ensures var ws := Windows(runes, start, cfg);
      && ws[i].start < |runes| && ws[i].end == EndOf(runes, ws[i].start, cfg.maxRunes)
      && (ws[i].end == |runes| <==> i == |ws| - 1)
      && (i < |ws| - 1 ==> ws[i + 1].start == NextStart(ws[i].start, ws[i].end, cfg.overlapRunes) && ws[i].end <= ws[i + 1].end)
    decreases |runes| - start
  {
    var ws := Windows(runes, start, cfg);
    var end := EndOf(runes, start, cfg.maxRunes);
    if end < |runes| {
      NextEndsNoEarlier(runes, start, cfg);
      hide EndOf, NextStart;
      var next := NextStart(start, end, cfg.overlapRunes);
      assert ws[1..] == Windows(runes, next, cfg);
      if i > 0 {
        WindowAt(runes, next, cfg, i - 1);
      }
    }
  }

  ghost predicate GoesOn(ws: seq<Window>, runes: seq<Rune>, cfg: Config, i: nat) {
    && i + 1 < |ws| && ws[i].start < ws[i + 1].start <= ws[i].end <= ws[i + 1].end
    && (ws[i].end - ws[i + 1].start == cfg.overlapRunes || ws[i + 1].start == ws[i].end)
  }

  lemma WindowFacts(runes: seq<Rune>, cfg: Config, i: nat)
    requires runes != [] && cfg.Valid() && i < |Windows(runes, 0, cfg)|
    ensures var ws := Windows(runes, 0, cfg);
      && ws[i].start < ws[i].end <= |runes| && ws[i].end - ws[i].start <= cfg.maxRunes
      && (if i == |ws| - 1 then ws[i].end == |runes| else GoesOn(ws, runes, cfg, i))
  {
    hide Windows, EndOf, NextStart;
    WindowAt(runes, 0, cfg, i);
  }

  /** Sizes, order, overlap, and no gap: successive windows overlap by the
      configured number of runes or by none. */
  lemma WindowsAdvance(runes: seq<Rune>, cfg: Config)
    requires runes != [] && cfg.Valid()
    ensures var ws := Windows(runes, 0, cfg);
      && ws[0].start == 0 && ws[|ws| - 1].end == |runes|
      && (forall i :: 0 <= i < |ws| ==> ws[i].start < ws[i].end <= |runes| && ws[i].end - ws[i].start <= cfg.maxRunes)
      && (forall i :: 0 <= i < |ws| - 1 ==> GoesOn(ws, runes, cfg, i))
  {
    hide Windows, EndOf, NextStart, GoesOn;
    var ws := Windows(runes, 0, cfg);
    forall i | 0 <= i < |ws|
      ensures ws[i].start < ws[i].end <= |runes| && ws[i].end - ws[i].start <= cfg.maxRunes
      ensures if i == |ws| - 1 then ws[i].end == |runes| else GoesOn(ws, runes, cfg, i)
    {
      WindowFacts(runes, cfg, i);
    }
  }

  /** A window ends at the document's end, behind the last line break of its
      second half, or at its full size when there is none. */
  lemma WindowsPreferLines(runes: seq<Rune>, cfg: Config, i: nat)
    requires runes != [] && cfg.Valid() && i < |Windows(runes, 0, cfg)|
    ensures var w := Windows(runes, 0, cfg)[i]; var full := w.start + cfg.maxRunes; var half := w.start + cfg.maxRunes / 2;
      && w.start < w.end <= |runes|
      && (|| (w.end == |runes| <= full)
          || (half < w.end <= full < |runes| && runes[w.end - 1] == NEWLINE_RUNE
              && forall k :: w.end <= k < full ==> runes[k] != NEWLINE_RUNE)
          || (w.end == full < |runes| && forall k :: half <= k < full ==> runes[k] != NEWLINE_RUNE))
  {
    hide Windows;
    WindowAt(runes, 0, cfg, i);
  }

  /** What the windows add to each other: each without the part the windows
      before it already had. */
  function Reassembled(runes: seq<Rune>, ws: seq<Window>, done: nat): seq<Rune>
    requires done <= |runes| && forall i :: 0 <= i < |ws| ==> ws[i].end <= |runes|
  {
    if ws == [] then []
    else if done <= ws[0].end then runes[done..ws[0].end] + Reassembled(runes, ws[1..], ws[0].end)
    else Reassembled(runes, ws[1..], done)
  }

  lemma EndsInBounds(runes: seq<Rune>, start: nat, cfg: Config)
    requires start < |runes| && cfg.Valid()
    ensures forall i :: 0 <= i < |Windows(runes, start, cfg)| ==> Windows(runes, start, cfg)[i].end <= |runes|
  {
    hide Windows, EndOf;
    forall i | 0 <= i < |Windows(runes, start, cfg)|
      ensures Windows(runes, start, cfg)[i].end <= |runes|
    {
      WindowAt(runes, start, cfg, i);
    }
  }

  lemma FirstWindow(runes: seq<Rune>, start: nat, cfg: Config)
    requires start < |runes| && cfg.Valid()
    ensures var ws, end := Windows(runes, start, cfg), EndOf(runes, start, cfg.maxRunes);
      && ws[0] == Window(start, end)
      && ws[1..] == if end == |runes| then [] else Windows(runes, NextStart(start, end, cfg.overlapRunes), cfg)
  {
  }

  lemma ReassembledStep(runes: seq<Rune>, ws: seq<Window>, done: nat)
    requires ws != [] && done <= ws[0].end && forall i :: 0 <= i < |ws| ==> ws[i].end <= |runes|
    requires Reassembled(runes, ws[1..], ws[0].end) == runes[ws[0].end..]
    ensures Reassembled(runes, ws, done) == runes[done..]
  {
    assert runes[done..] == runes[done..ws[0].end] + runes[ws[0].end..];
  }

  lemma {:induction false} WindowsReassembleFrom(runes: seq<Rune>, start: nat, done: nat, cfg: Config)
    requires cfg.Valid() && start < |runes| && done <= EndOf(runes, start, cfg.maxRunes)
    ensures forall i :: 0 <= i < |Windows(runes, start, cfg)| ==> Windows(runes, start, cfg)[i].end <= |runes|
    ensures Reassembled(runes, Windows(runes, start, cfg), done) == runes[done..]
    decreases |runes| - start
  {
    EndsInBounds(runes, start, cfg);
    FirstWindow(runes, start, cfg);
    var ws, end := Windows(runes, start, cfg), EndOf(runes, start, cfg.maxRunes);
    if end < |runes| {
      NextEndsNoEarlier(runes, start, cfg);
      hide *;
      WindowsReassembleFrom(runes, NextStart(start, end, cfg.overlapRunes), end, cfg);
    } else {
      NothingLeft(runes);
    }
    hide *;
    ReassembledStep(runes, ws, done);
  }

  lemma NothingLeft(runes: seq<Rune>)
    ensures Reassembled(runes, [], |runes|) == [] == runes[|runes|..]
  {
  }

  /** Nothing is lost: what each window adds makes up the document. */
  lemma WindowsReassemble(runes: seq<Rune>, cfg: Config)
    requires cfg.Valid() && runes != []
    ensures forall i :: 0 <= i < |Windows(runes, 0, cfg)| ==> Windows(runes, 0, cfg)[i].end <= |runes|
    ensures Reassembled(runes, Windows(runes, 0, cfg), 0) == runes
  {
    WindowsReassembleFrom(runes, 0, 0, cfg);
    assert runes[0..] == runes;
  }

  /* ---- Chunks ---- */

  function SkipLeft(s: seq<Rune>, i: nat): (r: nat)
    requires i <= |s|
    ensures i <= r <= |s| && (forall k :: i <= k < r ==> IsSpace(s[k])) && (r < |s| ==> !IsSpace(s[r]))
    decreases |s| - i
  {
    if i < |s| && IsSpace(s[i]) then SkipLeft(s, i + 1) else i
  }

  function SkipRight(s: seq<Rune>, low: nat, j: nat): (r: nat)
    requires low <= j <= |s|
    ensures low <= r <= j && (forall k :: r <= k < j ==> IsSpace(s[k])) && (r > low ==> !IsSpace(s[r - 1]))
  {
    if j > low && IsSpace(s[j - 1]) then SkipRight(s, low, j - 1) else j
  }

  /** strings.TrimSpace. */
  function Trim(s: seq<Rune>): seq<Rune> {
    var l := SkipLeft(s, 0);
    s[l..SkipRight(s, l, |s|)]
  }

  /** The identifier minted for a chunk's scope, document, version, ordinal and
      text. */
  type Mint = (Scope, string, string, nat, seq<Rune>) -> string

  function MakeChunk(mint: Mint, doc: Document, ordinal: nat, w: Window, text: seq<Rune>): Chunk {
    Chunk(mint(doc.scope, doc.id, doc.version, ordinal, text), doc.id, doc.scope, doc.version, doc.sha, ordinal,
          w.start, w.end, text, true, doc.expiresAt)
  }

  predicate InBounds(doc: Document, ws: seq<Window>) {
    forall i :: 0 <= i < |ws| ==> ws[i].start <= ws[i].end <= |doc.runes|
  }

  /** One chunk for each window that is not blank, numbered in order. */
  function ChunksOf(mint: Mint, doc: Document, ws: seq<Window>, ordinal: nat): seq<Chunk>
    requires InBounds(doc, ws)
  {
    if ws == [] then []
    else
      var text := Trim(doc.runes[ws[0].start..ws[0].end]);
      if text == [] then ChunksOf(mint, doc, ws[1..], ordinal)
      else [MakeChunk(mint, doc, ordinal, ws[0], text)] + ChunksOf(mint, doc, ws[1..], ordinal + 1)
  }

  lemma WindowsInBounds(doc: Document, start: nat, cfg: Config)
    requires start < |doc.runes| && cfg.Valid()
    ensures InBounds(doc, Windows(doc.runes, start, cfg))
  {
    hide Windows;
    forall i | 0 <= i < |Windows(doc.runes, start, cfg)|
      ensures Windows(doc.runes, start, cfg)[i].start <= Windows(doc.runes, start, cfg)[i].end <= |doc.runes|
    {
      WindowAt(doc.runes, start, cfg, i);
    }
  }

  /** What one window gives. */
  function ChunkHere(mint: Mint, doc: Document, ordinal: nat, start: nat, end: nat): (r: seq<Chunk>)
    requires start <= end <= |doc.runes|
    ensures |r| <= 1
  {
    var text := Trim(doc.runes[start..end]);
    if text == [] then [] else [MakeChunk(mint, doc, ordinal, Window(start, end), text)]
  }

  /** The chunking loop's invariant: the windows to come complete the list. */
  ghost predicate OnTrack(mint: Mint, doc: Document, cfg: Config, start: nat, ordinal: nat, chunks: seq<Chunk>)
    requires cfg.Valid()
  {
    start < |doc.runes| && InBounds(doc, Windows(doc.runes, start, cfg)) && InBounds(doc, Windows(doc.runes, 0, cfg))
    && chunks + ChunksOf(mint, doc, Windows(doc.runes, start, cfg), ordinal) == ChunksOf(mint, doc, Windows(doc.runes, 0, cfg), 0)
  }

  lemma StartsOnTrack(mint: Mint, doc: Document, cfg: Config)
    requires cfg.Valid() && doc.runes != []
    ensures OnTrack(mint, doc, cfg, 0, 0, [])
  {
    WindowsInBounds(doc, 0, cfg);
    hide Windows, ChunksOf;
    var all := ChunksOf(mint, doc, Windows(doc.runes, 0, cfg), 0);
    assert [] + all == all;
  }

  lemma StaysOnTrack(mint: Mint, doc: Document, cfg: Config, start: nat, ordinal: nat, chunks: seq<Chunk>)
    requires cfg.Valid() && OnTrack(mint, doc, cfg, start, ordinal, chunks)
    ensures var end := EndOf(doc.runes, start, cfg.maxRunes); var here := ChunkHere(mint, doc, ordinal, start, end);
      && InBounds(doc, Windows(doc.runes, 0, cfg))
      && (end == |doc.runes| ==> chunks + here == ChunksOf(mint, doc, Windows(doc.runes, 0, cfg), 0))
      && (end < |doc.runes| ==>
            OnTrack(mint, doc, cfg, NextStart(start, end, cfg.overlapRunes), ordinal + |here|, chunks + here))
  {
    hide Windows, EndOf, ChunkHere, NextStart, ChunksOf, InBounds;
    var end := EndOf(doc.runes, start, cfg.maxRunes);
    TrackSplits(mint, doc, cfg, start, ordinal, chunks);
    if end == |doc.runes| {
      NoChunks(mint, doc, ordinal + |ChunkHere(mint, doc, ordinal, start, end)|);
    }
  }

  lemma TrackSplits(mint: Mint, doc: Document, cfg: Config, start: nat, ordinal: nat, chunks: seq<Chunk>)
    requires cfg.Valid() && OnTrack(mint, doc, cfg, start, ordinal, chunks)
    ensures var end := EndOf(doc.runes, start, cfg.maxRunes); var here := ChunkHere(mint, doc, ordinal, start, end);
      var rest := if end == |doc.runes| then [] else Windows(doc.runes, NextStart(start, end, cfg.overlapRunes), cfg);
      && InBounds(doc, rest) && InBounds(doc, Windows(doc.runes, 0, cfg))
      && (chunks + here) + ChunksOf(mint, doc, rest, ordinal + |here|) == ChunksOf(mint, doc, Windows(doc.runes, 0, cfg), 0)
  {
    hide Windows, EndOf, ChunkHere, NextStart, ChunksOf, InBounds;
    var ws := Windows(doc.runes, start, cfg);
    FirstWindow(doc.runes, start, cfg);
    FirstChunk(mint, doc, ws, ordinal);
    var here := ChunkHere(mint, doc, ordinal, ws[0].start, ws[0].end);
    Reassociate(chunks, here, ChunksOf(mint, doc, ws[1..], ordinal + |here|));
  }

  lemma NoChunks(mint: Mint, doc: Document, ordinal: nat)
    ensures InBounds(doc, []) && ChunksOf(mint, doc, [], ordinal) == []
  {
  }

  lemma FirstChunk(mint: Mint, doc: Document, ws: seq<Window>, ordinal: nat)
    requires InBounds(doc, ws) && ws != []
    ensures InBounds(doc, ws[1..])
    ensures var here := ChunkHere(mint, doc, ordinal, ws[0].start, ws[0].end);
      ChunksOf(mint, doc, ws, ordinal) == here + ChunksOf(mint, doc, ws[1..], ordinal + |here|)
  {
    hide Trim, MakeChunk;
    var rest := ChunksOf(mint, doc, ws[1..], ordinal);
    assert [] + rest == rest;
  }

  /** The end of a window: the search back for a line break. */
  method FindEnd(runes: seq<Rune>, start: nat, max: nat) returns (end: nat)
    requires start < |runes| && max >= 1
    ensures end == EndOf(runes, start, max)
  {
    end := start + max;
    if end > |runes| {
      end := |runes|;
    }
    if end < |runes| {
      var candidate := end;
      while candidate > start + max / 2
        invariant start <= candidate <= end == HardEnd(runes, start, max) < |runes|
        invariant LastBreak(runes, end, start + max / 2) == LastBreak(runes, candidate, start + max / 2)
      {
        if runes[candidate - 1] == NEWLINE_RUNE {
          end := candidate;
          break;
        }
        candidate := candidate - 1;
      }
    }
  }

  /** The chunking loop. */
  method ChunkDocument(mint: Mint, doc: Document, cfg: Config) returns (chunks: seq<Chunk>)
    requires cfg.Valid()
    ensures doc.runes == [] ==> chunks == []
    ensures doc.runes != [] ==>
      InBounds(doc, Windows(doc.runes, 0, cfg)) && chunks == ChunksOf(mint, doc, Windows(doc.runes, 0, cfg), 0)
  {
    hide Trim, Windows, ChunksOf, InBounds, OnTrack, MakeChunk, NextStart, EndOf, LastBreak;
    var runes := doc.runes;
    chunks := [];
    var start, ordinal := 0, 0;
    if runes != [] {
      StartsOnTrack(mint, doc, cfg);
    }
    while start < |runes|
      invariant start < |runes| || (runes == [] && chunks == [])
      invariant start < |runes| ==> OnTrack(mint, doc, cfg, start, ordinal, chunks)
      decreases |runes| - start
    {
      StaysOnTrack(mint, doc, cfg, start, ordinal, chunks);
      var end := FindEnd(runes, start, cfg.maxRunes);
      var text := Trim(runes[start..end]);
      if text != [] {
        chunks := chunks + [MakeChunk(mint, doc, ordinal, Window(start, end), text)];
        ordinal := ordinal + 1;
      } else {
        assert chunks + [] == chunks;
      }
      if end == |runes| {
        return;
      }
      var next := end - cfg.overlapRunes;
      if next <= start {
        next := end;
      }
      NextIs(start, end, cfg.overlapRunes);
      start := next;
    }
  }

  lemma NextIs(start: nat, end: nat, overlap: nat)
    requires start < end
    ensures NextStart(start, end, overlap) == if end - overlap <= start then end else end - overlap
  {
  }

  /* ---- What the chunks hold ---- */

  /** The i-th chunk has ordinal i, and is the trimmed text of its own rune
      range, which is one of the windows. */
  lemma {:induction false} ChunkAt(mint: Mint, doc: Document, ws: seq<Window>, ordinal: nat, i: nat)
    requires InBounds(doc, ws) && i < |ChunksOf(mint, doc, ws, ordinal)|
    ensures var c := ChunksOf(mint, doc, ws, ordinal)[i];
      && c.ordinal == ordinal + i && Window(c.startRune, c.endRune) in ws
      && c.startRune <= c.endRune <= |doc.runes|
      && c.text == Trim(doc.runes[c.startRune..c.endRune]) != []
      && c == MakeChunk(mint, doc, c.ordinal, Window(c.startRune, c.endRune), c.text)
  {
    hide Trim;
    var text := Trim(doc.runes[ws[0].start..ws[0].end]);
    var cs := ChunksOf(mint, doc, ws, ordinal);
    assert forall w :: w in ws[1..] ==> w in ws;
    if text == [] {
      ChunkAt(mint, doc, ws[1..], ordinal, i);
    } else if i > 0 {
      assert cs[i] == ChunksOf(mint, doc, ws[1..], ordinal + 1)[i - 1];
      ChunkAt(mint, doc, ws[1..], ordinal + 1, i - 1);
    }
  }

  /** c's text stands at position o of the document, over its k-th rune. */
  ghost predicate HoldsAt(c: Chunk, doc: Document, k: nat, o: nat) {
    && c.startRune <= o <= k < o + |c.text| <= c.endRune <= |doc.runes|
    && c.text == doc.runes[o..o + |c.text|]
  }

  lemma {:induction false} WindowIsChunked(mint: Mint, doc: Document, ws: seq<Window>, ordinal: nat, i: nat) returns (c: Chunk)
    requires InBounds(doc, ws) && i < |ws| && Trim(doc.runes[ws[i].start..ws[i].end]) != []
    ensures c in ChunksOf(mint, doc, ws, ordinal) && c.startRune == ws[i].start && c.endRune == ws[i].end
    ensures c.text == Trim(doc.runes[ws[i].start..ws[i].end])
  {
    hide Trim;
    var text := Trim(doc.runes[ws[0].start..ws[0].end]);
    if i == 0 {
      c := ChunksOf(mint, doc, ws, ordinal)[0];
    } else {
      c := WindowIsChunked(mint, doc, ws[1..], if text == [] then ordinal else ordinal + 1, i - 1);
    }
  }

  /** Every rune is in some window. */
  lemma {:induction false} WindowAround(runes: seq<Rune>, start: nat, cfg: Config, k: nat) returns (i: nat)
    requires cfg.Valid() && start <= k < |runes|
    ensures i < |Windows(runes, start, cfg)| && Windows(runes, start, cfg)[i].start <= k < Windows(runes, start, cfg)[i].end
    decreases |runes| - start
  {
    FirstWindow(runes, start, cfg);
    hide Windows, EndOf;
    var ws, end := Windows(runes, start, cfg), EndOf(runes, start, cfg.maxRunes);
    if k < end {
      i := 0;
    } else {
      i := WindowAround(runes, NextStart(start, end, cfg.overlapRunes), cfg, k);
      assert ws[i + 1] == ws[1..][i];
      i := i + 1;
    }
  }

  lemma TrimmedSliceHolds(runes: seq<Rune>, start: nat, end: nat, k: nat) returns (o: nat)
    requires start <= k < end <= |runes| && !IsSpace(runes[k])
    ensures var text := Trim(runes[start..end]);
      start <= o <= k < o + |text| <= end && text == runes[o..o + |text|]
  {
    var s := runes[start..end];
    var l := SkipLeft(s, 0);
    assert s[k - start] == runes[k];
    var r := SkipRight(s, l, |s|);
    SliceOfSlice(runes, start, end, l, r);
    o := start + l;
  }

  /** Every rune that is not white space is in the text of some chunk, at its
      place. */
  lemma NoTextIsLost(mint: Mint, doc: Document, cfg: Config, k: nat) returns (c: Chunk, o: nat)
    requires cfg.Valid() && k < |doc.runes| && !IsSpace(doc.runes[k])
    ensures InBounds(doc, Windows(doc.runes, 0, cfg))
    ensures c in ChunksOf(mint, doc, Windows(doc.runes, 0, cfg), 0) && HoldsAt(c, doc, k, o)
  {
    hide Windows, ChunksOf, Trim, EndOf;
    var ws := Windows(doc.runes, 0, cfg);
    WindowsInBounds(doc, 0, cfg);
    var i := WindowAround(doc.runes, 0, cfg, k);
    o := TrimmedSliceHolds(doc.runes, ws[i].start, ws[i].end, k);
    c := WindowIsChunked(mint, doc, ws, 0, i);
  }

  /** A chunk says what it was cut from, is marked as untrusted, and its text
      neither begins nor ends with white space. */
  lemma ChunkSaysWhereItIsFrom(mint: Mint, doc: Document, ws: seq<Window>, ordinal: nat, i: nat)
    requires InBounds(doc, ws) && i < |ChunksOf(mint, doc, ws, ordinal)|
    ensures var c := ChunksOf(mint, doc, ws, ordinal)[i];
      && c.documentId == doc.id && c.scope == doc.scope && c.version == doc.version && c.documentSHA == doc.sha
      && c.expiresAt == doc.expiresAt && c.untrusted && c.id == mint(doc.scope, doc.id, doc.version, c.ordinal, c.text)
      && c.text != [] && !IsSpace(c.text[0]) && !IsSpace(c.text[|c.text| - 1])
  {
    hide Trim;
    ChunkAt(mint, doc, ws, ordinal, i);
    var c := ChunksOf(mint, doc, ws, ordinal)[i];
    TrimmedEnds(doc.runes[c.startRune..c.endRune]);
  }

  lemma TrimmedEnds(s: seq<Rune>)
    requires Trim(s) != []
    ensures !IsSpace(Trim(s)[0]) && !IsSpace(Trim(s)[|Trim(s)| - 1])
  {
  }
}
