/** Splitting a SQL file into statements with their line ranges, and the
    search for bind placeholders, each proved against the shared automaton. */
module SqlFile {
  import opened Prelude
  import opened SqlLexer

  datatype Statement = Statement(sql: Bytes, startLine: nat, endLine: nat)

  datatype Result = Unterminated | Split(statements: seq<Statement>)

  /* ---- strings.TrimSpace on UTF-8 bytes ---- */

  /** The width of the white space encoded at byte i, or 0. */
  function SpaceAt(s: Bytes, i: nat): (w: nat)
    requires i < |s|
    ensures w <= 3 && i + w <= |s|
    ensures forall x :: i <= x < i + w ==> Inert(s[x])
  {
    var b, c, d := s[i], At(s, i + 1), At(s, i + 2);
    if 9 <= b <= 13 || b == 32 then 1
    else if b == 0xC2 && (c == 0x85 || c == 0xA0) then 2
    else if b == 0xE1 && c == 0x9A && d == 0x80 then 3
    else if b == 0xE2 && c == 0x80 && (0x80 <= d <= 0x8A || d == 0xA8 || d == 0xA9 || d == 0xAF) then 3
    else if b == 0xE2 && c == 0x81 && d == 0x9F then 3
    else if b == 0xE3 && c == 0x80 && d == 0x80 then 3
    else 0
  }

  /** The width of the white space whose encoding ends before byte j, or 0. */
  function SpaceBefore(s: Bytes, j: nat): (w: nat)
    requires 0 < j <= |s|
    ensures w <= j
    ensures forall x :: j - w <= x < j ==> Inert(s[x])
  {
    if SpaceAt(s, j - 1) == 1 then 1
    else if j >= 2 && SpaceAt(s, j - 2) == 2 then 2
    else if j >= 3 && SpaceAt(s, j - 3) == 3 then 3
    else 0
  }

  function TrimStart(s: Bytes, i: nat): (r: nat)
    requires i <= |s|
    ensures i <= r <= |s|
    ensures forall x :: i <= x < r ==> Inert(s[x])
    ensures r < |s| ==> SpaceAt(s, r) == 0
    decreases |s| - i
  {
    if i < |s| && SpaceAt(s, i) > 0 then TrimStart(s, i + SpaceAt(s, i)) else i
  }

  function TrimEnd(s: Bytes, j: nat): (r: nat)
    requires j <= |s|
    ensures r <= j
    ensures forall x :: r <= x < j ==> Inert(s[x])
    ensures r > 0 ==> SpaceBefore(s, r) == 0
  {
    if j > 0 && SpaceBefore(s, j) > 0 then TrimEnd(s, j - SpaceBefore(s, j)) else j
  }

  /** Byte k belongs to the encoding of a white-space character. */
  ghost predicate InSpace(s: Bytes, k: nat) {
    exists i: nat :: i <= k < |s| && k < i + SpaceAt(s, i)
  }

  lemma SpaceIsInert(s: Bytes, k: nat)
    requires k < |s| && !Inert(s[k])
    ensures !InSpace(s, k)
  {
  }

  lemma {:induction false} TrimStartDropsSpace(s: Bytes, i: nat, x: nat)
    requires i <= x <= |s| && x < TrimStart(s, i)
    ensures InSpace(s, x)
    decreases |s| - i
  {
    var w := SpaceAt(s, i);
    if x >= i + w {
      TrimStartDropsSpace(s, i + w, x);
    }
  }

  lemma {:induction false} TrimEndDropsSpace(s: Bytes, j: nat, x: nat)
    requires x < j <= |s| && TrimEnd(s, j) <= x
    ensures InSpace(s, x)
    decreases j
  {
    var w := SpaceBefore(s, j);
    assert SpaceAt(s, j - w) == w;
    if x < j - w {
      TrimEndDropsSpace(s, j - w, x);
    }
  }

  /** A character is not cut out of anything but itself: its first byte tells
      how long it is. */
  lemma SpaceInSlice(s: Bytes, a: nat, b: nat, x: nat)
    requires a <= b <= |s| && x < b - a && InSpace(s[a..b], x)
    ensures InSpace(s, a + x)
  {
    var u := s[a..b];
    var i: nat :| i <= x < |u| && x < i + SpaceAt(u, i);
    assert u[i] == s[a + i] && (i + 1 < |u| ==> u[i + 1] == s[a + i + 1]) && (i + 2 < |u| ==> u[i + 2] == s[a + i + 2]);
    assert SpaceAt(s, a + i) == SpaceAt(u, i);
  }

  function TrimSpace(s: Bytes): Bytes {
    var t := s[TrimStart(s, 0)..];
    t[..TrimEnd(t, |t|)]
  }

  lemma TrimmedIsTrimmed(s: Bytes)
    requires s != []
    requires SpaceAt(s, 0) == 0 && SpaceBefore(s, |s|) == 0
    ensures TrimSpace(s) == s && TrimStart(s, 0) == 0
  {
    assert s[0..] == s;
  }

  lemma SpaceBeforeCut(t: Bytes, r: nat)
    requires 0 < r <= |t|
    ensures SpaceAt(t[..r], 0) > 0 ==> SpaceAt(t, 0) > 0
    ensures SpaceBefore(t[..r], r) > 0 ==> SpaceBefore(t, r) > 0
  {
  }

  lemma TrimIsIdempotent(s: Bytes)
    ensures TrimSpace(TrimSpace(s)) == TrimSpace(s)
    ensures TrimStart(TrimSpace(s), 0) == 0
  {
    var a := TrimStart(s, 0);
    var t := s[a..];
    var r := TrimEnd(t, |t|);
    if r > 0 {
      assert t[0] == s[a] && At(t, 1) == At(s, a + 1) && At(t, 2) == At(s, a + 2);
      SpaceBeforeCut(t, r);
      TrimmedIsTrimmed(t[..r]);
    }
  }

  /** How much TrimSpace takes off the front of a text, and where it ends. */
  function Lead(u: Bytes): (n: nat)
    ensures n <= |u|
  {
    TrimStart(u, 0)
  }

  function Rest(u: Bytes): (n: nat)
    ensures Lead(u) + n <= |u|
  {
    TrimEnd(u[Lead(u)..], |u| - Lead(u))
  }

  /** The part of s[a..b] that TrimSpace keeps: [first, last). */
  function Kept(s: Bytes, a: nat, b: nat): (r: (nat, nat))
    requires a <= b <= |s|
    ensures a <= r.0 <= r.1 <= b && TrimSpace(s[a..b]) == s[r.0..r.1]
    ensures forall x :: a <= x < r.0 || r.1 <= x < b ==> Inert(s[x])
  {
    KeptFacts(s, a, b);
    (a + Lead(s[a..b]), a + Lead(s[a..b]) + Rest(s[a..b]))
  }

  lemma KeptFacts(s: Bytes, a: nat, b: nat)
    requires a <= b <= |s|
    ensures var lead, rest := Lead(s[a..b]), Rest(s[a..b]);
      && TrimSpace(s[a..b]) == s[a + lead..a + lead + rest]
      && forall x :: a <= x < a + lead || a + lead + rest <= x < b ==> Inert(s[x])
  {
    hide TrimStart, TrimEnd, Inert;
    var u := s[a..b];
    SliceOfSlices(s, a, b, Lead(u), Rest(u));
    forall x | a <= x < a + Lead(u) || a + Lead(u) + Rest(u) <= x < b
      ensures Inert(s[x])
    {
      assert s[x] == u[x - a];
      assert x >= a + Lead(u) ==> s[x] == u[Lead(u)..][x - a - Lead(u)];
    }
  }

  lemma SliceOfSlices(s: Bytes, a: nat, b: nat, lead: nat, rest: nat)
    requires a <= b <= |s| && lead + rest <= b - a
    ensures s[a..b][lead..][..rest] == s[a + lead..a + lead + rest]
  {
  }

  /** What TrimSpace drops of a piece is white space of the file. */
  lemma KeptDropsSpace(s: Bytes, a: nat, b: nat, x: nat)
    requires a <= x < b <= |s| && !(Kept(s, a, b).0 <= x < Kept(s, a, b).1)
    ensures InSpace(s, x)
  {
    hide InSpace, SpaceAt, SpaceBefore, TrimStart, TrimEnd;
    var u := s[a..b];
    var lead := TrimStart(u, 0);
    var t := u[lead..];
    if x < a + lead {
      TrimStartDropsSpace(u, 0, x - a);
    } else {
      TrimEndDropsSpace(t, |t|, x - a - lead);
      assert t == u[lead..|u|];
      SpaceInSlice(u, lead, |u|, x - a - lead);
    }
    SpaceInSlice(s, a, b, x - a);
  }

  /** strings.TrimLeft(text, " \t\r\n"). */
  function BlankPrefix(s: Bytes, i: nat): (r: nat)
    requires i <= |s|
    ensures i <= r <= |s| && r <= TrimStart(s, i)
    decreases |s| - i
  {
    if i < |s| && IsBlank(s[i]) then BlankPrefix(s, i + 1) else i
  }

  /* ---- Lines ---- */

  /** The line on which byte i stands; lines are numbered from 1. */
  function Line(s: Bytes, i: nat): (n: nat)
    requires i <= |s|
    ensures n >= 1
  {
    if i == 0 then 1 else Line(s, i - 1) + (if s[i - 1] == NEWLINE then 1 else 0)
  }

  lemma {:induction false} LineGrows(s: Bytes, i: nat, j: nat)
    requires i <= j <= |s|
    ensures Line(s, i) <= Line(s, j)
  {
    if i < j {
      LineGrows(s, i, j - 1);
    }
  }

  /* ---- The list of statements ---- */

  /** The statement of the piece s[a..b], if anything but white space is in it. */
  function Piece(s: Bytes, a: nat, b: nat): (r: seq<Statement>)
    requires a <= b <= |s|
  {
    var sql := TrimSpace(s[a..b]);
    if sql == [] then []
    else [Statement(sql, Line(s, a + BlankPrefix(s[a..b], 0)), Line(s, b))]
  }

  /** Where the pieces end: after each semicolon in code, and at the end. */
  function Ends(s: Bytes, i: nat, m: Mode): (ends: seq<nat>)
    requires i <= |s|
    ensures ends != [] && ends[|ends| - 1] == |s|
    ensures forall x :: 0 <= x < |ends| ==> i <= ends[x] <= |s|
    ensures forall x, y :: 0 <= x < y < |ends| ==> ends[x] <= ends[y]
    decreases |s| - i
  {
    if i == |s| then [|s|]
    else if m.Code? && s[i] == SEMICOLON then [i + 1] + Ends(s, i + 1, Code)
    else Ends(s, Step(s, i, m).0, Step(s, i, m).1)
  }

  ghost predicate Ordered(s: Bytes, start: nat, ends: seq<nat>) {
    && (forall x :: 0 <= x < |ends| ==> start <= ends[x] <= |s|)
    && (forall x, y :: 0 <= x < y < |ends| ==> ends[x] <= ends[y])
  }

  ghost function Pieces(s: Bytes, start: nat, ends: seq<nat>): seq<Statement>
    requires Ordered(s, start, ends)
    decreases |ends|
  {
    if ends == [] then [] else Piece(s, start, ends[0]) + Pieces(s, ends[0], ends[1..])
  }

  ghost function Spec(s: Bytes): Result {
    if Terminated(FinalMode(s, 0, Code)) then Split(Pieces(s, 0, Ends(s, 0, Code))) else Unterminated
  }

  method CountNewlines(s: Bytes, a: nat, b: nat) returns (n: nat)
    requires a <= b <= |s|
    ensures n == Line(s, b) - Line(s, a)
  {
    n := 0;
    var i := a;
    while i < b
      invariant a <= i <= b
      invariant n == Line(s, i) - Line(s, a)
    {
      if s[i] == NEWLINE {
        n := n + 1;
      }
      i := i + 1;
    }
  }

  method AppendStatement(raw: Bytes, start: nat, end: nat, startLine: nat, line: nat, result: seq<Statement>)
      returns (longer: seq<Statement>)
    requires start <= end <= |raw| && startLine == Line(raw, start) && line == Line(raw, end)
    ensures longer == result + Piece(raw, start, end)
  {
    hide TrimSpace, BlankPrefix, Line;
    var text := raw[start..end];
    var trimmed := TrimSpace(text);
    longer := result;
    if trimmed != [] {
      var leading := BlankPrefix(text, 0);
      var skipped := CountNewlines(raw, start, start + leading);
      longer := result + [Statement(trimmed, startLine + skipped, line)];
    }
  }

  /** The splitter's loop invariant: what is left to do completes the list. */
  ghost predicate OnTrack(s: Bytes, start: nat, i: nat, m: Mode, result: seq<Statement>) {
    && start <= i <= |s|
    && FinalMode(s, i, m) == FinalMode(s, 0, Code)
    && result + Pieces(s, start, Ends(s, i, m)) == Pieces(s, 0, Ends(s, 0, Code))
  }

  lemma StepStaysOnTrack(s: Bytes, start: nat, i: nat, m: Mode, result: seq<Statement>)
    requires OnTrack(s, start, i, m, result) && i < |s| && !(m.Code? && s[i] == SEMICOLON)
    ensures OnTrack(s, start, Step(s, i, m).0, Step(s, i, m).1, result)
  {
  }

  lemma CutStaysOnTrack(s: Bytes, start: nat, i: nat, result: seq<Statement>)
    requires OnTrack(s, start, i, Code, result) && i < |s| && s[i] == SEMICOLON
    ensures OnTrack(s, i + 1, i + 1, Code, result + Piece(s, start, i + 1))
  {
    hide Piece, Pieces, Line, TrimSpace;
    FirstPiece(s, start, i + 1, Ends(s, i + 1, Code));
    var rest := Pieces(s, i + 1, Ends(s, i + 1, Code));
    assert result + (Piece(s, start, i + 1) + rest) == (result + Piece(s, start, i + 1)) + rest;
  }

  lemma TrackEnds(s: Bytes, start: nat, m: Mode, result: seq<Statement>)
    requires OnTrack(s, start, |s|, m, result)
    ensures Spec(s) == if Terminated(m) then Split(result + Piece(s, start, |s|)) else Unterminated
  {
    LastPiece(s, start, m);
  }

  lemma LineSteps(s: Bytes, i: nat)
    requires i < |s|
    ensures Line(s, i + 1) == Line(s, i) + if s[i] == NEWLINE then 1 else 0
    ensures i + 2 <= |s| ==> Line(s, i + 2) == Line(s, i + 1) + if s[i + 1] == NEWLINE then 1 else 0
  {
  }

  lemma FirstPiece(s: Bytes, start: nat, end: nat, ends: seq<nat>)
    requires start <= end <= |s| && Ordered(s, end, ends)
    ensures Pieces(s, start, [end] + ends) == Piece(s, start, end) + Pieces(s, end, ends)
  {
    assert ([end] + ends)[1..] == ends;
  }

  lemma StartsOnTrack(s: Bytes)
    ensures Line(s, 0) == 1
    ensures OnTrack(s, 0, 0, Code, [])
  {
    assert [] + Pieces(s, 0, Ends(s, 0, Code)) == Pieces(s, 0, Ends(s, 0, Code));
  }

  lemma LastPiece(s: Bytes, start: nat, m: Mode)
    requires start <= |s|
    ensures FinalMode(s, |s|, m) == m
    ensures Pieces(s, start, Ends(s, |s|, m)) == Piece(s, start, |s|)
  {
  }

  /** The splitter's loop: one pass that tracks mode, line and piece start. */
  method Statements(raw: Bytes) returns (r: Result)
    ensures r == Spec(raw)
  {
    hide TrimSpace, Piece, Pieces, Ends, FinalMode, Line, OnTrack, Spec;
    var result: seq<Statement> := [];
    var state := Code;
    var start, line, startLine := 0, 1, 1;
    var i := 0;
    StartsOnTrack(raw);
    while i < |raw|
      invariant start <= i <= |raw|
      invariant line == Line(raw, i) && startLine == Line(raw, start)
      invariant OnTrack(raw, start, i, state, result)
    {
      ghost var i0, state0 := i, state;
      LineSteps(raw, i);
      var c, next := raw[i], At(raw, i + 1);
      if c == NEWLINE {
        line := line + 1;
      }
      match state {
        case Quoted(q) =>
          if c == BACKSLASH && q != BACKTICK && i + 1 < |raw| {
            if next == NEWLINE {
              line := line + 1;
            }
            i := i + 1;
          } else if c == q {
            if next == q {
              i := i + 1;
            } else {
              state := Code;
            }
          }
        case LineComment =>
          if c == NEWLINE {
            state := Code;
          }
        case BlockComment =>
          if c == STAR && next == SLASH {
            state := Code;
            i := i + 1;
          }
        case Code =>
          if IsQuote(c) {
            state := Quoted(c);
          } else if c == HASH || (c == DASH && next == DASH && i + 2 < |raw| && IsBlank(raw[i + 2])) {
            state := LineComment;
          } else if c == SLASH && next == STAR {
            state := BlockComment;
            i := i + 1;
          } else if c == SEMICOLON {
            CutStaysOnTrack(raw, start, i, result);
            result := AppendStatement(raw, start, i + 1, startLine, line, result);
            start := i + 1;
            startLine := line;
          }
      }
      i := i + 1;
      assert (i, state) == Step(raw, i0, state0);
      if !(state0.Code? && c == SEMICOLON) {
        StepStaysOnTrack(raw, start, i0, state0, result);
      }
    }
    TrackEnds(raw, start, state, result);
    if state.Quoted? || state.BlockComment? {
      return Unterminated;
    }
    result := AppendStatement(raw, start, |raw|, startLine, line, result);
    r := Split(result);
  }

  /** The placeholder search: its own loop over the same automaton. */
  method HasBindPlaceholder(s: Bytes) returns (found: bool)
    ensures found <==> HasPlaceholder(s)
  {
    var state := Code;
    var i := 0;
    while i < |s|
      invariant i <= |s|
      invariant i < |s| ==> ModeFrom(s, 0, Code, i) == Some(state)
      invariant forall k :: 0 <= k < i && k < |s| && s[k] == QUESTION ==> !InCode(s, k)
    {
      var c, next := s[i], At(s, i + 1);
      ghost var i0 := i;
      Arrive(s, i, state);
      match state {
        case Quoted(q) =>
          if c == BACKSLASH && q != BACKTICK && i + 1 < |s| {
            i := i + 1;
          } else if c == q && next == q {
            i := i + 1;
          } else if c == q {
            state := Code;
          }
        case LineComment =>
          if c == NEWLINE {
            state := Code;
          }
        case BlockComment =>
          if c == STAR && next == SLASH {
            i := i + 1;
            state := Code;
          }
        case Code =>
          if c == DASH && next == DASH && i + 2 < |s| && IsBlank(s[i + 2]) {
            Arrive(s, i + 1, LineComment);
            i := i + 1;
            state := LineComment;
          } else if c == HASH {
            state := LineComment;
          } else if c == SLASH && next == STAR {
            i := i + 1;
            state := BlockComment;
          } else if IsQuote(c) {
            state := Quoted(c);
          } else if c == QUESTION {
            return true;
          }
      }
      i := i + 1;
    }
    found := false;
  }

  /** One step further along a scan, and nothing in between. */
  lemma Arrive(s: Bytes, i: nat, m: Mode)
    requires i < |s| && ModeFrom(s, 0, Code, i) == Some(m)
    ensures var (j, m') := Step(s, i, m);
      && (j < |s| ==> ModeFrom(s, 0, Code, j) == Some(m'))
      && (forall k :: i < k < j ==> ModeFrom(s, 0, Code, k) == None)
  {
    forall k | i < k <= Step(s, i, m).0
      ensures ModeFrom(s, 0, Code, k) == ModeFrom(s, Step(s, i, m).0, Step(s, i, m).1, k)
    {
      ScanFromVisited(s, 0, Code, i, k);
    }
  }
}
