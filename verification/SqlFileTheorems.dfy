/** What the splitter promises: its pieces tile the file and are cut exactly at
    the semicolons in code, its line ranges cover the text in order, each
    statement splits to itself, and the placeholder search agrees with it. */
module SqlFileTheorems {
  import opened Prelude
  import opened SqlLexer
  import opened SqlFile

  /* ---- Pieces ---- */

  /** s[a..b] is one piece: between two cuts, with none inside. */
  ghost predicate IsPiece(s: Bytes, a: nat, b: nat) {
    && a <= b <= |s|
    && (a == 0 || CodeSemicolon(s, a - 1))
    && (b == |s| || (a < b && CodeSemicolon(s, b - 1)))
    && forall k :: a <= k < b - 1 ==> !CodeSemicolon(s, k)
  }

  /** The scan from 0 reaches i in mode m, or i is the end. */
  ghost predicate Reaches(s: Bytes, i: nat, m: Mode) {
    i <= |s| && (i < |s| ==> ModeFrom(s, 0, Code, i) == Some(m))
  }

  lemma ReachesStart(s: Bytes)
    ensures Reaches(s, 0, Code)
  {
  }

  /** One step of a scan from 0, and what it means for the list of ends. */
  lemma ReachesNext(s: Bytes, i: nat, m: Mode)
    requires i < |s| && Reaches(s, i, m)
    ensures Reaches(s, Step(s, i, m).0, Step(s, i, m).1)
    ensures CodeSemicolon(s, i) <==> m.Code? && s[i] == SEMICOLON
    ensures CodeSemicolon(s, i) ==> Step(s, i, m) == (i + 1, Code)
    ensures forall k :: i < k < Step(s, i, m).0 ==> !CodeSemicolon(s, k)
    ensures Ends(s, i, m) == if CodeSemicolon(s, i) then [i + 1] + Ends(s, i + 1, Code)
                             else Ends(s, Step(s, i, m).0, Step(s, i, m).1)
  {
    Arrive(s, i, m);
  }

  lemma {:induction false} EndsAreCuts(s: Bytes, i: nat, m: Mode, e: nat)
    requires Reaches(s, i, m) && i <= |s|
    ensures e in Ends(s, i, m) <==> e == |s| || (e > i && CodeSemicolon(s, e - 1))
    decreases |s| - i
  {
    hide Step, ModeFrom, CodeSemicolon, Ends, Reaches;
    if i == |s| {
      OneEnd(s, m);
      assert e > |s| ==> !CodeSemicolon(s, e - 1) by {
        NoSemicolonOutside(s, e - 1);
      }
    } else {
      var (j, m') := Step(s, i, m);
      ReachesNext(s, i, m);
      EndsAreCuts(s, j, m', e);
      if CodeSemicolon(s, i) {
        InCons(i + 1, Ends(s, i + 1, Code), e);
      } else if i < e <= j {
        assert !CodeSemicolon(s, e - 1);
      }
    }
  }

  lemma InCons(x: nat, tail: seq<nat>, e: nat)
    ensures e in [x] + tail <==> e == x || e in tail
  {
  }

  lemma OneEnd(s: Bytes, m: Mode)
    ensures Ends(s, |s|, m) == [|s|]
  {
  }

  lemma NoSemicolonOutside(s: Bytes, k: int)
    ensures k >= |s| ==> !CodeSemicolon(s, k)
  {
  }

  /** The pieces end exactly after the semicolons in code, and at the end. */
  lemma CutsAreCodeSemicolons(s: Bytes, e: nat)
    ensures e in Ends(s, 0, Code) <==> e == |s| || (e > 0 && CodeSemicolon(s, e - 1))
  {
    ReachesStart(s);
    EndsAreCuts(s, 0, Code, e);
  }

  ghost function Join(s: Bytes, start: nat, ends: seq<nat>): Bytes
    requires Ordered(s, start, ends)
    decreases |ends|
  {
    if ends == [] then [] else s[start..ends[0]] + Join(s, ends[0], ends[1..])
  }

  lemma {:induction false} JoinIsSlice(s: Bytes, start: nat, ends: seq<nat>)
    requires Ordered(s, start, ends) && ends != [] && ends[|ends| - 1] == |s|
    ensures Join(s, start, ends) == s[start..]
    decreases |ends|
  {
    if |ends| == 1 {
      assert ends[1..] == [];
    } else {
      assert ends[1..][|ends| - 2] == ends[|ends| - 1];
      JoinIsSlice(s, ends[0], ends[1..]);
    }
  }

  /** The pieces tile the file. */
  lemma PiecesTile(s: Bytes)
    ensures Join(s, 0, Ends(s, 0, Code)) == s
  {
    JoinIsSlice(s, 0, Ends(s, 0, Code));
    assert s[0..] == s;
  }

  /** What is known on the way: the piece being scanned starts at `start`. */
  ghost predicate Within(s: Bytes, start: nat, i: nat, m: Mode) {
    && Reaches(s, i, m) && start <= i
    && (start == 0 || CodeSemicolon(s, start - 1))
    && forall k :: start <= k < i ==> !CodeSemicolon(s, k)
  }

  lemma WithinNext(s: Bytes, start: nat, i: nat, m: Mode)
    requires i < |s| && Within(s, start, i, m)
    ensures CodeSemicolon(s, i) ==>
      && Within(s, i + 1, i + 1, Code) && IsPiece(s, start, i + 1)
      && Pieces(s, start, Ends(s, i, m)) == Piece(s, start, i + 1) + Pieces(s, i + 1, Ends(s, i + 1, Code))
    ensures !CodeSemicolon(s, i) ==>
      && Within(s, start, Step(s, i, m).0, Step(s, i, m).1)
      && Ends(s, i, m) == Ends(s, Step(s, i, m).0, Step(s, i, m).1)
  {
    hide Step, ModeFrom, CodeSemicolon, Ends, Pieces, Piece;
    ReachesNext(s, i, m);
    FirstPiece(s, start, i + 1, Ends(s, i + 1, Code));
  }

  lemma WithinEnds(s: Bytes, start: nat, m: Mode)
    requires Within(s, start, |s|, m)
    ensures IsPiece(s, start, |s|) && Pieces(s, start, Ends(s, |s|, m)) == Piece(s, start, |s|)
  {
    LastPiece(s, start, m);
  }

  /** Each statement comes from a piece ... */
  lemma {:induction false} StatementHasPiece(s: Bytes, start: nat, i: nat, m: Mode, st: Statement) returns (a: nat, b: nat)
    requires Within(s, start, i, m) && i <= |s|
    requires st in Pieces(s, start, Ends(s, i, m))
    ensures IsPiece(s, a, b) && st in Piece(s, a, b)
    decreases |s| - i
  {
    hide Within, Step, ModeFrom, CodeSemicolon, Ends, Pieces, Piece;
    if i == |s| {
      WithinEnds(s, start, m);
      return start, |s|;
    }
    WithinNext(s, start, i, m);
    if CodeSemicolon(s, i) {
      if st in Piece(s, start, i + 1) {
        return start, i + 1;
      }
      a, b := StatementHasPiece(s, i + 1, i + 1, Code, st);
    } else {
      a, b := StatementHasPiece(s, start, Step(s, i, m).0, Step(s, i, m).1, st);
    }
  }

  /** ... and each byte is in one, whose statement is in the list. */
  lemma {:induction false} ByteHasPiece(s: Bytes, start: nat, i: nat, m: Mode, k: nat) returns (a: nat, b: nat)
    requires Within(s, start, i, m) && i <= |s| && start <= k < |s|
    ensures IsPiece(s, a, b) && a <= k < b
    ensures forall st :: st in Piece(s, a, b) ==> st in Pieces(s, start, Ends(s, i, m))
    decreases |s| - i
  {
    hide Within, Step, ModeFrom, CodeSemicolon, Ends, Pieces, Piece;
    if i == |s| {
      WithinEnds(s, start, m);
      return start, |s|;
    }
    WithinNext(s, start, i, m);
    if CodeSemicolon(s, i) {
      if k < i + 1 {
        return start, i + 1;
      }
      a, b := ByteHasPiece(s, i + 1, i + 1, Code, k);
    } else {
      a, b := ByteHasPiece(s, start, Step(s, i, m).0, Step(s, i, m).1, k);
    }
  }

  lemma WithinStart(s: Bytes)
    ensures Within(s, 0, 0, Code)
  {
    ReachesStart(s);
  }

  lemma PieceBounds(s: Bytes, a: nat, b: nat)
    requires IsPiece(s, a, b)
    ensures a <= b <= |s|
  {
  }

  /** A piece has one statement at most, its text without the white space
      around it. */
  lemma OnePiece(s: Bytes, a: nat, b: nat, st: Statement)
    requires a <= b <= |s| && st in Piece(s, a, b)
    ensures Piece(s, a, b) == [st] && Kept(s, a, b).0 < Kept(s, a, b).1 && st.sql == s[Kept(s, a, b).0..Kept(s, a, b).1]
  {
    hide TrimSpace, Line, BlankPrefix, Kept;
  }

  /** The pieces of a whole file. */
  lemma PieceOf(s: Bytes, st: Statement) returns (a: nat, b: nat, first: nat, last: nat)
    requires st in Pieces(s, 0, Ends(s, 0, Code))
    ensures IsPiece(s, a, b) && Piece(s, a, b) == [st]
    ensures a <= first < last <= b <= |s| && (first, last) == Kept(s, a, b) && st.sql == s[first..last]
  {
    hide *;
    WithinStart(s);
    a, b := StatementHasPiece(s, 0, 0, Code, st);
    PieceBounds(s, a, b);
    first, last := Kept(s, a, b).0, Kept(s, a, b).1;
    OnePiece(s, a, b, st);
  }

  lemma PieceAround(s: Bytes, k: nat) returns (a: nat, b: nat, first: nat, last: nat, st: Statement)
    requires k < |s| && !InSpace(s, k)
    ensures IsPiece(s, a, b) && Piece(s, a, b) == [st] && st in Pieces(s, 0, Ends(s, 0, Code))
    ensures a <= first <= k < last <= b <= |s| && (first, last) == Kept(s, a, b) && st.sql == s[first..last]
  {
    hide Within, Ends, Pieces, Line, BlankPrefix, TrimSpace, Kept, CodeSemicolon, ModeFrom;
    WithinStart(s);
    a, b := ByteHasPiece(s, 0, 0, Code, k);
    first, last := Kept(s, a, b).0, Kept(s, a, b).1;
    if !(first <= k < last) {
      KeptDropsSpace(s, a, b, k);
    }
    st := Piece(s, a, b)[0];
  }

  /* ---- Line ranges ---- */

  /** st is the text s[first..last], and its line range covers it. */
  ghost predicate Located(s: Bytes, st: Statement, first: nat, last: nat) {
    first < last <= |s| && st.sql == s[first..last] && 1 <= st.startLine <= Line(s, first) && Line(s, last) <= st.endLine
  }

  lemma PieceIsLocated(s: Bytes, a: nat, b: nat, st: Statement)
    requires a <= b <= |s| && Piece(s, a, b) == [st]
    ensures Located(s, st, Kept(s, a, b).0, Kept(s, a, b).1)
    ensures Line(s, a) <= st.startLine <= st.endLine == Line(s, b)
  {
    hide Line, TrimSpace, Kept, BlankPrefix;
    var (first, last) := Kept(s, a, b);
    var blank := BlankPrefix(s[a..b], 0);
    KeptStart(s, a, b);
    LineGrows(s, a, a + blank);
    LineGrows(s, a + blank, first);
    LineGrows(s, first, last);
    LineGrows(s, last, b);
  }

  lemma KeptStart(s: Bytes, a: nat, b: nat)
    requires a <= b <= |s|
    ensures a + BlankPrefix(s[a..b], 0) <= Kept(s, a, b).0
  {
  }

  /** Ranges from line lo on, none empty, none before its predecessor's end. */
  ghost predicate InOrder(list: seq<Statement>, lo: nat) {
    && (forall x :: 0 <= x < |list| ==> lo <= list[x].startLine <= list[x].endLine)
    && (forall x, y :: 0 <= x < y < |list| ==> list[x].endLine <= list[y].startLine)
  }

  lemma OneMoreInFront(lo: nat, mid: nat, head: seq<Statement>, rest: seq<Statement>)
    requires lo <= mid && |head| <= 1 && (|head| == 1 ==> lo <= head[0].startLine <= head[0].endLine <= mid)
    requires InOrder(rest, mid)
    ensures InOrder(head + rest, lo)
  {
  }

  /** Line ranges never go backwards. */
  lemma {:induction false} LinesNeverGoBack(s: Bytes, start: nat, ends: seq<nat>)
    requires start <= |s| && Ordered(s, start, ends)
    ensures InOrder(Pieces(s, start, ends), Line(s, start))
    decreases |ends|
  {
    if ends != [] {
      hide Line, Piece, InOrder;
      LinesNeverGoBack(s, ends[0], ends[1..]);
      LineGrows(s, start, ends[0]);
      var head := Piece(s, start, ends[0]);
      AtMostOne(s, start, ends[0]);
      if |head| == 1 {
        PieceIsLocated(s, start, ends[0], head[0]);
      }
      OneMoreInFront(Line(s, start), Line(s, ends[0]), head, Pieces(s, ends[0], ends[1..]));
    }
  }

  lemma AtMostOne(s: Bytes, a: nat, b: nat)
    requires a <= b <= |s|
    ensures |Piece(s, a, b)| <= 1
  {
  }

  /** Every statement stands where its line range says ... */
  lemma StatementsAreLocated(s: Bytes, st: Statement) returns (first: nat, last: nat)
    requires st in Pieces(s, 0, Ends(s, 0, Code))
    ensures Located(s, st, first, last)
  {
    var a, b;
    a, b, first, last := PieceOf(s, st);
    PieceIsLocated(s, a, b, st);
  }

  /** ... and every byte that belongs to no white-space character is in one. */
  lemma TextIsCovered(s: Bytes, k: nat) returns (st: Statement, first: nat, last: nat)
    requires k < |s| && !InSpace(s, k)
    ensures st in Pieces(s, 0, Ends(s, 0, Code)) && Located(s, st, first, last) && first <= k < last
    ensures st.startLine <= Line(s, k) <= st.endLine
  {
    var a, b;
    a, b, first, last, st := PieceAround(s, k);
    PieceIsLocated(s, a, b, st);
    LineGrows(s, first, k);
    LineGrows(s, k, last);
  }

  /* ---- The scan inside a statement ---- */

  predicate Special(c: byte) { c == SEMICOLON || c == QUESTION }

  lemma CodeAfterCut(s: Bytes, a: nat)
    requires a < |s| && (a == 0 || CodeSemicolon(s, a - 1))
    ensures ModeFrom(s, 0, Code, a) == Some(Code)
  {
    if a > 0 {
      Arrive(s, a - 1, Code);
    }
  }

  /** Scanned by itself, a piece has the same code as within its file. */
  lemma PieceScan(s: Bytes, a: nat, b: nat, k: nat)
    requires IsPiece(s, a, b) && a <= k < b && Terminated(FinalMode(s, 0, Code))
    ensures Terminated(FinalMode(s[a..b], 0, Code))
    ensures InCode(s, k) <==> InCode(s[a..b], k - a)
  {
    hide Step;
    CodeAfterCut(s, a);
    ScanFromVisited(s, 0, Code, a, k);
    ScanAfterDrop(s, a, a, Code, k);
    if b == |s| {
      assert s[a..b] == s[a..];
    } else {
      var u := s[a..];
      ScanFromVisited(s, 0, Code, a, b - 1);
      ScanAfterDrop(s, a, a, Code, b - 1);
      ScanBeforeSemicolon(u, b - a, 0, Code, k - a);
      assert s[a..b] == u[..b - a];
    }
  }

  /** ... and so has what TrimSpace leaves of a terminated text. */
  lemma TrimScan(t: Bytes, l: nat, r: nat, k: nat)
    requires l <= k < r <= |t| && Terminated(FinalMode(t, 0, Code))
    requires forall x :: 0 <= x < l || r <= x < |t| ==> Inert(t[x])
    ensures Terminated(FinalMode(t[l..r], 0, Code))
    ensures Special(t[k]) ==> (InCode(t, k) <==> InCode(t[l..r], k - l))
  {
    hide Step;
    ScanOverInert(t, 0, l);
    ScanFromVisited(t, 0, Code, l, k);
    ScanAfterDrop(t, l, l, Code, k);
    var u := t[l..];
    assert forall x :: r - l <= x < |u| ==> u[x] == t[x + l];
    ScanWithoutTail(u, r - l, 0, Code, k - l);
    assert t[l..r] == u[..r - l];
  }

  lemma StatementScan(s: Bytes, a: nat, b: nat, first: nat, last: nat, k: nat)
    requires IsPiece(s, a, b) && Terminated(FinalMode(s, 0, Code))
    requires (first, last) == Kept(s, a, b) && first <= k < last
    ensures Terminated(FinalMode(s[first..last], 0, Code))
    ensures Special(s[k]) ==> (InCode(s, k) <==> InCode(s[first..last], k - first))
  {
    hide ModeFrom, FinalMode, CodeSemicolon, TrimSpace, Kept, Terminated, Special;
    PieceScan(s, a, b, k);
    hide IsPiece, InCode;
    var t := s[a..b];
    assert forall x :: 0 <= x < |t| ==> t[x] == s[a + x];
    TrimScan(t, first - a, last - a, k - a);
    assert t[first - a..last - a] == s[first..last];
  }

  /* ---- A statement splits to itself ---- */

  lemma {:induction false} TrailingPieces(s: Bytes, start: nat, ends: seq<nat>)
    requires start <= |s| && ends != [] && forall x :: 0 <= x < |ends| ==> ends[x] == |s|
    ensures Pieces(s, start, ends) == Piece(s, start, |s|)
    decreases |ends|
  {
    if |ends| > 1 {
      TrailingPieces(s, |s|, ends[1..]);
      assert s[|s|..|s|] == [];
    }
  }

  lemma WholeText(u: Bytes)
    requires u != [] && TrimSpace(u) == u && TrimStart(u, 0) == 0
    ensures Piece(u, 0, |u|) == [Statement(u, 1, Line(u, |u|))]
  {
    assert u[0..|u|] == u;
  }

  /** The only semicolon in code a statement may have is its last byte. */
  lemma StatementEnds(s: Bytes, a: nat, b: nat, first: nat, last: nat, e: nat)
    requires IsPiece(s, a, b) && Terminated(FinalMode(s, 0, Code))
    requires (first, last) == Kept(s, a, b) && first < last
    requires e in Ends(s[first..last], 0, Code)
    ensures e == last - first
  {
    hide Ends, ModeFrom, FinalMode, TrimSpace;
    var u := s[first..last];
    CutsAreCodeSemicolons(u, e);
    StatementScan(s, a, b, first, last, first + e - 1);
    assert CodeSemicolon(s, first + e - 1) <==> CodeSemicolon(u, e - 1);
  }

  /** Splitting a returned statement again returns that one statement. */
  lemma StatementsSplitToThemselves(s: Bytes, st: Statement)
    requires Spec(s).Split? && st in Spec(s).statements
    ensures Spec(st.sql) == Split([Statement(st.sql, 1, Line(st.sql, |st.sql|))])
  {
    hide Ends, ModeFrom, FinalMode, Line, Pieces, IsPiece;
    var a, b, first, last := PieceOf(s, st);
    var u := st.sql;
    forall e | e in Ends(u, 0, Code)
      ensures e == |u|
    {
      StatementEnds(s, a, b, first, last, e);
    }
    StatementScan(s, a, b, first, last, first);
    assert forall x :: 0 <= x < |Ends(u, 0, Code)| ==> Ends(u, 0, Code)[x] in Ends(u, 0, Code);
    TrailingPieces(u, 0, Ends(u, 0, Code));
    TrimIsIdempotent(s[a..b]);
    WholeText(u);
  }

  /* ---- The two lexers agree ---- */

  lemma PlaceholderIsInAStatement(s: Bytes, k: nat)
    requires Spec(s).Split? && k < |s| && s[k] == QUESTION && InCode(s, k)
    ensures exists st :: st in Spec(s).statements && HasPlaceholder(st.sql)
  {
    hide Ends, ModeFrom, FinalMode, Line, Pieces, IsPiece, Kept, Piece, Step, TrimSpace;
    SpaceIsInert(s, k);
    var a, b, first, last, st := PieceAround(s, k);
    StatementScan(s, a, b, first, last, k);
    assert st.sql[k - first] == QUESTION && InCode(st.sql, k - first);
  }

  lemma StatementPlaceholderIsInTheFile(s: Bytes, st: Statement)
    requires Spec(s).Split? && st in Spec(s).statements && HasPlaceholder(st.sql)
    ensures HasPlaceholder(s)
  {
    hide Ends, ModeFrom, FinalMode, Line, Pieces, IsPiece, Kept, Piece, Step, TrimSpace;
    var a, b, first, last := PieceOf(s, st);
    var k :| 0 <= k < |st.sql| && st.sql[k] == QUESTION && InCode(st.sql, k);
    StatementScan(s, a, b, first, last, first + k);
    assert s[first + k] == QUESTION;
  }

  /** A file has a bind placeholder exactly when one of its statements has. */
  lemma PlaceholdersAgree(s: Bytes)
    requires Spec(s).Split?
    ensures HasPlaceholder(s) <==> exists st :: st in Spec(s).statements && HasPlaceholder(st.sql)
  {
    hide Spec, InCode;
    if HasPlaceholder(s) {
      var k :| 0 <= k < |s| && s[k] == QUESTION && InCode(s, k);
      PlaceholderIsInAStatement(s, k);
    }
    forall st | st in Spec(s).statements && HasPlaceholder(st.sql)
      ensures HasPlaceholder(s)
    {
      StatementPlaceholderIsInTheFile(s, st);
    }
  }

  /* ---- Lines and white space, said directly ---- */

  function NewlinesBefore(s: Bytes, i: nat): set<int>
    requires i <= |s|
  {
    set k | 0 <= k < i && s[k] == 10
  }

  /** A line number is one more than the newlines before. */
  lemma {:induction false} LineCounts(s: Bytes, i: nat)
    requires i <= |s|
    ensures Line(s, i) == 1 + |NewlinesBefore(s, i)|
  {
    if i > 0 {
      LineCounts(s, i - 1);
      var before := NewlinesBefore(s, i - 1);
      assert NewlinesBefore(s, i) == if s[i - 1] == 10 then before + {i - 1} else before;
    } else {
      assert NewlinesBefore(s, 0) == {};
    }
  }

  lemma {:induction false} BlankPrefixMeans(s: Bytes, i: nat)
    requires i <= |s|
    ensures var p := BlankPrefix(s, i);
      && (forall x :: i <= x < p ==> s[x] in {9, 10, 13, 32}) && (p < |s| ==> s[p] !in {9, 10, 13, 32})
    decreases |s| - i
  {
    if i < |s| && IsBlank(s[i]) {
      BlankPrefixMeans(s, i + 1);
    }
  }

  lemma PieceLines(s: Bytes, a: nat, b: nat, st: Statement)
    requires a <= b <= |s| && Piece(s, a, b) == [st]
    ensures var p := a + BlankPrefix(s[a..b], 0); st.startLine == Line(s, p) && st.endLine == Line(s, b)
  {
    hide Line, TrimSpace, BlankPrefix;
  }

  /** A statement's range runs from the line of the first byte of its piece that
      is no space, tab, CR or LF to the line on which the piece ends: that of
      its semicolon, or of the end of the file. */
  lemma StatementRangeIsExact(s: Bytes, st: Statement) returns (a: nat, p: nat, first: nat, b: nat)
    requires st in Pieces(s, 0, Ends(s, 0, Code))
    ensures IsPiece(s, a, b) && a <= p <= first < b
    ensures (forall x :: a <= x < p ==> s[x] in {9, 10, 13, 32}) && s[p] !in {9, 10, 13, 32}
    ensures st.startLine == Line(s, p) && st.endLine == Line(s, b)
    ensures first + |st.sql| <= b && st.sql == s[first..first + |st.sql|]
  {
    hide Line, Ends, TrimSpace, Kept, BlankPrefix, CodeSemicolon;
    var last;
    a, b, first, last := PieceOf(s, st);
    PieceLines(s, a, b, st);
    KeptStart(s, a, b);
    BlankPrefixMeans(s[a..b], 0);
    p := a + BlankPrefix(s[a..b], 0);
    forall x | a <= x < p
      ensures s[x] in {9, 10, 13, 32}
    {
      assert s[x] == s[a..b][x - a];
    }
    assert s[p] == s[a..b][p - a];
  }

  /** UTF-8, section 3 of RFC 3629, for code points of up to 16 bits. */
  function Utf8(rune: int): Bytes
    requires 0 <= rune < 0x10000
  {
    if rune < 0x80 then [rune]
    else if rune < 0x800 then [0xC0 + rune / 64, 0x80 + rune % 64]
    else [0xE0 + rune / 4096, 0x80 + rune / 64 % 64, 0x80 + rune % 64]
  }

  /** What SpaceAt finds is the encoding of a white-space character ... */
  lemma SpaceDecodes(s: Bytes, i: nat) returns (rune: int)
    requires i < |s| && SpaceAt(s, i) > 0
    ensures 0 <= rune < 0x10000 && IsSpace(rune) && s[i..i + SpaceAt(s, i)] == Utf8(rune)
  {
    var b: int, c: int, d: int := s[i], At(s, i + 1), At(s, i + 2);
    var u := s[i..i + SpaceAt(s, i)];
    match SpaceAt(s, i) {
      case 1 =>
        rune := b;
        assert u == [b];
      case 2 =>
        rune := (b - 0xC0) * 64 + (c - 0x80);
        assert u == [b, c] == Utf8(rune);
      case _ =>
        rune := (b - 0xE0) * 4096 + (c - 0x80) * 64 + (d - 0x80);
        assert u == [b, c, d] == Utf8(rune);
    }
  }

  /** ... and it finds all of them. */
  lemma SpaceIsFound(s: Bytes, i: nat, rune: int)
    requires 0 <= rune < 0x10000 && IsSpace(rune)
    requires i + |Utf8(rune)| <= |s| && s[i..i + |Utf8(rune)|] == Utf8(rune)
    ensures SpaceAt(s, i) == |Utf8(rune)|
  {
    var u := s[i..i + |Utf8(rune)|];
    assert u[0] == s[i] && (|u| > 1 ==> u[1] == s[i + 1]) && (|u| > 2 ==> u[2] == s[i + 2]);
  }
}
