/** What the review of an edited file relies on: a statement that is passed
    over was there before, and one that an added line touches is not passed
    over, provided no bare context line upsets the patch reader. */
module ReviewTheorems {
  import opened Prelude
  import opened GoInt
  import opened Patch
  import opened Separators
  import opened Review
  import opened SqlFile
  import opened SqlFileTheorems
  import opened SqlLexer

  predicate Marked(st: Statement, line: int64, changed: set<int64>) {
    st.startLine <= line <= st.endLine && line in changed
  }

  /** A marked line lies in the statement's range. */
  predicate Selected(st: Statement, changed: set<int64>) {
    exists line :: line in changed && Marked(st, line, changed)
  }

  /** The search over a statement's lines. */
  method Relevant(added: bool, st: Statement, changed: set<int64>) returns (relevant: bool)
    requires st.endLine < TWO63
    ensures relevant <==> added || Selected(st, changed)
  {
    relevant := added;
    var line: int := st.startLine;
    while line <= st.endLine && !relevant
      invariant st.startLine <= line
      invariant relevant ==> added || Selected(st, changed)
      invariant !relevant ==> !added && forall l: int64 :: st.startLine <= l < line ==> l !in changed
      decreases st.endLine + 1 - line, !relevant
    {
      relevant := line in changed;
      if relevant {
        assert Marked(st, line, changed);
      }
      line := line + 1;
    }
  }

  lemma TrimmedEndsInText(s: Bytes)
    requires TrimSpace(s) != []
    ensures TrimSpace(s)[|TrimSpace(s)| - 1] != NEWLINE
  {
    var t := s[TrimStart(s, 0)..];
    var r := TrimEnd(t, |t|);
    assert SpaceBefore(t, r) == 0 && TrimSpace(s)[r - 1] == t[r - 1];
  }

  /** Where a statement stands: its lines lie inside its range. */
  lemma StatementLines(s: Bytes, st: Statement) returns (first: nat, last: nat)
    requires Spec(s).Split? && st in Spec(s).statements
    ensures Located(s, st, first, last) && s[last - 1] != NEWLINE
    ensures Line(s, first) <= Line(s, last) <= |FileLines(s)|
    ensures Occurs(st.sql, JoinLines(FileLines(s)[Line(s, first) - 1..Line(s, last)]))
  {
    hide Line, FileLines, JoinLines, Ends, Pieces, TrimSpace, IsPiece, Kept, BlankPrefix, Occurs;
    var a, b;
    a, b, first, last := PieceOf(s, st);
    PieceIsLocated(s, a, b, st);
    TrimmedEndsInText(s[a..b]);
    assert st.sql == TrimSpace(s[a..b]);
    assert st.sql[|st.sql| - 1] == s[last - 1];
    TextStandsInItsLines(s, first, last);
  }

  /** Review soundness: a statement with no marked line stands, verbatim, in a
      block of n consecutive lines of the old file. */
  lemma UnselectedStatementsAreOld(oldFile: Bytes, newFile: Bytes, hunks: seq<Hunk>, finalNewline: bool, st: Statement)
      returns (o: nat, n: nat)
    requires Spec(newFile).Split? && st in Spec(newFile).statements
    requires WellFormed(hunks, FileLines(oldFile), FileLines(newFile)) && |FileLines(newFile)| + 1 < TWO63
    requires AllTidy(hunks)
    requires !Selected(st, Changed(PatchText(hunks, finalNewline)))
    ensures o + n <= |FileLines(oldFile)|
    ensures Occurs(st.sql, JoinLines(FileLines(oldFile)[o..o + n]))
  {
    hide *;
    var olds, news := FileLines(oldFile), FileLines(newFile);
    var first, last := StatementLines(newFile, st);
    UnfoldsTo(oldFile, newFile, hunks, finalNewline, st, first, last);
    var script := Script(hunks, olds, 0, news, 0);
    o := UnmarkedLinesAreOld(script, 0, Line(newFile, first), Line(newFile, last));
    n := Line(newFile, last) - Line(newFile, first) + 1;
    BlockMeans(olds, o, news, Line(newFile, first) - 1, n);
  }

  lemma BlockMeans(olds: seq<Bytes>, o: nat, news: seq<Bytes>, k: nat, n: nat)
    requires SameBlock(olds, o, news, k, n)
    ensures o + n <= |olds| && k + n <= |news| && olds[o..o + n] == news[k..k + n]
  {
  }

  lemma UnfoldsTo(oldFile: Bytes, newFile: Bytes, hunks: seq<Hunk>, finalNewline: bool, st: Statement, first: nat, last: nat)
    requires Located(newFile, st, first, last)
    requires WellFormed(hunks, FileLines(oldFile), FileLines(newFile)) && |FileLines(newFile)| + 1 < TWO63
    requires AllTidy(hunks)
    requires !Selected(st, Changed(PatchText(hunks, finalNewline)))
    ensures Applies(hunks, FileLines(oldFile), 0, FileLines(newFile), 0)
    ensures first < last <= |newFile| && 1 <= Line(newFile, first)
    ensures var script := Script(hunks, FileLines(oldFile), 0, FileLines(newFile), 0);
      && OldSide(script) == FileLines(oldFile) && NewSide(script) == FileLines(newFile)
      && forall l :: Line(newFile, first) <= l <= Line(newFile, last) ==> l !in Needed(script, 0)
  {
    hide Applies, FileLines, Script, Needed, Line, OldSide, NewSide, Changed, PatchText, Tidy, OneLiners;
    var olds, news := FileLines(oldFile), FileLines(newFile);
    ChangedCoversScript(hunks, finalNewline, olds, news);
    SidesOfScript(hunks, olds, 0, news, 0);
    assert olds[0..] == olds && news[0..] == news;
    var script, changed := Script(hunks, olds, 0, news, 0), Changed(PatchText(hunks, finalNewline));
    forall l | Line(newFile, first) <= l <= Line(newFile, last)
      ensures l !in Needed(script, 0)
    {
      assert l in changed ==> Marked(st, l, changed);
    }
  }

  /** Every statement that stands on an added line is selected. */
  lemma TouchedStatementsAreSelected(oldFile: Bytes, newFile: Bytes, hunks: seq<Hunk>, finalNewline: bool, st: Statement,
                                     first: nat, last: nat, line: int)
    requires Located(newFile, st, first, last)
    requires WellFormed(hunks, FileLines(oldFile), FileLines(newFile)) && |FileLines(newFile)| + 1 < TWO63
    requires AllTidy(hunks)
    requires line in Inserted(Script(hunks, FileLines(oldFile), 0, FileLines(newFile), 0), 0)
    requires Line(newFile, first) <= line <= Line(newFile, last)
    ensures Selected(st, Changed(PatchText(hunks, finalNewline)))
  {
    hide Applies, FileLines, Script, Needed, Inserted, Line, Changed, PatchText, Tidy, OneLiners;
    var olds, news := FileLines(oldFile), FileLines(newFile);
    ChangedCoversScript(hunks, finalNewline, olds, news);
    InsertedIsNeeded(Script(hunks, olds, 0, news, 0), 0);
    assert Marked(st, line, Changed(PatchText(hunks, finalNewline)));
  }

  /* ---- Without the proviso ---- */

  const OLD_FILE: Bytes := [10]
  const NEW_FILE: Bytes := [10, 83, 59]
  const ADDED: Bytes := [83, 59]
  const BARE_HUNK: Hunk := Hunk(Range(1, 1), Range(1, 2), [], [Bare, Insert(ADDED)])

  lemma ExampleLines()
    ensures FileLines(OLD_FILE) == [[]] && FileLines(NEW_FILE) == [[], ADDED]
  {
    var e: Bytes := [];
    SplitOfOnePart(e, NEWLINE);
    SplitOfLastPart(e, e, NEWLINE);
    SplitOfLastPart(e, ADDED, NEWLINE);
    assert e + [NEWLINE] + e == OLD_FILE && e + [NEWLINE] + ADDED == NEW_FILE;
  }

  lemma ExampleEnds()
    ensures FinalMode(NEW_FILE, 0, Code) == Code && Ends(NEW_FILE, 0, Code) == [3, 3]
  {
    var s := NEW_FILE;
    assert Step(s, 0, Code) == (1, Code) && Step(s, 1, Code) == (2, Code) && Step(s, 2, Code) == (3, Code);
    hide Step;
    assert FinalMode(s, 1, Code) == FinalMode(s, 2, Code) == FinalMode(s, 3, Code) == Code;
    assert Ends(s, 3, Code) == [3];
    assert Ends(s, 2, Code) == [3, 3];
    assert Ends(s, 1, Code) == [3, 3];
  }

  lemma ExamplePiece()
    ensures Piece(NEW_FILE, 0, 3) == [Statement(ADDED, 2, 2)]
  {
    var s := NEW_FILE;
    assert s[0..3] == s && s[1..] == ADDED;
    assert TrimStart(s, 1) == 1 && TrimStart(s, 0) == 1;
    assert TrimEnd(ADDED, 2) == 2 && ADDED[..2] == ADDED;
    assert TrimSpace(s) == ADDED;
    assert BlankPrefix(s, 1) == 1 && BlankPrefix(s, 0) == 1;
    assert Line(s, 0) == 1 && Line(s, 1) == 2 && Line(s, 2) == 2 && Line(s, 3) == 2;
  }

  lemma ExampleStatements()
    ensures Spec(NEW_FILE) == Split([Statement(ADDED, 2, 2)])
  {
    hide Piece, Line, FinalMode, Ends;
    ExampleEnds();
    ExamplePiece();
    var s := NEW_FILE;
    FirstPiece(s, 0, 3, [3]);
    TrailingPieces(s, 3, [3]);
    EmptyPiece(s, 3);
    assert [3] + [3] == [3, 3];
  }

  lemma EmptyPiece(s: Bytes, a: nat)
    requires a <= |s|
    ensures Piece(s, a, a) == []
  {
    assert s[a..a] == [];
  }

  lemma ExampleMarks()
    ensures Changed(PatchText([BARE_HUNK], false)) == {1}
  {
    hide HunkStart, HeaderText, Changed, PatchTexts, Separators.Join, Separators.Split;
    var texts := HunkTexts(BARE_HUNK);
    FirstTexts([BARE_HUNK]);
    NoTexts();
    assert [BARE_HUNK][1..] == [];
    assert texts + [] == texts;
    TextsAreLines([BARE_HUNK]);
    SplitOfJoin(texts, NEWLINE);
    HunkIsRead(BARE_HUNK, 0);
    ExampleBody();
    ChangedMeans(PatchText([BARE_HUNK], false));
  }

  lemma NoTexts()
    ensures PatchTexts([]) == []
  {
  }

  lemma ChangedMeans(patch: Bytes)
    ensures Changed(patch) == MarksOfAll(SplitLines(patch), 0)
  {
  }

  lemma ExampleBody()
    ensures MarksOfAll(BodyTexts(BARE_HUNK.body), 1) == {1}
  {
    hide HunkStart;
    EditIsNoHeader(Bare);
    EditIsNoHeader(Insert(ADDED));
    var bare, added: Bytes := [], [PLUS] + ADDED;
    var body := BodyTexts(BARE_HUNK.body);
    assert body == [bare, added];
    var tail := body[1..];
    assert tail == [added] && |tail[1..]| == 0;
    assert MarksOfAll(tail, 1) == {1};
  }

  lemma ExampleIsWellFormed()
    ensures WellFormed([BARE_HUNK], FileLines(OLD_FILE), FileLines(NEW_FILE))
  {
    ExampleLines();
    hide FileLines;
    var h := BARE_HUNK;
    var rest := h.body[1..];
    assert rest == [Insert(ADDED)] && |rest[1..]| == 0;
    assert OldSide(rest) == [] && NewSide(rest) == [ADDED];
    assert OldSide(h.body) == [[]] && NewSide(h.body) == [[], ADDED];
    assert Applies([], FileLines(OLD_FILE), 1, FileLines(NEW_FILE), 2);
    assert [h][1..] == [];
  }

  /** One empty line, to which a statement is added: written with a bare
      context line the patch marks line 1, and the new statement on line 2 is
      passed over though it stands nowhere in the old file. */
  lemma BareLinesHideChanges()
    ensures WellFormed([BARE_HUNK], FileLines(OLD_FILE), FileLines(NEW_FILE)) && !AllTidy([BARE_HUNK])
    ensures Spec(NEW_FILE) == Split([Statement(ADDED, 2, 2)])
    ensures !Selected(Statement(ADDED, 2, 2), Changed(PatchText([BARE_HUNK], false)))
    ensures !Occurs(ADDED, OLD_FILE)
  {
    hide Changed, PatchText, Spec, WellFormed, FileLines;
    ExampleIsWellFormed();
    ExampleStatements();
    ExampleMarks();
    var h := BARE_HUNK;
    assert h.body[0].Bare? && IsChange(h.body[1]);
    assert !Tidy([h][0].body);
  }
}
