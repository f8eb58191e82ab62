/** Exactly which lines the patch reader marks, and which lines it takes for
    hunk headers. */
module PatchMarks {
  import opened Prelude
  import opened GoInt
  import opened Decimals
  import opened Separators
  import opened Sequences
  import opened Patch
  import opened Review
  import opened ReviewTheorems
  import opened SqlFile

  /* ---- Marks ---- */

  /** An inserted line, and for a deletion the lines on both sides of the gap. */
  function MeantBy(e: Edit, line: int): set<int> {
    match e
    case Insert(_) => {line}
    case Delete(_) => if line > 1 then {line - 1, line} else {line}
    case _ => {}
  }

  function Meant(body: seq<Edit>, line: int): set<int> {
    if body == [] then {} else MeantBy(body[0], line) + Meant(body[1..], line + |NewOf(body[0])|)
  }

  /** The lines the hunks of a patch are about; in an empty new file there are
      none. */
  function MeantOf(hunks: seq<Hunk>): set<int> {
    if hunks == [] then {}
    else (if hunks[0].newRange.start == 0 then {} else Meant(hunks[0].body, hunks[0].newRange.start)) + MeantOf(hunks[1..])
  }

  lemma {:induction false} NothingMeant(body: seq<Edit>, line: int)
    requires NoChange(body)
    ensures Meant(body, line) == {}
  {
    if body != [] {
      FirstChange(body);
      NothingMeant(body[1..], line + |NewOf(body[0])|);
    }
  }

  lemma {:induction false} NothingMarked(body: seq<Edit>, line: int64)
    requires NoChange(body)
    ensures MarksOfAll(BodyTexts(body), line) == {}
  {
    if body != [] {
      FirstChange(body);
      FirstText(body, line);
      UnchangedIsUnmarked(body[0], line);
      hide LineAfter;
      NothingMarked(body[1..], LineAfter(EditText(body[0]), line));
    }
  }

  lemma UnchangedIsUnmarked(e: Edit, line: int64)
    requires !IsChange(e)
    ensures MarksOf(EditText(e), line) == {}
  {
    hide HunkStart;
    EditIsNoHeader(e);
  }

  lemma EditIsMarked(e: Edit, line: int64)
    requires 0 < line && line + |NewOf(e)| < TWO63
    ensures MarksOf(EditText(e), line) == MeantBy(e, line)
    ensures !e.Bare? ==> LineAfter(EditText(e), line) == line + |NewOf(e)|
  {
    hide HunkStart;
    EditIsNoHeader(e);
  }

  lemma {:induction false} BodyMarksAreExact(body: seq<Edit>, line: int64)
    requires Tidy(body) && 0 < line && line + |NewSide(body)| < TWO63
    ensures MarksOfAll(BodyTexts(body), line) == Meant(body, line)
  {
    if body != [] {
      var e := body[0];
      FirstChange(body);
      FirstText(body, line);
      TidyTail(body);
      EditIsMarked(e, line);
      hide MarksOf, LineAfter, Tidy, NoChange;
      if e.Bare? {
        NothingMarked(body[1..], LineAfter(EditText(e), line));
        NothingMeant(body[1..], line + |NewOf(e)|);
      } else {
        BodyMarksAreExact(body[1..], line + |NewOf(e)|);
      }
    }
  }

  lemma {:induction false} NoLineNoMarks(body: seq<Edit>)
    ensures MarksOfAll(BodyTexts(body), 0) == {}
  {
    if body != [] {
      FirstText(body, 0);
      EditIsNoHeader(body[0]);
      hide HunkStart;
      NoLineNoMarks(body[1..]);
    }
  }

  lemma {:induction false} PatchMarksAreExact(hunks: seq<Hunk>, line: int64)
    requires InRange(hunks) && AllTidy(hunks)
    ensures MarksOfAll(PatchTexts(hunks), line) == MeantOf(hunks)
  {
    if hunks != [] {
      var h, rest := hunks[0], hunks[1..];
      assert InRange(rest) && AllTidy(rest) && Tidy(h.body);
      hide Tidy, AllTidy, InRange, HunkTexts, MarksOfAll, Meant;
      FirstTexts(hunks);
      HunkIsRead(h, line);
      MarksOfConcat(HunkTexts(h), PatchTexts(rest), line);
      PatchMarksAreExact(rest, LineAfterAll(HunkTexts(h), line));
      if h.newRange.start == 0 {
        NoLineNoMarks(h.body);
      } else {
        BodyMarksAreExact(h.body, h.newRange.start);
      }
    } else {
      assert MarksOfAll([], line) == {};
    }
  }

  /** From the text of a well-formed patch, without bare lines before changes,
      the reader marks each inserted line and the lines before and behind each
      deletion, and no other line. */
  lemma MarksAreExact(hunks: seq<Hunk>, finalNewline: bool, before: seq<Bytes>, after: seq<Bytes>)
    requires WellFormed(hunks, before, after) && |after| + 1 < TWO63 && AllTidy(hunks)
    ensures Changed(PatchText(hunks, finalNewline)) == MeantOf(hunks)
  {
    hide Applies, HunkStart, MeantOf, InRange, MarksOf, LineAfter, AllTidy;
    var texts := PatchTexts(hunks);
    var all := texts + if finalNewline then [[]] else [];
    AppliedIsInRange(hunks, before, 0, after, 0);
    PatchMarksAreExact(hunks, 0);
    TextsAreLines(hunks);
    MarksOfConcat(texts, if finalNewline then [[]] else [], 0);
    EmptyTextMarksNothing(LineAfterAll(texts, 0));
    if all == [] {
      assert texts == [] && SplitLines([]) == [[]];
      EmptyTextMarksNothing(0);
    } else {
      SplitOfJoin(all, NEWLINE);
    }
  }

  lemma EmptyTextMarksNothing(line: int64)
    ensures MarksOfAll([[]], line) == {} && MarksOfAll([], line) == {}
  {
    EditIsNoHeader(Bare);
    var one: seq<Bytes> := [[]];
    assert one[1..] == [];
  }

  /** Such a patch selects a statement exactly if one of those lines is in the
      statement's range. */
  lemma SelectedIffNearAChange(hunks: seq<Hunk>, finalNewline: bool, before: seq<Bytes>, after: seq<Bytes>, st: Statement)
    requires WellFormed(hunks, before, after) && |after| + 1 < TWO63 && AllTidy(hunks)
    ensures Selected(st, Changed(PatchText(hunks, finalNewline))) <==> exists l :: l in MeantOf(hunks) && st.startLine <= l <= st.endLine
  {
    hide Applies, AllTidy, Changed, PatchText, MeantOf;
    MarksAreExact(hunks, finalNewline, before, after);
    var changed := Changed(PatchText(hunks, finalNewline));
    if l :| l in MeantOf(hunks) && st.startLine <= l <= st.endLine {
      assert l in changed;
      assert Marked(st, l, changed);
    }
  }

  /* ---- Headers ---- */

  /** Nothing, or a comma and a number. */
  ghost predicate IsCount(c: Bytes) { c == [] || (|c| > 1 && c[0] == COMMA && AllDigits(c[1..])) }

  /** @@ -d1[,n] +d2[,n] @@ and anything behind it. */
  ghost predicate IsHeader(s: Bytes, d1: Bytes, c1: Bytes, d2: Bytes, c2: Bytes, tail: Bytes) {
    && d1 != [] && AllDigits(d1) && IsCount(c1) && d2 != [] && AllDigits(d2) && IsCount(c2)
    && s == [64, 64, 32, 45] + d1 + c1 + [32, 43] + d2 + c2 + [32, 64, 64] + tail
  }

  lemma NumberMeans(s: Bytes, i: nat)
    requires Number(s, i).Some?
    ensures var j := Number(s, i).value; i < j <= |s| && AllDigits(s[i..j])
  {
    DigitsAreDigits(s, i);
  }

  lemma CountMeans(s: Bytes, i: nat)
    requires OptionalCount(s, i).Some? && i <= |s|
    ensures var j := OptionalCount(s, i).value; i <= j <= |s| && IsCount(s[i..j])
  {
    if i < |s| && s[i] == COMMA {
      NumberMeans(s, i + 1);
      var j := Number(s, i + 1).value;
      assert s[i..j][1..] == s[i + 1..j];
    }
  }

  lemma LiteralMeans(s: Bytes, i: nat, text: Bytes)
    requires Literal(s, i, text).Some?
    ensures i + |text| <= |s| && s[i..i + |text|] == text
  {
  }

  lemma InPieces(s: Bytes, a: nat, b: nat, c: nat, d: nat, e: nat, f: nat, g: nat)
    requires a <= b <= c <= d <= e <= f <= g <= |s|
    ensures s == s[..a] + s[a..b] + s[b..c] + s[c..d] + s[d..e] + s[e..f] + s[f..g] + s[g..]
  {
  }

  /** What is taken for a hunk header is one, and the line it yields is the new
      start line, or 2^63 - 1 if that is too large. */
  lemma HeadersAreHeaders(s: Bytes) returns (d1: Bytes, c1: Bytes, d2: Bytes, c2: Bytes, tail: Bytes)
    requires HunkStart(s).Some?
    ensures IsHeader(s, d1, c1, d2, c2, tail)
    ensures HunkStart(s).value == Min(ValueOf(d2), TWO63 - 1)
  {
    hide Literal, Number, OptionalCount, IsCount;
    var a := Literal(s, 0, OPENING).value;
    LiteralMeans(s, 0, OPENING);
    var b := Number(s, a).value;
    NumberMeans(s, a);
    var c := OptionalCount(s, b).value;
    CountMeans(s, b);
    var d := Literal(s, c, MIDDLE).value;
    LiteralMeans(s, c, MIDDLE);
    var e := Number(s, d).value;
    NumberMeans(s, d);
    var f := OptionalCount(s, e).value;
    CountMeans(s, e);
    var g := Literal(s, f, CLOSING).value;
    LiteralMeans(s, f, CLOSING);
    HunkStartSteps(s, a, b, c, d, e);
    hide *;
    d1, c1, d2, c2, tail := s[a..b], s[b..c], s[d..e], s[e..f], s[g..];
    PiecesMakeAHeader(s, a, b, c, d, e, f, g);
  }

  lemma HunkStartSteps(s: Bytes, a: nat, b: nat, c: nat, d: nat, e: nat)
    requires HunkStart(s).Some? && Literal(s, 0, OPENING) == Some(a) && Number(s, a) == Some(b) && OptionalCount(s, b) == Some(c)
    requires Literal(s, c, MIDDLE) == Some(d) && Number(s, d) == Some(e)
    ensures d < e <= |s| && AllDigits(s[d..e]) && HunkStart(s).value == Min(ValueOf(s[d..e]), TWO63 - 1)
  {
    hide Literal, Number, OptionalCount;
    NumberMeans(s, d);
  }

  lemma PiecesMakeAHeader(s: Bytes, a: nat, b: nat, c: nat, d: nat, e: nat, f: nat, g: nat)
    requires 4 == a < b <= c && c + 2 == d < e <= f && f + 3 == g <= |s|
    requires s[..a] == OPENING && AllDigits(s[a..b]) && IsCount(s[b..c]) && s[c..d] == MIDDLE
    requires AllDigits(s[d..e]) && IsCount(s[e..f]) && s[f..g] == CLOSING
    ensures IsHeader(s, s[a..b], s[b..c], s[d..e], s[e..f], s[g..])
  {
    hide IsCount, AllDigits;
    InPieces(s, a, b, c, d, e, f, g);
  }

  lemma NumberIsRead(prefix: Bytes, d: Bytes, rest: Bytes)
    requires d != [] && AllDigits(d) && rest != [] && !IsDigit(rest[0])
    ensures Number(prefix + d + rest, |prefix|) == Some(|prefix| + |d|)
  {
    DigitsEndAfter(prefix, d, rest, 0);
  }

  lemma CountIsRead(prefix: Bytes, c: Bytes, rest: Bytes)
    requires IsCount(c) && rest != [] && rest[0] == SPACE
    ensures OptionalCount(prefix + c + rest, |prefix|) == Some(|prefix| + |c|)
  {
    var s := prefix + c + rest;
    if c == [] {
      assert s[|prefix|] == SPACE;
    } else {
      assert s[|prefix|] == COMMA;
      assert s == (prefix + [COMMA]) + c[1..] + rest;
      NumberIsRead(prefix + [COMMA], c[1..], rest);
    }
  }

  lemma LiteralIsRead(prefix: Bytes, text: Bytes, rest: Bytes)
    ensures Literal(prefix + text + rest, |prefix|, text) == Some(|prefix| + |text|)
  {
    var s := prefix + text + rest;
    assert s[|prefix|..|prefix| + |text|] == text;
  }

  lemma CountBegins(c: Bytes, rest: Bytes)
    requires IsCount(c) && rest != [] && rest[0] == SPACE
    ensures c + rest != [] && !IsDigit((c + rest)[0])
  {
  }

  lemma Nested(a: Bytes, b: Bytes, c: Bytes, d: Bytes, e: Bytes, f: Bytes, g: Bytes, h: Bytes)
    ensures a + b + c + d + e + f + g + h == a + (b + (c + (d + (e + (f + (g + h))))))
  {
  }

  lemma RangeIsRead(s: Bytes, prefix: Bytes, d: Bytes, c: Bytes, rest: Bytes) returns (next: Bytes)
    requires s == prefix + (d + (c + rest)) && d != [] && AllDigits(d) && IsCount(c) && rest != [] && rest[0] == SPACE
    ensures var b := |prefix| + |d|;
      Number(s, |prefix|) == Some(b) && OptionalCount(s, b) == Some(|next|) && b <= |s| && s[|prefix|..b] == d
    ensures s == next + rest
  {
    CountBegins(c, rest);
    hide *;
    Reassociate(prefix, d, c + rest);
    NumberIsRead(prefix, d, c + rest);
    Reassociate(prefix + d, c, rest);
    CountIsRead(prefix + d, c, rest);
    SliceBehind(prefix, d, c + rest);
    next := prefix + d + c;
  }

  lemma TextIsRead(s: Bytes, prefix: Bytes, text: Bytes, rest: Bytes)
    requires s == prefix + (text + rest)
    ensures Literal(s, |prefix|, text) == Some(|prefix| + |text|) && s == (prefix + text) + rest
  {
    hide *;
    Reassociate(prefix, text, rest);
    LiteralIsRead(prefix, text, rest);
  }

  lemma HeaderNests(s: Bytes, d1: Bytes, c1: Bytes, d2: Bytes, c2: Bytes, tail: Bytes)
    requires IsHeader(s, d1, c1, d2, c2, tail)
    ensures d1 != [] && AllDigits(d1) && IsCount(c1) && d2 != [] && AllDigits(d2) && IsCount(c2)
    ensures s == OPENING + (d1 + (c1 + (MIDDLE + (d2 + (c2 + (CLOSING + tail))))))
  {
    hide AllDigits, IsCount;
    Nested([64, 64, 32, 45], d1, c1, [32, 43], d2, c2, [32, 64, 64], tail);
  }

  lemma SecondRangeIsRead(s: Bytes, p: Bytes, d: Bytes, c: Bytes, tail: Bytes) returns (q: Bytes)
    requires s == p + (MIDDLE + (d + (c + (CLOSING + tail)))) && d != [] && AllDigits(d) && IsCount(c)
    ensures Literal(s, |p|, MIDDLE) == Some(|p| + 2) && Number(s, |p| + 2) == Some(|p| + 2 + |d|)
    ensures OptionalCount(s, |p| + 2 + |d|) == Some(|q|) && Literal(s, |q|, CLOSING).Some?
    ensures |p| + 2 + |d| <= |s| && s[|p| + 2..|p| + 2 + |d|] == d
  {
    ClosingStarts(tail);
    hide *;
    TextIsRead(s, p, MIDDLE, d + (c + (CLOSING + tail)));
    q := RangeIsRead(s, p + MIDDLE, d, c, CLOSING + tail);
    TextIsRead(s, q, CLOSING, tail);
  }

  lemma FirstRangeIsRead(s: Bytes, d: Bytes, c: Bytes, rest: Bytes) returns (p: Bytes)
    requires s == OPENING + (d + (c + rest)) && d != [] && AllDigits(d) && IsCount(c) && rest != [] && rest[0] == SPACE
    ensures Literal(s, 0, OPENING) == Some(4) && Number(s, 4) == Some(4 + |d|) && OptionalCount(s, 4 + |d|) == Some(|p|)
    ensures s == p + rest
  {
    ClosingStarts([]);
    hide *;
    OpeningIsRead(s, d + (c + rest));
    p := RangeIsRead(s, OPENING, d, c, rest);
  }

  lemma RangesAreRead(s: Bytes, d1: Bytes, c1: Bytes, rest: Bytes, d2: Bytes, c2: Bytes, tail: Bytes)
    requires s == OPENING + (d1 + (c1 + rest)) && d1 != [] && AllDigits(d1) && IsCount(c1)
    requires rest == MIDDLE + (d2 + (c2 + (CLOSING + tail))) && d2 != [] && AllDigits(d2) && IsCount(c2)
    requires rest != [] && rest[0] == SPACE
    ensures HunkStart(s).Some? && HunkStart(s).value == Min(ValueOf(d2), TWO63 - 1)
  {
    hide *;
    var p := FirstRangeIsRead(s, d1, c1, rest);
    var q := SecondRangeIsRead(s, p, d2, c2, tail);
    ReadInTurn(s, 4 + |d1|, |p|, |p| + 2, |p| + 2 + |d2|, |q|, d2);
  }

  /** ... and every line that begins like a header is read as one. */
  lemma HeadersAreRead(s: Bytes, d1: Bytes, c1: Bytes, d2: Bytes, c2: Bytes, tail: Bytes)
    requires IsHeader(s, d1, c1, d2, c2, tail)
    ensures HunkStart(s).Some? && HunkStart(s).value == Min(ValueOf(d2), TWO63 - 1)
  {
    HeaderNests(s, d1, c1, d2, c2, tail);
    MiddleStarts(d2 + (c2 + (CLOSING + tail)));
    hide *;
    RangesAreRead(s, d1, c1, MIDDLE + (d2 + (c2 + (CLOSING + tail))), d2, c2, tail);
  }

  lemma OpeningIsRead(s: Bytes, rest: Bytes)
    requires s == OPENING + rest
    ensures Literal(s, 0, OPENING) == Some(4)
  {
    assert s[0..4] == OPENING;
  }

  lemma ClosingStarts(tail: Bytes)
    ensures CLOSING + tail != [] && (CLOSING + tail)[0] == SPACE && |OPENING| == 4 && |MIDDLE| == 2
  {
  }

  lemma MiddleStarts(rest: Bytes)
    ensures MIDDLE + rest != [] && (MIDDLE + rest)[0] == SPACE
  {
  }

  lemma SliceBehind(a: Bytes, b: Bytes, c: Bytes)
    ensures (a + b + c)[|a|..|a + b|] == b && |a + b| <= |a + b + c|
  {
  }

  lemma ReadInTurn(s: Bytes, b: nat, c: nat, d: nat, e: nat, f: nat, digits: Bytes)
    requires Literal(s, 0, OPENING) == Some(4) && Number(s, 4) == Some(b) && OptionalCount(s, b) == Some(c)
    requires Literal(s, c, MIDDLE) == Some(d) && Number(s, d) == Some(e) && OptionalCount(s, e) == Some(f)
    requires Literal(s, f, CLOSING).Some? && d <= e <= |s| && s[d..e] == digits && AllDigits(digits)
    ensures HunkStart(s).Some? && HunkStart(s).value == Min(ValueOf(digits), TWO63 - 1)
  {
    hide Literal, Number, OptionalCount;
    ValueIsNat(digits);
  }
}
