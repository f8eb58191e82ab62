/** Which statements of an edited file are reviewed: those with a marked line
    in their range.  An unmarked statement was there before the edit. */
module Review {
  import opened Prelude
  import opened GoInt
  import opened Patch
  import opened Sequences
  import opened Separators
  import opened SqlFile
  import SqlFileTheorems

  /* ---- The whole edit as one script ---- */

  function Keeps(lines: seq<Bytes>): seq<Edit> { seq(|lines|, k requires 0 <= k < |lines| => Keep(lines[k])) }

  /** The hunks with the untouched lines between them. */
  function Script(hunks: seq<Hunk>, before: seq<Bytes>, i: nat, after: seq<Bytes>, j: nat): seq<Edit>
    requires Applies(hunks, before, i, after, j)
  {
    if hunks == [] then Keeps(before[i..])
    else
      var h := hunks[0];
      var x, y := PositionOf(h.oldRange), PositionOf(h.newRange);
      Keeps(before[i..x]) + h.body + Script(hunks[1..], before, x + |OldSide(h.body)|, after, y + |NewSide(h.body)|)
  }

  lemma {:induction false} SidesOfConcat(a: seq<Edit>, b: seq<Edit>)
    ensures OldSide(a + b) == OldSide(a) + OldSide(b) && NewSide(a + b) == NewSide(a) + NewSide(b)
  {
    hide OldOf, NewOf;
    if a == [] {
      assert a + b == b;
    } else {
      assert (a + b)[1..] == a[1..] + b;
      SidesOfConcat(a[1..], b);
      Reassociate(OldOf(a[0]), OldSide(a[1..]), OldSide(b));
      Reassociate(NewOf(a[0]), NewSide(a[1..]), NewSide(b));
    }
  }

  lemma {:induction false} SidesOfKeeps(lines: seq<Bytes>)
    ensures OldSide(Keeps(lines)) == lines && NewSide(Keeps(lines)) == lines
  {
    if lines != [] {
      assert Keeps(lines)[1..] == Keeps(lines[1..]);
      SidesOfKeeps(lines[1..]);
      assert lines == [lines[0]] + lines[1..];
    }
  }

  /** The gap before the first hunk, the hunk, and the rest. */
  lemma FirstHunk(hunks: seq<Hunk>, before: seq<Bytes>, i: nat, after: seq<Bytes>, j: nat) returns (x: nat, y: nat, i': nat, j': nat)
    requires Applies(hunks, before, i, after, j) && hunks != []
    ensures var h := hunks[0];
      && i <= x <= i' <= |before| && j <= y <= j' <= |after|
      && i' - x == |OldSide(h.body)| && j' - y == |NewSide(h.body)| && x - i == y - j
      && before[i..x] == after[j..y] && before[x..i'] == OldSide(h.body) && after[y..j'] == NewSide(h.body)
      && h.newRange == RangeAt(y, j' - y)
      && Applies(hunks[1..], before, i', after, j')
      && Script(hunks, before, i, after, j) == Keeps(before[i..x]) + h.body + Script(hunks[1..], before, i', after, j')
  {
    hide OldSide, NewSide, Keeps;
    var h := hunks[0];
    x, y := PositionOf(h.oldRange), PositionOf(h.newRange);
    i', j' := x + |OldSide(h.body)|, y + |NewSide(h.body)|;
  }

  lemma {:induction false} SidesOfScript(hunks: seq<Hunk>, before: seq<Bytes>, i: nat, after: seq<Bytes>, j: nat)
    requires Applies(hunks, before, i, after, j)
    ensures i <= |before| && OldSide(Script(hunks, before, i, after, j)) == before[i..]
    ensures j <= |after| && NewSide(Script(hunks, before, i, after, j)) == after[j..]
    decreases |hunks|
  {
    if hunks == [] {
      SidesOfKeeps(before[i..]);
    } else {
      hide Applies, Script, OldSide, NewSide, Keeps;
      var x, y, i', j' := FirstHunk(hunks, before, i, after, j);
      var gap, body, rest := Keeps(before[i..x]), hunks[0].body, Script(hunks[1..], before, i', after, j');
      SidesOfKeeps(before[i..x]);
      SidesOfScript(hunks[1..], before, i', after, j');
      SidesOfConcat(gap, body);
      SidesOfConcat(gap + body, rest);
      SliceInThree(before, i, x, i');
      SliceInThree(after, j, y, j');
    }
  }

  /** The lines an edit must have marked: each inserted line, and the line
      before each deletion.  j lines of the new file come before the script. */
  function Needed(script: seq<Edit>, j: nat): set<int> {
    if script == [] then {}
    else NeededBy(script[0], j) + Needed(script[1..], j + |NewOf(script[0])|)
  }

  function NeededBy(e: Edit, j: nat): set<int> {
    if e.Insert? then {j + 1} else if e.Delete? && j >= 1 then {j} else {}
  }

  lemma FirstEdit(script: seq<Edit>, j: nat)
    requires script != []
    ensures OldSide(script) == OldOf(script[0]) + OldSide(script[1..])
    ensures NewSide(script) == NewOf(script[0]) + NewSide(script[1..])
    ensures Needed(script, j) == NeededBy(script[0], j) + Needed(script[1..], j + |NewOf(script[0])|)
    ensures |NewOf(script[0])| <= 1
  {
  }

  /** The lines a script inserts. */
  function Inserted(script: seq<Edit>, j: nat): set<int> {
    if script == [] then {}
    else (if script[0].Insert? then {j + 1} else {}) + Inserted(script[1..], j + |NewOf(script[0])|)
  }

  lemma {:induction false} InsertedIsNeeded(script: seq<Edit>, j: nat)
    ensures Inserted(script, j) <= Needed(script, j)
  {
    if script != [] {
      InsertedIsNeeded(script[1..], j + |NewOf(script[0])|);
    }
  }

  lemma {:induction false} NeededByConcat(a: seq<Edit>, b: seq<Edit>, j: nat)
    ensures Needed(a + b, j) == Needed(a, j) + Needed(b, j + |NewSide(a)|)
  {
    if a == [] {
      assert a + b == b;
    } else {
      assert (a + b)[1..] == a[1..] + b;
      NeededByConcat(a[1..], b, j + |NewOf(a[0])|);
    }
  }

  predicate IsChange(e: Edit) { e.Insert? || e.Delete? }

  lemma {:induction false} NothingNeeded(script: seq<Edit>, j: nat)
    requires forall k :: 0 <= k < |script| ==> !IsChange(script[k])
    ensures Needed(script, j) == {}
  {
    if script != [] {
      assert !IsChange(script[0]);
      NothingNeeded(script[1..], j + |NewOf(script[0])|);
    }
  }

  /* ---- What the reader marks ---- */

  function Bares(body: seq<Edit>): nat {
    if body == [] then 0 else (if body[0].Bare? then 1 else 0) + Bares(body[1..])
  }

  /** The reader's counter is right exactly as long as no unaffected empty line
      was written bare: it falls behind by one with each of them. */
  lemma {:induction false} CounterFallsBehind(body: seq<Edit>, line: int64)
    requires line > 0 && line + |NewSide(body)| < TWO63
    ensures LineAfterAll(BodyTexts(body), line) == line + |NewSide(body)| - Bares(body)
    ensures LineAfterAll(BodyTexts(body), line) == line + |NewSide(body)| <==> forall k :: 0 <= k < |body| ==> !body[k].Bare?
  {
    hide HunkStart;
    if body != [] {
      EditIsNoHeader(body[0]);
      assert BodyTexts(body)[1..] == BodyTexts(body[1..]);
      BaresAndSize(body);
      BaresAndSize(body[1..]);
      CounterFallsBehind(body[1..], LineAfter(EditText(body[0]), line));
    }
  }

  lemma {:induction false} BaresAndSize(body: seq<Edit>)
    ensures Bares(body) <= |NewSide(body)|
    ensures Bares(body) == 0 <==> forall k :: 0 <= k < |body| ==> !body[k].Bare?
  {
    if body != [] {
      BaresAndSize(body[1..]);
      assert forall k :: 0 < k < |body| ==> body[k] == body[1..][k - 1];
      assert forall k :: 0 <= k < |body| - 1 ==> body[1..][k] == body[k + 1];
    }
  }

  /** No bare line comes before a change of the same hunk. */
  predicate Tidy(body: seq<Edit>) {
    forall a, b :: 0 <= a < b < |body| && body[a].Bare? ==> !IsChange(body[b])
  }

  /* ---- Exactly when changes are attributed to their lines ---- */

  /** The counter values at which the reader meets the changes of a patch. */
  function Attributed(texts: seq<Bytes>, line: int64): seq<int> {
    if texts == [] then []
    else MetHere(texts[0], line) + Attributed(texts[1..], LineAfter(texts[0], line))
  }

  function MetHere(text: Bytes, line: int64): seq<int> {
    if HunkStart(text).None? && line != 0 && text != [] && (text[0] == PLUS || text[0] == MINUS) then [line] else []
  }

  /** Where the changes of a hunk are: at its start line plus the lines of the
      new file before them in the hunk. */
  function TrueLines(body: seq<Edit>, line: int): seq<int> {
    if body == [] then []
    else (if IsChange(body[0]) then [line] else []) + TrueLines(body[1..], line + |NewOf(body[0])|)
  }

  /** Nothing can be attributed to a line before the first. */
  function TrueLinesOf(hunks: seq<Hunk>): seq<int> {
    if hunks == [] then []
    else (if hunks[0].newRange.start == 0 then [] else TrueLines(hunks[0].body, hunks[0].newRange.start))
         + TrueLinesOf(hunks[1..])
  }

  lemma {:induction false} AttributedByConcat(a: seq<Bytes>, b: seq<Bytes>, line: int64)
    ensures Attributed(a + b, line) == Attributed(a, line) + Attributed(b, LineAfterAll(a, line))
  {
    hide HunkStart, MetHere;
    if a == [] {
      assert a + b == b;
    } else {
      assert (a + b)[1..] == a[1..] + b;
      AttributedByConcat(a[1..], b, LineAfter(a[0], line));
      Reassociate(MetHere(a[0], line), Attributed(a[1..], LineAfter(a[0], line)), Attributed(b, LineAfterAll(a, line)));
    }
  }

  /** One line of a hunk, as the reader meets it and as it is. */
  lemma FirstAttribution(body: seq<Edit>, line: int64, truth: int)
    requires body != [] && 0 < line && line + |NewOf(body[0])| < TWO63
    ensures var e := body[0]; var next := if e.Bare? then line else line + |NewOf(e)|;
      Attributed(BodyTexts(body), line) == (if IsChange(e) then [line] else []) + Attributed(BodyTexts(body[1..]), next)
    ensures TrueLines(body, truth) == (if IsChange(body[0]) then [truth] else []) + TrueLines(body[1..], truth + |NewOf(body[0])|)
  {
    hide HunkStart;
    EditIsNoHeader(body[0]);
    assert BodyTexts(body)[1..] == BodyTexts(body[1..]);
  }

  predicate NoChange(body: seq<Edit>) { forall k :: 0 <= k < |body| ==> !IsChange(body[k]) }

  lemma FirstChange(body: seq<Edit>)
    requires body != []
    ensures NoChange(body) <==> !IsChange(body[0]) && NoChange(body[1..])
    ensures Tidy(body) <==> if body[0].Bare? then NoChange(body[1..]) else Tidy(body[1..])
  {
    var rest := body[1..];
    assert forall k :: 0 <= k < |rest| ==> rest[k] == body[k + 1];
    assert forall k :: 0 < k < |body| ==> body[k] == rest[k - 1];
  }

  lemma NoBody(line: int64, truth: int)
    ensures Attributed(BodyTexts([]), line) == [] == TrueLines([], truth) && NoChange([]) && Tidy([])
  {
  }

  lemma Int64Bound()
    ensures TWO63 == 0x8000_0000_0000_0000
  {
  }

  lemma BareOrChange(e: Edit)
    ensures !(e.Bare? && IsChange(e)) && (e.Bare? ==> |NewOf(e)| == 1)
  {
  }

  lemma WrongHead(change: bool, line: int, truth: int, x: seq<int>, y: seq<int>)
    requires line != truth
    ensures var met, meant := if change then [line] else [], if change then [truth] else [];
      met + x == meant + y <==> !change && x == y
  {
    if change {
      assert ([line] + x)[0] != ([truth] + y)[0];
    } else {
      assert [] + x == x && [] + y == y;
    }
  }

  /** Once the counter is behind, every change is attributed wrongly. */
  lemma {:induction false} BehindIsWrong(body: seq<Edit>, line: int64, truth: int)
    requires 0 < line < truth && truth + |NewSide(body)| < TWO63
    ensures |Attributed(BodyTexts(body), line)| == |TrueLines(body, truth)|
    ensures Attributed(BodyTexts(body), line) == TrueLines(body, truth) <==> NoChange(body)
  {
    hide *;
    Int64Bound();
    if body == [] {
      NoBody(line, truth);
    } else {
      var e, rest := body[0], body[1..];
      FirstEdit(body, 0);
      FirstAttribution(body, line, truth);
      FirstChange(body);
      var next := if e.Bare? then line else line + |NewOf(e)|;
      BehindIsWrong(rest, next, truth + |NewOf(e)|);
      WrongHead(IsChange(e), line, truth, Attributed(BodyTexts(rest), next), TrueLines(rest, truth + |NewOf(e)|));
    }
  }

  lemma {:induction false} HunkAttributionIff(body: seq<Edit>, line: int64)
    requires 0 < line && line + |NewSide(body)| < TWO63
    ensures |Attributed(BodyTexts(body), line)| == |TrueLines(body, line)|
    ensures Attributed(BodyTexts(body), line) == TrueLines(body, line) <==> Tidy(body)
  {
    hide *;
    Int64Bound();
    if body == [] {
      NoBody(line, line);
    } else {
      var e, rest := body[0], body[1..];
      FirstEdit(body, 0);
      FirstAttribution(body, line, line);
      FirstChange(body);
      BareOrChange(e);
      var next := if e.Bare? then line else line + |NewOf(e)|;
      if e.Bare? {
        BehindIsWrong(rest, line, line + 1);
      } else {
        HunkAttributionIff(rest, next);
      }
      var head: seq<int> := if IsChange(e) then [line] else [];
      SamePieces(head, head, Attributed(BodyTexts(rest), next), TrueLines(rest, line + |NewOf(e)|));
    }
  }

  ghost predicate AllTidy(hunks: seq<Hunk>) { forall k :: 0 <= k < |hunks| ==> Tidy(hunks[k].body) }

  ghost predicate InRange(hunks: seq<Hunk>) {
    forall k :: 0 <= k < |hunks| ==>
      && hunks[k].newRange.start + |NewSide(hunks[k].body)| < TWO63
      && (hunks[k].newRange.start == 0 ==> NewSide(hunks[k].body) == [])
  }

  lemma HunkAttribution(h: Hunk, line: int64)
    requires InRange([h])
    ensures var truth := if h.newRange.start == 0 then [] else TrueLines(h.body, h.newRange.start);
      && |Attributed(HunkTexts(h), line)| == |truth|
      && (Attributed(HunkTexts(h), line) == truth <==> Tidy(h.body))
  {
    assert [h][0] == h;
    HeaderIsRead(h);
    hide HunkStart, HeaderText;
    assert HunkTexts(h)[0] == HeaderText(h) && HunkTexts(h)[1..] == BodyTexts(h.body);
    assert Attributed(HunkTexts(h), line) == Attributed(BodyTexts(h.body), h.newRange.start);
    if h.newRange.start == 0 {
      NoLineNoAttribution(h.body);
      NoNewLinesIsTidy(h.body);
    } else {
      HunkAttributionIff(h.body, h.newRange.start);
    }
  }

  lemma {:induction false} NoLineNoAttribution(body: seq<Edit>)
    ensures Attributed(BodyTexts(body), 0) == []
  {
    hide HunkStart;
    if body != [] {
      EditIsNoHeader(body[0]);
      assert BodyTexts(body)[1..] == BodyTexts(body[1..]);
      NoLineNoAttribution(body[1..]);
    }
  }

  lemma {:induction false} NoNewLinesIsTidy(body: seq<Edit>)
    requires NewSide(body) == []
    ensures Tidy(body)
  {
    if body != [] {
      NoNewLinesIsTidy(body[1..]);
      FirstChange(body);
    }
  }

  lemma SamePieces<T>(a: seq<T>, b: seq<T>, x: seq<T>, y: seq<T>)
    requires |a| == |b|
    ensures a + x == b + y <==> a == b && x == y
  {
    if a + x == b + y {
      assert (a + x)[..|a|] == a && (b + y)[..|b|] == b;
      assert (a + x)[|a|..] == x && (b + y)[|b|..] == y;
    }
  }

  lemma {:induction false} PatchAttribution(hunks: seq<Hunk>, line: int64)
    requires InRange(hunks)
    ensures |Attributed(PatchTexts(hunks), line)| == |TrueLinesOf(hunks)|
    ensures Attributed(PatchTexts(hunks), line) == TrueLinesOf(hunks) <==> AllTidy(hunks)
  {
    if hunks != [] {
      var h, rest := hunks[0], hunks[1..];
      assert InRange([h]) && InRange(rest);
      assert AllTidy(hunks) <==> Tidy(h.body) && AllTidy(rest) by {
        assert forall k :: 0 <= k < |rest| ==> rest[k] == hunks[k + 1];
        assert forall k :: 0 < k < |hunks| ==> hunks[k] == rest[k - 1];
      }
      hide Tidy, AllTidy, InRange, HunkTexts, Attributed, TrueLines;
      HunkAttribution(h, line);
      AttributedByConcat(HunkTexts(h), PatchTexts(rest), line);
      PatchAttribution(rest, LineAfterAll(HunkTexts(h), line));
      SamePieces(Attributed(HunkTexts(h), line), if h.newRange.start == 0 then [] else TrueLines(h.body, h.newRange.start),
                 Attributed(PatchTexts(rest), LineAfterAll(HunkTexts(h), line)), TrueLinesOf(rest));
    }
  }

  lemma {:induction false} AppliedIsInRange(hunks: seq<Hunk>, before: seq<Bytes>, i: nat, after: seq<Bytes>, j: nat)
    requires Applies(hunks, before, i, after, j) && |after| + 1 < TWO63
    ensures InRange(hunks)
    decreases |hunks|
  {
    if hunks != [] {
      var x, y, i', j' := FirstHunk(hunks, before, i, after, j);
      hide Applies, Script;
      AppliedIsInRange(hunks[1..], before, i', after, j');
      assert forall k :: 0 < k < |hunks| ==> hunks[k] == hunks[1..][k - 1];
    }
  }

  /** On the text of a well-formed patch the reader attributes every change to
      its line exactly when in no hunk a bare line comes before a change. */
  lemma AttributionIsRightIff(hunks: seq<Hunk>, finalNewline: bool, before: seq<Bytes>, after: seq<Bytes>)
    requires WellFormed(hunks, before, after) && |after| + 1 < TWO63
    ensures Attributed(SplitLines(PatchText(hunks, finalNewline)), 0) == TrueLinesOf(hunks) <==> AllTidy(hunks)
  {
    hide Applies, HunkStart, Attributed, TrueLinesOf, AllTidy, InRange;
    var texts := PatchTexts(hunks);
    var all := texts + if finalNewline then [[]] else [];
    AppliedIsInRange(hunks, before, 0, after, 0);
    PatchAttribution(hunks, 0);
    TextsAreLines(hunks);
    AttributedByConcat(texts, if finalNewline then [[]] else [], 0);
    EmptyTextsMeetNothing(LineAfterAll(texts, 0));
    if all != [] {
      SplitOfJoin(all, NEWLINE);
    }
  }

  lemma EmptyTextsMeetNothing(line: int64)
    ensures Attributed([], line) == [] && Attributed([[]], line) == []
  {
    EditIsNoHeader(Bare);
  }

  lemma FirstText(body: seq<Edit>, line: int64)
    requires body != []
    ensures MarksOfAll(BodyTexts(body), line) ==
      MarksOf(EditText(body[0]), line) + MarksOfAll(BodyTexts(body[1..]), LineAfter(EditText(body[0]), line))
  {
    hide HunkStart, EditText;
    assert BodyTexts(body)[1..] == BodyTexts(body[1..]);
  }

  /** What the reader makes of one line of a hunk. */
  lemma EditIsRead(e: Edit, j: nat, line: int64)
    requires line == j + 1 || (NewOf(e) == [] && line == j)
    requires j + 1 + |NewOf(e)| < TWO63
    ensures NeededBy(e, j) <= MarksOf(EditText(e), line)
    ensures !e.Bare? ==> LineAfter(EditText(e), line) == line + |NewOf(e)|
  {
    hide HunkStart;
    EditIsNoHeader(e);
  }

  lemma BareFirst(body: seq<Edit>, j: nat)
    requires body != [] && body[0].Bare? && Tidy(body)
    ensures Needed(body, j) == {}
  {
    FirstEdit(body, j);
    NothingNeeded(body[1..], j + 1);
  }

  lemma TidyTail(body: seq<Edit>)
    requires body != [] && Tidy(body)
    ensures Tidy(body[1..]) && |NewSide(body)| == |NewOf(body[0])| + |NewSide(body[1..])|
    ensures NewSide(body) == [] ==> NewOf(body[0]) == [] && NewSide(body[1..]) == []
  {
  }

  lemma {:induction false} BodyIsCovered(body: seq<Edit>, j: nat, line: int64)
    requires Tidy(body) && j + 1 + |NewSide(body)| < TWO63
    requires line == j + 1 || (NewSide(body) == [] && line == j)
    ensures Needed(body, j) <= MarksOfAll(BodyTexts(body), line)
  {
    hide *;
    if body == [] {
      NothingNeeded(body, j);
    } else if body[0].Bare? {
      BareFirst(body, j);
    } else {
      var e := body[0];
      FirstEdit(body, j);
      FirstText(body, line);
      TidyTail(body);
      EditIsRead(e, j, line);
      BodyIsCovered(body[1..], j + |NewOf(e)|, LineAfter(EditText(e), line));
    }
  }

  lemma HunkIsCovered(h: Hunk, y: nat, line: int64)
    requires Tidy(h.body) && h.newRange == RangeAt(y, |NewSide(h.body)|) && y + 1 + |NewSide(h.body)| < TWO63
    ensures Needed(h.body, y) <= MarksOfAll(HunkTexts(h), line)
  {
    hide HunkTexts, Needed, MarksOfAll, Tidy;
    HunkIsRead(h, line);
    BodyIsCovered(h.body, y, h.newRange.start);
  }

  lemma HunkIsRead(h: Hunk, line: int64)
    requires h.newRange.start < TWO63
    ensures MarksOfAll(HunkTexts(h), line) == MarksOfAll(BodyTexts(h.body), h.newRange.start)
  {
    hide HunkStart, HeaderText;
    HeaderIsRead(h);
    assert HunkTexts(h)[1..] == BodyTexts(h.body);
  }

  lemma NeededInThree(gap: seq<Edit>, body: seq<Edit>, rest: seq<Edit>, j: nat)
    requires Needed(gap, j) == {}
    ensures Needed(gap + body + rest, j)
         == Needed(body, j + |NewSide(gap)|) + Needed(rest, j + |NewSide(gap)| + |NewSide(body)|)
  {
    hide Needed, NewSide, OldSide;
    SidesOfConcat(gap, body);
    NeededByConcat(gap, body, j);
    NeededByConcat(gap + body, rest, j);
  }

  lemma FirstTexts(hunks: seq<Hunk>)
    requires hunks != []
    ensures PatchTexts(hunks) == HunkTexts(hunks[0]) + PatchTexts(hunks[1..])
  {
  }

  lemma NoHunksNeedNothing(before: seq<Bytes>, i: nat, after: seq<Bytes>, j: nat)
    requires Applies([], before, i, after, j)
    ensures Needed(Script([], before, i, after, j), j) == {}
  {
    NeededOfKeeps(before[i..], j);
  }

  /** The reader marks every line it must. */
  lemma {:induction false} PatchIsCovered(hunks: seq<Hunk>, before: seq<Bytes>, i: nat, after: seq<Bytes>, j: nat, line: int64)
    requires Applies(hunks, before, i, after, j) && |after| + 1 < TWO63
    requires forall k :: 0 <= k < |hunks| ==> Tidy(hunks[k].body)
    ensures Needed(Script(hunks, before, i, after, j), j) <= MarksOfAll(PatchTexts(hunks), line)
    decreases |hunks|
  {
    hide *;
    if hunks == [] {
      NoHunksNeedNothing(before, i, after, j);
    } else {
      var h := hunks[0];
      var x, y, i', j' := FirstHunk(hunks, before, i, after, j);
      FirstTexts(hunks);
      var rest := Script(hunks[1..], before, i', after, j');
      NeededOfKeeps(before[i..x], j);
      SidesOfKeeps(before[i..x]);
      NeededInThree(Keeps(before[i..x]), h.body, rest, j);
      HunkIsCovered(h, y, line);
      MarksOfConcat(HunkTexts(h), PatchTexts(hunks[1..]), line);
      PatchIsCovered(hunks[1..], before, i', after, j', LineAfterAll(HunkTexts(h), line));
    }
  }

  lemma NeededOfKeeps(lines: seq<Bytes>, j: nat)
    ensures Needed(Keeps(lines), j) == {}
  {
    NothingNeeded(Keeps(lines), j);
  }

  /** ... also from the text of the patch. */
  lemma ChangedCoversScript(hunks: seq<Hunk>, finalNewline: bool, before: seq<Bytes>, after: seq<Bytes>)
    requires WellFormed(hunks, before, after) && |after| + 1 < TWO63
    requires AllTidy(hunks)
    ensures Needed(Script(hunks, before, 0, after, 0), 0) <= Changed(PatchText(hunks, finalNewline))
  {
    hide Applies, HunkStart, Script, Needed;
    var texts := PatchTexts(hunks);
    var all := texts + if finalNewline then [[]] else [];
    PatchIsCovered(hunks, before, 0, after, 0, 0);
    TextsAreLines(hunks);
    MarksOfConcat(texts, if finalNewline then [[]] else [], 0);
    if all == [] {
      assert texts == [] && SplitLines([]) == [[]];
    } else {
      SplitOfJoin(all, NEWLINE);
    }
  }

  /* ---- Unmarked stretches ---- */

  /** Past an unmarked line, unmarked lines continue the same old block. */
  lemma {:induction false} RunOn(script: seq<Edit>, j: nat, end: nat)
    requires 1 <= j <= end <= j + |NewSide(script)|
    requires forall l :: j <= l <= end ==> l !in Needed(script, j)
    ensures end - j <= |OldSide(script)| && OldSide(script)[..end - j] == NewSide(script)[..end - j]
  {
    if j < end {
      var e, rest := script[0], script[1..];
      FirstEdit(script, j);
      hide OldSide, NewSide, Needed;
      assert j !in Needed(script, j) && j + 1 !in Needed(script, j);
      assert !IsChange(e);
      var j' := j + |NewOf(e)|;
      assert Needed(rest, j') <= Needed(script, j);
      RunOn(rest, j', end);
      if !e.NoNewline? {
        var line := OldOf(e)[0];
        assert OldOf(e) == [line] && NewOf(e) == [line];
        TakeAfterHead(line, OldSide(rest), end - j);
        TakeAfterHead(line, NewSide(rest), end - j);
      }
    }
  }

  /** The n lines of `olds` from o on are the n lines of `news` from k on. */
  ghost predicate SameBlock(olds: seq<Bytes>, o: nat, news: seq<Bytes>, k: nat, n: nat) {
    o + n <= |olds| && k + n <= |news| && olds[o..o + n] == news[k..k + n]
  }

  lemma BlockBehind(olds: seq<Bytes>, o: nat, news: seq<Bytes>, k: nat, n: nat, a: seq<Bytes>, b: seq<Bytes>)
    requires SameBlock(olds, o, news, k, n)
    ensures SameBlock(a + olds, |a| + o, b + news, |b| + k, n)
  {
    SliceOfTail(a, olds, o, n);
    SliceOfTail(b, news, k, n);
  }

  lemma BlockAfterHead(x: Bytes, olds: seq<Bytes>, news: seq<Bytes>, n: nat)
    requires 1 <= n && n - 1 <= |olds| && n - 1 <= |news| && olds[..n - 1] == news[..n - 1]
    ensures SameBlock([x] + olds, 0, [x] + news, 0, n)
  {
    TakeAfterHead(x, olds, n);
    TakeAfterHead(x, news, n);
  }

  lemma BlockBeginsHere(script: seq<Edit>, j: nat, start: nat, end: nat)
    requires script != [] && j < start <= end <= j + |NewSide(script)| && j + |NewOf(script[0])| == start
    requires forall l :: start <= l <= end ==> l !in Needed(script, j)
    ensures SameBlock(OldSide(script), 0, NewSide(script), 0, end - start + 1)
  {
    var e, rest := script[0], script[1..];
    FirstEdit(script, j);
    hide OldSide, NewSide, Needed, SameBlock;
    assert Needed(rest, start) <= Needed(script, j);
    assert start !in Needed(script, j);
    assert !e.Insert?;
    RunOn(rest, start, end);
    var line := OldOf(e)[0];
    assert OldOf(e) == [line] && NewOf(e) == [line];
    BlockAfterHead(line, OldSide(rest), NewSide(rest), end - start + 1);
  }

  lemma NoScriptNoLines(script: seq<Edit>)
    ensures NewSide(script) != [] ==> script != []
  {
  }

  /** Lines start..end of the new file, none of them marked, stand together in
      the old file from line o + 1 on. */
  lemma {:induction false} UnmarkedLinesAreOld(script: seq<Edit>, j: nat, start: nat, end: nat) returns (o: nat)
    requires j < start <= end <= j + |NewSide(script)|
    requires forall l :: start <= l <= end ==> l !in Needed(script, j)
    ensures SameBlock(OldSide(script), o, NewSide(script), start - 1 - j, end - start + 1)
    decreases |script|
  {
    NoScriptNoLines(script);
    hide *;
    var e, rest := script[0], script[1..];
    FirstEdit(script, j);
    var j' := j + |NewOf(e)|;
    assert Needed(rest, j') <= Needed(script, j);
    if j' == start {
      BlockBeginsHere(script, j, start, end);
      o := 0;
    } else {
      var o' := UnmarkedLinesAreOld(rest, j', start, end);
      BlockBehind(OldSide(rest), o', NewSide(rest), start - 1 - j', end - start + 1, OldOf(e), NewOf(e));
      o := |OldOf(e)| + o';
    }
  }

  /* ---- Lines of a file ---- */

  /** The lines of a file: what stands between newlines, without the empty
      text after a final one. */
  function FileLines(s: Bytes): seq<Bytes> {
    var lines := SplitLines(s);
    if lines[|lines| - 1] == [] then lines[..|lines| - 1] else lines
  }

  lemma {:induction false} SplitCountsLines(s: Bytes, i: nat)
    requires i <= |s|
    ensures |SplitLines(s[..i])| == Line(s, i)
  {
    if i > 0 {
      SplitCountsLines(s, i - 1);
      assert s[..i][..i - 1] == s[..i - 1];
    }
  }

  lemma SplitGrows(s: Bytes, i: nat)
    requires 0 < i <= |s|
    ensures var p, q := SplitLines(s[..i - 1]), SplitLines(s[..i]);
      q == if s[i - 1] == NEWLINE then p + [[]] else p[..|p| - 1] + [p[|p| - 1] + [s[i - 1]]]
  {
    assert s[..i][..i - 1] == s[..i - 1];
  }

  /** Where the last line of s begins. */
  lemma {:induction false} LastLineBegins(s: Bytes) returns (p: nat)
    ensures p <= |s| && SplitLines(s)[|SplitLines(s)| - 1] == s[p..]
  {
    if s == [] || s[|s| - 1] == NEWLINE {
      p := |s|;
    } else {
      p := LastLineBegins(s[..|s| - 1]);
      assert s[p..] == s[..|s| - 1][p..] + [s[|s| - 1]];
    }
  }

  /** Joined, the lines from the one of byte `first` on are a slice. */
  lemma {:induction false} JoinedLinesAreASlice(s: Bytes, p: nat, first: nat, a: nat, i: nat)
    requires p <= first <= i <= |s|
    requires |SplitLines(s[..first])| == a + 1 && SplitLines(s[..first])[a] == s[p..first]
    ensures a < |SplitLines(s[..i])|
    ensures JoinLines(SplitLines(s[..i])[a..]) == s[p..i]
    decreases i
  {
    hide SplitLines, Join;
    if i == first {
      OneLine(s[p..first]);
      assert SplitLines(s[..i])[a..] == [s[p..first]];
    } else {
      JoinedLinesAreASlice(s, p, first, a, i - 1);
      var front := SplitLines(s[..i - 1]);
      SplitGrows(s, i);
      JoinWithEmptyPart(front[a..], NEWLINE);
      JoinWithLongerPart(front[a..], [s[i - 1]], NEWLINE);
      assert (front + [[]])[a..] == front[a..] + [[]];
      assert s[p..i] == s[p..i - 1] + [s[i - 1]];
      var last := front[|front| - 1] + [s[i - 1]];
      assert front[a..][|front[a..]| - 1] == front[|front| - 1];
      assert (front[..|front| - 1] + [last])[a..] == front[a..][..|front[a..]| - 1] + [last];
    }
  }

  lemma OneLine(t: Bytes)
    ensures JoinLines([t]) == t
  {
  }

  /** The lines of a prefix: all but its last are lines of the whole, and the
      last begins one. */
  lemma {:induction false} LinesOfPrefix(s: Bytes, i: nat, k: nat)
    requires i <= k <= |s|
    ensures var p, q := SplitLines(s[..i]), SplitLines(s[..k]);
      |p| <= |q| && p[..|p| - 1] == q[..|p| - 1] && p[|p| - 1] <= q[|p| - 1]
  {
    hide SplitLines;
    if i < k {
      LinesOfPrefix(s, i, k - 1);
      SplitGrows(s, k);
    }
  }

  ghost predicate OccursAt(x: Bytes, y: Bytes, p: nat) {
    p + |x| <= |y| && y[p..p + |x|] == x
  }

  /** x stands somewhere in y. */
  ghost predicate Occurs(x: Bytes, y: Bytes) {
    exists p :: OccursAt(x, y, p)
  }

  lemma LastLineIsNotEmpty(s: Bytes, last: nat)
    requires 0 < last <= |s| && s[last - 1] != NEWLINE
    ensures SplitLines(s[..last])[|SplitLines(s[..last])| - 1] != []
  {
    SplitGrows(s, last);
  }

  /** The lines a..b of the file, when line b goes on from a prefix's last. */
  lemma LinesThroughPrefix(s: Bytes, last: nat, a: nat) returns (more: Bytes)
    requires 0 < last <= |s| && s[last - 1] != NEWLINE && a < |SplitLines(s[..last])|
    ensures var x, b := SplitLines(s[..last])[a..], |SplitLines(s[..last])|;
      b <= |FileLines(s)| && FileLines(s)[a..b] == x[..|x| - 1] + [x[|x| - 1] + more]
  {
    hide SplitLines;
    LinesOfPrefix(s, last, |s|);
    assert s[..|s|] == s;
    LastLineIsNotEmpty(s, last);
    var cut, all := SplitLines(s[..last]), SplitLines(s);
    var b := |cut|;
    more := all[b - 1][|cut[b - 1]|..];
    assert all[b - 1] == cut[b - 1] + more;
    assert all[..b] == all[..b - 1] + [all[b - 1]];
    assert cut[a..][|cut[a..]| - 1] == cut[b - 1];
    assert all[a..b] == cut[a..][..|cut[a..]| - 1] + [cut[b - 1] + more];
  }

  /** A stretch of text that does not end in a newline stands in the lines its
      first and last bytes are on. */
  lemma TextStandsInItsLines(s: Bytes, first: nat, last: nat)
    requires first < last <= |s| && s[last - 1] != NEWLINE
    ensures Line(s, first) <= Line(s, last) <= |FileLines(s)|
    ensures Occurs(s[first..last], JoinLines(FileLines(s)[Line(s, first) - 1..Line(s, last)]))
  {
    hide SplitLines, Join, Line, FileLines;
    var a := Line(s, first) - 1;
    LineGrows(s, first, last);
    SplitCountsLines(s, first);
    SplitCountsLines(s, last);
    var p := LastLineBegins(s[..first]);
    assert s[..first][p..] == s[p..first];
    JoinedLinesAreASlice(s, p, first, a, last);
    var x := SplitLines(s[..last])[a..];
    var more := LinesThroughPrefix(s, last, a);
    JoinWithLongerPart(x, more, NEWLINE);
    var y := JoinLines(FileLines(s)[a..Line(s, last)]);
    assert y == s[p..last] + more;
    assert OccursAt(s[first..last], y, first - p);
  }
}
