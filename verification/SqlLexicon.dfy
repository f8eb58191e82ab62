/** Where a SQL file has code, comments and quoted text, as laws on its bytes.
    Each law takes a place at which the scan is in code and says what the bytes
    from there on hide and where code goes on; between them they cover every
    byte that can stand there. */
module SqlLexicon {
  import opened Prelude
  import opened Sequences
  import opened SqlLexer
  import opened SqlFile

  /** The scan is in code before byte k, or at the end of the file. */
  ghost predicate CodeHere(s: Bytes, k: nat) {
    k <= |s| && if k < |s| then InCode(s, k) else FinalMode(s, 0, Code).Code?
  }

  /** No byte in (a, b] is in code. */
  ghost predicate Hidden(s: Bytes, a: nat, b: nat) {
    forall j :: a < j <= b && j < |s| ==> !InCode(s, j)
  }

  /* ---- The scan, step by step ---- */

  ghost predicate Scanned(s: Bytes, k: nat, m: Mode) {
    k <= |s| && if k < |s| then ModeFrom(s, 0, Code, k) == Some(m) else FinalMode(s, 0, Code) == m
  }

  lemma CodeIsScanned(s: Bytes, k: nat)
    ensures CodeHere(s, k) <==> Scanned(s, k, Code)
  {
  }

  lemma Advance(s: Bytes, k: nat, m: Mode)
    requires k < |s| && Scanned(s, k, m)
    ensures var (j, m') := Step(s, k, m); Scanned(s, j, m') && Hidden(s, k, j - 1)
  {
    Arrive(s, k, m);
    ScanFromVisited(s, 0, Code, k, k);
  }

  lemma NotCode(s: Bytes, k: nat, m: Mode)
    requires Scanned(s, k, m) && !m.Code?
    ensures k < |s| ==> !InCode(s, k)
  {
  }

  lemma HiddenOn(s: Bytes, a: nat, b: nat, c: nat)
    requires Hidden(s, a, b) && Hidden(s, b, c)
    ensures Hidden(s, a, c)
  {
  }

  /* ---- Plain bytes ---- */

  lemma StartsInCode(s: Bytes)
    ensures CodeHere(s, 0)
  {
  }

  /** White space, as the splitter knows it: space, tab, CR, LF. */
  predicate Blank(c: byte) { c == 32 || c == 9 || c == 13 || c == 10 }

  predicate DashComment(s: Bytes, k: nat) { k + 2 < |s| && s[k] == 45 && s[k + 1] == 45 && Blank(s[k + 2]) }

  /** A byte that is no quote, no #, no dash of two that a blank follows and no
      slash before a star hides nothing. */
  lemma PlainByte(s: Bytes, k: nat)
    requires CodeHere(s, k) && k < |s| && s[k] !in {39, 34, 96, 35}
    requires !DashComment(s, k) && !(k + 1 < |s| && s[k] == 47 && s[k + 1] == 42)
    ensures CodeHere(s, k + 1)
  {
    Advance(s, k, Code);
  }

  /** A file of plain bytes only is all code. */
  lemma {:induction false} PlainText(s: Bytes, k: nat)
    requires k <= |s| && forall i :: 0 <= i < |s| ==> s[i] !in {39, 34, 96, 35, 45, 47}
    ensures CodeHere(s, k)
  {
    if k == 0 {
      StartsInCode(s);
    } else {
      PlainText(s, k - 1);
      PlainByte(s, k - 1);
    }
  }

  /* ---- Comments to the end of the line ---- */

  lemma {:induction false} InLineComment(s: Bytes, i: nat, e: nat)
    requires i <= e <= |s| && Scanned(s, i, LineComment)
    requires (forall j :: i <= j < e ==> s[j] != 10) && (e == |s| || s[e] == 10)
    ensures Scanned(s, e, LineComment) && (forall j :: i <= j <= e && j < |s| ==> !InCode(s, j))
    decreases e - i
  {
    NotCode(s, i, LineComment);
    if i < e {
      Advance(s, i, LineComment);
      InLineComment(s, i + 1, e);
    }
  }

  /** # or two dashes and a blank hide everything up to the end of the line, and
      behind it is code; on the last line the file ends there. */
  lemma LineCommentHides(s: Bytes, k: nat, e: nat)
    requires CodeHere(s, k) && k < e <= |s| && (s[k] == 35 || DashComment(s, k))
    requires (forall j :: k < j < e ==> s[j] != 10) && (e == |s| || s[e] == 10)
    ensures Hidden(s, k, e)
    ensures if e < |s| then CodeHere(s, e + 1) else Terminated(FinalMode(s, 0, Code))
  {
    Advance(s, k, Code);
    InLineComment(s, k + 1, e);
    if e < |s| {
      Advance(s, e, LineComment);
    }
  }

  /* ---- Bracketed comments ---- */

  predicate ClosesComment(s: Bytes, j: nat) { j + 1 < |s| && s[j] == 42 && s[j + 1] == 47 }

  lemma {:induction false} InBlockComment(s: Bytes, i: nat, e: nat)
    requires i <= e <= |s| && Scanned(s, i, BlockComment) && forall j :: i <= j < e ==> !ClosesComment(s, j)
    ensures Scanned(s, e, BlockComment) && (forall j :: i <= j <= e && j < |s| ==> !InCode(s, j))
    decreases e - i
  {
    NotCode(s, i, BlockComment);
    if i < e {
      assert !ClosesComment(s, i);
      Advance(s, i, BlockComment);
      InBlockComment(s, i + 1, e);
    }
  }

  /** A comment in brackets hides its inside, and behind the first closing
      bracket is code. */
  lemma BlockCommentHides(s: Bytes, k: nat, e: nat)
    requires CodeHere(s, k) && k + 1 < |s| && s[k] == 47 && s[k + 1] == 42
    requires k + 2 <= e && ClosesComment(s, e) && forall j :: k + 2 <= j < e ==> !ClosesComment(s, j)
    ensures Hidden(s, k, e + 1) && CodeHere(s, e + 2)
  {
    Advance(s, k, Code);
    InBlockComment(s, k + 2, e);
    Advance(s, e, BlockComment);
  }

  /** ... and one that is not closed hides the rest of the file, which is then
      refused. */
  lemma OpenBlockCommentIsRefused(s: Bytes, k: nat)
    requires CodeHere(s, k) && k + 1 < |s| && s[k] == 47 && s[k + 1] == 42
    requires forall j :: k + 2 <= j < |s| ==> !ClosesComment(s, j)
    ensures Hidden(s, k, |s|) && Spec(s) == Unterminated
  {
    Advance(s, k, Code);
    InBlockComment(s, k + 2, |s|);
  }

  /* ---- Quoted text ---- */

  /** What quoted text is made of: a byte that stands for itself, the quote
      doubled, or a backslash and the byte it protects. */
  datatype Unit = Itself(c: byte) | Doubled | Protected(c: byte)

  predicate MayStand(u: Unit, q: byte) {
    match u
    case Itself(c) => c != q && (c == 92 ==> q == 96)
    case Doubled => true
    case Protected(_) => q != 96
  }

  function UnitText(u: Unit, q: byte): (t: Bytes)
    ensures 1 <= |t| <= 2
  {
    match u
    case Itself(c) => [c]
    case Doubled => [q, q]
    case Protected(c) => [92, c]
  }

  function QuotedText(units: seq<Unit>, q: byte): Bytes {
    if units == [] then [] else UnitText(units[0], q) + QuotedText(units[1..], q)
  }

  ghost predicate AllMayStand(units: seq<Unit>, q: byte) { forall i :: 0 <= i < |units| ==> MayStand(units[i], q) }

  predicate IsQuoteMark(q: byte) { q == 39 || q == 34 || q == 96 }

  lemma OneUnit(s: Bytes, i: nat, u: Unit, q: Quote, t: Bytes)
    requires i <= |s| && Scanned(s, i, Quoted(q)) && MayStand(u, q) && s[i..] == UnitText(u, q) + t
    ensures var j := i + |UnitText(u, q)|;
      j <= |s| && Scanned(s, j, Quoted(q)) && s[j..] == t && (forall x :: i <= x < j ==> !InCode(s, x))
  {
    var w := UnitText(u, q);
    var j := i + |w|;
    assert s[i..][..|w|] == w && s[i..][|w|..] == t && s[j..] == s[i..][|w|..];
    assert s[i] == w[0] && (|w| == 2 ==> s[i + 1] == w[1]) by {
      assert s[i..][0] == w[0] && (|w| == 2 ==> s[i..][1] == w[1]);
    }
    NotCode(s, i, Quoted(q));
    Advance(s, i, Quoted(q));
  }

  lemma {:induction false} InQuotes(s: Bytes, i: nat, units: seq<Unit>, q: Quote, rest: Bytes)
    requires i <= |s| && Scanned(s, i, Quoted(q)) && AllMayStand(units, q) && s[i..] == QuotedText(units, q) + rest
    ensures var j := i + |QuotedText(units, q)|;
      j <= |s| && Scanned(s, j, Quoted(q)) && s[j..] == rest && (forall x :: i <= x < j ==> !InCode(s, x))
    decreases |units|
  {
    if units == [] {
      assert QuotedText(units, q) + rest == rest;
    } else {
      hide Scanned, InCode, UnitText;
      assert s[i..] == UnitText(units[0], q) + (QuotedText(units[1..], q) + rest);
      OneUnit(s, i, units[0], q, QuotedText(units[1..], q) + rest);
      InQuotes(s, i + |UnitText(units[0], q)|, units[1..], q, rest);
    }
  }

  lemma OpensQuote(s: Bytes, k: nat, text: Bytes)
    requires CodeHere(s, k) && k < |s| && IsQuoteMark(s[k]) && s[k + 1..] == text
    ensures Scanned(s, k + 1, Quoted(s[k]))
  {
    Advance(s, k, Code);
  }

  lemma ClosesQuote(s: Bytes, e: nat, q: Quote, rest: Bytes)
    requires e <= |s| && Scanned(s, e, Quoted(q)) && s[e..] == [q] + rest && (rest != [] ==> rest[0] != q)
    ensures e < |s| && s[e + 1..] == rest && !InCode(s, e) && CodeHere(s, e + 1)
  {
    assert s[e] == q && s[e + 1..] == rest && (e + 1 < |s| ==> s[e + 1] == rest[0]) by {
      assert s[e..][0] == q && s[e..][1..] == rest;
    }
    NotCode(s, e, Quoted(q));
    Advance(s, e, Quoted(q));
  }

  /** A quote hides everything up to its closing quote, which is the first one
      that is neither doubled nor, except between backticks, protected; behind
      it is code. */
  lemma QuotesHide(s: Bytes, k: nat, units: seq<Unit>, rest: Bytes)
    requires CodeHere(s, k) && k < |s| && IsQuoteMark(s[k]) && AllMayStand(units, s[k])
    requires s[k + 1..] == QuotedText(units, s[k]) + ([s[k]] + rest) && (rest != [] ==> rest[0] != s[k])
    ensures var e := k + 1 + |QuotedText(units, s[k])|;
      e < |s| && s[e + 1..] == rest && Hidden(s, k, e) && CodeHere(s, e + 1)
  {
    var q := s[k];
    OpensQuote(s, k, s[k + 1..]);
    InQuotes(s, k + 1, units, q, [q] + rest);
    hide Scanned, InCode, CodeHere, QuotedText, AllMayStand;
    ClosesQuote(s, k + 1 + |QuotedText(units, q)|, q, rest);
  }

  /** A quote that is not closed hides the rest, and the file is refused. */
  lemma OpenQuoteIsRefused(s: Bytes, k: nat, units: seq<Unit>, tail: Bytes)
    requires CodeHere(s, k) && k < |s| && IsQuoteMark(s[k]) && AllMayStand(units, s[k])
    requires s[k + 1..] == QuotedText(units, s[k]) + tail && (tail == [] || (tail == [92] && s[k] != 96))
    ensures Hidden(s, k, |s|) && Spec(s) == Unterminated
  {
    var q := s[k];
    OpensQuote(s, k, s[k + 1..]);
    InQuotes(s, k + 1, units, q, tail);
    var e := k + 1 + |QuotedText(units, q)|;
    assert s[e..] == tail;
    NotCode(s, e, Quoted(q));
    if tail != [] {
      assert s[e] == 92 && e + 1 == |s| by {
        assert s[e..][0] == 92;
      }
      Advance(s, e, Quoted(q));
    }
  }

  /** One law or the other always applies. */
  lemma {:induction false} QuotedTextEnds(t: Bytes, q: byte) returns (units: seq<Unit>, closed: bool, rest: Bytes)
    requires IsQuoteMark(q)
    ensures AllMayStand(units, q)
    ensures closed ==> t == QuotedText(units, q) + ([q] + rest) && (rest != [] ==> rest[0] != q)
    ensures !closed ==> t == QuotedText(units, q) + rest && (rest == [] || (rest == [92] && q != 96))
    decreases |t|
  {
    if t == [] || (t == [92] && q != 96) {
      units, closed, rest := [], false, t;
      assert QuotedText([], q) + rest == t;
    } else if t[0] == q && (|t| == 1 || t[1] != q) {
      units, closed, rest := [], true, t[1..];
      assert QuotedText([], q) + ([q] + rest) == t;
    } else {
      var u := FirstUnit(t, q);
      hide MayStand, UnitText;
      var w := UnitText(u, q);
      var more;
      more, closed, rest := QuotedTextEnds(t[|w|..], q);
      units := [u] + more;
      UnitInFront(u, more, q);
      Reassociate(w, QuotedText(more, q), if closed then [q] + rest else rest);
    }
  }

  lemma UnitInFront(u: Unit, more: seq<Unit>, q: byte)
    ensures QuotedText([u] + more, q) == UnitText(u, q) + QuotedText(more, q)
    ensures MayStand(u, q) && AllMayStand(more, q) ==> AllMayStand([u] + more, q)
  {
    assert ([u] + more)[1..] == more;
  }

  lemma FirstUnit(t: Bytes, q: byte) returns (u: Unit)
    requires IsQuoteMark(q) && t != [] && !(t == [92] && q != 96) && !(t[0] == q && (|t| == 1 || t[1] != q))
    ensures MayStand(u, q) && |UnitText(u, q)| <= |t| && t == UnitText(u, q) + t[|UnitText(u, q)|..]
  {
    u := if t[0] == q then Doubled else if t[0] == 92 && q != 96 then Protected(t[1]) else Itself(t[0]);
  }

  /* ---- What this means for the splitter ---- */

  /** A file that ends in code, or in a comment to the end of the line, is
      split. */
  lemma EndsInCodeIsSplit(s: Bytes)
    requires CodeHere(s, |s|)
    ensures Spec(s).Split?
  {
  }

  /** An apostrophe in a comment opens no quote: a comment line of two dashes
      changes neither where the text behind it is cut nor whether it is split. */
  lemma CommentLineIsSkipped(text: Bytes, t: Bytes, k: nat)
    requires forall i :: 0 <= i < |text| ==> text[i] != 10
    ensures var head := [45, 45, 32] + text + [10];
      && CodeHere(head + t, |head|)
      && (forall j :: 0 < j < |head| && j < |head + t| ==> !InCode(head + t, j))
      && (k < |t| ==> (InCode(head + t, |head| + k) <==> InCode(t, k)))
      && Terminated(FinalMode(head + t, 0, Code)) == Terminated(FinalMode(t, 0, Code))
  {
    var head := [45, 45, 32] + text + [10];
    var s := head + t;
    var e := |head| - 1;
    StartsInCode(s);
    assert s[0] == 45 && s[1] == 45 && s[2] == 32 && s[e] == 10;
    assert forall j :: 0 < j < e ==> s[j] == head[j];
    LineCommentHides(s, 0, e);
    assert s[|head|..] == t;
    if |head| < |s| {
      ScanFromVisited(s, 0, Code, |head|, |head| + k);
      ScanAfterDrop(s, |head|, |head|, Code, |head| + k);
    } else {
      assert t == [] && FinalMode(t, 0, Code) == Code;
    }
  }
}
