/** Unified diffs as text, and the reader that marks the lines they change.
    The format is that of POSIX.1-2017 (IEEE Std 1003.1-2017), Shell and
    Utilities, diff, "Diff -u or -U Output Format". */
module Patch {
  import opened Prelude
  import opened GoInt
  import opened Decimals
  import opened Separators

  const SPACE: byte := 32
  const PLUS: byte := 43
  const COMMA: byte := 44
  const MINUS: byte := 45

  /* ---- Lines ---- */

  /** strings.Split(s, "\n"). */
  function SplitLines(s: Bytes): (r: seq<Bytes>)
    ensures r != []
  {
    Split(s, NEWLINE)
  }

  function JoinLines(lines: seq<Bytes>): Bytes { Join(lines, NEWLINE) }

  /* ---- Hunk headers ---- */

  /** strconv.Atoi on a run of digits: too large a value saturates. */
  function Atoi(digits: Bytes): int64
    requires AllDigits(digits)
  {
    ValueIsNat(digits);
    Min(ValueOf(digits), TWO63 - 1)
  }

  /** The end of `[0-9]+` at i, of `(?:,[0-9]+)?` at i, of the literal at i;
      None where the expression does not match. */
  function Number(s: Bytes, i: nat): (r: Option<nat>)
    ensures r.Some? ==> i < r.value <= |s| && r.value == DigitsEnd(s, i)
  {
    if i <= |s| && DigitsEnd(s, i) > i then Some(DigitsEnd(s, i)) else None
  }

  function OptionalCount(s: Bytes, i: nat): Option<nat> {
    if i < |s| && s[i] == COMMA then Number(s, i + 1) else Some(i)
  }

  function Literal(s: Bytes, i: nat, text: Bytes): (r: Option<nat>)
    ensures r.Some? ==> r.value == i + |text| <= |s|
  {
    if i + |text| <= |s| && s[i..i + |text|] == text then Some(i + |text|) else None
  }

  const OPENING: Bytes := [64, 64, 32, 45]
  const MIDDLE: Bytes := [32, 43]
  const CLOSING: Bytes := [32, 64, 64]

  /** The line number captured by the hunk expression, if it matches. */
  function HunkStart(s: Bytes): Option<int64> {
    match Literal(s, 0, OPENING) case None => None case Some(a) =>
    match Number(s, a) case None => None case Some(b) =>
    match OptionalCount(s, b) case None => None case Some(c) =>
    match Literal(s, c, MIDDLE) case None => None case Some(d) =>
    match Number(s, d) case None => None case Some(e) =>
    match OptionalCount(s, e) case None => None case Some(f) =>
    match Literal(s, f, CLOSING) case None => None case Some(_) =>
      DigitsAreDigits(s, d);
      Some(Atoi(s[d..e]))
  }

  /* ---- The reader ---- */

  /** What one line of patch text does to the line counter ... */
  function LineAfter(text: Bytes, line: int64): int64 {
    if HunkStart(text).Some? then HunkStart(text).value
    else if line != 0 && text != [] && (text[0] == PLUS || text[0] == SPACE) then Add(line, 1)
    else line
  }

  /** ... and the lines it marks. */
  function MarksOf(text: Bytes, line: int64): set<int64> {
    if HunkStart(text).Some? || line == 0 || text == [] then {}
    else if text[0] == PLUS then {line}
    else if text[0] == MINUS then (if line > 1 then {line, Sub(line, 1)} else {line})
    else {}
  }

  function LineAfterAll(texts: seq<Bytes>, line: int64): int64 {
    if texts == [] then line else LineAfterAll(texts[1..], LineAfter(texts[0], line))
  }

  function MarksOfAll(texts: seq<Bytes>, line: int64): set<int64> {
    if texts == [] then {} else MarksOf(texts[0], line) + MarksOfAll(texts[1..], LineAfter(texts[0], line))
  }

  function Changed(patch: Bytes): set<int64> { MarksOfAll(SplitLines(patch), 0) }

  /** The reader's loop over the lines of the patch. */
  method ChangedLines(patch: Bytes) returns (out: set<int64>)
    ensures out == Changed(patch)
  {
    hide HunkStart;
    out := {};
    var line: int64 := 0;
    var texts := SplitLines(patch);
    var i := 0;
    while i < |texts|
      invariant 0 <= i <= |texts|
      invariant out + MarksOfAll(texts[i..], line) == Changed(patch)
    {
      var text := texts[i];
      assert texts[i..][0] == text && texts[i..][1..] == texts[i + 1..];
      i := i + 1;
      if HunkStart(text).Some? {
        line := HunkStart(text).value;
        continue;
      }
      if line == 0 || text == [] || text[0] == BACKSLASH {
        continue;
      }
      if text[0] == PLUS {
        out := out + {line};
        line := Add(line, 1);
      } else if text[0] == MINUS {
        out := out + {line};
        if line > 1 {
          out := out + {Sub(line, 1)};
        }
      } else if text[0] == SPACE {
        line := Add(line, 1);
      }
    }
  }

  lemma {:induction false} MarksOfConcat(a: seq<Bytes>, b: seq<Bytes>, line: int64)
    ensures MarksOfAll(a + b, line) == MarksOfAll(a, line) + MarksOfAll(b, LineAfterAll(a, line))
  {
    hide HunkStart;
    if a == [] {
      assert a + b == b;
    } else {
      assert (a + b)[1..] == a[1..] + b;
      MarksOfConcat(a[1..], b, LineAfter(a[0], line));
    }
  }

  /* ---- Well-formed patches ---- */

  /** A line of a hunk.  `Bare` is an unaffected empty line written as an empty
      line, which the format permits beside a single space; `NoNewline` is the
      remark that the file ends without a newline. */
  datatype Edit = Keep(text: Bytes) | Bare | Insert(text: Bytes) | Delete(text: Bytes) | NoNewline(remark: Bytes)

  datatype Range = Range(start: nat, count: nat)

  datatype Hunk = Hunk(oldRange: Range, newRange: Range, heading: Bytes, body: seq<Edit>)

  /** The number of an empty range is that of the line before it. */
  function RangeAt(position: nat, count: nat): Range {
    Range(if count == 0 then position else position + 1, count)
  }

  function PositionOf(r: Range): int { if r.count == 0 then r.start else r.start - 1 }

  function OldOf(e: Edit): seq<Bytes> {
    match e
    case Keep(t) => [t]
    case Bare => [[]]
    case Delete(t) => [t]
    case _ => []
  }

  function NewOf(e: Edit): seq<Bytes> {
    match e
    case Keep(t) => [t]
    case Bare => [[]]
    case Insert(t) => [t]
    case _ => []
  }

  function OldSide(body: seq<Edit>): seq<Bytes> {
    if body == [] then [] else OldOf(body[0]) + OldSide(body[1..])
  }

  function NewSide(body: seq<Edit>): seq<Bytes> {
    if body == [] then [] else NewOf(body[0]) + NewSide(body[1..])
  }

  /** The hunks turn before[i..] into after[j..]: between them the files agree,
      and each says what it replaces by what, and where. */
  predicate Applies(hunks: seq<Hunk>, before: seq<Bytes>, i: nat, after: seq<Bytes>, j: nat) {
    if hunks == [] then i <= |before| && j <= |after| && before[i..] == after[j..]
    else
      var h := hunks[0];
      var x, y := PositionOf(h.oldRange), PositionOf(h.newRange);
      var olds, news := OldSide(h.body), NewSide(h.body);
      && i <= x && j <= y && x - i == y - j
      && x + |olds| <= |before| && y + |news| <= |after|
      && before[i..x] == after[j..y]
      && before[x..x + |olds|] == olds && after[y..y + |news|] == news
      && h.oldRange == RangeAt(x, |olds|) && h.newRange == RangeAt(y, |news|)
      && Applies(hunks[1..], before, x + |olds|, after, y + |news|)
  }

  predicate OneLiners(body: seq<Edit>) {
    forall k :: 0 <= k < |body| ==>
      match body[k]
      case Keep(t) => NEWLINE !in t
      case Insert(t) => NEWLINE !in t
      case Delete(t) => NEWLINE !in t
      case NoNewline(t) => NEWLINE !in t
      case Bare => true
  }

  ghost predicate WellFormed(hunks: seq<Hunk>, before: seq<Bytes>, after: seq<Bytes>) {
    && Applies(hunks, before, 0, after, 0)
    && forall k :: 0 <= k < |hunks| ==> NEWLINE !in hunks[k].heading && OneLiners(hunks[k].body)
  }

  /* ---- How a patch is written ---- */

  /** A range of one line is written without its count. */
  function CountText(r: Range): Bytes {
    if r.count == 1 then [] else [COMMA] + Decimal(r.count)
  }

  function RangeText(r: Range, rest: Bytes): Bytes {
    Decimal(r.start) + (CountText(r) + rest)
  }

  function HeaderText(h: Hunk): Bytes {
    OPENING + RangeText(h.oldRange, MIDDLE + RangeText(h.newRange, CLOSING + h.heading))
  }

  function EditText(e: Edit): Bytes {
    match e
    case Keep(t) => [SPACE] + t
    case Bare => []
    case Insert(t) => [PLUS] + t
    case Delete(t) => [MINUS] + t
    case NoNewline(t) => [BACKSLASH] + t
  }

  function BodyTexts(body: seq<Edit>): seq<Bytes> { seq(|body|, k requires 0 <= k < |body| => EditText(body[k])) }

  function HunkTexts(h: Hunk): seq<Bytes> { [HeaderText(h)] + BodyTexts(h.body) }

  function PatchTexts(hunks: seq<Hunk>): seq<Bytes> {
    if hunks == [] then [] else HunkTexts(hunks[0]) + PatchTexts(hunks[1..])
  }

  /** The patch as one text; a final newline makes one more, empty, line. */
  function PatchText(hunks: seq<Hunk>, finalNewline: bool): Bytes {
    JoinLines(PatchTexts(hunks) + if finalNewline then [[]] else [])
  }

  /* ---- Reading headers back ---- */

  lemma NumberAfter(s: Bytes, prefix: Bytes, n: nat, rest: Bytes)
    requires s == prefix + (Decimal(n) + rest) && rest != [] && !IsDigit(rest[0])
    ensures Number(s, |prefix|) == Some(|prefix| + |Decimal(n)|)
    ensures s[|prefix|..|prefix| + |Decimal(n)|] == Decimal(n)
    ensures s == (prefix + Decimal(n)) + rest
  {
    assert s == prefix + Decimal(n) + rest;
    DigitsEndAfter(prefix, Decimal(n), rest, 0);
  }

  lemma CountAfter(s: Bytes, prefix: Bytes, r: Range, rest: Bytes)
    requires s == prefix + (CountText(r) + rest) && rest != [] && rest[0] == SPACE
    ensures OptionalCount(s, |prefix|) == Some(|prefix| + |CountText(r)|)
    ensures s == (prefix + CountText(r)) + rest
  {
    assert s == (prefix + CountText(r)) + rest;
    if r.count == 1 {
      assert s[|prefix|] == SPACE;
    } else {
      assert s == (prefix + [COMMA]) + (Decimal(r.count) + rest);
      assert s[|prefix|] == COMMA;
      NumberAfter(s, prefix + [COMMA], r.count, rest);
    }
  }

  lemma LiteralAfter(s: Bytes, prefix: Bytes, text: Bytes, rest: Bytes)
    requires s == prefix + (text + rest)
    ensures Literal(s, |prefix|, text) == Some(|prefix| + |text|)
    ensures s == (prefix + text) + rest
  {
    assert s == (prefix + text) + rest;
    assert s[|prefix|..|prefix| + |text|] == text;
  }

  lemma RangeAfter(s: Bytes, prefix: Bytes, r: Range, rest: Bytes) returns (next: Bytes)
    requires s == prefix + RangeText(r, rest) && rest != [] && rest[0] == SPACE
    ensures var b := |prefix| + |Decimal(r.start)|;
      Number(s, |prefix|) == Some(b) && OptionalCount(s, b) == Some(|next|) && b <= |s| && s[|prefix|..b] == Decimal(r.start)
    ensures s == next + rest
  {
    CountStarts(r, rest);
    NumberAfter(s, prefix, r.start, CountText(r) + rest);
    CountAfter(s, prefix + Decimal(r.start), r, rest);
    next := prefix + Decimal(r.start) + CountText(r);
  }

  lemma HunkStartFrom(s: Bytes, b: nat, c: nat, d: nat, e: nat, f: nat, n: nat)
    requires Literal(s, 0, OPENING) == Some(4) && Number(s, 4) == Some(b) && OptionalCount(s, b) == Some(c)
    requires Literal(s, c, MIDDLE) == Some(d) && Number(s, d) == Some(e) && OptionalCount(s, e) == Some(f)
    requires Literal(s, f, CLOSING).Some? && e <= |s| && s[d..e] == Decimal(n) && n < TWO63
    ensures HunkStart(s) == Some(n)
  {
    hide Literal, Number, OptionalCount, Decimal;
    ValueOfDecimal(n);
  }

  lemma OldRangeIsRead(s: Bytes, r: Range, rest: Bytes) returns (b: nat, p: Bytes)
    requires s == OPENING + RangeText(r, rest) && rest != [] && rest[0] == SPACE
    ensures Literal(s, 0, OPENING) == Some(4) && Number(s, 4) == Some(b) && OptionalCount(s, b) == Some(|p|)
    ensures s == p + rest
  {
    hide Literal, Number, OptionalCount, Decimal, CountText, RangeText;
    assert s == [] + (OPENING + RangeText(r, rest));
    LiteralAfter(s, [], OPENING, RangeText(r, rest));
    p := RangeAfter(s, OPENING, r, rest);
    b := 4 + |Decimal(r.start)|;
  }

  lemma NewRangeIsRead(s: Bytes, p: Bytes, r: Range, rest: Bytes) returns (e: nat, q: Bytes)
    requires s == p + (MIDDLE + RangeText(r, rest)) && rest != [] && rest[0] == SPACE
    ensures Literal(s, |p|, MIDDLE) == Some(|p| + 2) && Number(s, |p| + 2) == Some(e) && OptionalCount(s, e) == Some(|q|)
    ensures e <= |s| && s[|p| + 2..e] == Decimal(r.start) && s == q + rest
  {
    hide Literal, Number, OptionalCount, Decimal, CountText, RangeText;
    LiteralAfter(s, p, MIDDLE, RangeText(r, rest));
    q := RangeAfter(s, p + MIDDLE, r, rest);
    e := |p| + 2 + |Decimal(r.start)|;
  }

  /** The reader gets the new start line out of every header. */
  lemma HeaderIsRead(h: Hunk)
    requires h.newRange.start < TWO63
    ensures HunkStart(HeaderText(h)) == Some(h.newRange.start)
  {
    hide Literal, Number, OptionalCount, Decimal, RangeText, HunkStart;
    var s := HeaderText(h);
    var r6 := CLOSING + h.heading;
    var b, p := OldRangeIsRead(s, h.oldRange, MIDDLE + RangeText(h.newRange, r6));
    var e, q := NewRangeIsRead(s, p, h.newRange, r6);
    LiteralAfter(s, q, CLOSING, h.heading);
    HunkStartFrom(s, b, |p|, |p| + 2, e, |q|, h.newRange.start);
  }

  lemma CountStarts(r: Range, rest: Bytes)
    requires rest != [] && rest[0] == SPACE
    ensures var s := CountText(r) + rest; s != [] && !IsDigit(s[0])
  {
  }

  lemma EditIsNoHeader(e: Edit)
    ensures HunkStart(EditText(e)) == None
  {
    var s := EditText(e);
    if |s| >= 4 {
      assert s[0..4][0] == s[0];
    }
  }

  /** No line of a patch text contains a newline. */
  lemma {:induction false} TextsAreLines(hunks: seq<Hunk>)
    requires forall k :: 0 <= k < |hunks| ==> NEWLINE !in hunks[k].heading && OneLiners(hunks[k].body)
    ensures forall i :: 0 <= i < |PatchTexts(hunks)| ==> NEWLINE !in PatchTexts(hunks)[i]
  {
    if hunks != [] {
      var h := hunks[0];
      assert NEWLINE !in Decimal(h.oldRange.start) && NEWLINE !in Decimal(h.newRange.start);
      assert NEWLINE !in CountText(h.oldRange) && NEWLINE !in CountText(h.newRange);
      assert NEWLINE !in HeaderText(h);
      TextsAreLines(hunks[1..]);
    }
  }
}
