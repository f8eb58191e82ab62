/** The byte automaton behind the file splitter and the placeholder search:
    code, quoted text, and the two kinds of comment. */
module SqlLexer {
  import opened Prelude

  type Quote = c: byte | IsQuote(c) witness 39

  datatype Mode = Code | Quoted(quote: Quote) | LineComment | BlockComment

  const SEMICOLON: byte := 59
  const QUESTION: byte := 63
  const BACKTICK: byte := 96
  const DASH: byte := 45
  const HASH: byte := 35
  const SLASH: byte := 47
  const STAR: byte := 42

  predicate IsQuote(c: byte) { c == 39 || c == 34 || c == 96 }

  predicate IsBlank(c: byte) { c == 32 || c == 9 || c == 13 || c == 10 }

  /** The byte at i, or 0 past the end. */
  function At(s: Bytes, i: nat): byte { if i < |s| then s[i] else 0 }

  /** Two dashes open a comment only when white space follows. */
  predicate OpensLineComment(s: Bytes, i: nat)
    requires i < |s|
  {
    s[i] == HASH || (s[i] == DASH && At(s, i + 1) == DASH && i + 2 < |s| && IsBlank(s[i + 2]))
  }

  /** Where the scan goes from byte i in mode m, and in which mode. */
  function Step(s: Bytes, i: nat, m: Mode): (r: (nat, Mode))
    requires i < |s|
    ensures i < r.0 <= i + 2 && r.0 <= |s|
  {
    var c, next := s[i], At(s, i + 1);
    match m
    case Quoted(q) =>
      if c == BACKSLASH && q != BACKTICK && i + 1 < |s| then (i + 2, m)
      else if c == q then (if next == q then (i + 2, m) else (i + 1, Code))
      else (i + 1, m)
    case LineComment => (i + 1, if c == NEWLINE then Code else m)
    case BlockComment => if c == STAR && next == SLASH then (i + 2, Code) else (i + 1, m)
    case Code =>
      if IsQuote(c) then (i + 1, Quoted(c))
      else if OpensLineComment(s, i) then (i + 1, LineComment)
      else if c == SLASH && next == STAR then (i + 2, BlockComment)
      else (i + 1, Code)
  }

  /** The mode in which the scan from i in mode m arrives at byte k; None if
      it starts after k or jumps over it. */
  function ModeFrom(s: Bytes, i: nat, m: Mode, k: nat): Option<Mode>
    decreases |s| - i
  {
    if i > k || i >= |s| then None
    else if i == k then Some(m)
    else ModeFrom(s, Step(s, i, m).0, Step(s, i, m).1, k)
  }

  /** The mode at the end of the text. */
  function FinalMode(s: Bytes, i: nat, m: Mode): Mode
    decreases |s| - i
  {
    if i >= |s| then m else FinalMode(s, Step(s, i, m).0, Step(s, i, m).1)
  }

  predicate Terminated(m: Mode) { m.Code? || m.LineComment? }

  /** Byte k is executable text. */
  predicate InCode(s: Bytes, k: nat) { ModeFrom(s, 0, Code, k) == Some(Code) }

  predicate CodeSemicolon(s: Bytes, k: nat) { k < |s| && s[k] == SEMICOLON && InCode(s, k) }

  ghost predicate HasPlaceholder(s: Bytes) { exists k :: 0 <= k < |s| && s[k] == QUESTION && InCode(s, k) }

  /* ---- Scanning from the middle ---- */

  /** If the scan arrives at k in mode m', it goes on as a scan from there. */
  lemma {:induction false} ScanFromVisited(s: Bytes, i: nat, m: Mode, k: nat, j: nat)
    requires k <= j && ModeFrom(s, i, m, k).Some?
    ensures ModeFrom(s, i, m, j) == ModeFrom(s, k, ModeFrom(s, i, m, k).value, j)
    ensures FinalMode(s, i, m) == FinalMode(s, k, ModeFrom(s, i, m, k).value)
    decreases |s| - i
  {
    if i < k {
      ScanFromVisited(s, Step(s, i, m).0, Step(s, i, m).1, k, j);
    }
  }

  lemma StepAfterDrop(s: Bytes, a: nat, i: nat, m: Mode)
    requires a <= i < |s|
    ensures Step(s[a..], i - a, m) == (Step(s, i, m).0 - a, Step(s, i, m).1)
  {
  }

  lemma {:induction false} ScanAfterDrop(s: Bytes, a: nat, i: nat, m: Mode, k: nat)
    requires a <= i && a <= k && a <= |s|
    ensures ModeFrom(s[a..], i - a, m, k - a) == ModeFrom(s, i, m, k)
    ensures FinalMode(s[a..], i - a, m) == FinalMode(s, i, m)
    decreases |s| - i
  {
    if i < |s| {
      StepAfterDrop(s, a, i, m);
      ScanAfterDrop(s, a, Step(s, i, m).0, Step(s, i, m).1, k);
    }
  }

  /** Up to a semicolon in code, the scan does not look past it. */
  lemma StepBeforeSemicolon(s: Bytes, b: nat, i: nat, m: Mode)
    requires i < b <= |s| && s[b - 1] == SEMICOLON && (i == b - 1 ==> m.Code?)
    ensures Step(s[..b], i, m) == Step(s, i, m)
  {
  }

  lemma {:induction false} ScanBeforeSemicolon(s: Bytes, b: nat, i: nat, m: Mode, k: nat)
    requires k < b <= |s| && s[b - 1] == SEMICOLON && ModeFrom(s, i, m, b - 1) == Some(Code)
    ensures ModeFrom(s[..b], i, m, k) == ModeFrom(s, i, m, k)
    ensures FinalMode(s[..b], i, m) == Code
    decreases |s| - i
  {
    StepBeforeSemicolon(s, b, i, m);
    if i < b - 1 {
      ScanBeforeSemicolon(s, b, Step(s, i, m).0, Step(s, i, m).1, k);
    }
  }

  /* ---- White space around a statement ---- */

  /** Bytes that occur in UTF-8 white space; none of them is special. */
  predicate Inert(c: byte) { 9 <= c <= 13 || c == 32 || c >= 0x80 }

  lemma {:induction false} ScanOverInert(s: Bytes, i: nat, k: nat)
    requires i <= k < |s| && forall x :: i <= x < k ==> Inert(s[x])
    ensures ModeFrom(s, i, Code, k) == Some(Code)
    decreases k - i
  {
    if i < k {
      ScanOverInert(s, i + 1, k);
    }
  }

  lemma {:induction false} InertTail(s: Bytes, i: nat, m: Mode)
    requires forall x :: i <= x < |s| ==> Inert(s[x])
    ensures m.Quoted? || m.BlockComment? ==> FinalMode(s, i, m) == m
    decreases |s| - i
  {
    if i < |s| {
      InertTail(s, Step(s, i, m).0, Step(s, i, m).1);
    }
  }

  /** Cutting white space off the end of a terminated text leaves it
      terminated and leaves the same semicolons and placeholders in code. */
  lemma {:induction false} ScanWithoutTail(s: Bytes, r: nat, i: nat, m: Mode, k: nat)
    requires i <= r <= |s| && k < r && forall x :: r <= x < |s| ==> Inert(s[x])
    requires Terminated(FinalMode(s, i, m))
    ensures Terminated(FinalMode(s[..r], i, m))
    ensures s[k] == SEMICOLON || s[k] == QUESTION ==>
      (ModeFrom(s[..r], i, m, k) == Some(Code) <==> ModeFrom(s, i, m, k) == Some(Code))
    decreases |s| - i
  {
    var t := s[..r];
    if i == r {
      InertTail(s, i, m);
    } else if Step(t, i, m) == Step(s, i, m) {
      ScanWithoutTail(s, r, Step(s, i, m).0, Step(s, i, m).1, k);
    } else if m.Quoted? {
      InertTail(s, Step(s, i, m).0, m);
    } else {
      assert i == r - 2 && s[i] == DASH && s[i + 1] == DASH;
      assert Step(t, i, Code) == (i + 1, Code) && Step(t, i + 1, Code) == (r, Code);
      assert FinalMode(t, r, Code) == Code;
    }
  }
}
