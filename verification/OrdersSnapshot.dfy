/** Fingerprints of the orders table: each row in a separator-delimited normal
    form, read page by page behind a moving key, and hashed in key order. */
module OrdersSnapshot {
  import opened Prelude
  import opened GoInt
  import opened Decimals
  import opened Separators
  import opened Sequences

  type uint64 = x: int | 0 <= x < 0x1_0000_0000_0000_0000

  const FIELD_SEP: byte := 0x1F
  const ROW_SEP: byte := 0x1E
  const DEFAULT_CHUNK := 5000

  /** status VARCHAR(16) */
  const STATUS_WIDTH := 16

  /** A DATETIME(6) in UTC. */
  datatype Stamp = Stamp(year: nat, month: nat, day: nat, hour: nat, minute: nat, second: nat, micros: nat)

  datatype Row = Row(id: uint64, userId: uint64, status: Bytes, createdAt: Stamp, amountCents: int64, note: Option<Bytes>,
                     payload: Bytes)

  /* ---- The normal form of a row ---- */

  function Zeros(n: nat): Bytes { seq(n, _ => 48) }

  /** A number padded with zeros to at least `width` digits. */
  function Padded(n: nat, width: nat): (d: Bytes)
    ensures d != [] && AllDigits(d)
  {
    if |Decimal(n)| >= width then Decimal(n) else Zeros(width - |Decimal(n)|) + Decimal(n)
  }

  /** 2006-01-02T15:04:05.000000Z */
  function StampText(t: Stamp): Bytes {
    Padded(t.year, 4) + [45] + (Padded(t.month, 2) + [45] + (Padded(t.day, 2) + [84] + (Padded(t.hour, 2) + [58]
      + (Padded(t.minute, 2) + [58] + (Padded(t.second, 2) + [46] + (Padded(t.micros, 6) + [90]))))))
  }

  /** strconv.AppendInt in base 10. */
  function SignedText(n: int): Bytes { if n < 0 then [45] + Decimal(-n) else Decimal(n) }

  function NoteText(note: Option<Bytes>): Bytes {
    match note
    case None => [0]
    case Some(text) => [1] + text
  }

  function FieldTexts(r: Row): seq<Bytes> {
    [Decimal(r.id), Decimal(r.userId), r.status, StampText(r.createdAt), SignedText(r.amountCents), NoteText(r.note), r.payload]
  }

  function RowText(r: Row): Bytes { Join(FieldTexts(r), FIELD_SEP) }

  /** The hashed stream: every row text followed by the row separator. */
  function Stream(rows: seq<Row>): Bytes {
    if rows == [] then [] else Stream(rows[..|rows| - 1]) + (RowText(rows[|rows| - 1]) + [ROW_SEP])
  }

  /** normalize: appends the fields of a row one after another. */
  method Normalize(dst: Bytes, r: Row) returns (out: Bytes)
    ensures out == dst + (RowText(r) + [ROW_SEP])
  {
    hide Join, StampText, SignedText, Decimal;
    ghost var f := FieldTexts(r);
    FirstField(f);
    out := dst + Decimal(r.id);
    NextField(dst, f, 1, out);
    out := out + [FIELD_SEP];
    out := out + Decimal(r.userId);
    NextField(dst, f, 2, out);
    out := out + [FIELD_SEP];
    out := out + r.status;
    NextField(dst, f, 3, out);
    out := out + [FIELD_SEP];
    out := out + StampText(r.createdAt);
    NextField(dst, f, 4, out);
    out := out + [FIELD_SEP];
    out := out + SignedText(r.amountCents);
    NextField(dst, f, 5, out);
    out := out + [FIELD_SEP];
    ghost var before := out;
    if r.note.Some? {
      out := out + [1];
      out := out + r.note.value;
    } else {
      out := out + [0];
    }
    assert out == before + NoteText(r.note);
    NextField(dst, f, 6, out);
    out := out + [FIELD_SEP];
    out := out + r.payload;
    assert f[..7] == f;
    assert dst + (RowText(r) + [ROW_SEP]) == dst + RowText(r) + [ROW_SEP];
    out := out + [ROW_SEP];
  }

  lemma FirstField(f: seq<Bytes>)
    requires f != []
    ensures Join(f[..1], FIELD_SEP) == f[0]
  {
  }

  lemma NextField(dst: Bytes, f: seq<Bytes>, k: nat, out: Bytes)
    requires 0 < k < |f| && out == dst + Join(f[..k], FIELD_SEP)
    ensures out + [FIELD_SEP] + f[k] == dst + Join(f[..k + 1], FIELD_SEP)
  {
    assert f[..k + 1][..k] == f[..k];
    assert Join(f[..k + 1], FIELD_SEP) == Join(f[..k], FIELD_SEP) + [FIELD_SEP] + f[k];
  }

  /* ---- The normal form determines the row ---- */

  lemma {:induction false} LeadingZeros(k: nat, d: Bytes)
    ensures ValueOf(Zeros(k) + d) == ValueOf(d)
    decreases k + |d|
  {
    var s := Zeros(k) + d;
    if d != [] {
      LeadingZeros(k, d[..|d| - 1]);
      assert s[..|s| - 1] == Zeros(k) + d[..|d| - 1];
    } else if k > 0 {
      LeadingZeros(k - 1, []);
      assert s[..|s| - 1] == Zeros(k - 1) + [];
    }
  }

  lemma ValueOfPadded(n: nat, width: nat)
    ensures ValueOf(Padded(n, width)) == n
  {
    ValueOfDecimal(n);
    if |Decimal(n)| < width {
      LeadingZeros(width - |Decimal(n)|, Decimal(n));
    }
  }

  lemma CutPadded(m: nat, x: Bytes, n: nat, y: Bytes, width: nat, sep: byte)
    requires !IsDigit(sep) && Padded(m, width) + [sep] + x == Padded(n, width) + [sep] + y
    ensures m == n && x == y
  {
    var a, b := Padded(m, width), Padded(n, width);
    assert sep !in a && sep !in b;
    CutAtFirst(a, x, b, y, sep);
    ValueOfPadded(m, width);
    ValueOfPadded(n, width);
  }

  lemma StampsDiffer(s: Stamp, t: Stamp)
    requires StampText(s) == StampText(t)
    ensures s == t
  {
    hide Padded;
    var s6, t6 := Padded(s.micros, 6) + [90], Padded(t.micros, 6) + [90];
    var s5, t5 := Padded(s.second, 2) + [46] + s6, Padded(t.second, 2) + [46] + t6;
    var s4, t4 := Padded(s.minute, 2) + [58] + s5, Padded(t.minute, 2) + [58] + t5;
    var s3, t3 := Padded(s.hour, 2) + [58] + s4, Padded(t.hour, 2) + [58] + t4;
    var s2, t2 := Padded(s.day, 2) + [84] + s3, Padded(t.day, 2) + [84] + t3;
    var s1, t1 := Padded(s.month, 2) + [45] + s2, Padded(t.month, 2) + [45] + t2;
    CutPadded(s.year, s1, t.year, t1, 4, 45);
    CutPadded(s.month, s2, t.month, t2, 2, 45);
    CutPadded(s.day, s3, t.day, t3, 2, 84);
    CutPadded(s.hour, s4, t.hour, t4, 2, 58);
    CutPadded(s.minute, s5, t.minute, t5, 2, 58);
    CutPadded(s.second, s6, t.second, t6, 2, 46);
    assert s6 + [] == s6 && t6 + [] == t6;
    CutPadded(s.micros, [], t.micros, [], 6, 90);
  }

  lemma NumbersDiffer(m: int, n: int)
    requires SignedText(m) == SignedText(n)
    ensures m == n
  {
    ValueOfDecimal(if m < 0 then -m else m);
    ValueOfDecimal(if n < 0 then -n else n);
    assert m < 0 ==> SignedText(m)[0] == 45 && SignedText(m)[1..] == Decimal(-m);
    assert n < 0 ==> SignedText(n)[0] == 45 && SignedText(n)[1..] == Decimal(-n);
    assert m >= 0 ==> IsDigit(SignedText(m)[0]);
    assert n >= 0 ==> IsDigit(SignedText(n)[0]);
  }

  lemma NotesDiffer(a: Option<Bytes>, b: Option<Bytes>)
    requires NoteText(a) == NoteText(b)
    ensures a == b
  {
    assert a.Some? ==> NoteText(a)[0] == 1 && NoteText(a)[1..] == a.value;
    assert b.Some? ==> NoteText(b)[0] == 1 && NoteText(b)[1..] == b.value;
  }

  lemma StampIsFree(t: Stamp, sep: byte)
    requires !IsDigit(sep) && sep < 45
    ensures sep !in StampText(t)
  {
    PaddedIsFree(t.year, 4, sep);
    PaddedIsFree(t.month, 2, sep);
    PaddedIsFree(t.day, 2, sep);
    PaddedIsFree(t.hour, 2, sep);
    PaddedIsFree(t.minute, 2, sep);
    PaddedIsFree(t.second, 2, sep);
    PaddedIsFree(t.micros, 6, sep);
    hide Padded;
  }

  lemma PaddedIsFree(n: nat, width: nat, sep: byte)
    requires !IsDigit(sep)
    ensures sep !in Padded(n, width)
  {
  }

  lemma NumberIsFree(n: int, sep: byte)
    requires !IsDigit(sep) && sep != 45
    ensures sep !in SignedText(n)
    ensures n >= 0 ==> sep !in Decimal(n)
  {
  }

  /** Nothing in the row can be taken for the field separator: after a NULL
      note the payload runs to the end whatever is in it. */
  predicate Readable(r: Row) {
    r.note.Some? ==> FIELD_SEP !in r.note.value && FIELD_SEP !in r.payload
  }

  /** Text without the row separator, and readable. */
  predicate Plain(r: Row) {
    && StatusFits(r) && Readable(r)
    && ROW_SEP !in r.status && ROW_SEP !in r.payload && (r.note.Some? ==> ROW_SEP !in r.note.value)
  }

  lemma FieldsAreFree(r: Row)
    requires Plain(r)
    ensures Free(FieldTexts(r), ROW_SEP)
  {
    hide StampText, SignedText, Decimal;
    StampIsFree(r.createdAt, ROW_SEP);
    NumberIsFree(r.id, ROW_SEP);
    NumberIsFree(r.userId, ROW_SEP);
    NumberIsFree(r.amountCents, ROW_SEP);
    assert ROW_SEP !in NoteText(r.note);
    hide NoteText;
    forall i | 0 <= i < |FieldTexts(r)|
      ensures ROW_SEP !in FieldTexts(r)[i]
    {
      var f := FieldTexts(r);
      assert f[i] == f[0] || f[i] == f[1] || f[i] == f[2] || f[i] == f[3] || f[i] == f[4] || f[i] == f[5] || f[i] == f[6];
    }
  }

  /* ---- The status ---- */

  /** The characters of UTF-8 text: its bytes that do not continue one. */
  function Characters(s: Bytes): (n: nat)
    ensures n <= |s|
  {
    if s == [] then 0 else Characters(s[..|s| - 1]) + if 0x80 <= s[|s| - 1] < 0xC0 then 0 else 1
  }

  lemma {:induction false} CharactersOfConcat(a: Bytes, b: Bytes)
    ensures Characters(a + b) == Characters(a) + Characters(b)
  {
    if b == [] {
      assert a + b == a;
    } else {
      assert (a + b)[..|a + b| - 1] == a + b[..|b| - 1];
      CharactersOfConcat(a, b[..|b| - 1]);
    }
  }

  lemma {:induction false} AsciiCharacters(s: Bytes)
    requires forall i :: 0 <= i < |s| ==> s[i] < 0x80
    ensures Characters(s) == |s|
  {
    if s != [] {
      AsciiCharacters(s[..|s| - 1]);
    }
  }

  /** A status without the field separator, or one that fits its column, which
      is too short for a time stamp. */
  predicate StatusFits(r: Row) { FIELD_SEP in r.status ==> Characters(r.status) <= STATUS_WIDTH }

  lemma PaddedIsAscii(n: nat, width: nat)
    ensures |Padded(n, width)| >= width && forall i :: 0 <= i < |Padded(n, width)| ==> Padded(n, width)[i] < 0x80
  {
  }

  lemma StampIsLong(t: Stamp)
    ensures |StampText(t)| >= 27 && forall i :: 0 <= i < |StampText(t)| ==> StampText(t)[i] < 0x80
  {
    PaddedIsAscii(t.year, 4);
    PaddedIsAscii(t.month, 2);
    PaddedIsAscii(t.day, 2);
    PaddedIsAscii(t.hour, 2);
    PaddedIsAscii(t.minute, 2);
    PaddedIsAscii(t.second, 2);
    PaddedIsAscii(t.micros, 6);
    hide Padded;
  }

  /** Of two texts that go on with a stamp, the second does not begin with a
      longer status: that would swallow the first one's stamp or end in it. */
  lemma NoLongerStatus(s: Bytes, t: Stamp, x: Bytes, longer: Bytes, y: Bytes)
    requires s + [FIELD_SEP] + (StampText(t) + x) == longer + [FIELD_SEP] + y
    requires FIELD_SEP in longer ==> Characters(longer) <= STATUS_WIDTH
    ensures |longer| <= |s|
  {
    var d := StampText(t);
    if |longer| > |s| {
      StampIsLong(t);
      StampIsFree(t, FIELD_SEP);
      hide StampText;
      LongerStart(s, d, x, longer, y, FIELD_SEP);
      CharactersOfConcat((s + [FIELD_SEP]) + d, longer[|s| + 1 + |d|..]);
      CharactersOfConcat(s + [FIELD_SEP], d);
      AsciiCharacters(d);
    }
  }

  lemma StatusesDiffer(s: Bytes, t: Stamp, x: Bytes, s': Bytes, t': Stamp, x': Bytes)
    requires s + [FIELD_SEP] + (StampText(t) + x) == s' + [FIELD_SEP] + (StampText(t') + x')
    requires FIELD_SEP in s ==> Characters(s) <= STATUS_WIDTH
    requires FIELD_SEP in s' ==> Characters(s') <= STATUS_WIDTH
    ensures s == s' && StampText(t) + x == StampText(t') + x'
  {
    NoLongerStatus(s, t, x, s', StampText(t') + x');
    NoLongerStatus(s', t', x', s, StampText(t) + x);
    hide StampText;
    var u, v := s + [FIELD_SEP] + (StampText(t) + x), s' + [FIELD_SEP] + (StampText(t') + x');
    assert u[..|s|] == s && v[..|s'|] == s';
    assert u[|s| + 1..] == StampText(t) + x && v[|s'| + 1..] == StampText(t') + x';
  }

  lemma NumbersAreFree(r: Row)
    ensures FIELD_SEP !in Decimal(r.id) && FIELD_SEP !in Decimal(r.userId)
    ensures FIELD_SEP !in StampText(r.createdAt) && FIELD_SEP !in SignedText(r.amountCents)
  {
    StampIsFree(r.createdAt, FIELD_SEP);
    NumberIsFree(r.id, FIELD_SEP);
    NumberIsFree(r.userId, FIELD_SEP);
    NumberIsFree(r.amountCents, FIELD_SEP);
  }

  /** The fields of a row text one behind the other. */
  lemma FieldsInOrder(r: Row)
    ensures RowText(r) == Decimal(r.id) + [FIELD_SEP] + (Decimal(r.userId) + [FIELD_SEP] + (r.status + [FIELD_SEP]
         + (StampText(r.createdAt) + ([FIELD_SEP] + (SignedText(r.amountCents) + [FIELD_SEP]
         + (NoteText(r.note) + [FIELD_SEP] + r.payload))))))
  {
    hide Join, StampText, SignedText, Decimal, NoteText;
    var f := FieldTexts(r);
    LastOfJoin([f[5]], f[6], FIELD_SEP);
    OnePart(f[5]);
    assert [f[5]] + [f[6]] == f[5..];
    FieldInFront(f, 4);
    FieldInFront(f, 3);
    FieldInFront(f, 2);
    FieldInFront(f, 1);
    FieldInFront(f, 0);
    assert f[0..] == f;
    Reassociate(f[3], [FIELD_SEP], f[4] + [FIELD_SEP] + (f[5] + [FIELD_SEP] + f[6]));
  }

  lemma OnePart(part: Bytes)
    ensures Join([part], FIELD_SEP) == part
  {
  }

  lemma FieldInFront(f: seq<Bytes>, i: nat)
    requires i + 1 < |f|
    ensures Join(f[i..], FIELD_SEP) == f[i] + [FIELD_SEP] + Join(f[i + 1..], FIELD_SEP)
  {
    assert f[i..] == [f[i]] + f[i + 1..];
    JoinOfCons(f[i], f[i + 1..], FIELD_SEP);
  }

  lemma TailsDiffer(r: Row, q: Row)
    requires Readable(r) && NoteText(r.note) + [FIELD_SEP] + r.payload == NoteText(q.note) + [FIELD_SEP] + q.payload
    ensures r.note == q.note && r.payload == q.payload
  {
    var u, v := NoteText(r.note) + [FIELD_SEP] + r.payload, NoteText(q.note) + [FIELD_SEP] + q.payload;
    assert u[0] == NoteText(r.note)[0] && v[0] == NoteText(q.note)[0];
    if r.note.Some? {
      OneSeparator(NoteText(r.note), r.payload, NoteText(q.note), q.payload, FIELD_SEP);
      NotesDiffer(r.note, q.note);
    } else {
      assert u[2..] == r.payload && v[2..] == q.payload;
    }
  }

  /** A readable row has its text to itself. */
  lemma RowTextsDiffer(r: Row, q: Row)
    requires StatusFits(r) && StatusFits(q) && Readable(r) && RowText(r) == RowText(q)
    ensures r == q
  {
    hide StampText, SignedText, NoteText, Join, Readable, RowText, Characters, Decimal, FieldTexts;
    FieldsInOrder(r);
    FieldsInOrder(q);
    NumbersAreFree(r);
    NumbersAreFree(q);
    var r6, q6 := NoteText(r.note) + [FIELD_SEP] + r.payload, NoteText(q.note) + [FIELD_SEP] + q.payload;
    var r5, q5 := SignedText(r.amountCents) + [FIELD_SEP] + r6, SignedText(q.amountCents) + [FIELD_SEP] + q6;
    var r3, q3 := r.status + [FIELD_SEP] + (StampText(r.createdAt) + ([FIELD_SEP] + r5)),
                  q.status + [FIELD_SEP] + (StampText(q.createdAt) + ([FIELD_SEP] + q5));
    CutAtFirst(Decimal(r.id), Decimal(r.userId) + [FIELD_SEP] + r3, Decimal(q.id), Decimal(q.userId) + [FIELD_SEP] + q3, FIELD_SEP);
    CutAtFirst(Decimal(r.userId), r3, Decimal(q.userId), q3, FIELD_SEP);
    StatusesDiffer(r.status, r.createdAt, [FIELD_SEP] + r5, q.status, q.createdAt, [FIELD_SEP] + q5);
    Reassociate(StampText(r.createdAt), [FIELD_SEP], r5);
    Reassociate(StampText(q.createdAt), [FIELD_SEP], q5);
    CutAtFirst(StampText(r.createdAt), r5, StampText(q.createdAt), q5, FIELD_SEP);
    CutAtFirst(SignedText(r.amountCents), r6, SignedText(q.amountCents), q6, FIELD_SEP);
    TailsDiffer(r, q);
    ValueOfDecimal(r.id);
    ValueOfDecimal(q.id);
    ValueOfDecimal(r.userId);
    ValueOfDecimal(q.userId);
    StampsDiffer(r.createdAt, q.createdAt);
    NumbersDiffer(r.amountCents, q.amountCents);
  }

  /** Among the rows the table can hold, a row is told by its text from every
      other exactly when it is readable. */
  lemma RowTextIsUniqueIff(r: Row)
    requires StatusFits(r)
    ensures (forall q: Row :: StatusFits(q) && RowText(q) == RowText(r) ==> q == r) <==> Readable(r)
  {
    hide RowText, Characters;
    if Readable(r) {
      forall q: Row | StatusFits(q) && RowText(q) == RowText(r)
        ensures q == r
      {
        RowTextsDiffer(r, q);
      }
    } else {
      var q := AnotherReading(r);
      assert q != r && RowText(q) == RowText(r);
    }
  }

  lemma AnotherReading(r: Row) returns (q: Row)
    requires !Readable(r)
    ensures q != r && q.status == r.status && RowText(q) == RowText(r)
  {
    hide RowText;
    if FIELD_SEP in r.note.value {
      var n, p := CutSomewhere(r.note.value, FIELD_SEP);
      q := r.(note := Some(n), payload := p + [FIELD_SEP] + r.payload);
      SeparatorsInTextCollide(r, n, p, r.payload);
      assert r == r.(note := Some(n + [FIELD_SEP] + p), payload := r.payload);
      assert |q.payload| > |r.payload|;
    } else {
      var p, tail := CutSomewhere(r.payload, FIELD_SEP);
      q := r.(note := Some(r.note.value + [FIELD_SEP] + p), payload := tail);
      SeparatorsInTextCollide(r, r.note.value, p, tail);
      assert r == r.(note := Some(r.note.value), payload := p + [FIELD_SEP] + tail);
      assert |q.payload| < |r.payload|;
    }
  }

  predicate AllPlain(rows: seq<Row>) { forall i :: 0 <= i < |rows| ==> Plain(rows[i]) }

  function Texts(rows: seq<Row>): seq<Bytes> { seq(|rows|, i requires 0 <= i < |rows| => RowText(rows[i])) }

  /** The stream is the row texts joined, with one more separator. */
  lemma {:induction false} StreamIsJoin(rows: seq<Row>)
    ensures Stream(rows) == Join(Texts(rows) + [[]], ROW_SEP)
  {
    hide RowText;
    if rows == [] {
      assert Texts(rows) + [[]] == [[]];
    } else {
      var front, last := rows[..|rows| - 1], rows[|rows| - 1];
      StreamIsJoin(front);
      var parts := Texts(rows);
      assert parts == Texts(front) + [RowText(last)];
      assert (parts + [[]])[..|parts|] == parts && parts[..|parts| - 1] == Texts(front);
      JoinWithEmptyPart(parts, ROW_SEP);
      JoinWithLastPart(Texts(front), RowText(last));
    }
  }

  lemma JoinWithLastPart(parts: seq<Bytes>, last: Bytes)
    ensures Join(parts + [last], ROW_SEP) == Join(parts + [[]], ROW_SEP) + last
  {
    LastOfJoin(parts, last, ROW_SEP);
    LastOfJoin(parts, [], ROW_SEP);
  }

  /** Tables of plain rows with the same stream are the same table. */
  lemma StreamsDiffer(a: seq<Row>, b: seq<Row>)
    requires AllPlain(a) && AllPlain(b)
    ensures Stream(a) == Stream(b) <==> a == b
  {
    if Stream(a) == Stream(b) {
      StreamIsJoin(a);
      StreamIsJoin(b);
      TextsAreFree(a);
      TextsAreFree(b);
      JoinsDiffer(Texts(a) + [[]], Texts(b) + [[]], ROW_SEP);
      var x, y := Texts(a) + [[]], Texts(b) + [[]];
      assert |a| == |x| - 1 == |y| - 1 == |b|;
      forall i | 0 <= i < |a|
        ensures a[i] == b[i]
      {
        assert x[i] == RowText(a[i]) && y[i] == RowText(b[i]);
        RowTextsDiffer(a[i], b[i]);
      }
    }
  }

  lemma TextsAreFree(rows: seq<Row>)
    requires AllPlain(rows)
    ensures Free(Texts(rows) + [[]], ROW_SEP)
  {
    forall i | 0 <= i < |rows|
      ensures ROW_SEP !in RowText(rows[i])
    {
      FieldsAreFree(rows[i]);
      JoinIsFree(FieldTexts(rows[i]), FIELD_SEP, ROW_SEP);
    }
  }

  /* ---- Reading a table page by page ---- */

  /** A table: its rows by primary key. */
  predicate InKeyOrder(table: seq<Row>) {
    forall i, k :: 0 <= i < k < |table| ==> table[i].id < table[k].id
  }

  /** WHERE id > last ORDER BY id. */
  function After(table: seq<Row>, last: int): (rows: seq<Row>)
    ensures |rows| <= |table|
  {
    if table == [] then []
    else (if table[0].id > last then [table[0]] else []) + After(table[1..], last)
  }

  /** ... LIMIT n. */
  function Page(table: seq<Row>, last: int, n: nat): seq<Row> {
    var rows := After(table, last);
    if |rows| > n then rows[..n] else rows
  }

  lemma {:induction false} AfterAll(table: seq<Row>, last: int)
    requires forall i :: 0 <= i < |table| ==> table[i].id > last
    ensures After(table, last) == table
  {
    if table != [] {
      AfterAll(table[1..], last);
      assert table == [table[0]] + table[1..];
    }
  }

  lemma AfterHead(table: seq<Row>, last: int)
    requires table != []
    ensures After(table, last) == (if table[0].id > last then [table[0]] else []) + After(table[1..], last)
    ensures InKeyOrder(table) ==> InKeyOrder(table[1..]) && forall i :: 0 <= i < |table| - 1 ==> table[1..][i].id > table[0].id
  {
  }

  lemma DropFromCons<T>(x: T, rest: seq<T>, k: nat)
    requires 0 < k <= |rest| + 1
    ensures ([x] + rest)[k..] == rest[k - 1..] && ([x] + rest)[k - 1] == if k == 1 then x else rest[k - 2]
  {
  }

  /** The rows behind the k-th row of a result are the rest of that result. */
  lemma {:induction false} AfterPage(table: seq<Row>, last: int, k: nat)
    requires InKeyOrder(table) && 0 < k <= |After(table, last)|
    ensures After(table, last)[k - 1].id > last
    ensures After(table, After(table, last)[k - 1].id) == After(table, last)[k..]
  {
    AfterNothing(last);
    hide After, InKeyOrder;
    var head, rest := table[0], table[1..];
    AfterHead(table, last);
    if head.id <= last {
      AfterPage(rest, last, k);
      AfterHead(table, After(rest, last)[k - 1].id);
    } else {
      AfterAll(rest, last);
      AfterAll(rest, head.id);
      DropFromCons(head, rest, k);
      if k == 1 {
        AfterHead(table, head.id);
      } else {
        AfterPage(rest, head.id, k - 1);
        AfterHead(table, rest[k - 2].id);
      }
    }
  }

  lemma AfterNothing(last: int)
    ensures After([], last) == []
  {
  }

  lemma {:induction false} StreamOfConcat(a: seq<Row>, b: seq<Row>)
    ensures Stream(a + b) == Stream(a) + Stream(b)
  {
    hide RowText;
    if b == [] {
      assert a + b == a;
    } else {
      assert (a + b)[..|a + b| - 1] == a + b[..|b| - 1];
      StreamOfConcat(a, b[..|b| - 1]);
    }
  }

  /** The running digest; `input` is what has been written to the hash. */
  class Hasher {
    var input: Bytes
    var buf: Bytes
    var rows: nat

    constructor ()
      ensures input == [] && rows == 0
    {
      input, buf, rows := [], [], 0;
    }

    method Feed(r: Row)
      modifies this
      ensures input == old(input) + Stream([r]) && rows == old(rows) + 1
    {
      buf := Normalize([], r);
      input := input + buf;
      rows := rows + 1;
      assert [r][..0] == [];
      assert Stream([r]) == RowText(r) + [ROW_SEP];
    }

    method Sum(hash: Bytes -> string) returns (digest: string, n: nat)
      ensures digest == hash(input) && n == rows
    {
      return hash(input), rows;
    }
  }

  /** One page: feeds its rows and moves the cursor to the last of them. */
  method ScanChunk(h: Hasher, table: seq<Row>, lastId: int, chunk: nat) returns (n: nat, next: int)
    modifies h
    ensures var page := Page(table, lastId, chunk);
      && n == |page| && next == (if page == [] then lastId else page[n - 1].id)
      && h.input == old(h.input) + Stream(page) && h.rows == old(h.rows) + n
  {
    hide After, RowText;
    var page := Page(table, lastId, chunk);
    n, next := 0, lastId;
    while n < |page|
      invariant 0 <= n <= |page|
      invariant next == if n == 0 then lastId else page[n - 1].id
      invariant h.input == old(h.input) + Stream(page[..n]) && h.rows == old(h.rows) + n
    {
      h.Feed(page[n]);
      assert page[..n + 1] == page[..n] + [page[n]];
      StreamOfConcat(page[..n], [page[n]]);
      next := page[n].id;
      n := n + 1;
    }
    assert page[..n] == page;
  }

  datatype Side = Side(digest: string, rows: nat)

  /** The rows the scan sees: it starts behind key 0. */
  function Seen(table: seq<Row>): seq<Row> { After(table, 0) }

  /** Whatever the chunk size, pagination ends and feeds each row with a key of
      at least 1 once, in key order. */
  method Compute(hash: Bytes -> string, table: seq<Row>, chunk: int) returns (side: Side)
    requires InKeyOrder(table)
    ensures side == Side(hash(Stream(Seen(table))), |Seen(table)|)
  {
    hide After, Stream, RowText;
    var size: nat := if chunk <= 0 then DEFAULT_CHUNK else chunk;
    var h := new Hasher();
    var lastId := 0;
    ghost var read: seq<Row> := [];
    NothingRead();
    while true
      invariant read + After(table, lastId) == Seen(table)
      invariant h.input == Stream(read) && h.rows == |read|
      decreases |After(table, lastId)|
    {
      ghost var left := After(table, lastId);
      ghost var page := Page(table, lastId, size);
      var n, next := ScanChunk(h, table, lastId, size);
      StreamOfConcat(read, page);
      if n > 0 {
        AfterPage(table, lastId, n);
        assert left == page + left[n..];
        assert (read + page) + left[n..] == read + left;
      }
      read := read + page;
      lastId := next;
      if n < size {
        assert read == Seen(table);
        break;
      }
    }
    var digest, rows := h.Sum(hash);
    side := Side(digest, rows);
  }

  lemma NothingRead()
    ensures Stream([]) == []
  {
  }

  predicate Match(baseline: Side, candidate: Side) {
    baseline.digest == candidate.digest && baseline.rows == candidate.rows
  }

  /* ---- Main results ---- */

  /** Comparing two tables matches exactly when they hold the same rows among
      those with a key of at least 1, whatever the two chunk sizes were.  Of
      the hash only the two streams at hand are asked not to collide. */
  lemma MatchDecidesTables(hash: Bytes -> string, a: seq<Row>, b: seq<Row>, baseline: Side, candidate: Side)
    requires AllPlain(a) && AllPlain(b) && InKeyOrder(a) && InKeyOrder(b)
    requires baseline == Side(hash(Stream(Seen(a))), |Seen(a)|)
    requires candidate == Side(hash(Stream(Seen(b))), |Seen(b)|)
    requires hash(Stream(Seen(a))) == hash(Stream(Seen(b))) ==> Stream(Seen(a)) == Stream(Seen(b))
    ensures Match(baseline, candidate) <==> Seen(a) == Seen(b)
    ensures (forall i :: 0 <= i < |a| ==> a[i].id >= 1) && (forall i :: 0 <= i < |b| ==> b[i].id >= 1)
      ==> (Match(baseline, candidate) <==> a == b)
  {
    hide Stream;
    SeenIsPlain(a, 0);
    SeenIsPlain(b, 0);
    StreamsDiffer(Seen(a), Seen(b));
    if (forall i :: 0 <= i < |a| ==> a[i].id >= 1) && (forall i :: 0 <= i < |b| ==> b[i].id >= 1) {
      AfterAll(a, 0);
      AfterAll(b, 0);
    }
  }

  lemma {:induction false} SeenIsPlain(table: seq<Row>, last: int)
    requires AllPlain(table)
    ensures AllPlain(After(table, last))
  {
    if table != [] {
      SeenIsPlain(table[1..], last);
    }
  }

  /** A row with key 0 is never read: it can be there or not. */
  lemma KeyZeroIsNotSeen(row: Row, rest: seq<Row>)
    requires row.id == 0
    ensures Seen([row] + rest) == Seen(rest)
  {
    assert ([row] + rest)[1..] == rest;
  }

  /** Text that does hold the field separator can move between columns: for
      any row and texts these two rows have one normal form. */
  lemma SeparatorsInTextCollide(r: Row, n: Bytes, p: Bytes, q: Bytes)
    ensures RowText(r.(note := Some(n + [FIELD_SEP] + p), payload := q))
         == RowText(r.(note := Some(n), payload := p + [FIELD_SEP] + q))
  {
    hide Join, StampText, SignedText, Decimal;
    var a, b := r.(note := Some(n + [FIELD_SEP] + p), payload := q), r.(note := Some(n), payload := p + [FIELD_SEP] + q);
    var f, g := FieldTexts(a), FieldTexts(b);
    var head := f[..5];
    assert f == (head + [[1] + (n + [FIELD_SEP] + p)]) + [q];
    assert g == (head + [[1] + n]) + [p + [FIELD_SEP] + q];
    LastOfJoin(head + [[1] + (n + [FIELD_SEP] + p)], q, FIELD_SEP);
    LastOfJoin(head + [[1] + n], p + [FIELD_SEP] + q, FIELD_SEP);
    assert [1] + (n + [FIELD_SEP] + p) == ([1] + n) + ([FIELD_SEP] + p);
    JoinWithLongerLast(head, [1] + n, [FIELD_SEP] + p, FIELD_SEP);
    var x := Join(head + [[1] + n], FIELD_SEP);
    assert (x + ([FIELD_SEP] + p)) + [FIELD_SEP] + q == x + [FIELD_SEP] + (p + [FIELD_SEP] + q);
  }

  lemma StreamOfTwo(a: Row, b: Row)
    ensures Stream([a, b]) == RowText(a) + [ROW_SEP] + RowText(b) + [ROW_SEP]
  {
    assert [a, b][..1] == [a] && [a][..0] == [];
    assert Stream([a]) == RowText(a) + [ROW_SEP];
  }

  lemma LongerPayload(r: Row, more: Bytes)
    ensures RowText(r.(payload := r.payload + more)) == RowText(r) + more
  {
    hide Join, StampText, SignedText, Decimal, NoteText;
    var longer := r.(payload := r.payload + more);
    var head := FieldTexts(r)[..6];
    assert FieldTexts(longer) == head + [r.payload + more] && FieldTexts(r) == head + [r.payload];
    JoinWithLongerLast(head, r.payload, more, FIELD_SEP);
  }

  /** Text with the row separator can even stand for a row: whatever the hash,
      these two different tables of two rows each are taken for a match. */
  lemma RowSeparatorsInTextCollide(hash: Bytes -> string, a: Row, b: Row, c: Row)
    requires 1 <= a.id < b.id && a.id < c.id
    ensures var x := [a.(payload := a.payload + ([ROW_SEP] + RowText(b))), c];
      var y := [a, b.(payload := b.payload + ([ROW_SEP] + RowText(c)))];
      && x != y && InKeyOrder(x) && InKeyOrder(y)
      && Match(Side(hash(Stream(Seen(x))), |Seen(x)|), Side(hash(Stream(Seen(y))), |Seen(y)|))
  {
    hide RowText;
    var a2, b2 := a.(payload := a.payload + ([ROW_SEP] + RowText(b))), b.(payload := b.payload + ([ROW_SEP] + RowText(c)));
    var x, y := [a2, c], [a, b2];
    assert |a2.payload| > |a.payload|;
    assert x[0] != y[0];
    AfterAll(x, 0);
    AfterAll(y, 0);
    hide Stream, After;
    StreamOfTwo(a2, c);
    StreamOfTwo(a, b2);
    LongerPayload(a, [ROW_SEP] + RowText(b));
    LongerPayload(b, [ROW_SEP] + RowText(c));
    var p, q, r, sep := RowText(a), RowText(b), RowText(c), [ROW_SEP];
    assert p + (sep + q) + sep + r + sep == p + sep + (q + (sep + r)) + sep;
  }

  /* ---- The layout ---- */

  /** The fields stand in the order of the columns, with unit separators between
      them and a record separator behind the last; a note is marked, so that an
      empty one is told from none. */
  lemma RowLayout(r: Row)
    ensures RowText(r) + [ROW_SEP]
         == Decimal(r.id) + [31] + Decimal(r.userId) + [31] + r.status + [31] + StampText(r.createdAt) + [31]
          + SignedText(r.amountCents) + [31] + (if r.note.Some? then [1] + r.note.value else [0]) + [31] + r.payload + [30]
  {
    hide Decimal, StampText, SignedText, Join;
    SevenJoined(FieldTexts(r));
  }

  lemma SevenJoined(f: seq<Bytes>)
    requires |f| == 7
    ensures Join(f, FIELD_SEP)
         == f[0] + [31] + f[1] + [31] + f[2] + [31] + f[3] + [31] + f[4] + [31] + f[5] + [31] + f[6]
  {
    FirstField(f);
    OneMoreJoined(f, 1);
    OneMoreJoined(f, 2);
    OneMoreJoined(f, 3);
    OneMoreJoined(f, 4);
    OneMoreJoined(f, 5);
    OneMoreJoined(f, 6);
    hide Join;
    assert f[..7] == f;
  }

  lemma OneMoreJoined(f: seq<Bytes>, k: nat)
    requires 0 < k < |f|
    ensures Join(f[..k + 1], FIELD_SEP) == Join(f[..k], FIELD_SEP) + [31] + f[k]
  {
    assert f[..k + 1][..k] == f[..k];
  }

  lemma {:induction false} DecimalIsShort(n: nat, width: nat, bound: nat)
    requires width >= 1 && n < bound && bound == Power10(width)
    ensures |Decimal(n)| <= width
  {
    if n >= 10 {
      DecimalIsShort(n / 10, width - 1, Power10(width - 1));
    }
  }

  function Power10(n: nat): nat { if n == 0 then 1 else 10 * Power10(n - 1) }

  /** A number that fits is written in just that many digits. */
  lemma PaddedHas(n: nat, width: nat)
    requires width >= 1 && n < Power10(width)
    ensures |Padded(n, width)| == width && AllDigits(Padded(n, width)) && ValueOf(Padded(n, width)) == n
  {
    DecimalIsShort(n, width, Power10(width));
    ValueOfPadded(n, width);
  }

  /** A time stamp always takes 27 bytes, microseconds included:
      YYYY-MM-DDThh:mm:ss.uuuuuuZ. */
  lemma StampLayout(t: Stamp)
    requires t.year < 10_000 && t.month < 100 && t.day < 100 && t.hour < 100 && t.minute < 100 && t.second < 100 && t.micros < 1_000_000
    ensures var s := StampText(t);
      && |s| == 27 && s[4] == s[7] == 45 && s[10] == 84 && s[13] == s[16] == 58 && s[19] == 46 && s[26] == 90
      && ValueOf(s[0..4]) == t.year && ValueOf(s[5..7]) == t.month && ValueOf(s[8..10]) == t.day
      && ValueOf(s[11..13]) == t.hour && ValueOf(s[14..16]) == t.minute && ValueOf(s[17..19]) == t.second
      && ValueOf(s[20..26]) == t.micros
  {
    assert Power10(2) == 100 && Power10(4) == 10_000 && Power10(6) == 1_000_000;
    PaddedHas(t.year, 4);
    PaddedHas(t.month, 2);
    PaddedHas(t.day, 2);
    PaddedHas(t.hour, 2);
    PaddedHas(t.minute, 2);
    PaddedHas(t.second, 2);
    PaddedHas(t.micros, 6);
    hide Padded, ValueOf, Power10, AllDigits;
    var seconds := Padded(t.second, 2) + [46] + (Padded(t.micros, 6) + [90]);
    var time := Padded(t.hour, 2) + [58] + (Padded(t.minute, 2) + [58] + seconds);
    DateLayout(Padded(t.year, 4), Padded(t.month, 2), Padded(t.day, 2), time, StampText(t));
    TimeLayout(Padded(t.hour, 2), Padded(t.minute, 2), Padded(t.second, 2), Padded(t.micros, 6), time);
    var s := StampText(t);
    assert s[11..] == time;
    TailSlices(s, time);
  }

  lemma DateLayout(year: Bytes, month: Bytes, day: Bytes, rest: Bytes, s: Bytes)
    requires |year| == 4 && |month| == |day| == 2 && s == year + [45] + (month + [45] + (day + [84] + rest))
    ensures |s| == 11 + |rest| && s[0..4] == year && s[5..7] == month && s[8..10] == day && s[11..] == rest
    ensures s[4] == s[7] == 45 && s[10] == 84
  {
  }

  lemma TimeLayout(hour: Bytes, minute: Bytes, second: Bytes, micros: Bytes, s: Bytes)
    requires |hour| == |minute| == |second| == 2 && |micros| == 6
    requires s == hour + [58] + (minute + [58] + (second + [46] + (micros + [90])))
    ensures |s| == 16 && s[0..2] == hour && s[3..5] == minute && s[6..8] == second && s[9..15] == micros
    ensures s[2] == s[5] == 58 && s[8] == 46 && s[15] == 90
  {
  }

  lemma TailSlices(s: Bytes, time: Bytes)
    requires |s| == 27 && |time| == 16 && s[11..] == time
    ensures s[11..13] == time[0..2] && s[14..16] == time[3..5] && s[17..19] == time[6..8] && s[20..26] == time[9..15]
    ensures s[13] == time[2] && s[16] == time[5] && s[19] == time[8] && s[26] == time[15]
  {
    assert forall k :: 0 <= k < 16 ==> s[11 + k] == time[k] by {
      assert forall k :: 0 <= k < 16 ==> s[11..][k] == s[11 + k];
    }
  }
}
