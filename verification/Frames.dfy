/** The wire form shared by the snapshot and result fingerprints: fields marked
    as NULL or as present with a length, between tags.  It decodes. */
module Frames {
  import opened Prelude
  import opened GoInt

  /** A column value: None is NULL, which is not the empty value. */
  type Value = Option<Bytes>

  /** A value whose length a Go int can hold. */
  predicate Fits(v: Value) { v.Some? ==> |v.value| < TWO63 }

  /* ---- binary.BigEndian ---- */

  function BigEndian(n: nat, width: nat): (s: Bytes)
    ensures |s| == width
  {
    if width == 0 then [] else BigEndian(n / 256, width - 1) + [n % 256]
  }

  function FromBigEndian(s: Bytes): nat {
    if s == [] then 0 else FromBigEndian(s[..|s| - 1]) * 256 + s[|s| - 1]
  }

  function Pow256(width: nat): nat { if width == 0 then 1 else Pow256(width - 1) * 256 }

  lemma {:induction false} BigEndianRoundTrip(n: nat, width: nat)
    requires n < Pow256(width)
    ensures FromBigEndian(BigEndian(n, width)) == n
  {
    if width > 0 {
      BigEndianRoundTrip(n / 256, width - 1);
    }
  }

  lemma EightBytesHoldALength()
    ensures Pow256(8) == TWO64
  {
    assert Pow256(2) == 0x1_0000 && Pow256(3) == 0x100_0000;
    assert Pow256(4) == 0x1_0000_0000 && Pow256(5) == 0x100_0000_0000;
    assert Pow256(6) == 0x1_0000_0000_0000 && Pow256(7) == 0x100_0000_0000_0000;
  }

  /* ---- One field ---- */

  function Frame(v: Value): Bytes {
    match v
    case None => [0]
    case Some(raw) => [1] + BigEndian(|raw|, 8) + raw
  }

  /* ---- Streams of tags and fields ---- */

  datatype Tag = TableTag | ColumnTag | PrimaryKeyTag | IndexTag | RowTag | EndTableTag

  datatype Token = Mark(tag: Tag) | Field(value: Value)

  /** Each tag ends in a NUL; they differ in their first letter. */
  function TagBytes(t: Tag): (s: Bytes)
    ensures |s| >= 4 && s[0] > 1
  {
    match t
    case TableTag => [116, 97, 98, 108, 101, 0]
    case ColumnTag => [99, 111, 108, 117, 109, 110, 0]
    case PrimaryKeyTag => [112, 114, 105, 109, 97, 114, 121, 107, 101, 121, 0]
    case IndexTag => [105, 110, 100, 101, 120, 0]
    case RowTag => [114, 111, 119, 0]
    case EndTableTag => [101, 110, 100, 116, 97, 98, 108, 101, 0]
  }

  function TokenBytes(t: Token): Bytes {
    match t
    case Mark(tag) => TagBytes(tag)
    case Field(v) => Frame(v)
  }

  function Encode(ts: seq<Token>): Bytes {
    if ts == [] then [] else TokenBytes(ts[0]) + Encode(ts[1..])
  }

  function TagWith(first: byte): Option<Tag> {
    if first == 116 then Some(TableTag) else if first == 99 then Some(ColumnTag)
    else if first == 112 then Some(PrimaryKeyTag) else if first == 105 then Some(IndexTag)
    else if first == 114 then Some(RowTag) else if first == 101 then Some(EndTableTag) else None
  }

  /** The first token of a stream and the bytes it takes. */
  function ReadToken(s: Bytes): (r: Option<(Token, nat)>)
    requires s != []
    ensures r.Some? ==> 0 < r.value.1 <= |s|
  {
    if s[0] == 0 then Some((Field(None), 1))
    else if s[0] == 1 then
      if |s| < 9 || |s| < 9 + FromBigEndian(s[1..9]) then None
      else
        var n := FromBigEndian(s[1..9]);
        Some((Field(Some(s[9..9 + n])), 9 + n))
    else
      var tag := TagWith(s[0]);
      if tag.Some? && TagBytes(tag.value) <= s then Some((Mark(tag.value), |TagBytes(tag.value)|)) else None
  }

  /** The decoder. */
  function Decode(s: Bytes): Option<seq<Token>> {
    if s == [] then Some([])
    else
      match ReadToken(s)
      case None => None
      case Some((t, n)) =>
        match Decode(s[n..])
        case None => None
        case Some(ts) => Some([t] + ts)
  }

  ghost predicate AllFit(ts: seq<Token>) {
    forall i :: 0 <= i < |ts| && ts[i].Field? ==> Fits(ts[i].value)
  }

  lemma ReadTokenOfBytes(t: Token, rest: Bytes)
    requires t.Field? ==> Fits(t.value)
    ensures TokenBytes(t) != [] && ReadToken(TokenBytes(t) + rest) == Some((t, |TokenBytes(t)|))
  {
    var s := TokenBytes(t) + rest;
    match t
    case Mark(tag) =>
      assert s[0] == TagBytes(tag)[0];
    case Field(None) =>
    case Field(Some(raw)) =>
      EightBytesHoldALength();
      BigEndianRoundTrip(|raw|, 8);
      assert s[1..9] == BigEndian(|raw|, 8);
      assert s[9..9 + |raw|] == raw;
  }

  /** Decoding inverts encoding. */
  lemma {:induction false} DecodeOfEncode(ts: seq<Token>)
    requires AllFit(ts)
    ensures Decode(Encode(ts)) == Some(ts)
  {
    if ts != [] {
      var s := Encode(ts);
      var n := |TokenBytes(ts[0])|;
      ReadTokenOfBytes(ts[0], Encode(ts[1..]));
      assert s[n..] == Encode(ts[1..]);
      DecodeOfEncode(ts[1..]);
      assert ts == [ts[0]] + ts[1..];
    }
  }

  lemma {:induction false} EncodeOfConcat(a: seq<Token>, b: seq<Token>)
    ensures Encode(a + b) == Encode(a) + Encode(b)
  {
    if a == [] {
      assert a + b == b;
    } else {
      assert (a + b)[1..] == a[1..] + b;
      EncodeOfConcat(a[1..], b);
    }
  }

  function Fields(vs: seq<Value>): seq<Token> { seq(|vs|, i requires 0 <= i < |vs| => Field(vs[i])) }

  /** A row of values, one frame after another. */
  function RowBytes(vs: seq<Value>): Bytes { Encode(Fields(vs)) }

  /** The bytes of a row's values, without their frames. */
  function SizeOf(row: seq<Value>): nat {
    if row == [] then 0
    else SizeOf(row[..|row| - 1]) + (if row[|row| - 1].Some? then |row[|row| - 1].value| else 0)
  }

  /** Different rows have different bytes. */
  lemma RowBytesDiffer(a: seq<Value>, b: seq<Value>)
    requires forall i :: 0 <= i < |a| ==> Fits(a[i])
    requires forall i :: 0 <= i < |b| ==> Fits(b[i])
    ensures RowBytes(a) == RowBytes(b) <==> a == b
  {
    if RowBytes(a) == RowBytes(b) {
      DecodeOfEncode(Fields(a));
      DecodeOfEncode(Fields(b));
      assert |a| == |Fields(a)| == |Fields(b)| == |b|;
      assert forall i :: 0 <= i < |a| ==> Fields(a)[i].value == a[i] && Fields(b)[i].value == b[i];
    }
  }
}
