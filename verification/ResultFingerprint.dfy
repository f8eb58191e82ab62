/** Fingerprints of query results: one hash per row, sorted unless order
    matters, hashed again behind the column names. */
module ResultFingerprint {
  import opened Prelude
  import opened GoInt
  import opened Frames
  import opened Separators
  import opened Sequences
  import Lexicographic
  import Sorting

  const MAX_COLUMNS := 128
  const MAX_ROWS := 10_000
  const MAX_BYTES := 0x80_0000

  datatype Error = ColumnLimit | BadValue | ResultLimit

  datatype Result = Failed(error: Error) | Ok(fingerprint: string)

  /** Rewrites a value of some column type to its canonical form, or fails. */
  type Canonical = (Bytes, string) -> Option<Bytes>

  /** SHA-256 in hexadecimal, of a row's bytes and of the final text. */
  datatype Hash = Hash(ofRow: Bytes -> string, ofText: string -> string)

  /* ---- Canonical rows ---- */

  function CanonicalValue(canon: Canonical, v: Value, kind: string): Option<Value> {
    if v.None? then Some(None)
    else
      match canon(v.value, kind)
      case None => None
      case Some(c) => Some(Some(c))
  }

  /** The canonical values of a row from column i on. */
  function CanonicalRow(canon: Canonical, kinds: seq<string>, row: seq<Value>): Option<seq<Value>>
    requires |kinds| == |row|
  {
    if row == [] then Some([])
    else
      var k := |row| - 1;
      match CanonicalRow(canon, kinds[..k], row[..k])
      case None => None
      case Some(front) =>
        match CanonicalValue(canon, row[k], kinds[k])
        case None => None
        case Some(v) => Some(front + [v])
  }

  ghost predicate Rectangular(kinds: seq<string>, rows: seq<seq<Value>>) {
    forall i :: 0 <= i < |rows| ==> |rows[i]| == |kinds|
  }

  /** The first thing wrong with the rows, after `count` rows and `total` bytes. */
  ghost function FirstProblem(canon: Canonical, kinds: seq<string>, rows: seq<seq<Value>>, count: nat, total: nat): Option<Error>
    requires Rectangular(kinds, rows)
  {
    if rows == [] then None
    else if CanonicalRow(canon, kinds, rows[0]).None? then Some(BadValue)
    else if count + 1 > MAX_ROWS || total + SizeOf(rows[0]) > MAX_BYTES then Some(ResultLimit)
    else FirstProblem(canon, kinds, rows[1..], count + 1, total + SizeOf(rows[0]))
  }

  /** The rows in canonical form, when all of them have one. */
  ghost function CanonicalRows(canon: Canonical, kinds: seq<string>, rows: seq<seq<Value>>): Option<seq<seq<Value>>>
    requires Rectangular(kinds, rows)
  {
    if rows == [] then Some([])
    else
      var k := |rows| - 1;
      match CanonicalRows(canon, kinds, rows[..k])
      case None => None
      case Some(front) =>
        match CanonicalRow(canon, kinds, rows[k])
        case None => None
        case Some(row) => Some(front + [row])
  }

  /* ---- The fingerprint ---- */

  function RowHashes(hash: Hash, rows: seq<seq<Value>>): seq<string> {
    seq(|rows|, i requires 0 <= i < |rows| => hash.ofRow(RowBytes(rows[i])))
  }

  function Listed(hashes: seq<string>, ordered: bool): seq<string> {
    if ordered then hashes else Sorting.Sort(hashes, Lexicographic.LexLe)
  }

  function Text(columns: seq<string>, hashes: seq<string>): string {
    Join(columns, '\0') + "\n" + Join(hashes, '\n')
  }

  function Fingerprint(hash: Hash, columns: seq<string>, rows: seq<seq<Value>>, ordered: bool): string {
    hash.ofText(Text(columns, Listed(RowHashes(hash, rows), ordered)))
  }

  /* ---- The reader ---- */

  /** Writes one row to its hash, value by value; None on a bad value. */
  method HashRow(hash: Hash, canon: Canonical, kinds: seq<string>, row: seq<Value>)
      returns (digest: Option<string>, size: nat)
    requires |kinds| == |row|
    ensures digest == match CanonicalRow(canon, kinds, row)
                      case None => None
                      case Some(values) => Some(hash.ofRow(RowBytes(values)))
    ensures digest.Some? ==> size == SizeOf(row)
  {
    hide Frame, RowBytes, CanonicalValue;
    var h: Bytes := [];
    ghost var values: seq<Value> := [];
    size := 0;
    var i := 0;
    NoValues();
    while i < |row|
      invariant 0 <= i <= |row|
      invariant CanonicalRow(canon, kinds[..i], row[..i]) == Some(values)
      invariant h == RowBytes(values) && size == SizeOf(row[..i])
    {
      var value := row[i];
      assert row[..i + 1][..i] == row[..i] && kinds[..i + 1][..i] == kinds[..i];
      ValueStep(canon, value, kinds[i]);
      size := size + if value.Some? then |value.value| else 0;
      if value.None? {
        h := h + [0];
      } else {
        var c := canon(value.value, kinds[i]);
        if c.None? {
          BadValueSpoilsRow(canon, kinds, row, i + 1);
          return None, size;
        }
        h := h + Frame(Some(c.value));
      }
      ghost var v := CanonicalValue(canon, value, kinds[i]).value;
      OneMoreValue(values, v);
      values := values + [v];
      i := i + 1;
    }
    assert row[..i] == row && kinds[..i] == kinds;
    digest := Some(hash.ofRow(h));
  }

  lemma NoValues()
    ensures RowBytes([]) == []
  {
  }

  lemma ValueStep(canon: Canonical, v: Value, kind: string)
    ensures v.None? ==> CanonicalValue(canon, v, kind) == Some(None) && Frame(None) == [0]
    ensures v.Some? && canon(v.value, kind).None? ==> CanonicalValue(canon, v, kind) == None
    ensures v.Some? && canon(v.value, kind).Some? ==> CanonicalValue(canon, v, kind) == Some(canon(v.value, kind))
  {
  }

  lemma OneMoreValue(values: seq<Value>, v: Value)
    ensures RowBytes(values + [v]) == RowBytes(values) + Frame(v)
  {
    assert Fields(values + [v]) == Fields(values) + [Field(v)];
    EncodeOfConcat(Fields(values), [Field(v)]);
    assert Encode([Field(v)]) == Frame(v);
  }

  lemma {:induction false} BadValueSpoilsRow(canon: Canonical, kinds: seq<string>, row: seq<Value>, i: nat)
    requires |kinds| == |row| && i <= |row|
    requires CanonicalRow(canon, kinds[..i], row[..i]) == None
    ensures CanonicalRow(canon, kinds, row) == None
    decreases |row|
  {
    if i == |row| {
      assert row[..i] == row && kinds[..i] == kinds;
    } else {
      var k := |row| - 1;
      assert row[..k][..i] == row[..i] && kinds[..k][..i] == kinds[..i];
      BadValueSpoilsRow(canon, kinds[..k], row[..k], i);
    }
  }

  lemma OneMoreRow(canon: Canonical, kinds: seq<string>, rows: seq<seq<Value>>, i: nat)
    requires Rectangular(kinds, rows) && i < |rows|
    requires CanonicalRows(canon, kinds, rows[..i]).Some? && CanonicalRow(canon, kinds, rows[i]).Some?
    ensures CanonicalRows(canon, kinds, rows[..i + 1])
         == Some(CanonicalRows(canon, kinds, rows[..i]).value + [CanonicalRow(canon, kinds, rows[i]).value])
  {
    assert rows[..i + 1][..i] == rows[..i];
  }

  method Read(hash: Hash, canon: Canonical, columns: seq<string>, kinds: seq<string>, rows: seq<seq<Value>>, ordered: bool)
      returns (result: Result)
    requires |columns| == |kinds| && Rectangular(kinds, rows)
    ensures var problem := if |columns| > MAX_COLUMNS then Some(ColumnLimit) else FirstProblem(canon, kinds, rows, 0, 0);
      && (problem.Some? ==> result == Failed(problem.value))
      && (problem.None? ==>
            && CanonicalRows(canon, kinds, rows).Some?
            && result == Ok(Fingerprint(hash, columns, CanonicalRows(canon, kinds, rows).value, ordered)))
  {
    hide CanonicalRow, CanonicalRows, RowBytes, SizeOf, Sorting.Sort, Text;
    if |columns| > MAX_COLUMNS {
      return Failed(ColumnLimit);
    }
    var hashes: seq<string> := [];
    ghost var done: seq<seq<Value>> := [];
    var total: nat := 0;
    var i := 0;
    NoRows(canon, kinds, rows);
    while i < |rows|
      invariant 0 <= i <= |rows| && |hashes| == i
      invariant CanonicalRows(canon, kinds, rows[..i]) == Some(done)
      invariant hashes == RowHashes(hash, done)
      invariant FirstProblem(canon, kinds, rows, 0, 0) == FirstProblem(canon, kinds, rows[i..], i, total)
    {
      assert rows[i..][0] == rows[i] && rows[i..][1..] == rows[i + 1..];
      var digest, size := HashRow(hash, canon, kinds, rows[i]);
      if digest.None? {
        return Failed(BadValue);
      }
      OneMoreRow(canon, kinds, rows, i);
      done := done + [CanonicalRow(canon, kinds, rows[i]).value];
      total := total + size;
      hashes := hashes + [digest.value];
      i := i + 1;
      if |hashes| > MAX_ROWS || total > MAX_BYTES {
        return Failed(ResultLimit);
      }
    }
    assert rows[..i] == rows;
    if !ordered {
      var a := new string[|hashes|](k requires 0 <= k < |hashes| => hashes[k]);
      assert a[..] == hashes;
      Sorting.SortArray(a, Lexicographic.LexLe);
      hashes := a[..];
    }
    result := Ok(hash.ofText(Text(columns, hashes)));
  }

  lemma NoRows(canon: Canonical, kinds: seq<string>, rows: seq<seq<Value>>)
    requires Rectangular(kinds, rows)
    ensures CanonicalRows(canon, kinds, rows[..0]) == Some([])
    ensures rows[0..] == rows
  {
  }

  /* ---- What fingerprints decide ---- */

  predicate Plain(columns: seq<string>) {
    columns != [] && forall i :: 0 <= i < |columns| ==> '\0' !in columns[i] && '\n' !in columns[i]
  }

  /** Of the row hash: no two of these rows collide, and what it returns for
      them is not empty and has no newline. */
  ghost predicate HashesWell(hash: Hash, rows: set<seq<Value>>) {
    && (forall r :: r in rows ==> hash.ofRow(RowBytes(r)) != "" && '\n' !in hash.ofRow(RowBytes(r)))
    && (forall r, q :: r in rows && q in rows && hash.ofRow(RowBytes(r)) == hash.ofRow(RowBytes(q)) ==> RowBytes(r) == RowBytes(q))
  }

  ghost predicate RowsFit(rows: set<seq<Value>>) {
    forall r, i :: r in rows && 0 <= i < |r| ==> Fits(r[i])
  }

  ghost predicate LineLike(hashes: seq<string>) {
    forall i :: 0 <= i < |hashes| ==> hashes[i] != "" && '\n' !in hashes[i]
  }

  lemma LinesDiffer(a: seq<string>, b: seq<string>)
    requires LineLike(a) && LineLike(b)
    ensures Join(a, '\n') == Join(b, '\n') <==> a == b
  {
    SomeLineIsNotEmpty(a);
    SomeLineIsNotEmpty(b);
    if a != [] && b != [] {
      JoinsDiffer(a, b, '\n');
    }
  }

  lemma SomeLineIsNotEmpty(a: seq<string>)
    requires LineLike(a)
    ensures Join(a, '\n') == "" <==> a == []
  {
  }

  /** The hashed text determines the columns and the list of row hashes. */
  lemma TextsDiffer(c1: seq<string>, h1: seq<string>, c2: seq<string>, h2: seq<string>)
    requires Plain(c1) && Plain(c2) && LineLike(h1) && LineLike(h2)
    ensures Text(c1, h1) == Text(c2, h2) <==> c1 == c2 && h1 == h2
  {
    if Text(c1, h1) == Text(c2, h2) {
      JoinIsFree(c1, '\0', '\n');
      JoinIsFree(c2, '\0', '\n');
      CutAtFirst(Join(c1, '\0'), Join(h1, '\n'), Join(c2, '\0'), Join(h2, '\n'), '\n');
      JoinsDiffer(c1, c2, '\0');
      LinesDiffer(h1, h2);
    }
  }

  /** Distinct rows have distinct hashes. */
  lemma HashesDiffer(hash: Hash, rows: set<seq<Value>>, r: seq<Value>, q: seq<Value>)
    requires HashesWell(hash, rows) && RowsFit(rows) && r in rows && q in rows
    ensures hash.ofRow(RowBytes(r)) == hash.ofRow(RowBytes(q)) <==> r == q
  {
    RowBytesDiffer(r, q);
  }

  lemma {:induction false} HashCounts(hash: Hash, rows: set<seq<Value>>, a: seq<seq<Value>>, r: seq<Value>)
    requires HashesWell(hash, rows) && RowsFit(rows) && Elements(a) <= rows && r in rows
    ensures multiset(RowHashes(hash, a))[hash.ofRow(RowBytes(r))] == multiset(a)[r]
  {
    if a != [] {
      hide RowBytes, HashesWell, RowsFit;
      var front, last := a[..|a| - 1], a[|a| - 1];
      assert a == front + [last];
      assert RowHashes(hash, a) == RowHashes(hash, front) + [hash.ofRow(RowBytes(last))];
      assert last in Elements(a);
      assert Elements(front) <= rows by {
        assert forall x :: x in front ==> x in a;
      }
      HashCounts(hash, rows, front, r);
      HashesDiffer(hash, rows, last, r);
    }
  }

  /** Row hashes agree as multisets exactly when the rows do. */
  lemma HashMultisets(hash: Hash, a: seq<seq<Value>>, b: seq<seq<Value>>)
    requires HashesWell(hash, Elements(a) + Elements(b)) && RowsFit(Elements(a) + Elements(b))
    ensures multiset(RowHashes(hash, a)) == multiset(RowHashes(hash, b)) <==> multiset(a) == multiset(b)
  {
    hide RowBytes, HashesWell, RowsFit;
    var rows := Elements(a) + Elements(b);
    var ha, hb := multiset(RowHashes(hash, a)), multiset(RowHashes(hash, b));
    forall r | r in rows
      ensures ha[hash.ofRow(RowBytes(r))] == multiset(a)[r] && hb[hash.ofRow(RowBytes(r))] == multiset(b)[r]
    {
      HashCounts(hash, rows, a, r);
      HashCounts(hash, rows, b, r);
    }
    if ha == hb {
      forall r
        ensures multiset(a)[r] == multiset(b)[r]
      {
        if r !in rows {
          assert r !in a && r !in b;
        }
      }
    }
    if multiset(a) == multiset(b) {
      forall h
        ensures ha[h] == hb[h]
      {
        HashOfSomeRow(hash, a, h);
        HashOfSomeRow(hash, b, h);
      }
    }
  }

  lemma HashOfSomeRow(hash: Hash, a: seq<seq<Value>>, h: string)
    ensures multiset(RowHashes(hash, a))[h] > 0 ==> exists r :: r in Elements(a) && h == hash.ofRow(RowBytes(r))
  {
    var hs := RowHashes(hash, a);
    if multiset(hs)[h] > 0 {
      assert h in hs;
      var i :| 0 <= i < |hs| && hs[i] == h;
      assert a[i] in Elements(a);
    }
  }

  lemma HashesAreLines(hash: Hash, rows: set<seq<Value>>, a: seq<seq<Value>>)
    requires HashesWell(hash, rows) && Elements(a) <= rows
    ensures LineLike(RowHashes(hash, a)) && LineLike(Listed(RowHashes(hash, a), false))
  {
    hide RowBytes;
    var hs := RowHashes(hash, a);
    forall i | 0 <= i < |hs|
      ensures hs[i] != "" && '\n' !in hs[i]
    {
      assert a[i] in Elements(a);
    }
    Sorting.SortPermutes(hs, Lexicographic.LexLe);
    var sorted := Sorting.Sort(hs, Lexicographic.LexLe);
    Sorting.SameElements(sorted, hs);
    assert forall i :: 0 <= i < |sorted| ==> sorted[i] in hs;
  }

  /** Ordered fingerprints agree exactly when columns and row sequences do. */
  lemma OrderedFingerprintsDecide(hash: Hash, c1: seq<string>, a: seq<seq<Value>>, c2: seq<string>, b: seq<seq<Value>>)
    requires Plain(c1) && Plain(c2) && RowsFit(Elements(a) + Elements(b)) && HashesWell(hash, Elements(a) + Elements(b))
    requires var t1, t2 := Text(c1, Listed(RowHashes(hash, a), true)), Text(c2, Listed(RowHashes(hash, b), true));
      hash.ofText(t1) == hash.ofText(t2) ==> t1 == t2
    ensures Fingerprint(hash, c1, a, true) == Fingerprint(hash, c2, b, true) <==> c1 == c2 && a == b
  {
    hide RowBytes, HashesWell, RowsFit, Text;
    var rows := Elements(a) + Elements(b);
    HashesAreLines(hash, rows, a);
    HashesAreLines(hash, rows, b);
    var ha, hb := RowHashes(hash, a), RowHashes(hash, b);
    TextsDiffer(c1, ha, c2, hb);
    if ha == hb {
      assert |a| == |ha| == |hb| == |b|;
      forall i | 0 <= i < |a|
        ensures a[i] == b[i]
      {
        assert a[i] in Elements(a) && b[i] in Elements(b);
        assert ha[i] == hb[i];
        HashesDiffer(hash, rows, a[i], b[i]);
      }
    }
  }

  /** Unordered ones exactly when columns and row multisets do. */
  lemma UnorderedFingerprintsDecide(hash: Hash, c1: seq<string>, a: seq<seq<Value>>, c2: seq<string>, b: seq<seq<Value>>)
    requires Plain(c1) && Plain(c2) && RowsFit(Elements(a) + Elements(b)) && HashesWell(hash, Elements(a) + Elements(b))
    requires var t1, t2 := Text(c1, Listed(RowHashes(hash, a), false)), Text(c2, Listed(RowHashes(hash, b), false));
      hash.ofText(t1) == hash.ofText(t2) ==> t1 == t2
    ensures Fingerprint(hash, c1, a, false) == Fingerprint(hash, c2, b, false) <==> c1 == c2 && multiset(a) == multiset(b)
  {
    hide RowBytes, HashesWell, RowsFit, Text, Sorting.Sort;
    var rows := Elements(a) + Elements(b);
    HashesAreLines(hash, rows, a);
    HashesAreLines(hash, rows, b);
    var ha, hb := RowHashes(hash, a), RowHashes(hash, b);
    TextsDiffer(c1, Listed(ha, false), c2, Listed(hb, false));
    SortsAgree(ha, hb);
    HashMultisets(hash, a, b);
  }

  lemma SortsAgree(a: seq<string>, b: seq<string>)
    ensures Listed(a, false) == Listed(b, false) <==> multiset(a) == multiset(b)
  {
    Sorting.SortPermutes(a, Lexicographic.LexLe);
    Sorting.SortPermutes(b, Lexicographic.LexLe);
    if multiset(a) == multiset(b) {
      Lexicographic.LexIsTotalOn(a);
      Sorting.SortDependsOnMultiset(a, b, Lexicographic.LexLe);
    }
  }

  lemma TextsOfColumns(c: seq<string>, d: seq<string>, hashes: seq<string>)
    ensures Text(c, hashes) == Text(d, hashes) <==> Join(c, '\0') == Join(d, '\0')
  {
    hide Join;
    var a, b, tail := Join(c, '\0'), Join(d, '\0'), "\n" + Join(hashes, '\n');
    assert Text(c, hashes) == a + tail && Text(d, hashes) == b + tail;
    if a + tail == b + tail {
      assert a == (a + tail)[..|a|] == (b + tail)[..|b|] == b;
    }
  }

  /** In front of the same rows, a list of column names is told from every
      other list of its length exactly when it has one name or none of its
      names holds a NUL. */
  lemma ColumnsAreToldIff(columns: seq<string>, hashes: seq<string>)
    ensures (forall other: seq<string> :: |other| == |columns| && Text(other, hashes) == Text(columns, hashes) ==> other == columns)
       <==> |columns| <= 1 || forall i :: 0 <= i < |columns| ==> '\0' !in columns[i]
  {
    hide Text, Join;
    JoinIsUniqueIff(columns, '\0');
    forall other: seq<string> | |other| == |columns|
      ensures Text(other, hashes) == Text(columns, hashes) <==> Join(other, '\0') == Join(columns, '\0')
    {
      TextsOfColumns(other, columns, hashes);
    }
  }

  /** Among lists of all lengths even that is not enough: a column whose name
      holds a NUL passes for two columns. */
  lemma NulsInNamesCollide(a: string, b: string, hashes: seq<string>)
    ensures Text([a + ['\0'] + b], hashes) == Text([a, b], hashes)
  {
    LastOfJoin([a], b, '\0');
    assert [a] + [b] == [a, b];
  }

  /* ---- Which results have a fingerprint ---- */

  /** The canonical row has the canonical form of the k-th value at place k, and
      NULL where the row has it; there is none exactly if some value has none. */
  lemma {:induction false} CanonicalRowMeans(canon: Canonical, kinds: seq<string>, row: seq<Value>)
    requires |kinds| == |row|
    ensures CanonicalRow(canon, kinds, row).None? <==>
      exists k :: 0 <= k < |row| && row[k].Some? && canon(row[k].value, kinds[k]).None?
    ensures CanonicalRow(canon, kinds, row).Some? ==>
      var out := CanonicalRow(canon, kinds, row).value;
      && |out| == |row|
      && forall k :: 0 <= k < |row| ==> out[k] == if row[k].None? then None else canon(row[k].value, kinds[k])
  {
    if row != [] {
      var k := |row| - 1;
      CanonicalRowMeans(canon, kinds[..k], row[..k]);
      if i :| 0 <= i < k && row[..k][i].Some? && canon(row[..k][i].value, kinds[..k][i]).None? {
        assert row[i].Some? && canon(row[i].value, kinds[i]).None?;
      }
      if i :| 0 <= i < |row| && row[i].Some? && canon(row[i].value, kinds[i]).None? {
        assert i < k ==> row[..k][i].Some? && canon(row[..k][i].value, kinds[..k][i]).None?;
      }
    }
  }

  /** The i-th canonical row is that of the i-th row. */
  lemma {:induction false} CanonicalRowsMean(canon: Canonical, kinds: seq<string>, rows: seq<seq<Value>>)
    requires Rectangular(kinds, rows)
    ensures CanonicalRows(canon, kinds, rows).Some? <==>
      forall i :: 0 <= i < |rows| ==> CanonicalRow(canon, kinds, rows[i]).Some?
    ensures CanonicalRows(canon, kinds, rows).Some? ==>
      var out := CanonicalRows(canon, kinds, rows).value;
      |out| == |rows| && forall i :: 0 <= i < |rows| ==> CanonicalRow(canon, kinds, rows[i]) == Some(out[i])
  {
    if rows != [] {
      hide CanonicalRow;
      CanonicalRowsMean(canon, kinds, rows[..|rows| - 1]);
      assert forall i :: 0 <= i < |rows| - 1 ==> rows[..|rows| - 1][i] == rows[i];
    }
  }

  ghost function TotalSize(rows: seq<seq<Value>>): nat {
    if rows == [] then 0 else SizeOf(rows[0]) + TotalSize(rows[1..])
  }

  lemma {:induction false} NoProblemFromHere(canon: Canonical, kinds: seq<string>, rows: seq<seq<Value>>, count: nat, total: nat)
    requires Rectangular(kinds, rows) && count <= 10_000 && total <= 8_388_608
    ensures FirstProblem(canon, kinds, rows, count, total).None? <==>
      && (forall i :: 0 <= i < |rows| ==> CanonicalRow(canon, kinds, rows[i]).Some?)
      && count + |rows| <= 10_000 && total + TotalSize(rows) <= 8_388_608
  {
    if rows != [] {
      hide CanonicalRow, SizeOf;
      assert forall i :: 0 < i < |rows| ==> rows[i] == rows[1..][i - 1];
      assert forall i :: 0 <= i < |rows| - 1 ==> rows[1..][i] == rows[i + 1];
      if CanonicalRow(canon, kinds, rows[0]).Some? && count + 1 <= 10_000 && total + SizeOf(rows[0]) <= 8_388_608 {
        NoProblemFromHere(canon, kinds, rows[1..], count + 1, total + SizeOf(rows[0]));
      }
    }
  }

  /** A result has a fingerprint exactly if it has at most 128 columns and 10000
      rows, at most 8 MiB of values, and only values with a canonical form. */
  lemma FingerprintedIff(canon: Canonical, columns: seq<string>, kinds: seq<string>, rows: seq<seq<Value>>)
    requires |columns| == |kinds| && Rectangular(kinds, rows)
    ensures (|columns| <= MAX_COLUMNS && FirstProblem(canon, kinds, rows, 0, 0).None?) <==>
      && |columns| <= 128 && |rows| <= 10_000 && TotalSize(rows) <= 8_388_608
      && forall i, k :: 0 <= i < |rows| && 0 <= k < |rows[i]| ==>
           rows[i][k] == None || canon(rows[i][k].value, kinds[k]).Some?
  {
    hide FirstProblem, CanonicalRow;
    NoProblemFromHere(canon, kinds, rows, 0, 0);
    forall i | 0 <= i < |rows|
      ensures CanonicalRow(canon, kinds, rows[i]).Some? <==>
        forall k :: 0 <= k < |rows[i]| ==> rows[i][k] == None || canon(rows[i][k].value, kinds[k]).Some?
    {
      CanonicalRowMeans(canon, kinds, rows[i]);
    }
  }

  lemma {:induction false} ProblemFromHere(canon: Canonical, kinds: seq<string>, rows: seq<seq<Value>>, count: nat, total: nat)
      returns (i: nat)
    requires Rectangular(kinds, rows) && FirstProblem(canon, kinds, rows, count, total).Some?
    ensures i < |rows| && (forall x :: 0 <= x < i ==> CanonicalRow(canon, kinds, rows[x]).Some?)
    ensures match FirstProblem(canon, kinds, rows, count, total).value
            case BadValue => CanonicalRow(canon, kinds, rows[i]).None?
            case ResultLimit => count + i + 1 > 10_000 || total + TotalSize(rows[..i + 1]) > 8_388_608
            case ColumnLimit => false
  {
    hide CanonicalRow, SizeOf;
    var rest := rows[1..];
    if CanonicalRow(canon, kinds, rows[0]).None? || count + 1 > MAX_ROWS || total + SizeOf(rows[0]) > MAX_BYTES {
      i := 0;
      var one := rows[..1];
      assert one[1..] == [] && one[0] == rows[0];
      assert TotalSize(one) == SizeOf(rows[0]) + TotalSize([]);
    } else {
      i := ProblemFromHere(canon, kinds, rest, count + 1, total + SizeOf(rows[0]));
      assert rows[..i + 2][1..] == rest[..i + 1] && rows[..i + 2][0] == rows[0];
      i := i + 1;
    }
  }

  /** A result that is refused has, at its first bad row, a value without a
      canonical form, or holds too many rows or bytes by then. */
  lemma FailuresAreFounded(canon: Canonical, kinds: seq<string>, rows: seq<seq<Value>>) returns (i: nat)
    requires Rectangular(kinds, rows) && FirstProblem(canon, kinds, rows, 0, 0).Some?
    ensures i < |rows|
    ensures forall x, k :: 0 <= x < i && 0 <= k < |rows[x]| ==> rows[x][k] == None || canon(rows[x][k].value, kinds[k]).Some?
    ensures match FirstProblem(canon, kinds, rows, 0, 0).value
            case BadValue => exists k :: 0 <= k < |rows[i]| && rows[i][k].Some? && canon(rows[i][k].value, kinds[k]).None?
            case ResultLimit => i + 1 > 10_000 || TotalSize(rows[..i + 1]) > 8_388_608
            case ColumnLimit => false
  {
    hide FirstProblem, CanonicalRow;
    i := ProblemFromHere(canon, kinds, rows, 0, 0);
    forall x | 0 <= x < |rows|
      ensures CanonicalRow(canon, kinds, rows[x]).None? <==>
        exists k :: 0 <= k < |rows[x]| && rows[x][k].Some? && canon(rows[x][k].value, kinds[k]).None?
    {
      CanonicalRowMeans(canon, kinds, rows[x]);
    }
  }
}
