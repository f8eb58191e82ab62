/** Snapshots of shadow tables: schema, primary key, indexes and rows written
    to one stream and hashed.  The stream decodes, so equal digests mean equal
    tables, and NULL is not the empty value. */
module ShadowSnapshot {
  import opened Prelude
  import opened GoInt
  import opened Frames
  import opened Sequences

  /** What the snapshot says of a table.  A column has six attributes, an index
      part nine; key columns are quoted.  Candidate indexes are not in it. */
  datatype Table = Table(name: Bytes, columns: seq<seq<Value>>, primaryKey: seq<Bytes>, indexes: seq<seq<Value>>,
                         rows: seq<seq<Value>>)

  /** A table as the database describes it; rows come in primary-key order. */
  datatype Relation = Relation(base: bool, columns: seq<seq<Value>>, primaryKey: seq<Bytes>, indexes: seq<seq<Value>>,
                               rows: seq<seq<Value>>)

  type Catalog = map<Bytes, Relation>

  datatype Error = TableLimit | UnsafeIdentifier | BaseTableRequired | PrimaryKeyRequired | SnapshotLimit

  datatype Snapshot = Snapshot(digest: string, rows: nat)

  datatype Result = Failed(error: Error) | Ok(snapshot: Snapshot)

  const MAX_TABLES := 16
  const MAX_ROWS := 2_000_000
  const MAX_BYTES := 0x1000_0000

  /* ---- The stream ---- */

  datatype Record = Record(tag: Tag, fields: seq<Value>)

  function RecordTokens(r: Record): seq<Token> { [Mark(r.tag)] + Fields(r.fields) }

  function Tokens(rs: seq<Record>): seq<Token> {
    if rs == [] then [] else RecordTokens(rs[0]) + Tokens(rs[1..])
  }

  function Records(tag: Tag, all: seq<seq<Value>>): seq<Record> {
    seq(|all|, i requires 0 <= i < |all| => Record(tag, all[i]))
  }

  function Present(names: seq<Bytes>): seq<Value> { seq(|names|, i requires 0 <= i < |names| => Some(names[i])) }

  function TableRecords(t: Table): seq<Record> {
    [Record(TableTag, [Some(t.name)])] + (Records(ColumnTag, t.columns) + ([Record(PrimaryKeyTag, Present(t.primaryKey))]
      + (Records(IndexTag, t.indexes) + (Records(RowTag, t.rows) + [Record(EndTableTag, [])]))))
  }

  function AllRecords(ts: seq<Table>): seq<Record> {
    if ts == [] then [] else TableRecords(ts[0]) + AllRecords(ts[1..])
  }

  function Stream(ts: seq<Table>): Bytes { Encode(Tokens(AllRecords(ts))) }

  /* ---- Its decoder ---- */

  /** Reads tokens from the right: the fields not yet claimed by a tag, and the
      records found. */
  function Group(ts: seq<Token>): (seq<Value>, seq<Record>) {
    if ts == [] then ([], []) else AddToken(ts[0], Group(ts[1..]))
  }

  function AddToken(t: Token, found: (seq<Value>, seq<Record>)): (seq<Value>, seq<Record>) {
    match t
    case Field(v) => ([v] + found.0, found.1)
    case Mark(tag) => ([], [Record(tag, found.0)] + found.1)
  }

  /** Reads records from the right: the parts of a table whose name is still to
      come, and the tables found. */
  function Assemble(rs: seq<Record>): (Table, seq<Table>) {
    if rs == [] then (NOTHING, []) else AddRecord(rs[0], Assemble(rs[1..]))
  }

  function AddRecord(r: Record, found: (Table, seq<Table>)): (Table, seq<Table>) {
    var (t, ts) := found;
    match r.tag
    case EndTableTag => (NOTHING, ts)
    case RowTag => (t.(rows := [r.fields] + t.rows), ts)
    case IndexTag => (t.(indexes := [r.fields] + t.indexes), ts)
    case PrimaryKeyTag => (t.(primaryKey := Names(r.fields)), ts)
    case ColumnTag => (t.(columns := [r.fields] + t.columns), ts)
    case TableTag => (NOTHING, [t.(name := if r.fields != [] && r.fields[0].Some? then r.fields[0].value else [])] + ts)
  }

  const NOTHING: Table := Table([], [], [], [], [])

  function Names(fields: seq<Value>): seq<Bytes> {
    seq(|fields|, i requires 0 <= i < |fields| => if fields[i].Some? then fields[i].value else [])
  }

  function DecodeSnapshot(s: Bytes): Option<seq<Table>> {
    match Decode(s)
    case None => None
    case Some(ts) => Some(Assemble(Group(ts).1).1)
  }

  ghost predicate RowsFit(rows: seq<seq<Value>>) {
    forall i, k :: 0 <= i < |rows| && 0 <= k < |rows[i]| ==> Fits(rows[i][k])
  }

  ghost predicate TableFits(t: Table) {
    && |t.name| < TWO63 && (forall i :: 0 <= i < |t.primaryKey| ==> |t.primaryKey[i]| < TWO63)
    && RowsFit(t.columns) && RowsFit(t.indexes) && RowsFit(t.rows)
  }

  ghost predicate RecordFits(r: Record) { forall k :: 0 <= k < |r.fields| ==> Fits(r.fields[k]) }

  ghost predicate RecordsFit(rs: seq<Record>) { forall i :: 0 <= i < |rs| ==> RecordFits(rs[i]) }

  lemma {:induction false} TokensFit(rs: seq<Record>)
    requires RecordsFit(rs)
    ensures AllFit(Tokens(rs))
  {
    if rs != [] {
      TokensFit(rs[1..]);
      assert RecordFits(rs[0]);
    }
  }

  lemma {:induction false} TableRecordsFit(ts: seq<Table>)
    requires forall i :: 0 <= i < |ts| ==> TableFits(ts[i])
    ensures RecordsFit(AllRecords(ts))
  {
    if ts != [] {
      TableRecordsFit(ts[1..]);
      assert TableFits(ts[0]);
    }
  }

  lemma HeadJoinsTail<T>(s: seq<T>, rest: seq<T>)
    requires s != []
    ensures [s[0]] + (s[1..] + rest) == s + rest
  {
    Reassociate([s[0]], s[1..], rest);
  }

  lemma {:induction false} GroupOfFields(vs: seq<Value>, rest: seq<Token>)
    ensures Group(Fields(vs) + rest) == (vs + Group(rest).0, Group(rest).1)
  {
    if vs == [] {
      assert Fields(vs) + rest == rest;
      assert vs + Group(rest).0 == Group(rest).0;
    } else {
      assert Fields(vs) + rest == [Field(vs[0])] + (Fields(vs[1..]) + rest);
      Consed(Field(vs[0]), Fields(vs[1..]) + rest);
      GroupOfFields(vs[1..], rest);
      HeadJoinsTail(vs, Group(rest).0);
    }
  }

  lemma {:induction false} GroupOfTokens(rs: seq<Record>)
    ensures Group(Tokens(rs)) == ([], rs)
  {
    if rs != [] {
      hide Fields;
      var r, rest := rs[0], Tokens(rs[1..]);
      GroupOfTokens(rs[1..]);
      GroupOfFields(r.fields, rest);
      assert Tokens(rs) == [Mark(r.tag)] + (Fields(r.fields) + rest);
      Consed(Mark(r.tag), Fields(r.fields) + rest);
      assert r.fields + [] == r.fields;
      assert rs == [r] + rs[1..];
    }
  }

  /** Like records in front of what is found. */
  function AddRun(tag: Tag, all: seq<seq<Value>>, found: (Table, seq<Table>)): (Table, seq<Table>) {
    var (t, ts) := found;
    match tag
    case ColumnTag => (t.(columns := all + t.columns), ts)
    case IndexTag => (t.(indexes := all + t.indexes), ts)
    case RowTag => (t.(rows := all + t.rows), ts)
    case _ => found
  }

  lemma AddRunStep(tag: Tag, all: seq<seq<Value>>, found: (Table, seq<Table>))
    requires (tag.ColumnTag? || tag.IndexTag? || tag.RowTag?)
    ensures AddRun(tag, [], found) == found
    ensures all != [] ==> AddRecord(Record(tag, all[0]), AddRun(tag, all[1..], found)) == AddRun(tag, all, found)
  {
    var t := found.0;
    assert [] + t.columns == t.columns && [] + t.indexes == t.indexes && [] + t.rows == t.rows;
    if all != [] {
      HeadJoinsTail(all, t.columns);
      HeadJoinsTail(all, t.indexes);
      HeadJoinsTail(all, t.rows);
    }
  }

  lemma {:induction false} AssembleRun(tag: Tag, all: seq<seq<Value>>, rest: seq<Record>)
    requires tag.ColumnTag? || tag.IndexTag? || tag.RowTag?
    ensures Assemble(Records(tag, all) + rest) == AddRun(tag, all, Assemble(rest))
  {
    hide AddRun, AddRecord;
    AddRunStep(tag, all, Assemble(rest));
    if all == [] {
      assert Records(tag, all) + rest == rest;
    } else {
      assert Records(tag, all) + rest == [Record(tag, all[0])] + (Records(tag, all[1..]) + rest);
      Consed(Record(tag, all[0]), Records(tag, all[1..]) + rest);
      AssembleRun(tag, all[1..], rest);
    }
  }

  lemma AssembleOfTable(t: Table, rest: seq<Record>)
    ensures Assemble(TableRecords(t) + rest) == (NOTHING, [t] + Assemble(rest).1)
  {
    var end, key, head := Record(EndTableTag, []), Record(PrimaryKeyTag, Present(t.primaryKey)), Record(TableTag, [Some(t.name)]);
    var r5 := [end] + rest;
    var r4 := Records(RowTag, t.rows) + r5;
    var r3 := Records(IndexTag, t.indexes) + r4;
    var r2 := [key] + r3;
    var r1 := Records(ColumnTag, t.columns) + r2;
    assert TableRecords(t) + rest == [head] + r1 by {
      hide Records;
    }
    hide Records, TableRecords;
    Consed(end, rest);
    AssembleRun(RowTag, t.rows, r5);
    AssembleRun(IndexTag, t.indexes, r4);
    Consed(key, r3);
    AssembleRun(ColumnTag, t.columns, r2);
    Consed(head, r1);
    assert Names(Present(t.primaryKey)) == t.primaryKey;
    AddedUp(t, Assemble(rest));
  }

  lemma AddedUp(t: Table, found: (Table, seq<Table>))
    requires Names(Present(t.primaryKey)) == t.primaryKey
    ensures AddRecord(Record(TableTag, [Some(t.name)]), AddRun(ColumnTag, t.columns,
              AddRecord(Record(PrimaryKeyTag, Present(t.primaryKey)), AddRun(IndexTag, t.indexes,
              AddRun(RowTag, t.rows, AddRecord(Record(EndTableTag, []), found)))))) == (NOTHING, [t] + found.1)
  {
    assert t.columns + [] == t.columns && t.indexes + [] == t.indexes && t.rows + [] == t.rows;
  }

  lemma {:induction false} AssembleOfRecords(ts: seq<Table>)
    ensures Assemble(AllRecords(ts)).1 == ts
  {
    if ts != [] {
      AssembleOfTable(ts[0], AllRecords(ts[1..]));
      AssembleOfRecords(ts[1..]);
      assert ts == [ts[0]] + ts[1..];
    }
  }

  /** The decoder inverts the stream, for any number of tables. */
  lemma StreamDecodes(ts: seq<Table>)
    requires forall i :: 0 <= i < |ts| ==> TableFits(ts[i])
    ensures DecodeSnapshot(Stream(ts)) == Some(ts)
  {
    TableRecordsFit(ts);
    TokensFit(AllRecords(ts));
    DecodeOfEncode(Tokens(AllRecords(ts)));
    GroupOfTokens(AllRecords(ts));
    AssembleOfRecords(ts);
  }

  /* ---- Compute ---- */

  predicate IsLetter(c: byte) { 65 <= c <= 90 || 97 <= c <= 122 || c == 95 }

  /** ^[A-Za-z_][A-Za-z0-9_]{0,63}$ */
  predicate SafeIdentifier(name: Bytes) {
    && 1 <= |name| <= 64 && IsLetter(name[0])
    && forall i :: 0 <= i < |name| ==> IsLetter(name[i]) || 48 <= name[i] <= 57
  }

  function Quote(name: Bytes): Bytes { [96] + name + [96] }

  function QuoteAll(names: seq<Bytes>): seq<Bytes> { seq(|names|, i requires 0 <= i < |names| => Quote(names[i])) }

  function SizeOfAll(rows: seq<seq<Value>>): nat {
    if rows == [] then 0 else SizeOfAll(rows[..|rows| - 1]) + SizeOf(rows[|rows| - 1])
  }

  /** SELECT ... LIMIT 2000001. */
  function Fetched(r: Relation): seq<seq<Value>> {
    if |r.rows| > MAX_ROWS + 1 then r.rows[..MAX_ROWS + 1] else r.rows
  }

  /** What is wrong with the next table, after `count` rows and `bytes` bytes. */
  function TableProblem(db: Catalog, name: Bytes, count: nat, bytes: nat): Option<Error> {
    if !SafeIdentifier(name) then Some(UnsafeIdentifier)
    else if name !in db || !db[name].base then Some(BaseTableRequired)
    else if exists i :: 0 <= i < |db[name].primaryKey| && !SafeIdentifier(db[name].primaryKey[i]) then Some(UnsafeIdentifier)
    else if db[name].primaryKey == [] then Some(PrimaryKeyRequired)
    else if Fetched(db[name]) != [] && (count + |Fetched(db[name])| > MAX_ROWS || bytes + SizeOfAll(Fetched(db[name])) > MAX_BYTES)
      then Some(SnapshotLimit)
    else None
  }

  function FirstProblem(db: Catalog, names: seq<Bytes>, count: nat, bytes: nat): Option<Error> {
    if names == [] then None
    else
      match TableProblem(db, names[0], count, bytes)
      case Some(e) => Some(e)
      case None => FirstProblem(db, names[1..], count + |Fetched(db[names[0]])|, bytes + SizeOfAll(Fetched(db[names[0]])))
  }

  function Problem(db: Catalog, names: seq<Bytes>): Option<Error> {
    if |names| == 0 || |names| > MAX_TABLES then Some(TableLimit) else FirstProblem(db, names, 0, 0)
  }

  /** idx_cand_ */
  const CANDIDATE_PREFIX: Bytes := [105, 100, 120, 95, 99, 97, 110, 100, 95]

  /** WHERE LEFT(INDEX_NAME, 9) <> 'idx_cand_'; the name comes first, and a
      NULL name would not pass. */
  predicate Counts(part: seq<Value>) {
    part != [] && part[0].Some? && !(CANDIDATE_PREFIX <= part[0].value)
  }

  function CountedParts(parts: seq<seq<Value>>): seq<seq<Value>> {
    if parts == [] then []
    else CountedParts(parts[..|parts| - 1]) + if Counts(parts[|parts| - 1]) then [parts[|parts| - 1]] else []
  }

  function Describe(name: Bytes, r: Relation): Table {
    Table(name, r.columns, QuoteAll(r.primaryKey), CountedParts(r.indexes), r.rows)
  }

  function DescribeAll(db: Catalog, names: seq<Bytes>): seq<Table>
    requires forall i :: 0 <= i < |names| ==> names[i] in db
  {
    seq(|names|, i requires 0 <= i < |names| => Describe(names[i], db[names[i]]))
  }

  function RowCount(ts: seq<Table>): nat {
    if ts == [] then 0 else RowCount(ts[..|ts| - 1]) + |ts[|ts| - 1].rows|
  }

  function RecordsBytes(rs: seq<Record>): Bytes { Encode(Tokens(rs)) }

  lemma {:induction false} TokensOfConcat(a: seq<Record>, b: seq<Record>)
    ensures Tokens(a + b) == Tokens(a) + Tokens(b)
  {
    hide RecordTokens;
    if a == [] {
      assert a + b == b;
    } else {
      assert (a + b)[1..] == a[1..] + b;
      TokensOfConcat(a[1..], b);
    }
  }

  lemma RecordsBytesOfConcat(a: seq<Record>, b: seq<Record>)
    ensures RecordsBytes(a + b) == RecordsBytes(a) + RecordsBytes(b)
  {
    TokensOfConcat(a, b);
    EncodeOfConcat(Tokens(a), Tokens(b));
  }

  lemma {:induction false} AllRecordsOfConcat(a: seq<Table>, b: seq<Table>)
    ensures AllRecords(a + b) == AllRecords(a) + AllRecords(b)
  {
    hide TableRecords;
    if a == [] {
      assert a + b == b;
    } else {
      assert (a + b)[1..] == a[1..] + b;
      AllRecordsOfConcat(a[1..], b);
    }
  }

  lemma StreamGrows(ts: seq<Table>, t: Table)
    ensures Stream(ts + [t]) == Stream(ts) + RecordsBytes(TableRecords(t))
  {
    hide TableRecords;
    AllRecordsOfConcat(ts, [t]);
    assert AllRecords([t]) == TableRecords(t) + AllRecords([]) == TableRecords(t);
    RecordsBytesOfConcat(AllRecords(ts), TableRecords(t));
  }

  /** The bytes of a table, in the order they are written. */
  lemma TableBytesInOrder(t: Table)
    ensures RecordsBytes(TableRecords(t))
         == RecordsBytes([Record(TableTag, [Some(t.name)])]) + (RecordsBytes(Records(ColumnTag, t.columns))
          + (RecordsBytes([Record(PrimaryKeyTag, Present(t.primaryKey))]) + (RecordsBytes(Records(IndexTag, t.indexes))
          + (RecordsBytes(Records(RowTag, t.rows)) + RecordsBytes([Record(EndTableTag, [])])))))
  {
    hide RecordsBytes;
    var end, key, head := Record(EndTableTag, []), Record(PrimaryKeyTag, Present(t.primaryKey)), Record(TableTag, [Some(t.name)]);
    var r4 := Records(RowTag, t.rows) + [end];
    RecordsBytesOfConcat(Records(RowTag, t.rows), [end]);
    var r3 := Records(IndexTag, t.indexes) + r4;
    RecordsBytesOfConcat(Records(IndexTag, t.indexes), r4);
    RecordsBytesOfConcat([key], r3);
    var r1 := Records(ColumnTag, t.columns) + ([key] + r3);
    RecordsBytesOfConcat(Records(ColumnTag, t.columns), [key] + r3);
    RecordsBytesOfConcat([head], r1);
  }

  lemma RecordsGrow(tag: Tag, all: seq<seq<Value>>, i: nat)
    requires i < |all|
    ensures RecordsBytes(Records(tag, all[..i + 1])) == RecordsBytes(Records(tag, all[..i])) + RecordsBytes([Record(tag, all[i])])
  {
    assert Records(tag, all[..i + 1]) == Records(tag, all[..i]) + [Record(tag, all[i])];
    RecordsBytesOfConcat(Records(tag, all[..i]), [Record(tag, all[i])]);
  }

  lemma FieldsGrow(vs: seq<Value>, i: nat)
    requires i < |vs|
    ensures Encode(Fields(vs[..i + 1])) == Encode(Fields(vs[..i])) + Frame(vs[i])
  {
    assert Fields(vs[..i + 1]) == Fields(vs[..i]) + [Field(vs[i])];
    EncodeOfConcat(Fields(vs[..i]), [Field(vs[i])]);
    assert Encode([Field(vs[i])]) == Frame(vs[i]);
  }

  lemma RecordBytes(r: Record)
    ensures RecordsBytes([r]) == TagBytes(r.tag) + Encode(Fields(r.fields))
  {
    assert Tokens([r]) == RecordTokens(r);
    EncodeOfConcat([Mark(r.tag)], Fields(r.fields));
    assert Encode([Mark(r.tag)]) == TagBytes(r.tag);
  }

  /** A tag and then its fields, written to the running hash input. */
  method WriteRecord(h: Bytes, tag: Tag, fields: seq<Value>) returns (h': Bytes)
    ensures h' == h + RecordsBytes([Record(tag, fields)])
  {
    hide RecordsBytes, Fields, TagBytes, Encode, Frame;
    h' := h + TagBytes(tag);
    var i := 0;
    ghost var start := h';
    NoFields(fields);
    while i < |fields|
      invariant 0 <= i <= |fields|
      invariant h' == start + Encode(Fields(fields[..i]))
    {
      FieldsGrow(fields, i);
      h' := h' + Frame(fields[i]);
      i := i + 1;
    }
    assert fields[..|fields|] == fields;
    RecordBytes(Record(tag, fields));
  }

  lemma NoFields(fields: seq<Value>)
    ensures Encode(Fields(fields[..0])) == []
  {
  }

  method WriteRecords(h: Bytes, tag: Tag, all: seq<seq<Value>>) returns (h': Bytes)
    ensures h' == h + RecordsBytes(Records(tag, all))
  {
    hide RecordsBytes;
    h' := h;
    var i := 0;
    NoRecords(tag, all);
    while i < |all|
      invariant 0 <= i <= |all|
      invariant h' == h + RecordsBytes(Records(tag, all[..i]))
    {
      RecordsGrow(tag, all, i);
      h' := WriteRecord(h', tag, all[i]);
      i := i + 1;
    }
    assert all[..|all|] == all;
  }

  lemma NoRecords(tag: Tag, all: seq<seq<Value>>)
    ensures RecordsBytes(Records(tag, all[..0])) == []
  {
  }

  lemma {:induction false} SizeGrows(rows: seq<seq<Value>>, i: nat)
    requires i <= |rows|
    ensures SizeOfAll(rows[..i]) <= SizeOfAll(rows)
  {
    if i < |rows| {
      assert rows[..|rows| - 1][..i] == rows[..i];
      SizeGrows(rows[..|rows| - 1], i);
    } else {
      assert rows[..i] == rows;
    }
  }

  method SizeOfRow(row: seq<Value>) returns (n: nat)
    ensures n == SizeOf(row)
  {
    n := 0;
    var i := 0;
    while i < |row|
      invariant 0 <= i <= |row|
      invariant n == SizeOf(row[..i])
    {
      assert row[..i + 1][..i] == row[..i] && row[..i + 1][i] == row[i];
      if row[i].Some? {
        n := n + |row[i].value|;
      }
      i := i + 1;
    }
    assert row[..i] == row;
  }

  /** The row loop: both limits are checked after every row. */
  method WriteRows(h: Bytes, rows: seq<seq<Value>>, count: nat, bytes: nat)
      returns (h': Bytes, count': nat, bytes': nat, over: bool)
    requires count <= MAX_ROWS && bytes <= MAX_BYTES
    ensures over <==> count + |rows| > MAX_ROWS || bytes + SizeOfAll(rows) > MAX_BYTES
    ensures !over ==> h' == h + RecordsBytes(Records(RowTag, rows))
    ensures !over ==> count' == count + |rows| && bytes' == bytes + SizeOfAll(rows)
  {
    hide RecordsBytes;
    h', count', bytes' := h, count, bytes;
    var i := 0;
    NoRecords(RowTag, rows);
    while i < |rows|
      invariant 0 <= i <= |rows|
      invariant count' == count + i <= MAX_ROWS && bytes' == bytes + SizeOfAll(rows[..i]) <= MAX_BYTES
      invariant h' == h + RecordsBytes(Records(RowTag, rows[..i]))
    {
      assert rows[..i + 1][..i] == rows[..i] && rows[..i + 1][i] == rows[i];
      SizeGrows(rows, i + 1);
      RecordsGrow(RowTag, rows, i);
      count' := count' + 1;
      var size := SizeOfRow(rows[i]);
      bytes' := bytes' + size;
      h' := WriteRecord(h', RowTag, rows[i]);
      if count' > MAX_ROWS || bytes' > MAX_BYTES {
        over := true;
        return;
      }
      i := i + 1;
    }
    assert rows[..|rows|] == rows;
    over := false;
  }

  /** The quoted key columns, or the refusal of an unsafe one. */
  method KeyOrder(names: seq<Bytes>) returns (order: Option<seq<Bytes>>)
    ensures order == if exists i :: 0 <= i < |names| && !SafeIdentifier(names[i]) then None else Some(QuoteAll(names))
  {
    var quoted: seq<Bytes> := [];
    var i := 0;
    while i < |names|
      invariant 0 <= i <= |names|
      invariant forall k :: 0 <= k < i ==> SafeIdentifier(names[k])
      invariant quoted == QuoteAll(names[..i])
    {
      if !SafeIdentifier(names[i]) {
        return None;
      }
      quoted := quoted + [Quote(names[i])];
      i := i + 1;
    }
    assert names[..|names|] == names;
    order := Some(quoted);
  }

  method WriteTable(h: Bytes, name: Bytes, r: Relation, db: Catalog, count: nat, bytes: nat)
      returns (h': Bytes, count': nat, bytes': nat, problem: Option<Error>)
    requires SafeIdentifier(name) && name in db && db[name] == r && r.base && count <= MAX_ROWS && bytes <= MAX_BYTES
    ensures problem == TableProblem(db, name, count, bytes)
    ensures problem.None? ==>
      && h' == h + RecordsBytes(TableRecords(Describe(name, r)))
      && count' == count + |r.rows| <= MAX_ROWS && bytes' == bytes + SizeOfAll(r.rows) <= MAX_BYTES && Fetched(r) == r.rows
  {
    hide RecordsBytes, TableRecords, Records, SizeOfAll;
    h', count', bytes' := h, count, bytes;
    h' := WriteRecord(h', TableTag, [Some(name)]);
    h' := WriteRecords(h', ColumnTag, r.columns);
    var order := KeyOrder(r.primaryKey);
    if order.None? {
      return h', count', bytes', Some(UnsafeIdentifier);
    }
    if |order.value| == 0 {
      return h', count', bytes', Some(PrimaryKeyRequired);
    }
    h' := WriteRecord(h', PrimaryKeyTag, Present(order.value));
    h' := WriteRecords(h', IndexTag, CountedParts(r.indexes));
    var over;
    SizeOfNothing();
    h', count', bytes', over := WriteRows(h', Fetched(r), count, bytes);
    if over {
      return h', count', bytes', Some(SnapshotLimit);
    }
    h' := WriteRecord(h', EndTableTag, []);
    TableBytesInOrder(Describe(name, r));
    problem := None;
  }

  lemma SizeOfNothing()
    ensures SizeOfAll([]) == 0
  {
  }

  method Compute(hash: Bytes -> string, db: Catalog, names: seq<Bytes>) returns (result: Result)
    ensures result.Failed? <==> Problem(db, names).Some?
    ensures result.Failed? ==> Problem(db, names) == Some(result.error)
    ensures result.Ok? ==> forall i :: 0 <= i < |names| ==> names[i] in db
    ensures result.Ok? ==>
      var ts := DescribeAll(db, names); result.snapshot == Snapshot(hash(Stream(ts)), RowCount(ts))
  {
    hide TableProblem, Stream, RecordsBytes, TableRecords, SizeOfAll, SafeIdentifier, DescribeAll, RowCount, Describe, Fetched;
    var h: Bytes := [];
    var count, bytes: nat := 0, 0;
    if |names| == 0 || |names| > MAX_TABLES {
      return Failed(TableLimit);
    }
    var i := 0;
    NoTables(db, names);
    while i < |names|
      invariant 0 <= i <= |names|
      invariant forall k :: 0 <= k < i ==> names[k] in db
      invariant h == Stream(DescribeAll(db, names[..i])) && count == RowCount(DescribeAll(db, names[..i]))
      invariant count <= MAX_ROWS && bytes <= MAX_BYTES
      invariant Problem(db, names) == FirstProblem(db, names[i..], count, bytes)
    {
      var name := names[i];
      EarlyProblems(db, name, count, bytes);
      if !SafeIdentifier(name) {
        return Failed(UnsafeIdentifier);
      }
      if name !in db || !db[name].base {
        return Failed(BaseTableRequired);
      }
      OneMoreTable(db, names, i);
      var problem;
      h, count, bytes, problem := WriteTable(h, name, db[name], db, count, bytes);
      if problem.Some? {
        return Failed(problem.value);
      }
      i := i + 1;
    }
    assert names[..|names|] == names;
    result := Ok(Snapshot(hash(h), count));
  }

  lemma NoTables(db: Catalog, names: seq<Bytes>)
    ensures DescribeAll(db, names[..0]) == [] && Stream([]) == [] && RowCount([]) == 0 && names[0..] == names
  {
  }

  lemma OneMoreTable(db: Catalog, names: seq<Bytes>, i: nat)
    requires i < |names| && forall k :: 0 <= k <= i ==> names[k] in db
    ensures var done, t := DescribeAll(db, names[..i]), Describe(names[i], db[names[i]]);
      && DescribeAll(db, names[..i + 1]) == done + [t]
      && Stream(done + [t]) == Stream(done) + RecordsBytes(TableRecords(t))
      && RowCount(done + [t]) == RowCount(done) + |db[names[i]].rows|
    ensures names[i..][0] == names[i] && names[i..][1..] == names[i + 1..]
  {
    hide Stream, RecordsBytes;
    var done, t := DescribeAll(db, names[..i]), Describe(names[i], db[names[i]]);
    StreamGrows(done, t);
    assert DescribeAll(db, names[..i + 1]) == done + [t];
    assert (done + [t])[..i] == done;
  }

  lemma EarlyProblems(db: Catalog, name: Bytes, count: nat, bytes: nat)
    ensures !SafeIdentifier(name) ==> TableProblem(db, name, count, bytes) == Some(UnsafeIdentifier)
    ensures SafeIdentifier(name) && (name !in db || !db[name].base) ==> TableProblem(db, name, count, bytes) == Some(BaseTableRequired)
  {
  }

  /* ---- Main result ---- */

  /** The digests of two snapshots agree exactly when the tables do: names,
      order, schema, keys, indexes and rows, NULLs included.  Of the hash only
      the two streams at hand are asked not to collide. */
  lemma DigestsDecideTables(hash: Bytes -> string, a: seq<Table>, b: seq<Table>)
    requires forall i :: 0 <= i < |a| ==> TableFits(a[i])
    requires forall i :: 0 <= i < |b| ==> TableFits(b[i])
    requires hash(Stream(a)) == hash(Stream(b)) ==> Stream(a) == Stream(b)
    ensures hash(Stream(a)) == hash(Stream(b)) <==> a == b
  {
    StreamDecodes(a);
    StreamDecodes(b);
  }

  /* ---- Candidate indexes ---- */

  lemma {:induction false} CountedPartsOfConcat(a: seq<seq<Value>>, b: seq<seq<Value>>)
    ensures CountedParts(a + b) == CountedParts(a) + CountedParts(b)
  {
    if b == [] {
      assert a + b == a;
    } else {
      assert (a + b)[..|a + b| - 1] == a + b[..|b| - 1];
      CountedPartsOfConcat(a, b[..|b| - 1]);
    }
  }

  lemma {:induction false} IndexesAreNoProblem(db: Catalog, name: Bytes, r: Relation, names: seq<Bytes>, count: nat, bytes: nat)
    requires name in db && r == db[name].(indexes := r.indexes)
    ensures FirstProblem(db[name := r], names, count, bytes) == FirstProblem(db, names, count, bytes)
  {
    if names != [] {
      hide SafeIdentifier, SizeOfAll;
      var next := names[0];
      assert TableProblem(db[name := r], next, count, bytes) == TableProblem(db, next, count, bytes);
      if TableProblem(db, next, count, bytes).None? {
        IndexesAreNoProblem(db, name, r, names[1..], count + |Fetched(db[next])|, bytes + SizeOfAll(Fetched(db[next])));
      }
    }
  }

  /** One more index part in a table, anywhere in its list: the description of
      the table stays the same exactly when it belongs to a candidate index,
      and then so does everything a snapshot is computed from. */
  lemma CandidateIndexesLeaveNoTrace(db: Catalog, names: seq<Bytes>, name: Bytes, before: seq<seq<Value>>, part: seq<Value>,
                                     after: seq<seq<Value>>)
    requires name in db && db[name].indexes == before + after && forall i :: 0 <= i < |names| ==> names[i] in db
    ensures var r := db[name].(indexes := before + [part] + after);
      && (Describe(name, r) == Describe(name, db[name]) <==> !Counts(part))
      && (!Counts(part) ==> DescribeAll(db[name := r], names) == DescribeAll(db, names))
      && Problem(db[name := r], names) == Problem(db, names)
  {
    hide Counts;
    var r := db[name].(indexes := before + [part] + after);
    CountedPartsOfConcat(before, after);
    CountedPartsOfConcat(before + [part], after);
    CountedPartsOfConcat(before, [part]);
    assert CountedParts([part]) == if Counts(part) then [part] else [] by {
      assert [part][..0] == [];
    }
    if Counts(part) {
      assert |CountedParts(r.indexes)| == |CountedParts(before + after)| + 1;
    }
    IndexesAreNoProblem(db, name, r, names, 0, 0);
  }
}
