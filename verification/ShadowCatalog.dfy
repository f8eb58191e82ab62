/** Shadow snapshots seen from the database: which ones are taken, and what it
    says of two databases that theirs have the same digest. */
module ShadowCatalog {
  import opened Prelude
  import opened GoInt
  import opened Frames
  import opened ShadowSnapshot

  /* ---- When a snapshot is taken ---- */

  function TotalRows(db: Catalog, names: seq<Bytes>): nat
    requires forall i :: 0 <= i < |names| ==> names[i] in db
  {
    if names == [] then 0 else |db[names[0]].rows| + TotalRows(db, names[1..])
  }

  function TotalBytes(db: Catalog, names: seq<Bytes>): nat
    requires forall i :: 0 <= i < |names| ==> names[i] in db
  {
    if names == [] then 0 else SizeOfAll(db[names[0]].rows) + TotalBytes(db, names[1..])
  }

  /** A row weighs what its values weigh, and NULL nothing. */
  lemma {:induction false} WeightOfValues(a: seq<Value>, b: seq<Value>, x: Bytes)
    ensures SizeOf([]) == 0 && SizeOf([None]) == 0 && SizeOf([Some(x)]) == |x|
    ensures SizeOf(a + b) == SizeOf(a) + SizeOf(b)
  {
    var none: seq<Value>, one: seq<Value> := [None], [Some(x)];
    assert none[..0] == [] && one[..0] == [];
    if b == [] {
      assert a + b == a;
    } else {
      assert (a + b)[..|a + b| - 1] == a + b[..|b| - 1];
      WeightOfValues(a, b[..|b| - 1], x);
    }
  }

  ghost predicate Eligible(db: Catalog, name: Bytes) {
    && SafeIdentifier(name) && name in db && db[name].base && db[name].primaryKey != []
    && forall i :: 0 <= i < |db[name].primaryKey| ==> SafeIdentifier(db[name].primaryKey[i])
  }

  lemma EligibleMeans(db: Catalog, name: Bytes, count: nat, bytes: nat)
    requires count <= 2_000_000 && bytes <= 268_435_456
    ensures TableProblem(db, name, count, bytes).None? <==>
      && Eligible(db, name)
      && count + |db[name].rows| <= 2_000_000 && bytes + SizeOfAll(db[name].rows) <= 268_435_456
    ensures TableProblem(db, name, count, bytes).None? ==> Fetched(db[name]) == db[name].rows
  {
    hide SafeIdentifier, SizeOfAll;
    SizeOfNothing();
  }

  lemma {:induction false} NoProblemFromHere(db: Catalog, names: seq<Bytes>, count: nat, bytes: nat)
    requires count <= 2_000_000 && bytes <= 268_435_456
    ensures FirstProblem(db, names, count, bytes).None? <==>
      && (forall i :: 0 <= i < |names| ==> Eligible(db, names[i]))
      && count + TotalRows(db, names) <= 2_000_000 && bytes + TotalBytes(db, names) <= 268_435_456
  {
    if names != [] {
      hide Eligible, TableProblem, Fetched, SizeOfAll;
      var name, rest := names[0], names[1..];
      EligibleMeans(db, name, count, bytes);
      EligibleIsOnFile(db);
      assert forall i :: 0 < i < |names| ==> names[i] == rest[i - 1];
      if TableProblem(db, name, count, bytes).None? {
        NoProblemFromHere(db, rest, count + |Fetched(db[name])|, bytes + SizeOfAll(Fetched(db[name])));
      }
    }
  }

  lemma EligibleIsOnFile(db: Catalog)
    ensures forall name :: Eligible(db, name) ==> name in db
  {
  }

  /** A snapshot is taken exactly of 1 to 16 base tables with safe names, each
      with a primary key of safe column names, that hold no more than 2000000
      rows and 256 MiB together. */
  lemma SnapshotIsTakenIff(db: Catalog, names: seq<Bytes>)
    ensures Problem(db, names).None? <==>
      && 1 <= |names| <= 16 && (forall i :: 0 <= i < |names| ==> Eligible(db, names[i]))
      && TotalRows(db, names) <= 2_000_000 && TotalBytes(db, names) <= 268_435_456
  {
    NoProblemFromHere(db, names, 0, 0);
  }

  /** The i-th table is refused for this, after these rows and bytes. */
  ghost predicate RefusedFor(db: Catalog, names: seq<Bytes>, i: nat, count: nat, bytes: nat, e: Error)
    requires i < |names|
  {
    && (forall k :: 0 <= k < i ==> Eligible(db, names[k]))
    && match e
       case UnsafeIdentifier =>
         || !SafeIdentifier(names[i])
         || (names[i] in db && db[names[i]].base
             && exists k :: 0 <= k < |db[names[i]].primaryKey| && !SafeIdentifier(db[names[i]].primaryKey[k]))
       case BaseTableRequired => SafeIdentifier(names[i]) && (names[i] in db ==> !db[names[i]].base)
       case PrimaryKeyRequired => names[i] in db && db[names[i]].base && db[names[i]].primaryKey == []
       case SnapshotLimit =>
         && (forall k :: 0 <= k <= i ==> names[k] in db) && Eligible(db, names[i])
         && (count + TotalRows(db, names[..i + 1]) > 2_000_000 || bytes + TotalBytes(db, names[..i + 1]) > 268_435_456)
       case TableLimit => false
  }

  lemma {:induction false} FetchedWeighsLess(rows: seq<seq<Value>>, n: nat)
    requires n <= |rows|
    ensures SizeOfAll(rows[..n]) <= SizeOfAll(rows)
    decreases |rows|
  {
    if n == |rows| {
      assert rows[..n] == rows;
    } else {
      assert rows[..|rows| - 1][..n] == rows[..n];
      FetchedWeighsLess(rows[..|rows| - 1], n);
    }
  }

  lemma TableIsRefusedFor(db: Catalog, names: seq<Bytes>, count: nat, bytes: nat)
    requires names != [] && TableProblem(db, names[0], count, bytes).Some?
    ensures RefusedFor(db, names, 0, count, bytes, TableProblem(db, names[0], count, bytes).value)
  {
    hide SafeIdentifier, SizeOfAll;
    if names[0] in db {
      var r := db[names[0]];
      FetchedWeighsLess(r.rows, |Fetched(r)|);
      TotalsOfOne(db, names);
    }
  }

  lemma TotalsOfOne(db: Catalog, names: seq<Bytes>)
    requires names != [] && names[0] in db
    ensures TotalRows(db, names[..1]) == |db[names[0]].rows| && TotalBytes(db, names[..1]) == SizeOfAll(db[names[0]].rows)
  {
    hide SizeOfAll;
    var one := names[..1];
    assert one == [names[0]];
    var none := one[1..];
    assert none == [];
    assert TotalRows(db, none) == 0 && TotalBytes(db, none) == 0;
  }

  lemma RefusalMovesOn(db: Catalog, names: seq<Bytes>, i: nat, count: nat, bytes: nat, e: Error)
    requires names != [] && Eligible(db, names[0]) && i + 1 < |names|
    requires RefusedFor(db, names[1..], i, count + |db[names[0]].rows|, bytes + SizeOfAll(db[names[0]].rows), e)
    ensures RefusedFor(db, names, i + 1, count, bytes, e)
  {
    hide SafeIdentifier, SizeOfAll, Eligible;
    EligibleIsOnFile(db);
    var rest := names[1..];
    assert forall k :: 0 < k < |names| ==> names[k] == rest[k - 1];
    if e.SnapshotLimit? {
      assert names[..i + 2][1..] == rest[..i + 1] && names[..i + 2][0] == names[0];
    }
  }

  lemma {:induction false} RefusalsAreFounded(db: Catalog, names: seq<Bytes>, count: nat, bytes: nat) returns (i: nat)
    requires count <= 2_000_000 && bytes <= 268_435_456 && FirstProblem(db, names, count, bytes).Some?
    ensures i < |names| && RefusedFor(db, names, i, count, bytes, FirstProblem(db, names, count, bytes).value)
  {
    hide Eligible, TableProblem, Fetched, SizeOfAll, RefusedFor;
    EligibleMeans(db, names[0], count, bytes);
    if TableProblem(db, names[0], count, bytes).Some? {
      i := 0;
      TableIsRefusedFor(db, names, count, bytes);
    } else {
      EligibleIsOnFile(db);
      var r := db[names[0]];
      i := RefusalsAreFounded(db, names[1..], count + |r.rows|, bytes + SizeOfAll(r.rows));
      RefusalMovesOn(db, names, i, count, bytes, FirstProblem(db, names, count, bytes).value);
      i := i + 1;
    }
  }

  /** Every snapshot that is not taken is refused for what it says, at the first
      table that gives cause. */
  lemma ProblemsAreFounded(db: Catalog, names: seq<Bytes>)
    requires Problem(db, names).Some?
    ensures Problem(db, names) == Some(TableLimit) <==> !(1 <= |names| <= 16)
    ensures 1 <= |names| <= 16 ==> exists i :: 0 <= i < |names| && RefusedFor(db, names, i, 0, 0, Problem(db, names).value)
  {
    hide RefusedFor, FirstProblem;
    if 1 <= |names| <= 16 {
      var i := RefusalsAreFounded(db, names, 0, 0);
      NeverForTables(db, names, i, FirstProblem(db, names, 0, 0).value);
    }
  }

  lemma NeverForTables(db: Catalog, names: seq<Bytes>, i: nat, e: Error)
    requires i < |names| && RefusedFor(db, names, i, 0, 0, e)
    ensures e != TableLimit
  {
  }

  /** A safe name cannot leave its quotes. */
  lemma QuotedNamesAreClosed(name: Bytes, other: Bytes)
    requires SafeIdentifier(name)
    ensures forall i :: 0 <= i < |Quote(name)| && Quote(name)[i] == 96 ==> i == 0 || i == |Quote(name)| - 1
    ensures Quote(name) == Quote(other) ==> name == other
  {
    QuotesDiffer(name, other);
  }

  lemma QuotesDiffer(a: Bytes, b: Bytes)
    ensures Quote(a) == Quote(b) <==> a == b
  {
    assert a == Quote(a)[1..|a| + 1] && b == Quote(b)[1..|b| + 1];
  }

  /* ---- What equal digests mean ---- */

  /** The name of the index a part belongs to begins with idx_cand_. */
  predicate OfCandidate(part: seq<Value>) {
    && part != [] && part[0].Some? && |part[0].value| >= 9
    && part[0].value[..9] == [105, 100, 120, 95, 99, 97, 110, 100, 95]
  }

  /** The parts of named indexes that are not candidates. */
  function OtherParts(parts: seq<seq<Value>>): seq<seq<Value>> {
    if parts == [] then []
    else (if parts[0] != [] && parts[0][0].Some? && !OfCandidate(parts[0]) then [parts[0]] else []) + OtherParts(parts[1..])
  }

  lemma CountsMeans(part: seq<Value>)
    ensures Counts(part) <==> part != [] && part[0].Some? && !OfCandidate(part)
  {
    if part != [] && part[0].Some? {
      var name := part[0].value;
      assert CANDIDATE_PREFIX <= name <==> |name| >= 9 && name[..9] == CANDIDATE_PREFIX;
    }
  }

  lemma {:induction false} OtherPartsCount(parts: seq<seq<Value>>)
    ensures CountedParts(parts) == OtherParts(parts)
  {
    if parts != [] {
      hide OfCandidate, Counts;
      CountsMeans(parts[0]);
      OtherPartsCount(parts[1..]);
      assert parts == [parts[0]] + parts[1..];
      CountedPartsOfConcat([parts[0]], parts[1..]);
      var one := [parts[0]];
      assert one[..0] == [];
    }
  }

  /** The two databases say the same of the table. */
  predicate SameTable(a: Relation, b: Relation) {
    && a.columns == b.columns && a.primaryKey == b.primaryKey && a.rows == b.rows
    && OtherParts(a.indexes) == OtherParts(b.indexes)
  }

  lemma {:induction false} QuotedNamesDiffer(a: seq<Bytes>, b: seq<Bytes>)
    ensures QuoteAll(a) == QuoteAll(b) <==> a == b
  {
    if QuoteAll(a) == QuoteAll(b) {
      assert |a| == |QuoteAll(a)| == |QuoteAll(b)| == |b|;
      forall i | 0 <= i < |a|
        ensures a[i] == b[i]
      {
        assert QuoteAll(a)[i] == QuoteAll(b)[i];
        QuotesDiffer(a[i], b[i]);
      }
    }
  }

  lemma DescriptionsDiffer(name: Bytes, a: Relation, other: Bytes, b: Relation)
    ensures Describe(name, a) == Describe(other, b) <==> name == other && SameTable(a, b)
  {
    hide QuoteAll, CountedParts, OtherParts;
    QuotedNamesDiffer(a.primaryKey, b.primaryKey);
    OtherPartsCount(a.indexes);
    OtherPartsCount(b.indexes);
  }

  /** Every value has a length that a Go int can hold. */
  ghost predicate Holdable(r: Relation) {
    RowsFit(r.columns) && RowsFit(r.indexes) && RowsFit(r.rows)
  }

  lemma {:induction false} CountedPartsFit(parts: seq<seq<Value>>)
    requires RowsFit(parts)
    ensures RowsFit(CountedParts(parts))
  {
    if parts != [] {
      CountedPartsFit(parts[..|parts| - 1]);
    }
  }

  lemma DescriptionFits(db: Catalog, name: Bytes)
    requires Eligible(db, name) && Holdable(db[name])
    ensures TableFits(Describe(name, db[name]))
  {
    CountedPartsFit(db[name].indexes);
    hide RowsFit, CountedParts;
    forall i | 0 <= i < |db[name].primaryKey|
      ensures |QuoteAll(db[name].primaryKey)[i]| < TWO63
    {
      assert SafeIdentifier(db[name].primaryKey[i]);
    }
  }

  lemma AllDescriptionsFit(db: Catalog, names: seq<Bytes>)
    requires forall i :: 0 <= i < |names| ==> names[i] in db && Eligible(db, names[i]) && Holdable(db[names[i]])
    ensures forall i :: 0 <= i < |names| ==> TableFits(DescribeAll(db, names)[i])
  {
    hide Eligible, Holdable, TableFits, Describe;
    EligibleIsOnFile(db);
    forall i | 0 <= i < |names|
      ensures TableFits(DescribeAll(db, names)[i])
    {
      DescriptionFits(db, names[i]);
    }
  }

  lemma AllDescriptionsDiffer(db1: Catalog, names1: seq<Bytes>, db2: Catalog, names2: seq<Bytes>)
    requires forall i :: 0 <= i < |names1| ==> names1[i] in db1
    requires forall i :: 0 <= i < |names2| ==> names2[i] in db2
    ensures DescribeAll(db1, names1) == DescribeAll(db2, names2) <==>
      names1 == names2 && forall i :: 0 <= i < |names1| && i < |names2| ==> SameTable(db1[names1[i]], db2[names2[i]])
  {
    hide Describe, SameTable;
    var a, b := DescribeAll(db1, names1), DescribeAll(db2, names2);
    forall i | 0 <= i < |names1| && i < |names2|
      ensures a[i] == b[i] <==> names1[i] == names2[i] && SameTable(db1[names1[i]], db2[names2[i]])
    {
      DescriptionsDiffer(names1[i], db1[names1[i]], names2[i], db2[names2[i]]);
    }
    if a == b {
      assert |names1| == |a| == |b| == |names2|;
      assert forall i :: 0 <= i < |names1| ==> a[i] == b[i];
    }
  }

  /** The snapshots of two databases have the same digest exactly when they are
      of tables of the same names, in the same order, and each table has the
      same columns, primary key, indexes other than candidates, and rows in both.
      Of the hash only the two streams at hand are asked not to collide. */
  lemma DigestsDecideDatabases(hash: Bytes -> string, db1: Catalog, names1: seq<Bytes>, db2: Catalog, names2: seq<Bytes>)
    requires Problem(db1, names1).None? && Problem(db2, names2).None?
    requires forall i :: 0 <= i < |names1| ==> names1[i] in db1 && Holdable(db1[names1[i]])
    requires forall i :: 0 <= i < |names2| ==> names2[i] in db2 && Holdable(db2[names2[i]])
    requires var s1, s2 := Stream(DescribeAll(db1, names1)), Stream(DescribeAll(db2, names2)); hash(s1) == hash(s2) ==> s1 == s2
    ensures hash(Stream(DescribeAll(db1, names1))) == hash(Stream(DescribeAll(db2, names2))) <==>
      names1 == names2 && forall i :: 0 <= i < |names1| && i < |names2| ==> SameTable(db1[names1[i]], db2[names2[i]])
  {
    hide Holdable, Stream, SameTable, Problem, Eligible, TableFits, DescribeAll;
    SnapshotIsTakenIff(db1, names1);
    SnapshotIsTakenIff(db2, names2);
    AllDescriptionsFit(db1, names1);
    AllDescriptionsFit(db2, names2);
    DescribedOneByOne(db1, names1);
    DescribedOneByOne(db2, names2);
    DigestsDecideTables(hash, DescribeAll(db1, names1), DescribeAll(db2, names2));
    AllDescriptionsDiffer(db1, names1, db2, names2);
  }

  lemma DescribedOneByOne(db: Catalog, names: seq<Bytes>)
    requires forall i :: 0 <= i < |names| ==> names[i] in db
    ensures |DescribeAll(db, names)| == |names|
  {
  }

  datatype Comparison = NotTaken(error: Error) | Different | Identical

  /** The snapshot gate: both databases are identical in the tables they are
      compared on, or they are not compared. */
  method IdenticalSnapshots(hash: Bytes -> string, baseline: Catalog, candidate: Catalog, names: seq<Bytes>) returns (r: Comparison)
    requires forall i :: 0 <= i < |names| && names[i] in baseline ==> Holdable(baseline[names[i]])
    requires forall i :: 0 <= i < |names| && names[i] in candidate ==> Holdable(candidate[names[i]])
    requires Problem(baseline, names).None? && Problem(candidate, names).None? && OnFile(baseline, names) && OnFile(candidate, names) ==>
      var s1, s2 := Stream(DescribeAll(baseline, names)), Stream(DescribeAll(candidate, names)); hash(s1) == hash(s2) ==> s1 == s2
    ensures r.NotTaken? <==> Problem(baseline, names).Some? || Problem(candidate, names).Some?
    ensures !r.NotTaken? ==> OnFile(baseline, names) && OnFile(candidate, names)
    ensures !r.NotTaken? ==>
      (r.Identical? <==> forall i :: 0 <= i < |names| ==> SameTable(baseline[names[i]], candidate[names[i]]))
  {
    hide Holdable, Stream, SameTable, Problem, DescribeAll, RowCount;
    var b := Compute(hash, baseline, names);
    if b.Failed? {
      return NotTaken(b.error);
    }
    var c := Compute(hash, candidate, names);
    if c.Failed? {
      return NotTaken(c.error);
    }
    DigestsDecideDatabases(hash, baseline, names, candidate, names);
    AllDescriptionsDiffer(baseline, names, candidate, names);
    if b.snapshot.rows != c.snapshot.rows || b.snapshot.digest != c.snapshot.digest {
      return Different;
    }
    r := Identical;
  }

  predicate OnFile(db: Catalog, names: seq<Bytes>) { forall i :: 0 <= i < |names| ==> names[i] in db }
}
