/** The admission visitor: one pass over the tree that mutates a scope stack,
    a table set, a node count and a first error, and `Analyze` and the rewrite
    check on top of it. */
module SqlVisitor {
  import opened Prelude
  import opened SqlScope
  import Lexicographic

  /** What the parser hands to Enter and Leave. */
  datatype Visit = OnNode(node: Node) | OnWith(with: With) | OnCte(name: string)

  function VisitFault(v: Visit): Option<Fault> {
    match v
    case OnNode(n) => NodeFault(n)
    case OnWith(w) => WithFault(w)
    case OnCte(_) => None
  }

  /** The names some scope of the stack holds. */
  ghost function Bound(scopes: seq<set<string>>): set<string> {
    if scopes == [] then {} else scopes[0] + Bound(scopes[1..])
  }

  lemma {:induction false} BoundByTop(outer: seq<set<string>>, top: set<string>)
    ensures Bound(outer + [top]) == Bound(outer) + top
  {
    if outer == [] {
      assert outer + [top] == [top] && [top][1..] == [];
    } else {
      assert (outer + [top])[1..] == outer[1..] + [top];
      BoundByTop(outer[1..], top);
    }
  }

  lemma {:induction false} BoundBySome(scopes: seq<set<string>>, name: string)
    ensures name in Bound(scopes) <==> exists i :: 0 <= i < |scopes| && name in scopes[i]
  {
    if scopes != [] {
      BoundBySome(scopes[1..], name);
      assert forall i :: 0 <= i < |scopes| - 1 ==> scopes[1..][i] == scopes[i + 1];
    }
  }

  /** The scopes with more names in the top one. */
  ghost function Extended(scopes: seq<set<string>>, names: set<string>): seq<set<string>>
    requires scopes != []
  {
    scopes[..|scopes| - 1] + [scopes[|scopes| - 1] + names]
  }

  lemma BoundOfExtended(scopes: seq<set<string>>, names: set<string>)
    requires scopes != []
    ensures Bound(Extended(scopes, names)) == Bound(scopes) + names
  {
    var outer, top := scopes[..|scopes| - 1], scopes[|scopes| - 1];
    assert scopes == outer + [top];
    BoundByTop(outer, top);
    BoundByTop(outer, top + names);
  }

  /** The visitor's fields other than its scope stack. */
  datatype View = View(tables: set<string>, err: Option<Fault>, count: nat, unorderedLimit: bool)

  /** What visiting nodes with these faults, free tables and limits does: it
      stops at the first error, and without one adds exactly the free tables. */
  ghost predicate Visited(a: View, b: View, ok: bool, faults: seq<Option<Fault>>, free: set<string>, limits: bool) {
    && b.err == FirstError(faults, a.count)
    && (ok <==> b.err.None?)
    && (ok ==>
          && b.count == a.count + |faults|
          && b.tables == a.tables + free
          && (b.unorderedLimit <==> a.unorderedLimit || limits))
  }

  lemma VisitedInTurn(a: View, b: View, c: View, ok: bool, f1: seq<Option<Fault>>, f2: seq<Option<Fault>>,
                      s1: set<string>, s2: set<string>, l1: bool, l2: bool)
    requires Visited(a, b, true, f1, s1, l1) && Visited(b, c, ok, f2, s2, l2)
    ensures Visited(a, c, ok, f1 + f2, s1 + s2, l1 || l2)
  {
    FirstErrorOfConcat(f1, f2, a.count);
  }

  lemma FailedEarly(a: View, b: View, f1: seq<Option<Fault>>, f2: seq<Option<Fault>>,
                    s1: set<string>, s2: set<string>, l1: bool, l2: bool)
    requires Visited(a, b, false, f1, s1, l1)
    ensures Visited(a, b, false, f1 + f2, s2, l2)
  {
    FirstErrorOfConcat(f1, f2, a.count);
  }

  lemma NothingVisited(a: View)
    requires a.err.None?
    ensures Visited(a, a, true, [], {}, false)
  {
  }

  /** The free tables and the limit a node accounts for by itself. */
  function OwnTables(v: Visit, bound: set<string>): set<string> {
    if v.OnNode? && v.node.Table? then {Lower(v.node.name)} - bound else {}
  }

  predicate OwnLimit(v: Visit) {
    v.OnNode? && v.node.Query? && v.node.head.limit && !v.node.head.orderBy
  }

  function TablesBelow(n: Node, bound: set<string>): set<string> {
    if n.Table? then {} else FreeTables(n, bound)
  }

  /** A node and then what is below it make up its subtree. */
  lemma NodeAndBelow(n: Node, a: View, b: View, c: View, ok: bool, bound: set<string>)
    requires Visited(a, b, true, [NodeFault(n)], OwnTables(OnNode(n), bound), OwnLimit(OnNode(n)))
    requires Visited(b, c, ok, FaultsBelow(n), TablesBelow(n, bound), LimitsUnorderedBelow(n))
    ensures Visited(a, c, ok, Faults(n), FreeTables(n, bound), LimitsUnordered(n))
  {
    hide FaultsBelow, LimitsUnorderedBelow, Visited, Lower, NodeFault;
    VisitedInTurn(a, b, c, ok, [NodeFault(n)], FaultsBelow(n), OwnTables(OnNode(n), bound), TablesBelow(n, bound),
                  OwnLimit(OnNode(n)), LimitsUnorderedBelow(n));
    assert OwnTables(OnNode(n), bound) + TablesBelow(n, bound) == FreeTables(n, bound);
  }

  lemma NodeFailed(n: Node, a: View, b: View, bound: set<string>)
    requires Visited(a, b, false, [NodeFault(n)], OwnTables(OnNode(n), bound), OwnLimit(OnNode(n)))
    ensures Visited(a, b, false, Faults(n), FreeTables(n, bound), LimitsUnordered(n))
  {
    FailedEarly(a, b, [NodeFault(n)], FaultsBelow(n), {}, FreeTables(n, bound), false, LimitsUnordered(n));
  }

  lemma OneFault(fault: Option<Fault>, count: nat)
    ensures FirstError([fault], count) == if count + 1 > MAX_NODES then Some(Complexity) else fault
  {
    assert [fault][1..] == [];
  }

  lemma ExtendedByStages(scopes: seq<set<string>>, a: set<string>, b: set<string>)
    requires scopes != []
    ensures Extended(scopes, {}) == scopes
    ensures Extended(Extended(scopes, a), b) == Extended(scopes, a + b)
  {
    var top := scopes[|scopes| - 1];
    assert top + {} == top && (top + a) + b == top + (a + b);
  }

  class SafetyVisitor {
    var tables: set<string>
    var scopes: seq<set<string>>
    var err: Option<Fault>
    var count: nat
    /** Keyed by the visit that pushed, which stands for the node's identity. */
    var pushed: set<nat>
    var unorderedLimit: bool

    constructor ()
      ensures tables == {} && scopes == [] && err == None && count == 0 && pushed == {} && !unorderedLimit
    {
      tables, scopes, err, count, pushed, unorderedLimit := {}, [], None, 0, {}, false;
    }

    ghost function Now(): View
      reads this
    {
      View(tables, err, count, unorderedLimit)
    }

    ghost predicate Ready()
      reads this
    {
      err.None? && forall p :: p in pushed ==> p <= count
    }

    method Fail(code: Fault)
      modifies this`err
      ensures err == if old(err).None? then Some(code) else old(err)
    {
      if err.None? {
        err := Some(code);
      }
    }

    method Push(id: nat)
      modifies this`scopes, this`pushed
      ensures scopes == old(scopes) + [{}] && pushed == old(pushed) + {id}
    {
      scopes := scopes + [{}];
      pushed := pushed + {id};
    }

    /** Records a table name unless some scope of the stack binds it. */
    method Resolve(name: string)
      modifies this`tables
      ensures tables == old(tables) + ({name} - Bound(scopes))
    {
      var cte := false;
      var i := 0;
      while i < |scopes|
        invariant 0 <= i <= |scopes|
        invariant cte <==> exists k :: 0 <= k < i && name in scopes[k]
      {
        if name in scopes[i] {
          cte := true;
        }
        i := i + 1;
      }
      BoundBySome(scopes, name);
      if !cte {
        tables := tables + {name};
      }
    }

    /** Returns whether to skip the children. */
    method Enter(v: Visit) returns (skip: bool)
      requires Ready()
      modifies this
      ensures count == old(count) + 1 && (skip <==> err.Some?) && (!skip ==> count <= MAX_NODES)
      ensures Visited(old(Now()), Now(), !skip, [VisitFault(v)], OwnTables(v, Bound(old(scopes))), OwnLimit(v))
      ensures var push := count <= MAX_NODES && v.OnNode? && v.node.Query?;
        && scopes == (if push then old(scopes) + [{}] else old(scopes))
        && pushed == (if push then old(pushed) + {count} else old(pushed))
    {
      hide SafeFunction, Lower, Bound, FirstError;
      OneFault(VisitFault(v), count);
      count := count + 1;
      if count > MAX_NODES {
        err := Some(Complexity);
        return true;
      }
      match v {
        case OnNode(Query(head, _, _)) =>
          if head.limit && !head.orderBy {
            unorderedLimit := true;
          }
          Push(count);
          if head.Select? {
            if head.locking { Fail(LockingRead); }
            if head.into { Fail(SelectInto); }
            if head.hints { Fail(OptimizerHint); }
          }
        case OnWith(w) =>
          if w.recursive { Fail(RecursiveCte); }
        case OnNode(Table(schema, name)) =>
          if schema != "" { Fail(CrossSchema); }
          Resolve(Lower(name));
        case OnNode(Variable(_)) =>
          Fail(SessionVariable);
        case OnNode(FuncCall(schema, name, _)) =>
          if schema != "" || !SafeFunction(name) { Fail(UnsafeFunction); }
        case _ =>
      }
      skip := err.Some?;
    }

    /** `id` is the number Enter gave this visit. */
    method Leave(v: Visit, id: nat) returns (ok: bool)
      requires id in pushed ==> scopes != []
      modifies this`scopes, this`pushed
      ensures ok <==> err.None?
      ensures pushed == old(pushed) - {id}
      ensures var popped := if id in old(pushed) then old(scopes)[..|old(scopes)| - 1] else old(scopes);
        scopes == if v.OnCte? && popped != [] then Extended(popped, {Lower(v.name)}) else popped
    {
      if id in pushed {
        scopes := scopes[..|scopes| - 1];
        pushed := pushed - {id};
      }
      if v.OnCte? && |scopes| > 0 {
        scopes := scopes[|scopes| - 1 := scopes[|scopes| - 1] + {Lower(v.name)}];
      }
      ok := err.None?;
    }

    /** The parser's traversal: Enter, the children in order, Leave.  A failed
        child ends it at once, without the parents' Leave. */
    method Accept(n: Node) returns (ok: bool)
      requires Ready()
      modifies this
      decreases n, 1
      ensures Visited(old(Now()), Now(), ok, Faults(n), FreeTables(n, Bound(old(scopes))), LimitsUnordered(n))
      ensures ok ==> Ready() && scopes == old(scopes) && pushed == old(pushed)
    {
      hide Bound, Visited, Faults, FreeTables, LimitsUnordered, Lower, NodeFault, SafeFunction;
      ghost var before, outer := Now(), Bound(scopes);
      var skip := Enter(OnNode(n));
      var id := count;
      ghost var entered := Now();
      if skip {
        NodeFailed(n, before, entered, outer);
        var _ := Leave(OnNode(n), id);
        return false;
      }
      if n.Query? {
        BoundByTop(old(scopes), {});
        assert outer + {} == outer;
      }
      ok := AcceptChildren(n);
      NodeAndBelow(n, before, entered, Now(), ok, outer);
      if ok {
        ok := Leave(OnNode(n), id);
      }
    }

    /** A query's WITH clause comes before its other parts. */
    method AcceptChildren(n: Node) returns (ok: bool)
      requires Ready() && (n.Query? ==> scopes != [])
      modifies this
      decreases n, 0
      ensures Visited(old(Now()), Now(), ok, FaultsBelow(n), TablesBelow(n, Bound(old(scopes))), LimitsUnorderedBelow(n))
      ensures ok ==> Ready() && pushed == old(pushed)
      ensures ok ==> (if n.Query? && n.with.Some? then scopes == Extended(old(scopes), CteNames(n.with.value.ctes))
                      else scopes == old(scopes))
    {
      hide Bound, Visited, Faults, LimitsUnordered, Lower, FaultsOfAll, FreeInAll, AnyLimitsUnordered, FaultsOfCtes, FreeInCtes, CteLimitsUnordered;
      match n
      case Query(_, None, parts) => ok := AcceptAll(parts);
      case Query(_, Some(w), parts) =>
        ghost var before, bound := Now(), Bound(scopes);
        ok := AcceptWith(w);
        ghost var middle := Now();
        if ok {
          BoundOfExtended(old(scopes), CteNames(w.ctes));
          ok := AcceptAll(parts);
          VisitedInTurn(before, middle, Now(), ok, [WithFault(w)] + FaultsOfCtes(w.ctes), FaultsOfAll(parts),
                        FreeInCtes(w.ctes, bound), FreeInAll(parts, bound + CteNames(w.ctes)),
                        CteLimitsUnordered(w.ctes), AnyLimitsUnordered(parts));
        } else {
          FailedEarly(before, middle, [WithFault(w)] + FaultsOfCtes(w.ctes), FaultsOfAll(parts),
                      FreeInCtes(w.ctes, bound), TablesBelow(n, bound), CteLimitsUnordered(w.ctes), LimitsUnorderedBelow(n));
        }
      case Table(_, _) =>
        NothingVisited(Now());
        ok := true;
      case FuncCall(_, _, args) => ok := AcceptAll(args);
      case Variable(parts) => ok := AcceptAll(parts);
      case Other(_, parts) => ok := AcceptAll(parts);
    }

    method AcceptAll(ns: Nodes) returns (ok: bool)
      requires Ready()
      modifies this
      decreases ns, 0
      ensures Visited(old(Now()), Now(), ok, FaultsOfAll(ns), FreeInAll(ns, Bound(old(scopes))), AnyLimitsUnordered(ns))
      ensures ok ==> Ready() && scopes == old(scopes) && pushed == old(pushed)
    {
      hide Bound, Visited, Faults, FreeTables, LimitsUnordered;
      ghost var before, bound := Now(), Bound(scopes);
      match ns
      case Nil =>
        NothingVisited(before);
        ok := true;
      case Cons(n, rest) =>
        ok := Accept(n);
        ghost var middle := Now();
        if ok {
          ok := AcceptAll(rest);
          VisitedInTurn(before, middle, Now(), ok, Faults(n), FaultsOfAll(rest), FreeTables(n, bound), FreeInAll(rest, bound),
                        LimitsUnordered(n), AnyLimitsUnordered(rest));
        } else {
          FailedEarly(before, middle, Faults(n), FaultsOfAll(rest), FreeTables(n, bound), FreeInAll(ns, bound),
                      LimitsUnordered(n), AnyLimitsUnordered(ns));
        }
    }

    method AcceptWith(w: With) returns (ok: bool)
      requires Ready() && scopes != []
      modifies this
      decreases w, 0
      ensures Visited(old(Now()), Now(), ok, [WithFault(w)] + FaultsOfCtes(w.ctes),
                      FreeInCtes(w.ctes, Bound(old(scopes))), CteLimitsUnordered(w.ctes))
      ensures ok ==> Ready() && scopes == Extended(old(scopes), CteNames(w.ctes)) && pushed == old(pushed)
    {
      hide Bound, Visited, FaultsOfCtes, FreeInCtes, CteLimitsUnordered, CteNames;
      ghost var before, bound := Now(), Bound(scopes);
      var skip := Enter(OnWith(w));
      var id := count;
      ghost var entered := Now();
      if skip {
        FailedEarly(before, entered, [WithFault(w)], FaultsOfCtes(w.ctes), {}, FreeInCtes(w.ctes, bound),
                    false, CteLimitsUnordered(w.ctes));
        var _ := Leave(OnWith(w), id);
        return false;
      }
      ok := AcceptCtes(w.ctes);
      VisitedInTurn(before, entered, Now(), ok, [WithFault(w)], FaultsOfCtes(w.ctes), {}, FreeInCtes(w.ctes, bound),
                    false, CteLimitsUnordered(w.ctes));
      assert {} + FreeInCtes(w.ctes, bound) == FreeInCtes(w.ctes, bound);
      if ok {
        ok := Leave(OnWith(w), id);
      }
    }

    /** Each CTE's definition is visited before its name joins the top scope. */
    method AcceptCtes(cs: Ctes) returns (ok: bool)
      requires Ready() && scopes != []
      modifies this
      decreases cs, 0
      ensures Visited(old(Now()), Now(), ok, FaultsOfCtes(cs), FreeInCtes(cs, Bound(old(scopes))), CteLimitsUnordered(cs))
      ensures ok ==> Ready() && scopes == Extended(old(scopes), CteNames(cs)) && pushed == old(pushed)
    {
      hide Bound, Visited, Faults, FreeTables, LimitsUnordered, Lower;
      ghost var before, bound := Now(), Bound(scopes);
      match cs
      case NoCte =>
        ExtendedByStages(scopes, {}, {});
        NothingVisited(before);
        ok := true;
      case Cte(name, query, rest) =>
        ok := AcceptCte(name, query);
        ghost var middle := Now();
        if ok {
          BoundOfExtended(old(scopes), {Lower(name)});
          ExtendedByStages(old(scopes), {Lower(name)}, CteNames(rest));
          ok := AcceptCtes(rest);
          VisitedInTurn(before, middle, Now(), ok, [None] + Faults(query), FaultsOfCtes(rest),
                        FreeTables(query, bound), FreeInCtes(rest, bound + {Lower(name)}),
                        LimitsUnordered(query), CteLimitsUnordered(rest));
        } else {
          FailedEarly(before, middle, [None] + Faults(query), FaultsOfCtes(rest), FreeTables(query, bound), FreeInCtes(cs, bound),
                      LimitsUnordered(query), CteLimitsUnordered(cs));
        }
    }

    method AcceptCte(name: string, query: Node) returns (ok: bool)
      requires Ready() && scopes != []
      modifies this
      decreases query, 2
      ensures Visited(old(Now()), Now(), ok, [None] + Faults(query), FreeTables(query, Bound(old(scopes))), LimitsUnordered(query))
      ensures ok ==> Ready() && scopes == Extended(old(scopes), {Lower(name)}) && pushed == old(pushed)
    {
      hide Bound, Visited, Faults, FreeTables, LimitsUnordered, Lower;
      ghost var before, bound := Now(), Bound(scopes);
      var skip := Enter(OnCte(name));
      var id := count;
      ghost var entered := Now();
      if skip {
        FailedEarly(before, entered, [None], Faults(query), {}, FreeTables(query, bound), false, LimitsUnordered(query));
        var _ := Leave(OnCte(name), id);
        return false;
      }
      ok := Accept(query);
      VisitedInTurn(before, entered, Now(), ok, [None], Faults(query), {}, FreeTables(query, bound), false, LimitsUnordered(query));
      assert {} + FreeTables(query, bound) == FreeTables(query, bound);
      if ok {
        ok := Leave(OnCte(name), id);
      }
    }
  }

  /* ---- Analyze and what is built on it ---- */

  datatype Analysis = Analysis(tables: seq<string>, ordered: bool, unorderedLimit: bool)

  datatype Outcome = Failed(fault: Fault) | Analyzed(analysis: Analysis)

  /** A read-only query of at most 4096 nodes, none of them forbidden. */
  ghost predicate Admissible(root: Node) {
    root.Query? && |Faults(root)| <= MAX_NODES && forall i :: 0 <= i < |Faults(root)| ==> Faults(root)[i].None?
  }

  ghost predicate Describes(a: Analysis, root: Node) {
    && root.Query?
    && Lexicographic.IsListing(a.tables, FreeTables(root, {}))
    && a.ordered == root.head.orderBy
    && a.unorderedLimit == LimitsUnordered(root)
  }

  method Analyze(root: Node) returns (r: Outcome)
    ensures r.Analyzed? <==> Admissible(root)
    ensures r.Analyzed? ==> Describes(r.analysis, root)
    ensures r.Failed? && root.Query? ==> FirstError(Faults(root), 0) == Some(r.fault)
    ensures r.Failed? && !root.Query? ==> r.fault == NotReadonlySelect
  {
    hide Faults, FreeTables, LimitsUnordered;
    if !root.Query? {
      return Failed(NotReadonlySelect);
    }
    var v := new SafetyVisitor();
    var _ := v.Accept(root);
    FirstErrorMeaning(Faults(root), 0);
    if v.err.Some? {
      return Failed(v.err.value);
    }
    var tables := Lexicographic.Listing(v.tables);
    assert {} + FreeTables(root, {}) == FreeTables(root, {});
    r := Analyzed(Analysis(tables, root.head.orderBy, v.unorderedLimit));
  }

  method OrderSensitive(root: Node) returns (sensitive: bool)
    ensures sensitive <==> !Admissible(root) || root.head.orderBy
  {
    var a := Analyze(root);
    sensitive := a.Failed? || a.analysis.ordered;
  }

  /** Whether a rewrite proposal may stand for the original query. */
  ghost predicate MayReplace(candidate: Node, original: Node) {
    && Admissible(original) && Admissible(candidate)
    && FreeTables(original, {}) == FreeTables(candidate, {}) != {}
    && original.head.orderBy == candidate.head.orderBy
    && !LimitsUnordered(original) && !LimitsUnordered(candidate)
  }

  method AdmitRewrite(candidate: Node, original: Node) returns (ok: bool)
    ensures ok <==> MayReplace(candidate, original)
  {
    hide Faults, FreeTables, LimitsUnordered, Admissible, Lexicographic.IsListing;
    var a := Analyze(original);
    if a.Failed? {
      return false;
    }
    ListingOfNothing(a.analysis.tables, FreeTables(original, {}));
    if |a.analysis.tables| == 0 {
      return false;
    }
    var b := Analyze(candidate);
    if b.Failed? {
      return false;
    }
    Lexicographic.ListingsAgree(a.analysis.tables, b.analysis.tables, FreeTables(original, {}), FreeTables(candidate, {}));
    if a.analysis.tables != b.analysis.tables || a.analysis.ordered != b.analysis.ordered {
      return false;
    }
    ok := !(a.analysis.unorderedLimit || b.analysis.unorderedLimit);
  }

  lemma ListingOfNothing(names: seq<string>, content: set<string>)
    requires Lexicographic.IsListing(names, content)
    ensures names == [] <==> content == {}
  {
    if names != [] {
      assert names[0] in content;
    } else {
      assert forall x :: x in content ==> x in names;
    }
  }

  /** Semantic footprint: whatever the operators mean, the tables Analyze lists
      are all a query's value depends on. */
  lemma ListedTablesDecideTheValue<V>(a: Analysis, root: Node, sem: Semantics<V>, db1: Database<V>, db2: Database<V>)
    requires Describes(a, root)
    requires forall t :: t in a.tables ==> db1(t) == db2(t)
    ensures Value(sem, db1, root, map[]) == Value(sem, db2, root, map[])
  {
    hide FreeTables, Value;
    var empty: map<string, V> := map[];
    assert empty.Keys == {};
    assert forall t :: t in FreeTables(root, {}) ==> t in a.tables;
    ValueDependsOnFreeTables(sem, db1, db2, root, empty);
  }

  /** ... and no list that leaves one of them out would do. */
  lemma NoListedTableIsSpare(a: Analysis, root: Node, t: string)
    requires Describes(a, root) && t in a.tables
    ensures forall u :: u in a.tables && u != t ==> Names(None)(u) == Names(Some(t))(u)
    ensures Value(Tracing, Names(None), root, map[]) != Value(Tracing, Names(Some(t)), root, map[])
  {
    FreeTablesAreNeeded(root, t);
  }

  /** An admitted rewrite sees no table the original does not see. */
  lemma RewritesSeeTheSameTables<V>(candidate: Node, original: Node, a: Analysis, sem: Semantics<V>, db1: Database<V>, db2: Database<V>)
    requires MayReplace(candidate, original) && Describes(a, original)
    requires forall t :: t in a.tables ==> db1(t) == db2(t)
    ensures Value(sem, db1, original, map[]) == Value(sem, db2, original, map[])
    ensures Value(sem, db1, candidate, map[]) == Value(sem, db2, candidate, map[])
  {
    hide FreeTables, Value, Faults, LimitsUnordered;
    ListedTablesDecideTheValue(a, original, sem, db1, db2);
    ListedTablesDecideTheValue(Analysis(a.tables, candidate.head.orderBy, LimitsUnordered(candidate)), candidate, sem, db1, db2);
  }
}
