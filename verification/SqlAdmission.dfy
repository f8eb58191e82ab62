/** Which queries the analysis admits, said on the nodes that stand in the tree,
    and what its answers mean there. */
module SqlAdmission {
  import opened Prelude
  import opened SqlScope
  import opened SqlVisitor

  /* ---- What stands in a tree ---- */

  /** The nodes of a tree, those in CTE definitions included. */
  ghost function NodesIn(n: Node): set<Node>
    decreases n, 1
  {
    {n} + NodesBelow(n)
  }

  ghost function NodesBelow(n: Node): set<Node>
    decreases n, 0
  {
    match n
    case Query(_, None, parts) => NodesInAll(parts)
    case Query(_, Some(w), parts) => NodesInCtes(w.ctes) + NodesInAll(parts)
    case Table(_, _) => {}
    case FuncCall(_, _, args) => NodesInAll(args)
    case Variable(parts) => NodesInAll(parts)
    case Other(_, parts) => NodesInAll(parts)
  }

  ghost function NodesInAll(ns: Nodes): set<Node> {
    match ns
    case Nil => {}
    case Cons(n, rest) => NodesIn(n) + NodesInAll(rest)
  }

  ghost function NodesInCtes(cs: Ctes): set<Node> {
    match cs
    case NoCte => {}
    case Cte(_, query, rest) => NodesIn(query) + NodesInCtes(rest)
  }

  /** The WITH clauses of the queries among them. */
  ghost function ClausesIn(n: Node): set<With> {
    set m | m in NodesIn(n) && m.Query? && m.with.Some? :: m.with.value
  }

  /** How many nodes the parser visits: each clause and each CTE is one too. */
  function Size(n: Node): nat {
    match n
    case Query(_, None, parts) => 1 + SizeOfAll(parts)
    case Query(_, Some(w), parts) => 1 + 1 + SizeOfCtes(w.ctes) + SizeOfAll(parts)
    case Table(_, _) => 1
    case FuncCall(_, _, args) => 1 + SizeOfAll(args)
    case Variable(parts) => 1 + SizeOfAll(parts)
    case Other(_, parts) => 1 + SizeOfAll(parts)
  }

  function SizeOfAll(ns: Nodes): nat {
    match ns
    case Nil => 0
    case Cons(n, rest) => Size(n) + SizeOfAll(rest)
  }

  function SizeOfCtes(cs: Ctes): nat {
    match cs
    case NoCte => 0
    case Cte(_, query, rest) => 1 + Size(query) + SizeOfCtes(rest)
  }

  lemma {:induction false} AsManyFaultsAsNodes(n: Node)
    ensures |Faults(n)| == Size(n)
  {
    match n
    case Query(_, None, parts) => AsManyFaultsAsNodesInAll(parts);
    case Query(_, Some(w), parts) =>
      AsManyFaultsAsNodesInCtes(w.ctes);
      AsManyFaultsAsNodesInAll(parts);
    case Table(_, _) =>
    case FuncCall(_, _, args) => AsManyFaultsAsNodesInAll(args);
    case Variable(parts) => AsManyFaultsAsNodesInAll(parts);
    case Other(_, parts) => AsManyFaultsAsNodesInAll(parts);
  }

  lemma {:induction false} AsManyFaultsAsNodesInAll(ns: Nodes)
    ensures |FaultsOfAll(ns)| == SizeOfAll(ns)
  {
    if ns.Cons? {
      AsManyFaultsAsNodes(ns.head);
      AsManyFaultsAsNodesInAll(ns.tail);
    }
  }

  lemma {:induction false} AsManyFaultsAsNodesInCtes(cs: Ctes)
    ensures |FaultsOfCtes(cs)| == SizeOfCtes(cs)
  {
    if cs.Cte? {
      AsManyFaultsAsNodes(cs.query);
      AsManyFaultsAsNodesInCtes(cs.rest);
    }
  }

  /* ---- Which faults there are ---- */

  /** One of these nodes has the fault, or the WITH clause of one. */
  ghost predicate Founded(f: Fault, ns: set<Node>) {
    exists m :: m in ns && HasFault(f, m)
  }

  predicate HasFault(f: Fault, m: Node) {
    NodeFault(m) == Some(f) || (m.Query? && m.with.Some? && WithFault(m.with.value) == Some(f))
  }

  lemma FoundedInParts(f: Fault, a: set<Node>, b: set<Node>)
    ensures Founded(f, a + b) <==> Founded(f, a) || Founded(f, b)
    ensures !Founded(f, {})
  {
    hide HasFault;
    if m :| m in a && HasFault(f, m) {
      assert m in a + b;
    }
    if m :| m in b && HasFault(f, m) {
      assert m in a + b;
    }
  }

  lemma FoundedInOne(f: Fault, m: Node)
    ensures Founded(f, {m}) <==> HasFault(f, m)
  {
    assert m in {m};
  }

  lemma {:induction false} FaultsAreFounded(n: Node, f: Fault)
    ensures Some(f) in Faults(n) <==> Founded(f, NodesIn(n))
  {
    FoundedInParts(f, {n}, NodesBelow(n));
    FoundedInOne(f, n);
    hide Founded, NodeFault, WithFault;
    match n
    case Query(_, None, parts) => FaultsOfAllAreFounded(parts, f);
    case Query(_, Some(w), parts) =>
      FaultsOfCtesAreFounded(w.ctes, f);
      FaultsOfAllAreFounded(parts, f);
      FoundedInParts(f, NodesInCtes(w.ctes), NodesInAll(parts));
    case Table(_, _) => FoundedInParts(f, {}, {});
    case FuncCall(_, _, args) => FaultsOfAllAreFounded(args, f);
    case Variable(parts) => FaultsOfAllAreFounded(parts, f);
    case Other(_, parts) => FaultsOfAllAreFounded(parts, f);
  }

  lemma {:induction false} FaultsOfAllAreFounded(ns: Nodes, f: Fault)
    ensures Some(f) in FaultsOfAll(ns) <==> Founded(f, NodesInAll(ns))
  {
    hide Founded, Faults, NodesIn;
    match ns
    case Nil => FoundedInParts(f, {}, {});
    case Cons(n, rest) =>
      FaultsAreFounded(n, f);
      FaultsOfAllAreFounded(rest, f);
      FoundedInParts(f, NodesIn(n), NodesInAll(rest));
  }

  lemma {:induction false} FaultsOfCtesAreFounded(cs: Ctes, f: Fault)
    ensures Some(f) in FaultsOfCtes(cs) <==> Founded(f, NodesInCtes(cs))
  {
    hide Founded, Faults, NodesIn;
    match cs
    case NoCte => FoundedInParts(f, {}, {});
    case Cte(_, query, rest) =>
      FaultsAreFounded(query, f);
      FaultsOfCtesAreFounded(rest, f);
      FoundedInParts(f, NodesIn(query), NodesInCtes(rest));
  }

  /* ---- Admission ---- */

  /** The name of a function that may be called, in any case. */
  predicate Listed(name: string) {
    exists f :: f in SAFE_FUNCTIONS && InCapitals(f, name)
  }

  /** f is the name with capitals for the letters a to z. */
  predicate InCapitals(f: string, name: string) {
    |f| == |name| && forall i :: 0 <= i < |f| ==>
      f[i] as int == if 'a' <= name[i] <= 'z' then name[i] as int - 32 else name[i] as int
  }

  /** The same text but for the case of the letters A to Z. */
  predicate SameLetters(a: string, b: string) {
    |a| == |b| && forall i :: 0 <= i < |a| ==>
      || a[i] == b[i]
      || ('a' <= a[i] <= 'z' && b[i] as int == a[i] as int - 32)
      || ('A' <= a[i] <= 'Z' && b[i] as int == a[i] as int + 32)
  }

  /** Names are told apart without regard to case. */
  lemma LowerMeans(a: string, b: string)
    ensures Lower(a) == Lower(b) <==> SameLetters(a, b)
  {
    if Lower(a) == Lower(b) {
      assert |a| == |Lower(a)| == |Lower(b)| == |b|;
      forall i | 0 <= i < |a|
        ensures LowerChar(a[i]) == LowerChar(b[i])
      {
        assert Lower(a)[i] == Lower(b)[i];
      }
    }
  }

  lemma UpperMeans(f: string, name: string)
    ensures f == Upper(name) <==> InCapitals(f, name)
  {
    if InCapitals(f, name) {
      assert |f| == |Upper(name)| && forall i :: 0 <= i < |f| ==> f[i] == Upper(name)[i];
    }
  }

  lemma SafeIsListed(name: string)
    ensures SafeFunction(name) <==> Listed(name)
  {
    UpperMeans(Upper(name), name);
    if Listed(name) {
      var f :| f in SAFE_FUNCTIONS && InCapitals(f, name);
      UpperMeans(f, name);
    }
  }

  /** No node of the tree is forbidden. */
  ghost predicate Harmless(root: Node) {
    && (forall n :: n in NodesIn(root) && n.Query? && n.head.Select? ==> !n.head.locking && !n.head.into && !n.head.hints)
    && (forall n :: n in NodesIn(root) && n.Table? ==> n.schema == "")
    && (forall n :: n in NodesIn(root) && n.FuncCall? ==> n.schema == "" && Listed(n.name))
    && (forall n :: n in NodesIn(root) ==> !n.Variable?)
    && (forall w :: w in ClausesIn(root) ==> !w.recursive)
  }

  /** The node is not forbidden, nor is its WITH clause. */
  predicate HarmlessNode(m: Node) {
    && (m.Query? && m.head.Select? ==> !m.head.locking && !m.head.into && !m.head.hints)
    && (m.Table? ==> m.schema == "")
    && (m.FuncCall? ==> m.schema == "" && Listed(m.name))
    && !m.Variable?
    && (m.Query? && m.with.Some? ==> !m.with.value.recursive)
  }

  lemma FaultlessMeans(m: Node)
    ensures (forall f :: !HasFault(f, m)) <==> HarmlessNode(m)
  {
    if m.FuncCall? {
      SafeIsListed(m.name);
    }
    hide SafeFunction, Listed;
    if NodeFault(m).Some? {
      assert HasFault(NodeFault(m).value, m);
    }
    if m.Query? && m.with.Some? && m.with.value.recursive {
      assert HasFault(RecursiveCte, m);
    }
  }

  ghost predicate Faultless(root: Node) { forall i :: 0 <= i < |Faults(root)| ==> Faults(root)[i].None? }

  lemma FaultlessIff(root: Node)
    ensures Faultless(root) <==> forall m, f :: m in NodesIn(root) ==> !HasFault(f, m)
  {
    hide Faults, NodesIn, HasFault;
    forall f
      ensures Some(f) in Faults(root) <==> exists m :: m in NodesIn(root) && HasFault(f, m)
    {
      FaultsAreFounded(root, f);
    }
    if Faultless(root) {
      forall m, f | m in NodesIn(root)
        ensures !HasFault(f, m)
      {
        assert Some(f) !in Faults(root);
      }
    } else {
      var i :| 0 <= i < |Faults(root)| && Faults(root)[i].Some?;
      assert Some(Faults(root)[i].value) in Faults(root);
    }
  }

  lemma HarmlessByNodes(root: Node)
    ensures Harmless(root) <==> forall m :: m in NodesIn(root) ==> HarmlessNode(m)
  {
    hide NodesIn, Listed;
    if Harmless(root) {
      forall m | m in NodesIn(root)
        ensures HarmlessNode(m)
      {
        assert m.Query? && m.with.Some? ==> m.with.value in ClausesIn(root);
      }
    }
    if forall m :: m in NodesIn(root) ==> HarmlessNode(m) {
      forall w | w in ClausesIn(root)
        ensures !w.recursive
      {
        var m :| m in NodesIn(root) && m.Query? && m.with.Some? && m.with.value == w;
        assert HarmlessNode(m);
      }
    }
  }

  lemma NoFaultIsHarmless(root: Node)
    ensures Faultless(root) <==> Harmless(root)
  {
    hide NodesIn, HasFault, HarmlessNode, Faultless, Harmless;
    FaultlessIff(root);
    HarmlessByNodes(root);
    forall m
      ensures (forall f :: !HasFault(f, m)) <==> HarmlessNode(m)
    {
      FaultlessMeans(m);
    }
  }

  /** Analyze succeeds exactly on queries of at most 4096 nodes in which no
      SELECT is locking, writes INTO anything or carries hints, every table is
      in the current schema, every call is of a listed built-in, there is no
      variable, and no WITH is recursive. */
  lemma AdmissibleIff(root: Node)
    ensures Admissible(root) <==> root.Query? && Size(root) <= 4096 && Harmless(root)
  {
    hide Faults, Harmless, Size;
    AsManyFaultsAsNodes(root);
    NoFaultIsHarmless(root);
  }

  /** What an error says is in the tree is in the tree. */
  ghost predicate SaysWhy(f: Fault, root: Node) {
    match f
    case LockingRead => exists n :: n in NodesIn(root) && n.Query? && n.head.Select? && n.head.locking
    case SelectInto => exists n :: n in NodesIn(root) && n.Query? && n.head.Select? && n.head.into && !n.head.locking
    case OptimizerHint =>
      exists n :: n in NodesIn(root) && n.Query? && n.head.Select? && n.head.hints && !n.head.into && !n.head.locking
    case RecursiveCte => exists w :: w in ClausesIn(root) && w.recursive
    case CrossSchema => exists n :: n in NodesIn(root) && n.Table? && n.schema != ""
    case SessionVariable => exists n :: n in NodesIn(root) && n.Variable?
    case UnsafeFunction => exists n :: n in NodesIn(root) && n.FuncCall? && (n.schema != "" || !Listed(n.name))
    case Complexity => Size(root) > 4096
    case NotReadonlySelect => !root.Query?
  }

  lemma {:induction false} ErrorIsAFault(fs: seq<Option<Fault>>, count: nat)
    requires count <= MAX_NODES && FirstError(fs, count).Some?
    ensures FirstError(fs, count) in fs || (FirstError(fs, count) == Some(Complexity) && count + |fs| > MAX_NODES)
  {
    if count < MAX_NODES && fs[0].None? {
      ErrorIsAFault(fs[1..], count + 1);
      assert forall x :: x in fs[1..] ==> x in fs;
    }
  }

  /** Every refusal of Analyze is for what it says. */
  lemma RefusalsAreFounded(root: Node, f: Fault)
    requires FirstError(Faults(root), 0) == Some(f)
    ensures SaysWhy(f, root)
  {
    ErrorIsAFault(Faults(root), 0);
    hide Faults, NodesIn, HasFault, FirstError, Size, SaysWhy;
    AsManyFaultsAsNodes(root);
    FaultsAreFounded(root, f);
    if Some(f) in Faults(root) {
      var m :| m in NodesIn(root) && HasFault(f, m);
      FaultSaysWhy(root, f, m);
    } else {
      TooLargeSaysWhy(root);
    }
  }

  lemma TooLargeSaysWhy(root: Node)
    requires Size(root) > 4096
    ensures SaysWhy(Complexity, root)
  {
    hide Size;
  }

  lemma FaultSaysWhy(root: Node, f: Fault, m: Node)
    requires m in NodesIn(root) && HasFault(f, m)
    ensures SaysWhy(f, root)
  {
    if m.FuncCall? {
      SafeIsListed(m.name);
    }
    hide NodesIn, SafeFunction, Listed, Size;
    assert m.Query? && m.with.Some? ==> m.with.value in ClausesIn(root);
  }

  /* ---- Limits ---- */

  /** One of these queries has a LIMIT without an ORDER BY. */
  ghost predicate SomeLimit(ns: set<Node>) {
    exists m :: m in ns && m.Query? && m.head.limit && !m.head.orderBy
  }

  lemma SomeLimitInParts(a: set<Node>, b: set<Node>)
    ensures SomeLimit(a + b) <==> SomeLimit(a) || SomeLimit(b)
    ensures !SomeLimit({})
  {
    if m :| m in a && m.Query? && m.head.limit && !m.head.orderBy {
      assert m in a + b;
    }
    if m :| m in b && m.Query? && m.head.limit && !m.head.orderBy {
      assert m in a + b;
    }
  }

  lemma SomeLimitInOne(m: Node)
    ensures SomeLimit({m}) <==> m.Query? && m.head.limit && !m.head.orderBy
  {
    assert m in {m};
  }

  /** UnorderedLimit is set exactly when some query at any depth has a LIMIT
      without an ORDER BY. */
  lemma {:induction false} UnorderedLimitIff(n: Node)
    ensures LimitsUnordered(n) <==> SomeLimit(NodesIn(n))
  {
    SomeLimitInParts({n}, NodesBelow(n));
    SomeLimitInOne(n);
    hide SomeLimit;
    match n
    case Query(_, None, parts) => UnorderedLimitInAll(parts);
    case Query(_, Some(w), parts) =>
      UnorderedLimitInCtes(w.ctes);
      UnorderedLimitInAll(parts);
      SomeLimitInParts(NodesInCtes(w.ctes), NodesInAll(parts));
    case Table(_, _) => SomeLimitInParts({}, {});
    case FuncCall(_, _, args) => UnorderedLimitInAll(args);
    case Variable(parts) => UnorderedLimitInAll(parts);
    case Other(_, parts) => UnorderedLimitInAll(parts);
  }

  lemma {:induction false} UnorderedLimitInAll(ns: Nodes)
    ensures AnyLimitsUnordered(ns) <==> SomeLimit(NodesInAll(ns))
  {
    hide SomeLimit, NodesIn, LimitsUnordered;
    match ns
    case Nil => SomeLimitInParts({}, {});
    case Cons(n, rest) =>
      UnorderedLimitIff(n);
      UnorderedLimitInAll(rest);
      SomeLimitInParts(NodesIn(n), NodesInAll(rest));
  }

  lemma {:induction false} UnorderedLimitInCtes(cs: Ctes)
    ensures CteLimitsUnordered(cs) <==> SomeLimit(NodesInCtes(cs))
  {
    hide SomeLimit, NodesIn, LimitsUnordered;
    match cs
    case NoCte => SomeLimitInParts({}, {});
    case Cte(_, query, rest) =>
      UnorderedLimitIff(query);
      UnorderedLimitInCtes(rest);
      SomeLimitInParts(NodesIn(query), NodesInCtes(rest));
  }

  /** A rewrite may stand for the original exactly if both are admissible
      queries that read the same tables, one at least, are both ordered or both
      not, and have no LIMIT without ORDER BY anywhere. */
  lemma RewriteIsAdmittedIff(candidate: Node, original: Node)
    ensures MayReplace(candidate, original) <==>
      && original.Query? && Size(original) <= 4096 && Harmless(original)
      && candidate.Query? && Size(candidate) <= 4096 && Harmless(candidate)
      && (exists t :: t in FreeTables(original, {}))
      && (forall t :: t in FreeTables(original, {}) <==> t in FreeTables(candidate, {}))
      && (original.head.orderBy <==> candidate.head.orderBy)
      && !SomeLimit(NodesIn(original)) && !SomeLimit(NodesIn(candidate))
  {
    AdmissibleIff(original);
    AdmissibleIff(candidate);
    UnorderedLimitIff(original);
    UnorderedLimitIff(candidate);
    hide Admissible, Size, Harmless, LimitsUnordered, SomeLimit, NodesIn, FreeTables;
    SameMembers(FreeTables(original, {}), FreeTables(candidate, {}));
  }

  lemma SameMembers(a: set<string>, b: set<string>)
    ensures a == b <==> forall t :: t in a <==> t in b
    ensures a != {} <==> exists t :: t in a
  {
    if a != {} {
      var t :| t in a;
    }
  }

  /* ---- Concrete queries ---- */

  lemma NumberOrTextStart(f: string)
    requires f in NUMBER_AND_TEXT_FUNCTIONS && |f| > 2
    ensures !(f[0] == 'G' && f[1] == 'E') && !(f[0] == 'S' && f[1] == 'L') && !(f[0] == 'R' && f[1] == 'E' && f[2] == 'L')
    ensures !(f[0] == 'L' && f[1] == 'O' && f[2] == 'A') && !(f[0] == 'C' && f[1] == 'U' && f[2] == 'S')
  {
  }

  lemma OtherStart(f: string)
    requires f in OTHER_FUNCTIONS && |f| > 2
    ensures !(f[0] == 'G' && f[1] == 'E') && !(f[0] == 'S' && f[1] == 'L') && !(f[0] == 'R' && f[1] == 'E' && f[2] == 'L')
    ensures !(f[0] == 'L' && f[1] == 'O' && f[2] == 'A') && !(f[0] == 'C' && f[1] == 'U' && f[2] == 'S')
  {
  }

  predicate Capital(f: string) { forall i :: 0 <= i < |f| ==> !('a' <= f[i] <= 'z') }

  lemma InCapitalsOf(f: string, name: string, g: string)
    requires InCapitals(f, name) && SameLetters(name, g) && Capital(g)
    ensures f == g
  {
  }

  lemma OtherCapitalsAreUnlisted(name: string, g: string)
    requires SameLetters(name, g) && Capital(g) && !CapitalOfSafe(g)
    ensures !Listed(name)
  {
    hide InCapitals, SameLetters, Capital;
    if Listed(name) {
      var f :| f in SAFE_FUNCTIONS && InCapitals(f, name);
      InCapitalsOf(f, name, g);
    }
  }

  lemma NotListedStart(f: string)
    requires |f| > 2
    requires || (f[0] == 'G' && f[1] == 'E') || (f[0] == 'S' && f[1] == 'L') || (f[0] == 'R' && f[1] == 'E' && f[2] == 'L')
             || (f[0] == 'L' && f[1] == 'O' && f[2] == 'A') || (f[0] == 'C' && f[1] == 'U' && f[2] == 'S')
    ensures !CapitalOfSafe(f)
  {
    if f in NUMBER_AND_TEXT_FUNCTIONS {
      NumberOrTextStart(f);
    } else if f in OTHER_FUNCTIONS {
      OtherStart(f);
    }
  }

  predicate CapitalOfSafe(f: string) { f in SAFE_FUNCTIONS }

  lemma DangerousCapitals()
    ensures Capital("GET_LOCK") && !CapitalOfSafe("GET_LOCK") && Capital("SLEEP") && !CapitalOfSafe("SLEEP")
    ensures Capital("RELEASE_LOCK") && !CapitalOfSafe("RELEASE_LOCK") && Capital("LOAD_FILE") && !CapitalOfSafe("LOAD_FILE")
    ensures Capital("CUSTOM_FUNCTION") && !CapitalOfSafe("CUSTOM_FUNCTION")
  {
    hide CapitalOfSafe;
    NotListedStart("GET_LOCK");
    NotListedStart("RELEASE_LOCK");
    NotListedStart("SLEEP");
    NotListedStart("LOAD_FILE");
    NotListedStart("CUSTOM_FUNCTION");
  }

  /** Functions with effects are not listed, however they are written. */
  lemma DangerousCallsAreUnlisted(name: string)
    requires SameLetters(name, "GET_LOCK") || SameLetters(name, "RELEASE_LOCK") || SameLetters(name, "SLEEP")
          || SameLetters(name, "LOAD_FILE") || SameLetters(name, "CUSTOM_FUNCTION")
    ensures !Listed(name)
  {
    hide Listed, SameLetters, Capital, CapitalOfSafe;
    DangerousCapitals();
    var g := if SameLetters(name, "GET_LOCK") then "GET_LOCK" else if SameLetters(name, "RELEASE_LOCK") then "RELEASE_LOCK"
      else if SameLetters(name, "SLEEP") then "SLEEP" else if SameLetters(name, "LOAD_FILE") then "LOAD_FILE" else "CUSTOM_FUNCTION";
    OtherCapitalsAreUnlisted(name, g);
  }

  const PLAIN: Head := Select(false, false, false, false, false)

  function From(table: string): Node { Query(PLAIN, None, Cons(Table("", table), Nil)) }

  function WithQuery(ctes: Ctes, body: Nodes): Node { Query(PLAIN, Some(With(false, ctes)), body) }

  lemma LowerOfNames()
    ensures Lower("secrets") == "secrets" && Lower("orders") == "orders" && Lower("first_cte") == "first_cte" && Lower("later") == "later"
  {
  }

  lemma FromReads(table: string, bound: set<string>)
    ensures FreeTables(From(table), bound) == {Lower(table)} - bound
  {
    hide Lower;
    var t := Table("", table);
    assert FreeInAll(Cons(t, Nil), bound) == FreeTables(t, bound) + FreeInAll(Nil, bound);
  }

  lemma OneTableReads(table: string, bound: set<string>)
    ensures FreeInAll(Cons(Table("", table), Nil), bound) == {Lower(table)} - bound
  {
    hide Lower;
    var t := Table("", table);
    assert FreeInAll(Cons(t, Nil), bound) == FreeTables(t, bound) + FreeInAll(Nil, bound);
  }

  lemma OneCteReads(name: string, table: string, rest: Ctes, bound: set<string>)
    ensures FreeInCtes(Cte(name, From(table), rest), bound) == ({Lower(table)} - bound) + FreeInCtes(rest, bound + {Lower(name)})
    ensures CteNames(Cte(name, From(table), rest)) == {Lower(name)} + CteNames(rest)
    ensures FreeInCtes(NoCte, bound) == {} && CteNames(NoCte) == {}
  {
    FromReads(table, bound);
  }

  /** What a CTE hides: not the table of its own name in its own definition, and
      not that of a later one's. */
  lemma CteVisibility()
    ensures FreeTables(WithQuery(Cte("secrets", From("secrets"), NoCte), Cons(Table("", "orders"), Cons(Table("", "secrets"), Nil))), {})
         == {"orders", "secrets"}
    ensures FreeTables(WithQuery(Cte("first_cte", From("secrets"), Cte("secrets", From("orders"), NoCte)),
                                 Cons(Table("", "first_cte"), Nil)), {}) == {"orders", "secrets"}
    ensures FreeTables(WithQuery(Cte("secrets", From("orders"), Cte("later", From("secrets"), NoCte)),
                                 Cons(Table("", "later"), Nil)), {}) == {"orders"}
    ensures FreeTables(Query(PLAIN, None, Cons(Table("", "orders"),
              Cons(WithQuery(Cte("secrets", From("secrets"), NoCte), Cons(Table("", "secrets"), Nil)), Nil))), {}) == {"orders", "secrets"}
  {
    LowerOfNames();
    SelfNamed();
    LaterNamed();
    EarlierNamed();
    hide Lower, WithQuery;
    var inner := WithQuery(Cte("secrets", From("secrets"), NoCte), Cons(Table("", "secrets"), Nil));
    var o := Table("", "orders");
    assert FreeInAll(Cons(inner, Nil), {}) == FreeTables(inner, {}) + FreeInAll(Nil, {});
    assert FreeInAll(Cons(o, Cons(inner, Nil)), {}) == FreeTables(o, {}) + FreeInAll(Cons(inner, Nil), {});
  }

  lemma SelfNamed()
    ensures FreeTables(WithQuery(Cte("secrets", From("secrets"), NoCte), Cons(Table("", "orders"), Cons(Table("", "secrets"), Nil))), {})
         == {"orders", "secrets"}
    ensures FreeTables(WithQuery(Cte("secrets", From("secrets"), NoCte), Cons(Table("", "secrets"), Nil)), {}) == {"secrets"}
  {
    LowerOfNames();
    hide Lower;
    OneCteReads("secrets", "secrets", NoCte, {});
    OneTableReads("secrets", {} + {"secrets"});
    var o := Table("", "orders");
    assert FreeInAll(Cons(o, Cons(Table("", "secrets"), Nil)), {} + {"secrets"})
        == FreeTables(o, {} + {"secrets"}) + FreeInAll(Cons(Table("", "secrets"), Nil), {} + {"secrets"});
    assert {"secrets"} + {} == {"secrets"};
  }

  lemma LaterNamed()
    ensures FreeTables(WithQuery(Cte("first_cte", From("secrets"), Cte("secrets", From("orders"), NoCte)),
                                 Cons(Table("", "first_cte"), Nil)), {}) == {"orders", "secrets"}
  {
    LowerOfNames();
    hide Lower;
    var names := {} + ({"first_cte"} + ({"secrets"} + {}));
    OneCteReads("first_cte", "secrets", Cte("secrets", From("orders"), NoCte), {});
    OneCteReads("secrets", "orders", NoCte, {} + {"first_cte"});
    OneTableReads("first_cte", names);
  }

  lemma EarlierNamed()
    ensures FreeTables(WithQuery(Cte("secrets", From("orders"), Cte("later", From("secrets"), NoCte)),
                                 Cons(Table("", "later"), Nil)), {}) == {"orders"}
  {
    LowerOfNames();
    hide Lower;
    var names := {} + ({"secrets"} + ({"later"} + {}));
    OneCteReads("secrets", "orders", Cte("later", From("secrets"), NoCte), {});
    OneCteReads("later", "secrets", NoCte, {} + {"secrets"});
    OneTableReads("later", names);
  }
}
