/** Query trees and what they mean: which physical tables a tree reads, what
    makes it inadmissible, and a semantics under which the tables it reads are
    all it depends on.  Trees come from the SQL parser, which is not modelled. */
module SqlScope {
  import opened Prelude

  datatype Head =
    | Select(limit: bool, orderBy: bool, locking: bool, into: bool, hints: bool)
    | SetOpr(limit: bool, orderBy: bool)

  /** WITH attaches to queries only.  `Other` is every node the analysis does
      not look at: joins, subqueries, clauses, operators, literals. */
  datatype Node =
    | Query(head: Head, with: Option<With>, parts: Nodes)
    | Table(schema: string, name: string)
    | FuncCall(schema: string, name: string, args: Nodes)
    | Variable(parts: Nodes)
    | Other(tag: string, parts: Nodes)

  datatype Nodes = Nil | Cons(head: Node, tail: Nodes)

  datatype With = With(recursive: bool, ctes: Ctes)

  datatype Ctes = NoCte | Cte(name: string, query: Node, rest: Ctes)

  datatype Fault =
    | LockingRead | SelectInto | OptimizerHint | RecursiveCte | CrossSchema
    | SessionVariable | UnsafeFunction | Complexity | NotReadonlySelect

  /* ---- Names ---- */

  function LowerChar(c: char): char {
    if 'A' <= c <= 'Z' then ((c as int) + 32) as char else c
  }

  function UpperChar(c: char): char {
    if 'a' <= c <= 'z' then ((c as int) - 32) as char else c
  }

  function Lower(s: string): string { seq(|s|, i requires 0 <= i < |s| => LowerChar(s[i])) }

  function Upper(s: string): string { seq(|s|, i requires 0 <= i < |s| => UpperChar(s[i])) }

  /** The built-in functions that may be called. */
  const NUMBER_AND_TEXT_FUNCTIONS: set<string> := {
    "ABS", "CEIL", "CEILING", "FLOOR", "ROUND", "TRUNCATE", "MOD", "POW", "POWER", "SQRT", "SIGN", "GREATEST", "LEAST",
    "COALESCE", "IF", "IFNULL", "NULLIF", "CONCAT", "CONCAT_WS", "LENGTH", "CHAR_LENGTH", "CHARACTER_LENGTH", "LOWER",
    "LCASE", "UPPER", "UCASE", "TRIM", "LTRIM", "RTRIM", "SUBSTRING", "SUBSTR", "LEFT", "RIGHT", "REPLACE", "INSTR",
    "LOCATE"
  }

  const OTHER_FUNCTIONS: set<string> := {
    "LPAD", "RPAD", "REVERSE", "ASCII", "ORD", "HEX", "UNHEX", "DATE", "YEAR", "MONTH", "DAY", "DAYOFMONTH", "DAYOFWEEK",
    "HOUR", "MINUTE", "SECOND", "DATE_FORMAT", "DATEDIFF", "TIMESTAMPDIFF", "TIMESTAMPADD", "DATE_ADD", "DATE_SUB", "ADDDATE",
    "SUBDATE", "NOW", "CURRENT_DATE", "CURRENT_TIME", "CURRENT_TIMESTAMP", "UTC_TIMESTAMP", "CAST", "CONVERT",
    "JSON_EXTRACT", "JSON_UNQUOTE", "JSON_LENGTH", "JSON_CONTAINS", "JSON_VALID"
  }

  const SAFE_FUNCTIONS: set<string> := NUMBER_AND_TEXT_FUNCTIONS + OTHER_FUNCTIONS

  predicate SafeFunction(name: string) { Upper(name) in SAFE_FUNCTIONS }

  /* ---- What a tree reads ---- */

  /** The physical tables read by a tree in which the names in `bound` are
      CTEs.  A CTE's own definition sees the outer names and the earlier CTEs
      of the same clause, never itself or a later one. */
  function FreeTables(n: Node, bound: set<string>): set<string> {
    match n
    case Query(_, None, parts) => FreeInAll(parts, bound)
    case Query(_, Some(w), parts) => FreeInCtes(w.ctes, bound) + FreeInAll(parts, bound + CteNames(w.ctes))
    case Table(_, name) => {Lower(name)} - bound
    case FuncCall(_, _, args) => FreeInAll(args, bound)
    case Variable(parts) => FreeInAll(parts, bound)
    case Other(_, parts) => FreeInAll(parts, bound)
  }

  function FreeInAll(ns: Nodes, bound: set<string>): set<string> {
    match ns
    case Nil => {}
    case Cons(n, rest) => FreeTables(n, bound) + FreeInAll(rest, bound)
  }

  function FreeInCtes(cs: Ctes, bound: set<string>): set<string> {
    match cs
    case NoCte => {}
    case Cte(name, query, rest) => FreeTables(query, bound) + FreeInCtes(rest, bound + {Lower(name)})
  }

  function CteNames(cs: Ctes): set<string> {
    match cs
    case NoCte => {}
    case Cte(name, _, rest) => {Lower(name)} + CteNames(rest)
  }

  /* ---- What is wrong with a tree ---- */

  /** The fault of one node, its children aside. */
  function NodeFault(n: Node): Option<Fault> {
    match n
    case Query(Select(_, _, locking, into, hints), _, _) =>
      if locking then Some(LockingRead) else if into then Some(SelectInto) else if hints then Some(OptimizerHint) else None
    case Table(schema, _) => if schema != "" then Some(CrossSchema) else None
    case FuncCall(schema, name, _) => if schema != "" || !SafeFunction(name) then Some(UnsafeFunction) else None
    case Variable(_) => Some(SessionVariable)
    case _ => None
  }

  function WithFault(w: With): Option<Fault> {
    if w.recursive then Some(RecursiveCte) else None
  }

  /** The faults of all nodes of a tree in visiting order: a query, its WITH
      clause, each CTE followed by its definition, and then the other parts. */
  function Faults(n: Node): (fs: seq<Option<Fault>>)
    decreases n, 1
  {
    [NodeFault(n)] + FaultsBelow(n)
  }

  function FaultsBelow(n: Node): seq<Option<Fault>>
    decreases n, 0
  {
    match n
    case Query(_, None, parts) => FaultsOfAll(parts)
    case Query(_, Some(w), parts) => [WithFault(w)] + FaultsOfCtes(w.ctes) + FaultsOfAll(parts)
    case Table(_, _) => []
    case FuncCall(_, _, args) => FaultsOfAll(args)
    case Variable(parts) => FaultsOfAll(parts)
    case Other(_, parts) => FaultsOfAll(parts)
  }

  function FaultsOfAll(ns: Nodes): seq<Option<Fault>> {
    match ns
    case Nil => []
    case Cons(n, rest) => Faults(n) + FaultsOfAll(rest)
  }

  function FaultsOfCtes(cs: Ctes): seq<Option<Fault>> {
    match cs
    case NoCte => []
    case Cte(_, query, rest) => ([None] + Faults(query)) + FaultsOfCtes(rest)
  }

  /** Some query at any depth has a LIMIT but no ORDER BY. */
  predicate LimitsUnordered(n: Node)
    decreases n, 1
  {
    (n.Query? && n.head.limit && !n.head.orderBy) || LimitsUnorderedBelow(n)
  }

  predicate LimitsUnorderedBelow(n: Node)
    decreases n, 0
  {
    match n
    case Query(_, None, parts) => AnyLimitsUnordered(parts)
    case Query(_, Some(w), parts) => CteLimitsUnordered(w.ctes) || AnyLimitsUnordered(parts)
    case Table(_, _) => false
    case FuncCall(_, _, args) => AnyLimitsUnordered(args)
    case Variable(parts) => AnyLimitsUnordered(parts)
    case Other(_, parts) => AnyLimitsUnordered(parts)
  }

  predicate AnyLimitsUnordered(ns: Nodes) {
    match ns
    case Nil => false
    case Cons(n, rest) => LimitsUnordered(n) || AnyLimitsUnordered(rest)
  }

  predicate CteLimitsUnordered(cs: Ctes) {
    match cs
    case NoCte => false
    case Cte(_, query, rest) => LimitsUnordered(query) || CteLimitsUnordered(rest)
  }

  const MAX_NODES := 4096

  /** The error of a visit that starts after `count` nodes: the first fault in
      visiting order, unless the node budget runs out before it. */
  function FirstError(fs: seq<Option<Fault>>, count: nat): Option<Fault> {
    if fs == [] then None
    else if count + 1 > MAX_NODES then Some(Complexity)
    else if fs[0].Some? then fs[0]
    else FirstError(fs[1..], count + 1)
  }

  lemma {:induction false} FirstErrorOfConcat(a: seq<Option<Fault>>, b: seq<Option<Fault>>, count: nat)
    ensures FirstError(a + b, count)
         == if FirstError(a, count).Some? then FirstError(a, count) else FirstError(b, count + |a|)
  {
    if a == [] {
      assert a + b == b;
    } else {
      assert (a + b)[1..] == a[1..] + b;
      FirstErrorOfConcat(a[1..], b, count + 1);
    }
  }

  /** What FirstError finds, said without running it. */
  lemma {:induction false} FirstErrorMeaning(fs: seq<Option<Fault>>, count: nat)
    requires count <= MAX_NODES
    ensures FirstError(fs, count).None? <==>
      count + |fs| <= MAX_NODES && forall i :: 0 <= i < |fs| ==> fs[i].None?
    ensures forall i ::
      0 <= i < |fs| && fs[i].Some? && count + i < MAX_NODES && (forall k :: 0 <= k < i ==> fs[k].None?)
      ==> FirstError(fs, count) == fs[i]
    ensures count + |fs| > MAX_NODES && (forall k :: 0 <= k < MAX_NODES - count ==> fs[k].None?)
      ==> FirstError(fs, count) == Some(Complexity)
  {
    if fs != [] && count < MAX_NODES && fs[0].None? {
      FirstErrorMeaning(fs[1..], count + 1);
      assert forall i :: 0 < i < |fs| ==> fs[i] == fs[1..][i - 1];
      assert forall i :: 0 <= i < |fs| - 1 ==> fs[1..][i] == fs[i + 1];
    }
  }

  /* ---- Semantics ---- */

  /** What an operator is, as far as meaning goes. */
  datatype Op = QueryOp(head: Head, ctes: nat) | CallOp(schema: string, name: string) | VariableOp | OtherOp(tag: string)

  /** A compositional semantics over any value domain: the value of a tree is
      an operator applied to the values of its CTEs, in order, and of its
      parts.  Nothing is asked of the operators; taking V to be functions of an
      outer row covers correlated subqueries. */
  type Semantics<!V> = (Op, seq<V>) -> V

  type Database<!V> = string -> V

  /** `env` holds the CTEs in scope; a name found there hides the table. */
  function Value<V>(sem: Semantics<V>, db: Database<V>, n: Node, env: map<string, V>): V {
    match n
    case Query(head, None, parts) => sem(QueryOp(head, 0), Values(sem, db, parts, env))
    case Query(head, Some(w), parts) =>
      var (vs, inner) := CteValues(sem, db, w.ctes, env);
      sem(QueryOp(head, |vs|), vs + Values(sem, db, parts, inner))
    case Table(_, name) => if Lower(name) in env then env[Lower(name)] else db(Lower(name))
    case FuncCall(schema, name, args) => sem(CallOp(schema, name), Values(sem, db, args, env))
    case Variable(parts) => sem(VariableOp, Values(sem, db, parts, env))
    case Other(tag, parts) => sem(OtherOp(tag), Values(sem, db, parts, env))
  }

  function Values<V>(sem: Semantics<V>, db: Database<V>, ns: Nodes, env: map<string, V>): seq<V> {
    match ns
    case Nil => []
    case Cons(n, rest) => [Value(sem, db, n, env)] + Values(sem, db, rest, env)
  }

  /** The values of a clause's CTEs and the environment after it. */
  function CteValues<V>(sem: Semantics<V>, db: Database<V>, cs: Ctes, env: map<string, V>): (r: (seq<V>, map<string, V>))
    ensures r.1.Keys == env.Keys + CteNames(cs)
  {
    match cs
    case NoCte => ([], env)
    case Cte(name, query, rest) =>
      var v := Value(sem, db, query, env);
      var (vs, inner) := CteValues(sem, db, rest, env[Lower(name) := v]);
      ([v] + vs, inner)
  }

  predicate Agree<V(==)>(db1: Database<V>, db2: Database<V>, tables: set<string>) {
    forall t :: t in tables ==> db1(t) == db2(t)
  }

  /** A tree's value depends on the database only through its free tables. */
  lemma {:induction false} ValueDependsOnFreeTables<V>(sem: Semantics<V>, db1: Database<V>, db2: Database<V>, n: Node, env: map<string, V>)
    requires Agree(db1, db2, FreeTables(n, env.Keys))
    ensures Value(sem, db1, n, env) == Value(sem, db2, n, env)
  {
    match n
    case Query(_, None, parts) => ValuesDependOnFreeTables(sem, db1, db2, parts, env);
    case Query(_, Some(w), parts) =>
      CteValuesDependOnFreeTables(sem, db1, db2, w.ctes, env);
      ValuesDependOnFreeTables(sem, db1, db2, parts, CteValues(sem, db1, w.ctes, env).1);
    case Table(_, name) =>
    case FuncCall(_, _, args) => ValuesDependOnFreeTables(sem, db1, db2, args, env);
    case Variable(parts) => ValuesDependOnFreeTables(sem, db1, db2, parts, env);
    case Other(_, parts) => ValuesDependOnFreeTables(sem, db1, db2, parts, env);
  }

  lemma {:induction false} ValuesDependOnFreeTables<V>(sem: Semantics<V>, db1: Database<V>, db2: Database<V>, ns: Nodes, env: map<string, V>)
    requires Agree(db1, db2, FreeInAll(ns, env.Keys))
    ensures Values(sem, db1, ns, env) == Values(sem, db2, ns, env)
  {
    if ns.Cons? {
      ValueDependsOnFreeTables(sem, db1, db2, ns.head, env);
      ValuesDependOnFreeTables(sem, db1, db2, ns.tail, env);
    }
  }

  lemma {:induction false} CteValuesDependOnFreeTables<V>(sem: Semantics<V>, db1: Database<V>, db2: Database<V>, cs: Ctes, env: map<string, V>)
    requires Agree(db1, db2, FreeInCtes(cs, env.Keys))
    ensures CteValues(sem, db1, cs, env) == CteValues(sem, db2, cs, env)
  {
    if cs.Cte? {
      ValueDependsOnFreeTables(sem, db1, db2, cs.query, env);
      var inner := env[Lower(cs.name) := Value(sem, db1, cs.query, env)];
      assert inner.Keys == env.Keys + {Lower(cs.name)};
      CteValuesDependOnFreeTables(sem, db1, db2, cs.rest, inner);
    }
  }

  /* ---- No free table is superfluous ---- */

  function Union(vs: seq<set<string>>): set<string> {
    if vs == [] then {} else vs[0] + Union(vs[1..])
  }

  /** The semantics in which every operand counts. */
  function Tracing(op: Op, vs: seq<set<string>>): set<string> { Union(vs) }

  lemma {:induction false} UnionOfConcat(a: seq<set<string>>, b: seq<set<string>>)
    ensures Union(a + b) == Union(a) + Union(b)
  {
    if a == [] {
      assert a + b == b;
    } else {
      assert (a + b)[1..] == a[1..] + b;
      UnionOfConcat(a[1..], b);
    }
  }

  /** The database in which each table holds its own name, except `hole`. */
  function Names(hole: Option<string>): Database<set<string>> {
    t => if hole == Some(t) then {} else {t}
  }

  ghost predicate Without(env: map<string, set<string>>, t: string) {
    forall k :: k in env ==> t !in env[k]
  }

  lemma {:induction false} TraceAvoids(n: Node, env: map<string, set<string>>, t: string)
    requires Without(env, t)
    ensures t !in Value(Tracing, Names(Some(t)), n, env)
  {
    match n
    case Query(_, None, parts) => TracesAvoid(parts, env, t);
    case Query(_, Some(w), parts) =>
      CteTracesAvoid(w.ctes, env, t);
      var (vs, inner) := CteValues(Tracing, Names(Some(t)), w.ctes, env);
      TracesAvoid(parts, inner, t);
      UnionOfConcat(vs, Values(Tracing, Names(Some(t)), parts, inner));
    case Table(_, name) =>
    case FuncCall(_, _, args) => TracesAvoid(args, env, t);
    case Variable(parts) => TracesAvoid(parts, env, t);
    case Other(_, parts) => TracesAvoid(parts, env, t);
  }

  lemma {:induction false} TracesAvoid(ns: Nodes, env: map<string, set<string>>, t: string)
    requires Without(env, t)
    ensures t !in Union(Values(Tracing, Names(Some(t)), ns, env))
  {
    if ns.Cons? {
      TraceAvoids(ns.head, env, t);
      TracesAvoid(ns.tail, env, t);
      UnionOfConcat([Value(Tracing, Names(Some(t)), ns.head, env)], Values(Tracing, Names(Some(t)), ns.tail, env));
    }
  }

  lemma {:induction false} CteTracesAvoid(cs: Ctes, env: map<string, set<string>>, t: string)
    requires Without(env, t)
    ensures var (vs, inner) := CteValues(Tracing, Names(Some(t)), cs, env); t !in Union(vs) && Without(inner, t)
  {
    if cs.Cte? {
      TraceAvoids(cs.query, env, t);
      var v := Value(Tracing, Names(Some(t)), cs.query, env);
      CteTracesAvoid(cs.rest, env[Lower(cs.name) := v], t);
      UnionOfConcat([v], CteValues(Tracing, Names(Some(t)), cs.rest, env[Lower(cs.name) := v]).0);
    }
  }

  lemma {:induction false} TraceReaches(n: Node, env: map<string, set<string>>, t: string)
    requires t in FreeTables(n, env.Keys)
    ensures t in Value(Tracing, Names(None), n, env)
  {
    match n
    case Query(_, None, parts) => TracesReach(parts, env, t);
    case Query(_, Some(w), parts) =>
      var (vs, inner) := CteValues(Tracing, Names(None), w.ctes, env);
      UnionOfConcat(vs, Values(Tracing, Names(None), parts, inner));
      if t in FreeInCtes(w.ctes, env.Keys) {
        CteTracesReach(w.ctes, env, t);
      } else {
        TracesReach(parts, inner, t);
      }
    case Table(_, name) =>
    case FuncCall(_, _, args) => TracesReach(args, env, t);
    case Variable(parts) => TracesReach(parts, env, t);
    case Other(_, parts) => TracesReach(parts, env, t);
  }

  lemma {:induction false} TracesReach(ns: Nodes, env: map<string, set<string>>, t: string)
    requires t in FreeInAll(ns, env.Keys)
    ensures t in Union(Values(Tracing, Names(None), ns, env))
  {
    UnionOfConcat([Value(Tracing, Names(None), ns.head, env)], Values(Tracing, Names(None), ns.tail, env));
    if t in FreeTables(ns.head, env.Keys) {
      TraceReaches(ns.head, env, t);
    } else {
      TracesReach(ns.tail, env, t);
    }
  }

  lemma {:induction false} CteTracesReach(cs: Ctes, env: map<string, set<string>>, t: string)
    requires t in FreeInCtes(cs, env.Keys)
    ensures t in Union(CteValues(Tracing, Names(None), cs, env).0)
  {
    var v := Value(Tracing, Names(None), cs.query, env);
    var inner := env[Lower(cs.name) := v];
    assert inner.Keys == env.Keys + {Lower(cs.name)};
    UnionOfConcat([v], CteValues(Tracing, Names(None), cs.rest, inner).0);
    if t in FreeTables(cs.query, env.Keys) {
      TraceReaches(cs.query, env, t);
    } else {
      CteTracesReach(cs.rest, inner, t);
    }
  }

  /** For every free table there are a semantics and two databases that differ
      in that table alone and give the tree different values. */
  lemma FreeTablesAreNeeded(n: Node, t: string)
    requires t in FreeTables(n, {})
    ensures Agree(Names(None), Names(Some(t)), FreeTables(n, {}) - {t})
    ensures Value(Tracing, Names(None), n, map[]) != Value(Tracing, Names(Some(t)), n, map[])
  {
    var empty: map<string, set<string>> := map[];
    assert empty.Keys == {};
    TraceReaches(n, empty, t);
    TraceAvoids(n, empty, t);
  }
}
