/**
 What the plan parsers keep of a document, element name by element name. Of the elements that are not
 inside a part with a parser of its own, they keep the last of a name, or count or collect all of them.
 */
module ShowplanParts {
  import opened Runes
  import opened Showplan

  // ---------- Elements by name ----------

  type Part = e: Node | e.Element? witness Element("", map[], [])

  /** The elements called name in document order, without looking into the elements called in closed. */
  function Named(nodes: seq<Node>, name: string, closed: set<string>): seq<Part> {
    if nodes == [] then []
    else
      match nodes[0]
      case Chardata => Named(nodes[1..], name, closed)
      case Element(tag, _, children) =>
        (if tag == name then [nodes[0]] else [])
        + (if tag in closed then [] else Named(children, name, closed))
        + Named(nodes[1..], name, closed)
  }

  /** The parts of a query plan and of an operator that have parsers of their own. */
  const PARTS: set<string> := {"Warnings", "RelOp"}

  const PLANS: set<string> := {"QueryPlan"}

  /** What the last of the parts gives, where there is one. */
  function Last<T>(parts: seq<Part>, read: Part -> T, otherwise: T): T {
    if parts == [] then otherwise else read(parts[|parts| - 1])
  }

  function All<T>(parts: seq<Part>, read: Part -> T): seq<T> {
    seq(|parts|, k requires 0 <= k < |parts| => read(parts[k]))
  }

  function AttrsIn(e: Part): Attrs { e.attrs }

  function SomeAttrs(e: Part): Option<Attrs> { Some(e.attrs) }

  function WarningsIn(e: Part): seq<Warning> { WarningsOf(e.children) }

  /** The operator that parsing the element e gives. */
  function Operator(e: Part): RelOp {
    RelExact(e.children, [], e.attrs);
    Rel(Tokens(e.children) + ([End] + []), 1, NewRelOp(e.attrs)).value.0
  }

  function SomeOperator(e: Part): Option<RelOp> { Some(Operator(e)) }

  lemma OperatorIsInRel(e: Part)
    ensures Operator(e) == InRel(e.children, NewRelOp(e.attrs))
  {
    RelExact(e.children, [], e.attrs);
  }

  /** The query plan that parsing the element e gives. */
  function PlanIn(e: Part): QueryPlan {
    PlanExact(e.children, [], e.attrs);
    Plan(Tokens(e.children) + ([End] + []), 1, NewQueryPlan(e.attrs)).value.0
  }

  function SomePlan(e: Part): Option<QueryPlan> { Some(PlanIn(e)) }

  lemma PlanIsInPlan(e: Part)
    ensures PlanIn(e) == InPlan(e.children, NewQueryPlan(e.attrs))
  {
    PlanExact(e.children, [], e.attrs);
  }

  // ---------- What each parser keeps ----------

  /** after is before with what a query plan keeps of nodes. */
  ghost predicate PlanKeeps(nodes: seq<Node>, before: QueryPlan, after: QueryPlan) {
    && after.attrs == before.attrs
    && after.memoryGrant == Last(Named(nodes, "MemoryGrantInfo", PARTS), SomeAttrs, before.memoryGrant)
    && after.hardwareProps ==
       Last(Named(nodes, "OptimizerHardwareDependentProperties", PARTS), SomeAttrs, before.hardwareProps)
    && after.timeStats == Last(Named(nodes, "QueryTimeStats", PARTS), SomeAttrs, before.timeStats)
    && after.statsRefCount == before.statsRefCount + |Named(nodes, "StatisticsInfo", PARTS)|
    && after.warnings == Last(Named(nodes, "Warnings", PARTS), WarningsIn, before.warnings)
    && after.root == Last(Named(nodes, "RelOp", PARTS), SomeOperator, before.root)
  }

  /** after is before with what an operator keeps of nodes. */
  ghost predicate RelKeeps(nodes: seq<Node>, before: RelOp, after: RelOp) {
    && after.attrs == before.attrs
    && after.threads == before.threads + All(Named(nodes, "RunTimeCountersPerThread", PARTS), AttrsIn)
    && after.object_ == Last(Named(nodes, "Object", PARTS), SomeAttrs, before.object_)
    && after.warnings == Last(Named(nodes, "Warnings", PARTS), WarningsIn, before.warnings)
    && after.children == before.children + All(Named(nodes, "RelOp", PARTS), Operator)
  }

  /** after is before with what a statement keeps of nodes. */
  ghost predicate StatementKeeps(nodes: seq<Node>, before: Stmt, after: Stmt) {
    && after.attrs == before.attrs
    && after.setOptions == Last(Named(nodes, "StatementSetOptions", PLANS), SomeAttrs, before.setOptions)
    && after.queryPlan == Last(Named(nodes, "QueryPlan", PLANS), SomePlan, before.queryPlan)
  }

  // ---------- Parts of the first node and of the rest ----------

  lemma NamedNone(name: string, closed: set<string>)
    ensures Named([], name, closed) == []
  {
  }

  lemma {:induction false} NamedSplit(nodes: seq<Node>, name: string, closed: set<string>)
    requires nodes != []
    ensures Named(nodes, name, closed) == Named([nodes[0]], name, closed) + Named(nodes[1..], name, closed)
  {
    assert [nodes[0]][1..] == [];
    NamedNone(name, closed);
  }

  /** The part of one element: itself, and what is inside it if it is looked into. */
  lemma {:induction false} NamedOne(e: Part, name: string, closed: set<string>)
    ensures Named([e], name, closed) ==
            (if e.name == name then [e] else []) + (if e.name in closed then [] else Named(e.children, name, closed))
  {
    assert [e][1..] == [];
    NamedNone(name, closed);
  }

  lemma LastConcat<T>(a: seq<Part>, b: seq<Part>, read: Part -> T, otherwise: T)
    ensures Last(a + b, read, otherwise) == Last(b, read, Last(a, read, otherwise))
  {
    if b == [] {
      assert a + b == a;
    }
  }

  lemma LastSplit<T>(nodes: seq<Node>, name: string, closed: set<string>, read: Part -> T, otherwise: T)
    requires nodes != []
    ensures Last(Named(nodes, name, closed), read, otherwise) ==
            Last(Named(nodes[1..], name, closed), read, Last(Named([nodes[0]], name, closed), read, otherwise))
  {
    NamedSplit(nodes, name, closed);
    LastConcat(Named([nodes[0]], name, closed), Named(nodes[1..], name, closed), read, otherwise);
  }

  lemma LastOne<T>(e: Part, name: string, closed: set<string>, read: Part -> T, otherwise: T)
    ensures Last(Named([e], name, closed), read, otherwise) ==
            var own := if e.name == name then read(e) else otherwise;
            if e.name in closed then own else Last(Named(e.children, name, closed), read, own)
  {
    NamedOne(e, name, closed);
    var own: seq<Part> := if e.name == name then [e] else [];
    var inner := if e.name in closed then [] else Named(e.children, name, closed);
    LastConcat(own, inner, read, otherwise);
  }

  lemma AllSplit<T>(nodes: seq<Node>, name: string, closed: set<string>, read: Part -> T)
    requires nodes != []
    ensures All(Named(nodes, name, closed), read) ==
            All(Named([nodes[0]], name, closed), read) + All(Named(nodes[1..], name, closed), read)
  {
    NamedSplit(nodes, name, closed);
  }

  lemma AllOne<T>(e: Part, name: string, closed: set<string>, read: Part -> T)
    ensures All(Named([e], name, closed), read) ==
            (if e.name == name then [read(e)] else [])
            + (if e.name in closed then [] else All(Named(e.children, name, closed), read))
  {
    NamedOne(e, name, closed);
  }

  lemma ChardataFirst(nodes: seq<Node>)
    requires nodes != [] && nodes[0].Chardata?
    ensures forall name, closed :: Named(nodes, name, closed) == Named(nodes[1..], name, closed)
  {
  }

  // ---------- Query plans ----------

  lemma PlanKeepsNone(qp: QueryPlan)
    ensures PlanKeeps([], qp, qp)
  {
  }

  lemma PlanKeepsBoth(nodes: seq<Node>, before: QueryPlan, middle: QueryPlan, after: QueryPlan)
    requires nodes != [] && PlanKeeps([nodes[0]], before, middle) && PlanKeeps(nodes[1..], middle, after)
    ensures PlanKeeps(nodes, before, after)
  {
    hide Named, Last;
    LastSplit(nodes, "MemoryGrantInfo", PARTS, SomeAttrs, before.memoryGrant);
    LastSplit(nodes, "OptimizerHardwareDependentProperties", PARTS, SomeAttrs, before.hardwareProps);
    LastSplit(nodes, "QueryTimeStats", PARTS, SomeAttrs, before.timeStats);
    NamedSplit(nodes, "StatisticsInfo", PARTS);
    LastSplit(nodes, "Warnings", PARTS, WarningsIn, before.warnings);
    LastSplit(nodes, "RelOp", PARTS, SomeOperator, before.root);
  }

  /** The element e, given what is kept of its inside if it is looked into. */
  lemma PlanKeepsOne(e: Part, before: QueryPlan, after: QueryPlan)
    requires e.name !in PARTS ==> PlanKeeps(e.children, PlanElement(before, e.name, e.attrs), after)
    requires e.name == "Warnings" ==> after == before.(warnings := WarningsOf(e.children))
    requires e.name == "RelOp" ==> after == before.(root := Some(Operator(e)))
    ensures PlanKeeps([e], before, after)
  {
    hide Named, Last;
    LastOne(e, "MemoryGrantInfo", PARTS, SomeAttrs, before.memoryGrant);
    LastOne(e, "OptimizerHardwareDependentProperties", PARTS, SomeAttrs, before.hardwareProps);
    LastOne(e, "QueryTimeStats", PARTS, SomeAttrs, before.timeStats);
    NamedOne(e, "StatisticsInfo", PARTS);
    LastOne(e, "Warnings", PARTS, WarningsIn, before.warnings);
    LastOne(e, "RelOp", PARTS, SomeOperator, before.root);
  }

  lemma {:induction false} InPlanKeeps(nodes: seq<Node>, qp: QueryPlan)
    ensures PlanKeeps(nodes, qp, InPlan(nodes, qp))
    decreases nodes
  {
    hide PlanKeeps, Named, Last, PlanElement, InRel, WarningsOf, Operator;
    if nodes == [] {
      PlanKeepsNone(qp);
    } else if nodes[0].Chardata? {
      InPlanKeeps(nodes[1..], qp);
      PlanKeepsRest(nodes, qp, InPlan(nodes, qp));
    } else {
      var e := nodes[0];
      var middle :=
        if e.name == "Warnings" then qp.(warnings := WarningsOf(e.children))
        else if e.name == "RelOp" then qp.(root := Some(InRel(e.children, NewRelOp(e.attrs))))
        else InPlan(e.children, PlanElement(qp, e.name, e.attrs));
      OperatorIsInRel(e);
      if e.name !in PARTS {
        InPlanKeeps(e.children, PlanElement(qp, e.name, e.attrs));
      }
      PlanKeepsOne(e, qp, middle);
      InPlanKeeps(nodes[1..], middle);
      PlanKeepsBoth(nodes, qp, middle, InPlan(nodes, qp));
    }
  }

  lemma PlanKeepsRest(nodes: seq<Node>, before: QueryPlan, after: QueryPlan)
    requires nodes != [] && nodes[0].Chardata? && PlanKeeps(nodes[1..], before, after)
    ensures PlanKeeps(nodes, before, after)
  {
    hide Last;
    ChardataFirst(nodes);
  }

  /**
   A query plan, parsed out of a token stream, holds what the elements of its tree say: the last memory
   grant, hardware properties and time statistics, the number of statistics, the last warnings and the
   last operator that is not inside another one.
   */
  lemma PlanReads(children: seq<Node>, rest: seq<Token>, attrs: Attrs)
    ensures var r := Plan(Tokens(children) + ([End] + rest), 1, NewQueryPlan(attrs));
            && r.Some? && r.value.1 == rest
            && PlanKeeps(children, NewQueryPlan(attrs), r.value.0)
  {
    PlanExact(children, rest, attrs);
    InPlanKeeps(children, NewQueryPlan(attrs));
  }

  // ---------- Operators ----------

  lemma RelKeepsNone(op: RelOp)
    ensures RelKeeps([], op, op)
  {
  }

  lemma RelKeepsBoth(nodes: seq<Node>, before: RelOp, middle: RelOp, after: RelOp)
    requires nodes != [] && RelKeeps([nodes[0]], before, middle) && RelKeeps(nodes[1..], middle, after)
    ensures RelKeeps(nodes, before, after)
  {
    hide Named, Last, All;
    AllSplit(nodes, "RunTimeCountersPerThread", PARTS, AttrsIn);
    LastSplit(nodes, "Object", PARTS, SomeAttrs, before.object_);
    LastSplit(nodes, "Warnings", PARTS, WarningsIn, before.warnings);
    AllSplit(nodes, "RelOp", PARTS, Operator);
  }

  lemma RelKeepsOne(e: Part, before: RelOp, after: RelOp)
    requires e.name == "RunTimeCountersPerThread" ==>
               RelKeeps(e.children, before.(threads := before.threads + [e.attrs]), after)
    requires e.name == "Object" ==> RelKeeps(e.children, before.(object_ := Some(e.attrs)), after)
    requires e.name == "Warnings" ==> after == before.(warnings := WarningsOf(e.children))
    requires e.name == "RelOp" ==> after == before.(children := before.children + [Operator(e)])
    requires e.name !in PARTS && e.name != "RunTimeCountersPerThread" && e.name != "Object" ==>
               RelKeeps(e.children, before, after)
    ensures RelKeeps([e], before, after)
  {
    hide Named, Last, All;
    AllOne(e, "RunTimeCountersPerThread", PARTS, AttrsIn);
    LastOne(e, "Object", PARTS, SomeAttrs, before.object_);
    LastOne(e, "Warnings", PARTS, WarningsIn, before.warnings);
    AllOne(e, "RelOp", PARTS, Operator);
  }

  lemma {:induction false} InRelKeeps(nodes: seq<Node>, op: RelOp)
    ensures RelKeeps(nodes, op, InRel(nodes, op))
    decreases nodes
  {
    hide RelKeeps, Named, Last, All, WarningsOf, Operator;
    if nodes == [] {
      RelKeepsNone(op);
    } else if nodes[0].Chardata? {
      InRelKeeps(nodes[1..], op);
      RelKeepsRest(nodes, op, InRel(nodes, op));
    } else {
      var e := nodes[0];
      var own :=
        if e.name == "RunTimeCountersPerThread" then op.(threads := op.threads + [e.attrs])
        else if e.name == "Object" then op.(object_ := Some(e.attrs))
        else op;
      var middle :=
        if e.name == "Warnings" then op.(warnings := WarningsOf(e.children))
        else if e.name == "RelOp" then op.(children := op.children + [InRel(e.children, NewRelOp(e.attrs))])
        else InRel(e.children, own);
      OperatorIsInRel(e);
      if e.name !in PARTS {
        InRelKeeps(e.children, own);
      }
      RelKeepsOne(e, op, middle);
      InRelKeeps(nodes[1..], middle);
      RelKeepsBoth(nodes, op, middle, InRel(nodes, op));
    }
  }

  lemma RelKeepsRest(nodes: seq<Node>, before: RelOp, after: RelOp)
    requires nodes != [] && nodes[0].Chardata? && RelKeeps(nodes[1..], before, after)
    ensures RelKeeps(nodes, before, after)
  {
    hide Last, All;
    ChardataFirst(nodes);
  }

  /** The same for an operator, whose children are the operators of the elements directly under it. */
  lemma RelReads(children: seq<Node>, rest: seq<Token>, attrs: Attrs)
    ensures var r := Rel(Tokens(children) + ([End] + rest), 1, NewRelOp(attrs));
            && r.Some? && r.value.1 == rest
            && RelKeeps(children, NewRelOp(attrs), r.value.0)
  {
    RelExact(children, rest, attrs);
    InRelKeeps(children, NewRelOp(attrs));
  }

  // ---------- Statements ----------

  lemma StatementKeepsNone(stmt: Stmt)
    ensures StatementKeeps([], stmt, stmt)
  {
  }

  lemma StatementKeepsBoth(nodes: seq<Node>, before: Stmt, middle: Stmt, after: Stmt)
    requires nodes != [] && StatementKeeps([nodes[0]], before, middle) && StatementKeeps(nodes[1..], middle, after)
    ensures StatementKeeps(nodes, before, after)
  {
    hide Named, Last;
    LastSplit(nodes, "StatementSetOptions", PLANS, SomeAttrs, before.setOptions);
    LastSplit(nodes, "QueryPlan", PLANS, SomePlan, before.queryPlan);
  }

  lemma StatementKeepsOne(e: Part, before: Stmt, after: Stmt)
    requires e.name == "QueryPlan" ==> after == before.(queryPlan := Some(PlanIn(e)))
    requires e.name == "StatementSetOptions" ==> StatementKeeps(e.children, before.(setOptions := Some(e.attrs)), after)
    requires e.name != "QueryPlan" && e.name != "StatementSetOptions" ==> StatementKeeps(e.children, before, after)
    ensures StatementKeeps([e], before, after)
  {
    hide Named, Last;
    LastOne(e, "StatementSetOptions", PLANS, SomeAttrs, before.setOptions);
    LastOne(e, "QueryPlan", PLANS, SomePlan, before.queryPlan);
  }

  /** What a statement keeps of its tree: the last set options and the last query plan. */
  lemma {:induction false} InStatementKeeps(nodes: seq<Node>, stmt: Stmt)
    ensures StatementKeeps(nodes, stmt, InStatement(nodes, stmt))
    decreases nodes
  {
    hide StatementKeeps, Named, Last, PlanIn;
    if nodes == [] {
      StatementKeepsNone(stmt);
    } else if nodes[0].Chardata? {
      InStatementKeeps(nodes[1..], stmt);
      StatementKeepsRest(nodes, stmt, InStatement(nodes, stmt));
    } else {
      var e := nodes[0];
      var own := if e.name == "StatementSetOptions" then stmt.(setOptions := Some(e.attrs)) else stmt;
      var middle :=
        if e.name == "QueryPlan" then stmt.(queryPlan := Some(InPlan(e.children, NewQueryPlan(e.attrs))))
        else InStatement(e.children, own);
      PlanIsInPlan(e);
      if e.name != "QueryPlan" {
        InStatementKeeps(e.children, own);
      }
      StatementKeepsOne(e, stmt, middle);
      InStatementKeeps(nodes[1..], middle);
      StatementKeepsBoth(nodes, stmt, middle, InStatement(nodes, stmt));
    }
  }

  lemma StatementKeepsRest(nodes: seq<Node>, before: Stmt, after: Stmt)
    requires nodes != [] && nodes[0].Chardata? && StatementKeeps(nodes[1..], before, after)
    ensures StatementKeeps(nodes, before, after)
  {
    hide Last;
    ChardataFirst(nodes);
  }

  /** The number of query plans that are not inside another one. */
  lemma {:induction false} PlanCountIsNamed(nodes: seq<Node>)
    ensures PlanCount(nodes) == |Named(nodes, "QueryPlan", PLANS)|
  {
    if nodes != [] {
      PlanCountIsNamed(nodes[1..]);
      if nodes[0].Element? && nodes[0].name != "QueryPlan" {
        PlanCountIsNamed(nodes[0].children);
      }
    }
  }
}
