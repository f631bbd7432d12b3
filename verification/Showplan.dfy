/**
 The execution plan parser over a stream of XML tokens: consumers that count depth and call each
 other, and the projection of a document that they compute.
 */
module Showplan {
  import opened Runes

  type Attrs = map<string, string>

  datatype Token = Start(name: string, attrs: Attrs) | End | Other

  datatype Warning = Warning(tag: string, attrs: Attrs, children: seq<Warning>)

  /** An operator; counters and object references are kept as the attributes they are read from. */
  datatype RelOp = RelOp(
    attrs: Attrs,
    threads: seq<Attrs>,
    object_: Option<Attrs>,
    warnings: seq<Warning>,
    children: seq<RelOp>)

  datatype QueryPlan = QueryPlan(
    attrs: Attrs,
    memoryGrant: Option<Attrs>,
    hardwareProps: Option<Attrs>,
    warnings: seq<Warning>,
    timeStats: Option<Attrs>,
    statsRefCount: nat,
    root: Option<RelOp>)

  datatype Stmt = Stmt(attrs: Attrs, setOptions: Option<Attrs>, queryPlan: Option<QueryPlan>)

  function NewRelOp(attrs: Attrs): RelOp {
    RelOp(attrs, [], None, [], [])
  }

  function NewQueryPlan(attrs: Attrs): QueryPlan {
    QueryPlan(attrs, None, None, [], None, 0, None)
  }

  /** A parsed value and the tokens that are left; None when the stream ends too early. */
  type Parsed<T> = Option<(T, seq<Token>)>

  // ---------- Consuming tokens ----------

  /** The descendants of one warning, depth levels of which are open. */
  function WarningChildren(toks: seq<Token>, depth: nat, acc: seq<Warning>): (r: Parsed<seq<Warning>>)
    ensures r.Some? ==> if depth == 0 then r.value == (acc, toks) else |r.value.1| < |toks|
    decreases |toks|
  {
    if depth == 0 then Some((acc, toks))
    else if toks == [] then None
    else
      match toks[0]
      case Start(name, attrs) => WarningChildren(toks[1..], depth + 1, acc + [Warning(name, attrs, [])])
      case End => WarningChildren(toks[1..], depth - 1, acc)
      case Other => WarningChildren(toks[1..], depth, acc)
  }

  function Warnings(toks: seq<Token>, acc: seq<Warning>): (r: Parsed<seq<Warning>>)
    ensures r.Some? ==> |r.value.1| < |toks|
    decreases |toks|
  {
    if toks == [] then None
    else
      match toks[0]
      case Start(name, attrs) =>
        var sub := WarningChildren(toks[1..], 1, []);
        if sub.None? then None else Warnings(sub.value.1, acc + [Warning(name, attrs, sub.value.0)])
      case End => Some((acc, toks[1..]))
      case Other => Warnings(toks[1..], acc)
  }

  /** The inside of an operator of which depth elements are open. */
  function Rel(toks: seq<Token>, depth: nat, op: RelOp): (r: Parsed<RelOp>)
    ensures r.Some? ==> if depth == 0 then r.value == (op, toks) else |r.value.1| < |toks|
    decreases |toks|
  {
    if depth == 0 then Some((op, toks))
    else if toks == [] then None
    else
      match toks[0]
      case End => Rel(toks[1..], depth - 1, op)
      case Other => Rel(toks[1..], depth, op)
      case Start(name, attrs) =>
        if name == "RunTimeCountersPerThread" then
          Rel(toks[1..], depth + 1, op.(threads := op.threads + [attrs]))
        else if name == "Object" then
          Rel(toks[1..], depth + 1, op.(object_ := Some(attrs)))
        else if name == "Warnings" then
          var w := Warnings(toks[1..], []);
          if w.None? then None else Rel(w.value.1, depth, op.(warnings := w.value.0))
        else if name == "RelOp" then
          var child := Rel(toks[1..], 1, NewRelOp(attrs));
          if child.None? then None
          else Rel(child.value.1, depth, op.(children := op.children + [child.value.0]))
        else Rel(toks[1..], depth + 1, op)
  }

  function Plan(toks: seq<Token>, depth: nat, qp: QueryPlan): (r: Parsed<QueryPlan>)
    ensures r.Some? ==> if depth == 0 then r.value == (qp, toks) else |r.value.1| < |toks|
    decreases |toks|
  {
    if depth == 0 then Some((qp, toks))
    else if toks == [] then None
    else
      match toks[0]
      case End => Plan(toks[1..], depth - 1, qp)
      case Other => Plan(toks[1..], depth, qp)
      case Start(name, attrs) =>
        if name == "Warnings" then
          var w := Warnings(toks[1..], []);
          if w.None? then None else Plan(w.value.1, depth, qp.(warnings := w.value.0))
        else if name == "RelOp" then
          var op := Rel(toks[1..], 1, NewRelOp(attrs));
          if op.None? then None else Plan(op.value.1, depth, qp.(root := Some(op.value.0)))
        else Plan(toks[1..], depth + 1, PlanElement(qp, name, attrs))
  }

  /** The elements of a query plan whose attributes are kept. */
  function PlanElement(qp: QueryPlan, name: string, attrs: Attrs): QueryPlan {
    if name == "MemoryGrantInfo" then qp.(memoryGrant := Some(attrs))
    else if name == "OptimizerHardwareDependentProperties" then qp.(hardwareProps := Some(attrs))
    else if name == "QueryTimeStats" then qp.(timeStats := Some(attrs))
    else if name == "StatisticsInfo" then qp.(statsRefCount := qp.statsRefCount + 1)
    else qp
  }

  /** The query plan has consumed its own end tag, but the depth it opened is not given back. */
  function Statement(toks: seq<Token>, depth: nat, stmt: Stmt): (r: Parsed<Stmt>)
    ensures r.Some? ==> if depth == 0 then r.value == (stmt, toks) else |r.value.1| < |toks|
    decreases |toks|
  {
    if depth == 0 then Some((stmt, toks))
    else if toks == [] then None
    else
      match toks[0]
      case End => Statement(toks[1..], depth - 1, stmt)
      case Other => Statement(toks[1..], depth, stmt)
      case Start(name, attrs) =>
        if name == "StatementSetOptions" then Statement(toks[1..], depth + 1, stmt.(setOptions := Some(attrs)))
        else if name == "QueryPlan" then
          var qp := Plan(toks[1..], 1, NewQueryPlan(attrs));
          if qp.None? then None else Statement(qp.value.1, depth + 1, stmt.(queryPlan := Some(qp.value.0)))
        else Statement(toks[1..], depth + 1, stmt)
  }

  // ---------- Documents ----------

  /** A well-formed piece of a document. */
  datatype Node = Element(name: string, attrs: Attrs, children: seq<Node>) | Chardata

  function Tokens(nodes: seq<Node>): seq<Token> {
    if nodes == [] then []
    else
      match nodes[0]
      case Chardata => [Other] + Tokens(nodes[1..])
      case Element(name, attrs, children) => [Start(name, attrs)] + Tokens(children) + [End] + Tokens(nodes[1..])
  }

  /** All elements of nodes in document order, as warnings without children. */
  function Descendants(nodes: seq<Node>): seq<Warning> {
    if nodes == [] then []
    else
      match nodes[0]
      case Chardata => Descendants(nodes[1..])
      case Element(name, attrs, children) =>
        [Warning(name, attrs, [])] + Descendants(children) + Descendants(nodes[1..])
  }

  /** The warnings under a Warnings element: its child elements, each with all its descendants. */
  function WarningsOf(nodes: seq<Node>): seq<Warning> {
    if nodes == [] then []
    else
      match nodes[0]
      case Chardata => WarningsOf(nodes[1..])
      case Element(name, attrs, children) =>
        [Warning(name, attrs, Descendants(children))] + WarningsOf(nodes[1..])
  }

  /** The operator op with what nodes add to it. */
  function InRel(nodes: seq<Node>, op: RelOp): RelOp
    decreases nodes
  {
    if nodes == [] then op
    else
      match nodes[0]
      case Chardata => InRel(nodes[1..], op)
      case Element(name, attrs, children) =>
        if name == "Warnings" then InRel(nodes[1..], op.(warnings := WarningsOf(children)))
        else if name == "RelOp" then
          InRel(nodes[1..], op.(children := op.children + [InRel(children, NewRelOp(attrs))]))
        else if name == "RunTimeCountersPerThread" then
          InRel(nodes[1..], InRel(children, op.(threads := op.threads + [attrs])))
        else if name == "Object" then
          InRel(nodes[1..], InRel(children, op.(object_ := Some(attrs))))
        else InRel(nodes[1..], InRel(children, op))
  }

  function InPlan(nodes: seq<Node>, qp: QueryPlan): QueryPlan
    decreases nodes
  {
    if nodes == [] then qp
    else
      match nodes[0]
      case Chardata => InPlan(nodes[1..], qp)
      case Element(name, attrs, children) =>
        if name == "Warnings" then InPlan(nodes[1..], qp.(warnings := WarningsOf(children)))
        else if name == "RelOp" then InPlan(nodes[1..], qp.(root := Some(InRel(children, NewRelOp(attrs)))))
        else InPlan(nodes[1..], InPlan(children, PlanElement(qp, name, attrs)))
  }

  function InStatement(nodes: seq<Node>, stmt: Stmt): Stmt
    decreases nodes
  {
    if nodes == [] then stmt
    else
      match nodes[0]
      case Chardata => InStatement(nodes[1..], stmt)
      case Element(name, attrs, children) =>
        if name == "QueryPlan" then
          InStatement(nodes[1..], stmt.(queryPlan := Some(InPlan(children, NewQueryPlan(attrs)))))
        else if name == "StatementSetOptions" then
          InStatement(nodes[1..], InStatement(children, stmt.(setOptions := Some(attrs))))
        else InStatement(nodes[1..], InStatement(children, stmt))
  }

  /** Query plan elements that are not inside another one. */
  function PlanCount(nodes: seq<Node>): nat {
    if nodes == [] then 0
    else
      match nodes[0]
      case Chardata => PlanCount(nodes[1..])
      case Element(name, _, children) =>
        (if name == "QueryPlan" then 1 else PlanCount(children)) + PlanCount(nodes[1..])
  }

  // ---------- Each parser consumes exactly its own element ----------

  /** The tokens of the first node, and of what follows. */
  lemma {:induction false} FirstTokens(nodes: seq<Node>, rest: seq<Token>)
    requires nodes != [] && nodes[0].Element?
    ensures Tokens(nodes) + rest ==
            [Start(nodes[0].name, nodes[0].attrs)]
            + (Tokens(nodes[0].children) + ([End] + (Tokens(nodes[1..]) + rest)))
  {
    var a, b, c := [Start(nodes[0].name, nodes[0].attrs)], Tokens(nodes[0].children), Tokens(nodes[1..]);
    Regroup((a + b) + [End], c, rest);
    Regroup(a + b, [End], c + rest);
    Regroup(a, b, [End] + (c + rest));
  }

  lemma {:induction false} FirstOther(nodes: seq<Node>, rest: seq<Token>)
    requires nodes != [] && nodes[0].Chardata?
    ensures Tokens(nodes) + rest == [Other] + (Tokens(nodes[1..]) + rest)
  {
    Regroup([Other], Tokens(nodes[1..]), rest);
  }

  lemma NoTokens(rest: seq<Token>)
    ensures Tokens([]) + rest == rest
  {
  }

  lemma AfterFirst(tok: Token, rest: seq<Token>)
    ensures ([tok] + rest)[0] == tok && ([tok] + rest)[1..] == rest && [tok] + rest != []
  {
  }

  lemma {:induction false} ChildrenExact(nodes: seq<Node>, rest: seq<Token>, depth: nat, acc: seq<Warning>)
    requires depth > 0
    ensures WarningChildren(Tokens(nodes) + rest, depth, acc) == WarningChildren(rest, depth, acc + Descendants(nodes))
    decreases nodes
  {
    if nodes == [] {
      assert [] + rest == rest && acc + [] == acc;
    } else if nodes[0].Chardata? {
      FirstOther(nodes, rest);
      AfterFirst(Other, Tokens(nodes[1..]) + rest);
      ChildrenExact(nodes[1..], rest, depth, acc);
    } else {
      var Element(name, attrs, children) := nodes[0];
      var w := Warning(name, attrs, []);
      var after := Tokens(nodes[1..]) + rest;
      FirstTokens(nodes, rest);
      AfterFirst(Start(name, attrs), Tokens(children) + ([End] + after));
      ChildrenExact(children, [End] + after, depth + 1, acc + [w]);
      AfterFirst(End, after);
      ChildrenExact(nodes[1..], rest, depth, (acc + [w]) + Descendants(children));
      Regroup(acc, [w], Descendants(children));
      Regroup(acc, [w] + Descendants(children), Descendants(nodes[1..]));
    }
  }

  lemma {:induction false} WarningsExactFrom(nodes: seq<Node>, rest: seq<Token>, acc: seq<Warning>)
    ensures Warnings(Tokens(nodes) + ([End] + rest), acc) == Some((acc + WarningsOf(nodes), rest))
    decreases nodes
  {
    AfterFirst(End, rest);
    if nodes == [] {
      assert [] + ([End] + rest) == [End] + rest && acc + [] == acc;
    } else if nodes[0].Chardata? {
      FirstOther(nodes, [End] + rest);
      AfterFirst(Other, Tokens(nodes[1..]) + ([End] + rest));
      WarningsExactFrom(nodes[1..], rest, acc);
    } else {
      var Element(name, attrs, children) := nodes[0];
      var after := Tokens(nodes[1..]) + ([End] + rest);
      FirstTokens(nodes, [End] + rest);
      AfterFirst(Start(name, attrs), Tokens(children) + ([End] + after));
      ChildrenExact(children, [End] + after, 1, []);
      assert [] + Descendants(children) == Descendants(children);
      AfterFirst(End, after);
      var w := Warning(name, attrs, Descendants(children));
      WarningsExactFrom(nodes[1..], rest, acc + [w]);
      Regroup(acc, [w], WarningsOf(nodes[1..]));
    }
  }

  lemma {:induction false} RelExactFrom(nodes: seq<Node>, rest: seq<Token>, depth: nat, op: RelOp)
    requires depth > 0
    ensures Rel(Tokens(nodes) + rest, depth, op) == Rel(rest, depth, InRel(nodes, op))
    decreases nodes
  {
    if nodes == [] {
      assert [] + rest == rest;
    } else if nodes[0].Chardata? {
      FirstOther(nodes, rest);
      AfterFirst(Other, Tokens(nodes[1..]) + rest);
      RelExactFrom(nodes[1..], rest, depth, op);
    } else {
      var Element(name, attrs, children) := nodes[0];
      var after := Tokens(nodes[1..]) + rest;
      FirstTokens(nodes, rest);
      AfterFirst(Start(name, attrs), Tokens(children) + ([End] + after));
      AfterFirst(End, after);
      if name == "Warnings" {
        WarningsExactFrom(children, after, []);
        assert [] + WarningsOf(children) == WarningsOf(children);
        RelExactFrom(nodes[1..], rest, depth, op.(warnings := WarningsOf(children)));
      } else if name == "RelOp" {
        RelExactFrom(children, [End] + after, 1, NewRelOp(attrs));
        RelExactFrom(nodes[1..], rest, depth, op.(children := op.children + [InRel(children, NewRelOp(attrs))]));
      } else {
        var op' :=
          if name == "RunTimeCountersPerThread" then op.(threads := op.threads + [attrs])
          else if name == "Object" then op.(object_ := Some(attrs))
          else op;
        RelExactFrom(children, [End] + after, depth + 1, op');
        RelExactFrom(nodes[1..], rest, depth, InRel(children, op'));
      }
    }
  }

  lemma {:induction false} PlanExactFrom(nodes: seq<Node>, rest: seq<Token>, depth: nat, qp: QueryPlan)
    requires depth > 0
    ensures Plan(Tokens(nodes) + rest, depth, qp) == Plan(rest, depth, InPlan(nodes, qp))
    decreases nodes
  {
    if nodes == [] {
      assert [] + rest == rest;
    } else if nodes[0].Chardata? {
      FirstOther(nodes, rest);
      AfterFirst(Other, Tokens(nodes[1..]) + rest);
      PlanExactFrom(nodes[1..], rest, depth, qp);
    } else {
      var Element(name, attrs, children) := nodes[0];
      var after := Tokens(nodes[1..]) + rest;
      FirstTokens(nodes, rest);
      AfterFirst(Start(name, attrs), Tokens(children) + ([End] + after));
      AfterFirst(End, after);
      if name == "Warnings" {
        WarningsExactFrom(children, after, []);
        assert [] + WarningsOf(children) == WarningsOf(children);
        PlanExactFrom(nodes[1..], rest, depth, qp.(warnings := WarningsOf(children)));
      } else if name == "RelOp" {
        RelExact(children, after, attrs);
        PlanExactFrom(nodes[1..], rest, depth, qp.(root := Some(InRel(children, NewRelOp(attrs)))));
      } else {
        var qp' := PlanElement(qp, name, attrs);
        PlanExactFrom(children, [End] + after, depth + 1, qp');
        PlanExactFrom(nodes[1..], rest, depth, InPlan(children, qp'));
      }
    }
  }

  /** parseWarnings stops right after its own end tag. */
  lemma WarningsExact(children: seq<Node>, rest: seq<Token>)
    ensures Warnings(Tokens(children) + ([End] + rest), []) == Some((WarningsOf(children), rest))
  {
    WarningsExactFrom(children, rest, []);
    assert [] + WarningsOf(children) == WarningsOf(children);
  }

  /** parseRelOp stops right after its own end tag, with the projection of its element. */
  lemma RelExact(children: seq<Node>, rest: seq<Token>, attrs: Attrs)
    ensures Rel(Tokens(children) + ([End] + rest), 1, NewRelOp(attrs)) == Some((InRel(children, NewRelOp(attrs)), rest))
  {
    RelExactFrom(children, [End] + rest, 1, NewRelOp(attrs));
    AfterFirst(End, rest);
  }

  /** parseQueryPlan stops right after its own end tag. */
  lemma PlanExact(children: seq<Node>, rest: seq<Token>, attrs: Attrs)
    ensures Plan(Tokens(children) + ([End] + rest), 1, NewQueryPlan(attrs)) ==
            Some((InPlan(children, NewQueryPlan(attrs)), rest))
  {
    PlanExactFrom(children, [End] + rest, 1, NewQueryPlan(attrs));
    AfterFirst(End, rest);
  }

  // ---------- The statement parser does not ----------

  lemma {:induction false} StatementFrom(nodes: seq<Node>, rest: seq<Token>, depth: nat, stmt: Stmt)
    requires depth > 0
    ensures Statement(Tokens(nodes) + rest, depth, stmt) ==
            Statement(rest, depth + PlanCount(nodes), InStatement(nodes, stmt))
    decreases nodes
  {
    hide Plan, InPlan, Tokens;
    if nodes == [] {
      NoTokens(rest);
    } else if nodes[0].Chardata? {
      FirstOther(nodes, rest);
      AfterFirst(Other, Tokens(nodes[1..]) + rest);
      StatementFrom(nodes[1..], rest, depth, stmt);
    } else {
      var Element(name, attrs, children) := nodes[0];
      var after := Tokens(nodes[1..]) + rest;
      FirstTokens(nodes, rest);
      AfterFirst(Start(name, attrs), Tokens(children) + ([End] + after));
      AfterFirst(End, after);
      if name == "QueryPlan" {
        PlanExact(children, after, attrs);
        StatementFrom(nodes[1..], rest, depth + 1, stmt.(queryPlan := Some(InPlan(children, NewQueryPlan(attrs)))));
      } else {
        var stmt' := if name == "StatementSetOptions" then stmt.(setOptions := Some(attrs)) else stmt;
        StatementFrom(children, [End] + after, depth + 1, stmt');
        StatementFrom(nodes[1..], rest, depth + PlanCount(children), InStatement(children, stmt'));
      }
    }
  }

  /** parseStmtSimple stops right after its own end tag exactly when the statement has no query plan. */
  lemma StatementExactIff(children: seq<Node>, rest: seq<Token>, attrs: Attrs)
    ensures var r := Statement(Tokens(children) + ([End] + rest), 1, Stmt(attrs, None, None));
            (r.Some? && r.value.1 == rest) <==> PlanCount(children) == 0
  {
    StatementFrom(children, [End] + rest, 1, Stmt(attrs, None, None));
    AfterFirst(End, rest);
  }

  /**
   With one query plan, the statement that follows is swallowed: its options and its plan replace
   those of the statement before it.
   */
  lemma NextStatementIsSwallowed(children: seq<Node>, attrs: Attrs, next: seq<Node>, nextAttrs: Attrs, rest: seq<Token>)
    requires PlanCount(children) == 1
    ensures var sibling := [Element("StmtSimple", nextAttrs, next)];
            Statement(Tokens(children) + ([End] + (Tokens(sibling) + rest)), 1, Stmt(attrs, None, None)) ==
            Statement(rest, 1 + PlanCount(next), InStatement(next, InStatement(children, Stmt(attrs, None, None))))
  {
    var sibling := [Element("StmtSimple", nextAttrs, next)];
    var stmt := InStatement(children, Stmt(attrs, None, None));
    StatementFrom(children, [End] + (Tokens(sibling) + rest), 1, Stmt(attrs, None, None));
    AfterFirst(End, Tokens(sibling) + rest);
    StatementFrom(sibling, rest, 1, stmt);
    assert sibling[1..] == [];
    assert InStatement(sibling, stmt) == InStatement(next, stmt);
  }
}
