/**
 A whole plan document: when its statements come out one by one. The statement parser counts the depth
 of a query plan twice, so that a statement with a plan goes on into what follows it.
 */
module ShowplanDocument {
  import opened Runes
  import opened Showplan
  import opened ShowplanParts

  /** All statements of a token stream; None when the stream ends inside one. */
  function Document(toks: seq<Token>, acc: seq<Stmt>): Option<seq<Stmt>>
    decreases |toks|
  {
    if toks == [] then Some(acc)
    else if toks[0].Start? && toks[0].name == "StmtSimple" then
      var r := Statement(toks[1..], 1, Stmt(toks[0].attrs, None, None));
      if r.None? then None else Document(r.value.1, acc + [r.value.0])
    else Document(toks[1..], acc)
  }

  // ---------- Documents as they are written ----------

  /** An element around the statements, with text in front of it and behind it. */
  datatype Level = Level(before: seq<Node>, name: string, attrs: Attrs, after: seq<Node>)

  predicate Blank(nodes: seq<Node>) {
    forall e | e in nodes :: e.Chardata?
  }

  /** The elements around the statements, from the outermost to the innermost. */
  function Wrapped(around: seq<Level>, nodes: seq<Node>): seq<Node> {
    if around == [] then nodes
    else
      var level := around[0];
      level.before + ([Element(level.name, level.attrs, Wrapped(around[1..], nodes))] + level.after)
  }

  predicate Around(around: seq<Level>) {
    forall a | a in around :: a.name != "StmtSimple" && Blank(a.before) && Blank(a.after)
  }

  /** Statements and what may stand between them. */
  predicate StatementList(nodes: seq<Node>) {
    forall e | e in nodes && e.Element? :: e.name == "StmtSimple"
  }

  /** What each statement says by itself. */
  function StatementsOf(nodes: seq<Node>): seq<Stmt> {
    if nodes == [] then []
    else
      match nodes[0]
      case Chardata => StatementsOf(nodes[1..])
      case Element(_, attrs, children) => [InStatement(children, Stmt(attrs, None, None))] + StatementsOf(nodes[1..])
  }

  /**
   No statement but the last has a query plan, and the last has no more of them than there are
   elements around the statements.
   */
  predicate Separable(nodes: seq<Node>, around: nat) {
    if nodes == [] then true
    else
      match nodes[0]
      case Chardata => Separable(nodes[1..], around)
      case Element(_, _, children) =>
        PlanCount(children) <= (if StatementsOf(nodes[1..]) == [] then around else 0) && Separable(nodes[1..], around)
  }

  // ---------- Reading the closing tags ----------

  /** Nothing but closing tags and text. */
  predicate Closing(toks: seq<Token>) {
    forall tok | tok in toks :: !tok.Start?
  }

  function EndCount(toks: seq<Token>): nat {
    if toks == [] then 0 else (if toks[0].End? then 1 else 0) + EndCount(toks[1..])
  }

  lemma {:induction false} EndCountConcat(a: seq<Token>, b: seq<Token>)
    ensures EndCount(a + b) == EndCount(a) + EndCount(b)
  {
    if a == [] {
      assert a + b == b;
    } else {
      assert (a + b)[1..] == a[1..] + b;
      EndCountConcat(a[1..], b);
    }
  }

  lemma {:induction false} StatementAtEnds(rest: seq<Token>, depth: nat, stmt: Stmt)
    requires Closing(rest)
    ensures var r := Statement(rest, depth, stmt);
            && (r.Some? <==> depth <= EndCount(rest))
            && (r.Some? ==> r.value.0 == stmt && Closing(r.value.1))
    decreases |rest|
  {
    if depth > 0 && rest != [] {
      assert rest[0] in rest;
      StatementAtEnds(rest[1..], if rest[0].End? then depth - 1 else depth, stmt);
    }
  }

  lemma {:induction false} DocumentAtEnds(rest: seq<Token>, acc: seq<Stmt>)
    requires Closing(rest)
    ensures Document(rest, acc) == Some(acc)
    decreases |rest|
  {
    if rest != [] {
      assert rest[0] in rest;
      DocumentAtEnds(rest[1..], acc);
    }
  }

  // ---------- The statements of a list ----------

  /** A statement of which all but depth tags are closed reads what follows up to the end. */
  lemma Absorbs(nodes: seq<Node>, rest: seq<Token>, depth: nat, stmt: Stmt)
    requires depth > 0 && Closing(rest)
    ensures var r := Statement(Tokens(nodes) + rest, depth, stmt);
            && (r.Some? <==> depth + PlanCount(nodes) <= EndCount(rest))
            && (r.Some? ==> r.value.0 == InStatement(nodes, stmt) && Closing(r.value.1))
  {
    hide Statement, Tokens, Closing;
    StatementFrom(nodes, rest, depth, stmt);
    StatementAtEnds(rest, depth + PlanCount(nodes), InStatement(nodes, stmt));
  }

  /** Reading a list of statements: each by itself up to the first with a plan, which takes all the rest. */
  lemma {:induction false} DocumentFirst(nodes: seq<Node>, rest: seq<Token>, acc: seq<Stmt>)
    requires nodes != [] && nodes[0].Element? && nodes[0].name == "StmtSimple" && Closing(rest)
    ensures var stmt := InStatement(nodes[0].children, Stmt(nodes[0].attrs, None, None));
            var plans := PlanCount(nodes[0].children);
            Document(Tokens(nodes) + rest, acc) ==
            if plans == 0 then Document(Tokens(nodes[1..]) + rest, acc + [stmt])
            else if plans + PlanCount(nodes[1..]) <= EndCount(rest) then Some(acc + [InStatement(nodes[1..], stmt)])
            else None
  {
    hide Statement, InStatement, Tokens, Closing, EndCount;
    var Element(name, attrs, children) := nodes[0];
    var after := Tokens(nodes[1..]) + rest;
    var inside := Tokens(children) + ([End] + after);
    FirstTokens(nodes, rest);
    AfterFirst(Start(name, attrs), inside);
    StatementFrom(children, [End] + after, 1, Stmt(attrs, None, None));
    var stmt := InStatement(children, Stmt(attrs, None, None));
    StatementEnd(after, PlanCount(children), stmt);
    if PlanCount(children) > 0 {
      Absorbs(nodes[1..], rest, PlanCount(children), stmt);
      var r := Statement(after, PlanCount(children), stmt);
      if r.Some? {
        DocumentAtEnds(r.value.1, acc + [r.value.0]);
      }
    }
  }

  /** One closing tag. */
  lemma StatementEnd(after: seq<Token>, depth: nat, stmt: Stmt)
    ensures Statement([End] + after, 1 + depth, stmt) == Statement(after, depth, stmt)
    ensures Statement(after, 0, stmt) == Some((stmt, after))
  {
    AfterFirst(End, after);
  }

  lemma {:induction false} DocumentOther(nodes: seq<Node>, rest: seq<Token>, acc: seq<Stmt>)
    requires nodes != [] && nodes[0].Chardata?
    ensures Document(Tokens(nodes) + rest, acc) == Document(Tokens(nodes[1..]) + rest, acc)
  {
    FirstOther(nodes, rest);
    AfterFirst(Other, Tokens(nodes[1..]) + rest);
  }

  lemma {:induction false} ListExactIff(nodes: seq<Node>, rest: seq<Token>, acc: seq<Stmt>)
    requires StatementList(nodes) && Closing(rest)
    ensures var r := Document(Tokens(nodes) + rest, acc);
            && (Separable(nodes, EndCount(rest)) ==> r == Some(acc + StatementsOf(nodes)))
            && (!Separable(nodes, EndCount(rest)) ==> r.None? || |r.value| < |acc| + |StatementsOf(nodes)|)
    decreases |nodes|
  {
    hide Document, Tokens, InStatement, PlanCount, Closing, EndCount;
    if nodes == [] {
      NoTokens(rest);
      DocumentAtEnds(rest, acc);
      assert acc + [] == acc;
    } else if nodes[0].Chardata? {
      DocumentOther(nodes, rest, acc);
      ListExactIff(nodes[1..], rest, acc);
    } else {
      assert nodes[0] in nodes;
      var stmt := InStatement(nodes[0].children, Stmt(nodes[0].attrs, None, None));
      DocumentFirst(nodes, rest, acc);
      if PlanCount(nodes[0].children) == 0 {
        ListExactIff(nodes[1..], rest, acc + [stmt]);
        Regroup(acc, [stmt], StatementsOf(nodes[1..]));
      } else if StatementsOf(nodes[1..]) == [] {
        NothingMore(nodes[1..], EndCount(rest), stmt);
        assert StatementsOf(nodes) == [stmt] + [];
        AddedToNothing(stmt);
      }
    }
  }

  lemma {:induction false} NothingMore(nodes: seq<Node>, n: nat, stmt: Stmt)
    requires StatementsOf(nodes) == []
    ensures PlanCount(nodes) == 0 && InStatement(nodes, stmt) == stmt && Separable(nodes, n)
  {
    if nodes != [] {
      NothingMore(nodes[1..], n, stmt);
    }
  }

  lemma AddedToNothing(stmt: Stmt)
    ensures [] + [stmt] == [stmt] && [stmt] + [] == [stmt]
  {
  }

  // ---------- The elements around it ----------

  lemma {:induction false} BlankTokens(nodes: seq<Node>)
    requires Blank(nodes)
    ensures Closing(Tokens(nodes)) && EndCount(Tokens(nodes)) == 0
  {
    if nodes != [] {
      assert nodes[0] in nodes;
      BlankTokens(nodes[1..]);
      EndCountConcat([Other], Tokens(nodes[1..]));
    }
  }

  lemma {:induction false} TokensConcat(a: seq<Node>, b: seq<Node>)
    ensures Tokens(a + b) == Tokens(a) + Tokens(b)
  {
    if a == [] {
      assert a + b == b;
    } else {
      assert (a + b)[0] == a[0] && (a + b)[1..] == a[1..] + b;
      TokensConcat(a[1..], b);
      var first := if a[0].Chardata? then [Other] else [Start(a[0].name, a[0].attrs)] + Tokens(a[0].children) + [End];
      Regroup(first, Tokens(a[1..]), Tokens(b));
    }
  }

  lemma {:induction false} BlankSkipped(nodes: seq<Node>, toks: seq<Token>, acc: seq<Stmt>)
    requires Blank(nodes)
    ensures Document(Tokens(nodes) + toks, acc) == Document(toks, acc)
  {
    hide Document, Tokens;
    if nodes == [] {
      NoTokens(toks);
    } else {
      assert nodes[0] in nodes;
      DocumentOther(nodes, toks, acc);
      BlankSkipped(nodes[1..], toks, acc);
    }
  }

  /** The opening tag of a level, and what has to be closed behind it. */
  lemma LevelOpens(level: Level, inner: seq<Node>, rest: seq<Token>, acc: seq<Stmt>)
    requires level.name != "StmtSimple" && Blank(level.before) && Blank(level.after)
    ensures var nodes := level.before + ([Element(level.name, level.attrs, inner)] + level.after);
            Document(Tokens(nodes) + rest, acc) == Document(Tokens(inner) + ([End] + (Tokens(level.after) + rest)), acc)
  {
    hide Tokens;
    var behind := [Element(level.name, level.attrs, inner)] + level.after;
    TokensConcat(level.before, behind);
    Regroup(Tokens(level.before), Tokens(behind), rest);
    BlankSkipped(level.before, Tokens(behind) + rest, acc);
    FirstTokens(behind, rest);
    assert behind[1..] == level.after;
    AfterFirst(Start(level.name, level.attrs), Tokens(inner) + ([End] + (Tokens(level.after) + rest)));
  }

  lemma {:induction false} DocumentAround(around: seq<Level>, nodes: seq<Node>, rest: seq<Token>, acc: seq<Stmt>)
    returns (closing: seq<Token>)
    requires Around(around) && Closing(rest)
    ensures Closing(closing) && EndCount(closing) == EndCount(rest) + |around|
    ensures Document(Tokens(Wrapped(around, nodes)) + rest, acc) == Document(Tokens(nodes) + closing, acc)
    decreases |around|
  {
    hide Tokens, Document;
    if around == [] {
      closing := rest;
    } else {
      var level := around[0];
      assert level in around;
      LevelOpens(level, Wrapped(around[1..], nodes), rest, acc);
      BlankTokens(level.after);
      EndCountConcat(Tokens(level.after), rest);
      var more := [End] + (Tokens(level.after) + rest);
      assert more[1..] == Tokens(level.after) + rest;
      closing := DocumentAround(around[1..], nodes, more, acc);
    }
  }

  // ---------- The theorem ----------

  /**
   A document with its statements inside other elements: they come out one by one, each as it stands,
   exactly when no statement but the last has a query plan and the last has no more plans than there
   are elements around it. In any other document the parse fails or statements are missing.
   */
  lemma DocumentExactIff(around: seq<Level>, nodes: seq<Node>)
    requires Around(around) && StatementList(nodes)
    ensures Document(Tokens(Wrapped(around, nodes)), []) == Some(StatementsOf(nodes)) <==> Separable(nodes, |around|)
    ensures !Separable(nodes, |around|) ==>
              var r := Document(Tokens(Wrapped(around, nodes)), []);
              r.None? || |r.value| < |StatementsOf(nodes)|
  {
    hide Document, Tokens, Separable, StatementsOf, Wrapped;
    var closing := DocumentInside(around, nodes);
    ListExactIff(nodes, closing, []);
    assert [] + StatementsOf(nodes) == StatementsOf(nodes);
  }

  lemma DocumentInside(around: seq<Level>, nodes: seq<Node>) returns (closing: seq<Token>)
    requires Around(around)
    ensures Closing(closing) && EndCount(closing) == |around|
    ensures Document(Tokens(Wrapped(around, nodes)), []) == Document(Tokens(nodes) + closing, [])
  {
    hide Document, Tokens;
    closing := DocumentAround(around, nodes, [], []);
    assert Tokens(Wrapped(around, nodes)) + [] == Tokens(Wrapped(around, nodes));
  }

  /** A list of statements with one query plan each. */
  predicate OnePlanEach(nodes: seq<Node>) {
    forall k :: 0 <= k < |nodes| ==>
      nodes[k].Element? && nodes[k].name == "StmtSimple" && PlanCount(nodes[k].children) == 1
  }

  /** With a plan in every statement, at most one statement comes out, and none of more than the depth. */
  lemma PlansRunTogether(around: seq<Level>, nodes: seq<Node>)
    requires Around(around) && OnePlanEach(nodes) && nodes != []
    ensures var r := Document(Tokens(Wrapped(around, nodes)), []);
            var first := InStatement(nodes[0].children, Stmt(nodes[0].attrs, None, None));
            r == if |nodes| <= |around| then Some([InStatement(nodes[1..], first)]) else None
  {
    hide Document, Tokens, InStatement, PlanCount, Wrapped, EndCount, Closing;
    var closing := DocumentInside(around, nodes);
    DocumentFirst(nodes, closing, []);
    PlansOf(nodes[1..]);
    var first := InStatement(nodes[0].children, Stmt(nodes[0].attrs, None, None));
    AddedToNothing(InStatement(nodes[1..], first));
  }

  lemma {:induction false} PlansOf(nodes: seq<Node>)
    requires OnePlanEach(nodes)
    ensures PlanCount(nodes) == |nodes|
  {
    if nodes != [] {
      PlansOf(nodes[1..]);
    }
  }
}
