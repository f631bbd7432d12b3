/** The plan parser itself: loops that count depth over a decoder, as functions of Showplan say. */
module PlanParser {
  import opened Runes
  import opened Showplan
  import opened ShowplanDocument

  /** Where the XML tokens come from; it ends with an error. */
  class Decoder {
    const tokens: seq<Token>
    var pos: nat

    constructor (tokens: seq<Token>)
      ensures Valid() && Rest() == tokens
    {
      this.tokens, pos := tokens, 0;
    }

    ghost predicate Valid()
      reads this
    {
      pos <= |tokens|
    }

    function Rest(): seq<Token>
      reads this
      requires Valid()
    {
      tokens[pos..]
    }

    method Next() returns (token: Option<Token>)
      requires Valid()
      modifies this
      ensures Valid()
      ensures if old(Rest()) == [] then token == None && Rest() == []
              else token == Some(old(Rest())[0]) && Rest() == old(Rest())[1..]
    {
      if pos == |tokens| {
        return None;
      }
      token := Some(tokens[pos]);
      pos := pos + 1;
    }

    /** The decoder has consumed what was parsed, and the parser returns its value. */
    ghost predicate Parsed<T>(r: Option<T>, spec: Option<(T, seq<Token>)>)
      reads this
    {
      && Valid()
      && (spec.None? ==> r == None)
      && (spec.Some? ==> r == Some(spec.value.0) && Rest() == spec.value.1)
    }
  }

  method ParseWarningChildren(d: Decoder) returns (r: Option<seq<Warning>>)
    requires d.Valid()
    modifies d
    ensures d.Parsed(r, WarningChildren(old(d.Rest()), 1, []))
  {
    var children: seq<Warning> := [];
    var childDepth: nat := 1;
    while childDepth > 0
      invariant d.Valid()
      invariant WarningChildren(old(d.Rest()), 1, []) == WarningChildren(d.Rest(), childDepth, children)
      decreases |d.Rest()|, childDepth
    {
      var token := d.Next();
      if token.None? {
        return None;
      }
      match token.value
      case Start(name, attrs) =>
        childDepth := childDepth + 1;
        children := children + [Warning(name, attrs, [])];
      case End => childDepth := childDepth - 1;
      case Other =>
    }
    return Some(children);
  }

  method ParseWarnings(d: Decoder) returns (r: Option<seq<Warning>>)
    requires d.Valid()
    modifies d
    ensures d.Parsed(r, Warnings(old(d.Rest()), []))
  {
    var warnings: seq<Warning> := [];
    var depth := 1;
    while depth > 0
      invariant d.Valid() && 0 <= depth <= 1
      invariant depth == 1 ==> Warnings(old(d.Rest()), []) == Warnings(d.Rest(), warnings)
      invariant depth == 0 ==> Warnings(old(d.Rest()), []) == Some((warnings, d.Rest()))
      decreases |d.Rest()|, depth
    {
      var token := d.Next();
      if token.None? {
        return None;
      }
      match token.value
      case Start(name, attrs) =>
        depth := depth + 1;
        var children := ParseWarningChildren(d);
        if children.None? {
          return None;
        }
        depth := depth - 1;
        warnings := warnings + [Warning(name, attrs, children.value)];
      case End => depth := depth - 1;
      case Other =>
    }
    return Some(warnings);
  }

  method ParseRelOp(d: Decoder, attrs: Attrs) returns (r: Option<RelOp>)
    requires d.Valid()
    modifies d
    ensures d.Parsed(r, Rel(old(d.Rest()), 1, NewRelOp(attrs)))
    decreases |d.Rest()|
  {
    var op := NewRelOp(attrs);
    var depth: nat := 1;
    ghost var toks := d.Rest();
    while depth > 0
      invariant d.Valid() && |d.Rest()| <= |toks|
      invariant Rel(toks, 1, NewRelOp(attrs)) == Rel(d.Rest(), depth, op)
      decreases |d.Rest()|, depth
    {
      var token := d.Next();
      if token.None? {
        return None;
      }
      match token.value
      case Start(name, a) =>
        depth := depth + 1;
        if name == "RunTimeCountersPerThread" {
          op := op.(threads := op.threads + [a]);
        } else if name == "Object" {
          op := op.(object_ := Some(a));
        } else if name == "Warnings" {
          var w := ParseWarnings(d);
          if w.None? {
            return None;
          }
          op := op.(warnings := w.value);
          depth := depth - 1;
        } else if name == "RelOp" {
          var child := ParseRelOp(d, a);
          if child.None? {
            return None;
          }
          op := op.(children := op.children + [child.value]);
          depth := depth - 1;
        }
      case End => depth := depth - 1;
      case Other =>
    }
    return Some(op);
  }

  method ParseQueryPlan(d: Decoder, attrs: Attrs) returns (r: Option<QueryPlan>)
    requires d.Valid()
    modifies d
    ensures d.Parsed(r, Plan(old(d.Rest()), 1, NewQueryPlan(attrs)))
  {
    var qp := NewQueryPlan(attrs);
    var depth: nat := 1;
    while depth > 0
      invariant d.Valid()
      invariant Plan(old(d.Rest()), 1, NewQueryPlan(attrs)) == Plan(d.Rest(), depth, qp)
      decreases |d.Rest()|, depth
    {
      var token := d.Next();
      if token.None? {
        return None;
      }
      match token.value
      case Start(name, a) =>
        depth := depth + 1;
        if name == "MemoryGrantInfo" {
          qp := qp.(memoryGrant := Some(a));
        } else if name == "OptimizerHardwareDependentProperties" {
          qp := qp.(hardwareProps := Some(a));
        } else if name == "Warnings" {
          var w := ParseWarnings(d);
          if w.None? {
            return None;
          }
          qp := qp.(warnings := w.value);
          depth := depth - 1;
        } else if name == "QueryTimeStats" {
          qp := qp.(timeStats := Some(a));
        } else if name == "StatisticsInfo" {
          qp := qp.(statsRefCount := qp.statsRefCount + 1);
        } else if name == "RelOp" {
          var op := ParseRelOp(d, a);
          if op.None? {
            return None;
          }
          qp := qp.(root := Some(op.value));
          depth := depth - 1;
        }
      case End => depth := depth - 1;
      case Other =>
    }
    return Some(qp);
  }

  method ParseStmtSimple(d: Decoder, attrs: Attrs) returns (r: Option<Stmt>)
    requires d.Valid()
    modifies d
    ensures d.Parsed(r, Statement(old(d.Rest()), 1, Stmt(attrs, None, None)))
  {
    var stmt := Stmt(attrs, None, None);
    var depth: nat := 1;
    while depth > 0
      invariant d.Valid()
      invariant Statement(old(d.Rest()), 1, Stmt(attrs, None, None)) == Statement(d.Rest(), depth, stmt)
      decreases |d.Rest()|, depth
    {
      var token := d.Next();
      if token.None? {
        return None;
      }
      match token.value
      case Start(name, a) =>
        depth := depth + 1;
        if name == "StatementSetOptions" {
          stmt := stmt.(setOptions := Some(a));
        } else if name == "QueryPlan" {
          var qp := ParseQueryPlan(d, a);
          if qp.None? {
            return None;
          }
          stmt := stmt.(queryPlan := Some(qp.value));
        }
      case End => depth := depth - 1;
      case Other =>
    }
    return Some(stmt);
  }

  method ParseSinglePlan(tokens: seq<Token>) returns (r: Option<seq<Stmt>>)
    ensures r == Document(tokens, [])
  {
    var d := new Decoder(tokens);
    var statements: seq<Stmt> := [];
    while true
      invariant d.Valid() && Document(tokens, []) == Document(d.Rest(), statements)
      decreases |d.Rest()|
    {
      var token := d.Next();
      if token.None? {
        break;
      }
      if token.value.Start? && token.value.name == "StmtSimple" {
        var stmt := ParseStmtSimple(d, token.value.attrs);
        if stmt.None? {
          return None;
        }
        statements := statements + [stmt.value];
      }
    }
    return Some(statements);
  }
}
