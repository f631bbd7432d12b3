/**
 What the operator tree has to do with the document: its preorder is the document order of the
 operators, and each operator has the thread counters whose innermost operator it is.
 */
module ShowplanTree {
  import opened Runes
  import opened Showplan

  // ---------- The document ----------

  /** Attributes of the RelOp elements outside Warnings, in document order. */
  function Operators(nodes: seq<Node>): seq<Attrs> {
    if nodes == [] then []
    else
      match nodes[0]
      case Chardata => Operators(nodes[1..])
      case Element(name, attrs, children) =>
        if name == "Warnings" then Operators(nodes[1..])
        else (if name == "RelOp" then [attrs] else []) + Operators(children) + Operators(nodes[1..])
  }

  /** A thread counter and the number, in document order, of its innermost operator. */
  datatype Owned = Owned(owner: nat, counter: Attrs)

  /**
   The counters outside Warnings in document order. `owner` is the number of the innermost operator
   around nodes, `next` the number of the first operator that starts in them.
   */
  function Counters(nodes: seq<Node>, owner: nat, next: nat): seq<Owned> {
    if nodes == [] then []
    else
      match nodes[0]
      case Chardata => Counters(nodes[1..], owner, next)
      case Element(name, attrs, children) =>
        if name == "Warnings" then Counters(nodes[1..], owner, next)
        else if name == "RelOp" then
          Counters(children, next, next + 1) + Counters(nodes[1..], owner, next + 1 + |Operators(children)|)
        else
          (if name == "RunTimeCountersPerThread" then [Owned(owner, attrs)] else [])
          + Counters(children, owner, next)
          + Counters(nodes[1..], owner, next + |Operators(children)|)
  }

  function OfOwner(counters: seq<Owned>, k: nat): seq<Attrs> {
    if counters == [] then []
    else (if counters[0].owner == k then [counters[0].counter] else []) + OfOwner(counters[1..], k)
  }

  // ---------- The tree ----------

  function Preorder(ops: seq<RelOp>): seq<RelOp> {
    if ops == [] then [] else [ops[0]] + Preorder(ops[0].children) + Preorder(ops[1..])
  }

  // ---------- Proofs ----------

  lemma {:induction false} PreorderConcat(a: seq<RelOp>, b: seq<RelOp>)
    ensures Preorder(a + b) == Preorder(a) + Preorder(b)
  {
    if a == [] {
      assert a + b == b;
    } else {
      assert (a + b)[0] == a[0] && (a + b)[1..] == a[1..] + b;
      PreorderConcat(a[1..], b);
      Regroup([a[0]] + Preorder(a[0].children), Preorder(a[1..]), Preorder(b));
    }
  }

  lemma {:induction false} OfOwnerConcat(a: seq<Owned>, b: seq<Owned>, k: nat)
    ensures OfOwner(a + b, k) == OfOwner(a, k) + OfOwner(b, k)
  {
    if a == [] {
      assert a + b == b;
    } else {
      var all, head := a + b, if a[0].owner == k then [a[0].counter] else [];
      assert all[0] == a[0] && all[1..] == a[1..] + b;
      OfOwnerConcat(a[1..], b, k);
      assert OfOwner(all, k) == head + OfOwner(all[1..], k);
      Regroup(head, OfOwner(a[1..], k), OfOwner(b, k));
    }
  }

  /** The counters and operators that the first element contributes, and the rest. */
  lemma {:induction false} FirstCounters(nodes: seq<Node>, owner: nat, next: nat)
    requires nodes != [] && nodes[0].Element? && nodes[0].name != "Warnings"
    ensures var Element(name, attrs, children) := nodes[0];
            var n := |Operators(children)|;
            if name == "RelOp" then
              && Counters(nodes, owner, next)
                 == Counters(children, next, next + 1) + Counters(nodes[1..], owner, next + 1 + n)
              && |Operators(nodes)| == 1 + n + |Operators(nodes[1..])|
            else
              var own := if name == "RunTimeCountersPerThread" then [Owned(owner, attrs)] else [];
              && Counters(nodes, owner, next)
                 == (own + Counters(children, owner, next)) + Counters(nodes[1..], owner, next + n)
              && |Operators(nodes)| == n + |Operators(nodes[1..])|
  {
  }

  /** Character data and warnings contribute neither counters nor operators. */
  lemma {:induction false} NoCounters(nodes: seq<Node>, owner: nat, next: nat)
    requires nodes != [] && (nodes[0].Chardata? || nodes[0].name == "Warnings")
    ensures Counters(nodes, owner, next) == Counters(nodes[1..], owner, next)
    ensures Operators(nodes) == Operators(nodes[1..])
  {
  }

  lemma NoNodes(owner: nat, next: nat, k: nat)
    ensures OfOwner(Counters([], owner, next), k) == []
    ensures k != owner ==> OfOwner([], k) == []
  {
  }

  /** Counters of nodes belong to the operator around them or to an operator that starts in them. */
  lemma {:induction false} CountersInRange(nodes: seq<Node>, owner: nat, next: nat, k: nat)
    requires k != owner && (k < next || next + |Operators(nodes)| <= k)
    ensures OfOwner(Counters(nodes, owner, next), k) == []
    decreases nodes
  {
    hide Counters, Operators;
    if nodes == [] {
      NoNodes(owner, next, k);
    } else if nodes[0].Chardata? || nodes[0].name == "Warnings" {
      NoCounters(nodes, owner, next);
      CountersInRange(nodes[1..], owner, next, k);
    } else {
      FirstCounters(nodes, owner, next);
      var Element(name, attrs, children) := nodes[0];
      var n := |Operators(children)|;
      if name == "RelOp" {
        CountersInRange(children, next, next + 1, k);
        CountersInRange(nodes[1..], owner, next + 1 + n, k);
        OfOwnerConcat(Counters(children, next, next + 1), Counters(nodes[1..], owner, next + 1 + n), k);
      } else {
        CountersInRange(children, owner, next, k);
        CountersInRange(nodes[1..], owner, next + n, k);
        var own := if name == "RunTimeCountersPerThread" then [Owned(owner, attrs)] else [];
        OfOwnerConcat(own, Counters(children, owner, next), k);
        OfOwnerConcat(own + Counters(children, owner, next), Counters(nodes[1..], owner, next + n), k);
      }
    }
  }

  /** The attributes of operators. */
  function AttrsOf(ops: seq<RelOp>): seq<Attrs> {
    seq(|ops|, k requires 0 <= k < |ops| => ops[k].attrs)
  }

  lemma AttrsConcat(a: seq<RelOp>, b: seq<RelOp>)
    ensures AttrsOf(a + b) == AttrsOf(a) + AttrsOf(b)
  {
  }

  /** In document order, nodes add their operators after those that op has. */
  lemma {:induction false} PreorderIsDocumentOrder(nodes: seq<Node>, op: RelOp)
    ensures AttrsOf(Preorder(InRel(nodes, op).children)) == AttrsOf(Preorder(op.children)) + Operators(nodes)
    ensures InRel(nodes, op).attrs == op.attrs
    decreases nodes
  {
    if nodes == [] {
      assert AttrsOf(Preorder(op.children)) + [] == AttrsOf(Preorder(op.children));
    } else if nodes[0].Chardata? {
      PreorderIsDocumentOrder(nodes[1..], op);
    } else {
      var Element(name, attrs, children) := nodes[0];
      var before := AttrsOf(Preorder(op.children));
      if name == "Warnings" {
        PreorderIsDocumentOrder(nodes[1..], op.(warnings := WarningsOf(children)));
      } else if name == "RelOp" {
        var child := InRel(children, NewRelOp(attrs));
        PreorderIsDocumentOrder(children, NewRelOp(attrs));
        PreorderIsDocumentOrder(nodes[1..], op.(children := op.children + [child]));
        PreorderConcat(op.children, [child]);
        AttrsConcat(Preorder(op.children), Preorder([child]));
        PreorderOne(child);
        AttrsConcat([child], Preorder(child.children));
        assert AttrsOf([child]) == [attrs];
        assert [] + Operators(children) == Operators(children);
        Regroup(before, [attrs] + Operators(children), Operators(nodes[1..]));
      } else {
        var op' :=
          if name == "RunTimeCountersPerThread" then op.(threads := op.threads + [attrs])
          else if name == "Object" then op.(object_ := Some(attrs))
          else op;
        PreorderIsDocumentOrder(children, op');
        PreorderIsDocumentOrder(nodes[1..], InRel(children, op'));
        Regroup(before, Operators(children), Operators(nodes[1..]));
        assert [] + Operators(children) == Operators(children);
      }
    }
  }

  lemma PreorderOne(op: RelOp)
    ensures Preorder([op]) == [op] + Preorder(op.children)
  {
    assert [op][1..] == [];
  }

  /** Thread lists of operators. */
  function ThreadsOf(ops: seq<RelOp>): seq<seq<Attrs>> {
    seq(|ops|, k requires 0 <= k < |ops| => ops[k].threads)
  }

  lemma ThreadsConcat(a: seq<RelOp>, b: seq<RelOp>)
    ensures ThreadsOf(a + b) == ThreadsOf(a) + ThreadsOf(b)
  {
  }

  /** What each of n operators, numbered from next, owns. */
  function Shares(counters: seq<Owned>, next: nat, n: nat): seq<seq<Attrs>> {
    seq(n, k requires 0 <= k < n => OfOwner(counters, next + k))
  }

  lemma {:induction false} CountersAreOwned(nodes: seq<Node>, op: RelOp, owner: nat, next: nat)
    requires owner < next
    ensures var counters := Counters(nodes, owner, next);
            && InRel(nodes, op).threads == op.threads + OfOwner(counters, owner)
            && ThreadsOf(Preorder(InRel(nodes, op).children))
               == ThreadsOf(Preorder(op.children)) + Shares(counters, next, |Operators(nodes)|)
    decreases nodes
  {
    if nodes == [] {
      assert op.threads + [] == op.threads;
      assert ThreadsOf(Preorder(op.children)) + Shares([], next, 0) == ThreadsOf(Preorder(op.children));
    } else if nodes[0].Chardata? {
      CountersAreOwned(nodes[1..], op, owner, next);
    } else {
      var Element(name, attrs, children) := nodes[0];
      if name == "Warnings" {
        CountersAreOwned(nodes[1..], op.(warnings := WarningsOf(children)), owner, next);
      } else if name == "RelOp" {
        OwnedByChild(nodes, op, owner, next);
      } else {
        OwnedHere(nodes, op, owner, next);
      }
    }
  }

  /** Shares of a concatenation whose parts belong to consecutive operators. */
  lemma SharesSplit(a: seq<Owned>, b: seq<Owned>, next: nat, n: nat, m: nat)
    requires forall k | next + n <= k < next + n + m :: OfOwner(a, k) == []
    requires forall k | next <= k < next + n :: OfOwner(b, k) == []
    ensures Shares(a + b, next, n + m) == Shares(a, next, n) + Shares(b, next + n, m)
  {
    var whole, parts := Shares(a + b, next, n + m), Shares(a, next, n) + Shares(b, next + n, m);
    forall k | 0 <= k < n + m ensures whole[k] == parts[k] {
      OfOwnerConcat(a, b, next + k);
      if k < n {
        assert OfOwner(b, next + k) == [];
      } else {
        assert OfOwner(a, next + k) == [];
      }
    }
  }

  lemma {:induction false} OwnedHere(nodes: seq<Node>, op: RelOp, owner: nat, next: nat)
    requires owner < next && nodes != [] && nodes[0].Element? && nodes[0].name !in {"Warnings", "RelOp"}
    ensures var counters := Counters(nodes, owner, next);
            && InRel(nodes, op).threads == op.threads + OfOwner(counters, owner)
            && ThreadsOf(Preorder(InRel(nodes, op).children))
               == ThreadsOf(Preorder(op.children)) + Shares(counters, next, |Operators(nodes)|)
    decreases nodes, 0
  {
    hide Counters, Operators, Preorder;
    FirstCounters(nodes, owner, next);
    var Element(name, attrs, children) := nodes[0];
    var own := if name == "RunTimeCountersPerThread" then [Owned(owner, attrs)] else [];
    var op' :=
      if name == "RunTimeCountersPerThread" then op.(threads := op.threads + [attrs])
      else if name == "Object" then op.(object_ := Some(attrs))
      else op;
    var n, m := |Operators(children)|, |Operators(nodes[1..])|;
    var inner, outer := Counters(children, owner, next), Counters(nodes[1..], owner, next + n);
    CountersAreOwned(children, op', owner, next);
    CountersAreOwned(nodes[1..], InRel(children, op'), owner, next + n);
    forall k | next + n <= k < next + n + m ensures OfOwner(own + inner, k) == [] {
      OfOwnerConcat(own, inner, k);
      CountersInRange(children, owner, next, k);
    }
    forall k | next <= k < next + n ensures OfOwner(outer, k) == [] && OfOwner(own, k) == [] {
      CountersInRange(nodes[1..], owner, next + n, k);
    }
    SharesSplit(own + inner, outer, next, n, m);
    SharesSkip(own, inner, next, n);
    Regroup(ThreadsOf(Preorder(op.children)), Shares(inner, next, n), Shares(outer, next + n, m));
    OfOwnerConcat(own + inner, outer, owner);
    OfOwnerConcat(own, inner, owner);
    assert op.threads + OfOwner(own, owner) == op'.threads;
    Regroup(op.threads, OfOwner(own, owner), OfOwner(inner, owner));
    Regroup(op.threads, OfOwner(own, owner) + OfOwner(inner, owner), OfOwner(outer, owner));
  }

  lemma SharesSkip(own: seq<Owned>, inner: seq<Owned>, next: nat, n: nat)
    requires forall k | next <= k < next + n :: OfOwner(own, k) == []
    ensures Shares(own + inner, next, n) == Shares(inner, next, n)
  {
    forall k | 0 <= k < n ensures Shares(own + inner, next, n)[k] == Shares(inner, next, n)[k] {
      OfOwnerConcat(own, inner, next + k);
      assert OfOwner(own, next + k) == [];
      assert [] + OfOwner(inner, next + k) == OfOwner(inner, next + k);
    }
  }

  lemma {:induction false} InRelOfRelOp(nodes: seq<Node>, op: RelOp)
    requires nodes != [] && nodes[0].Element? && nodes[0].name == "RelOp"
    ensures var child := InRel(nodes[0].children, NewRelOp(nodes[0].attrs));
            InRel(nodes, op) == InRel(nodes[1..], op.(children := op.children + [child]))
  {
  }

  lemma NoThreads()
    ensures ThreadsOf(Preorder([])) == []
  {
  }

  /** A new child adds its own threads and those below it. */
  lemma ThreadsWithChild(children: seq<RelOp>, child: RelOp)
    ensures ThreadsOf(Preorder(children + [child])) ==
      ThreadsOf(Preorder(children)) + ([child.threads] + ThreadsOf(Preorder(child.children)))
  {
    PreorderConcat(children, [child]);
    PreorderOne(child);
    ThreadsConcat(Preorder(children), Preorder([child]));
    ThreadsConcat([child], Preorder(child.children));
    assert ThreadsOf([child]) == [child.threads];
  }

  lemma {:induction false} OwnedByChild(nodes: seq<Node>, op: RelOp, owner: nat, next: nat)
    requires owner < next && nodes != [] && nodes[0].Element? && nodes[0].name == "RelOp"
    ensures var counters := Counters(nodes, owner, next);
            && InRel(nodes, op).threads == op.threads + OfOwner(counters, owner)
            && ThreadsOf(Preorder(InRel(nodes, op).children))
               == ThreadsOf(Preorder(op.children)) + Shares(counters, next, |Operators(nodes)|)
    decreases nodes, 0
  {
    hide Counters, Operators, InRel, OfOwner, Preorder, ThreadsOf, Shares;
    FirstCounters(nodes, owner, next);
    var Element(name, attrs, children) := nodes[0];
    InRelOfRelOp(nodes, op);
    var child := InRel(children, NewRelOp(attrs));
    var n, m := |Operators(children)|, |Operators(nodes[1..])|;
    var inner, outer := Counters(children, next, next + 1), Counters(nodes[1..], owner, next + 1 + n);
    CountersAreOwned(children, NewRelOp(attrs), next, next + 1);
    CountersAreOwned(nodes[1..], op.(children := op.children + [child]), owner, next + 1 + n);
    forall k | next + 1 + n <= k < next + 1 + n + m ensures OfOwner(inner, k) == [] {
      CountersInRange(children, next, next + 1, k);
    }
    forall k | next <= k < next + 1 + n ensures OfOwner(outer, k) == [] {
      CountersInRange(nodes[1..], owner, next + 1 + n, k);
    }
    SharesSplit(inner, outer, next, 1 + n, m);
    SharesFirst(inner, next, n);
    assert [] + OfOwner(inner, next) == OfOwner(inner, next);
    assert [] + Shares(inner, next + 1, n) == Shares(inner, next + 1, n);
    NoThreads();
    ThreadsWithChild(op.children, child);
    Regroup(ThreadsOf(Preorder(op.children)), Shares(inner, next, 1 + n), Shares(outer, next + 1 + n, m));
    CountersInRange(children, next, next + 1, owner);
    OfOwnerConcat(inner, outer, owner);
    assert [] + OfOwner(outer, owner) == OfOwner(outer, owner);
  }

  lemma SharesFirst(counters: seq<Owned>, next: nat, n: nat)
    ensures Shares(counters, next, 1 + n) == [OfOwner(counters, next)] + Shares(counters, next + 1, n)
  {
  }

  /**
   Tree projection: parsing a RelOp element yields a tree whose preorder is the document order of
   the operators, the element itself first, and in which operator number k has exactly the counters
   whose innermost operator is number k.
   */
  lemma TreeProjection(children: seq<Node>, rest: seq<Token>, attrs: Attrs)
    ensures var r := Rel(Tokens(children) + ([End] + rest), 1, NewRelOp(attrs));
            && r.Some? && r.value.1 == rest
            && var ops := Preorder([r.value.0]);
               && AttrsOf(ops) == [attrs] + Operators(children)
               && forall k | 0 <= k < |ops| :: ops[k].threads == OfOwner(Counters(children, 0, 1), k)
  {
    hide Rel, InRel, Counters, Operators, OfOwner;
    RelExact(children, rest, attrs);
    var root := InRel(children, NewRelOp(attrs));
    var ops, counters := Preorder([root]), Counters(children, 0, 1);
    PreorderOne(root);
    PreorderIsDocumentOrder(children, NewRelOp(attrs));
    AttrsConcat([root], Preorder(root.children));
    assert [] + Operators(children) == Operators(children);
    CountersAreOwned(children, NewRelOp(attrs), 0, 1);
    assert |Operators(children)| == |AttrsOf(Preorder(root.children))|;
    forall k | 0 <= k < |ops| ensures ops[k].threads == OfOwner(counters, k) {
      if k == 0 {
        assert [] + OfOwner(counters, 0) == OfOwner(counters, 0);
      } else {
        assert ops[k] == Preorder(root.children)[k - 1];
        assert ops[k].threads == ThreadsOf(Preorder(root.children))[k - 1];
        assert ([] + Shares(counters, 1, |Operators(children)|))[k - 1] == OfOwner(counters, 1 + (k - 1));
      }
    }
  }
}
