/**
 Replacing references by the values of variables: in a finished batch, at the recorded offsets,
 and in a command argument, from left to right. Both are compared with `Fill`, which
 knows the text as a list of gaps and references, and with each other.
 */
module Expansion {
  import opened Runes
  import opened Lexing
  import opened BatchState
  import opened Batches

  /** The value of a variable, where it has one. */
  type Lookup = string -> Option<string>

  function ValueOf(ref: Ref, resolve: Lookup): string {
    if resolve(ref.name).Some? then resolve(ref.name).value else ref.Spelled()
  }

  /** Names without a value, in text order: one message each. */
  function Missing(refs: Refs, resolve: Lookup): seq<string> {
    if refs == [] then []
    else (if resolve(refs[0].name).Some? then [] else [refs[0].name]) + Missing(refs[1..], resolve)
  }

  /** The references lie in order between last and the end of q. */
  ghost predicate Ahead(q: string, refs: Refs, last: nat) {
    last <= |q| && (refs != [] ==> last <= refs[0].at && refs[0].End() <= |q| && Ahead(q, refs[1..], refs[0].End()))
  }

  lemma {:induction false} FitIsAhead(q: string, refs: Refs, last: nat)
    requires SpansFit(refs, |q|) && last <= |q| && (refs != [] ==> last <= refs[0].at)
    ensures Ahead(q, refs, last)
  {
    if refs != [] {
      FitIsAhead(q, refs[1..], refs[0].End());
    }
  }

  /** q from position last on, with the references replaced. */
  ghost function Expand(q: string, refs: Refs, last: nat, resolve: Lookup): string
    requires Ahead(q, refs, last)
  {
    if refs == [] then q[last..]
    else
      q[last..refs[0].at] + ValueOf(refs[0], resolve) + Expand(q, refs[1..], refs[0].End(), resolve)
  }

  // ---------- What expansion means ----------

  /** A batch text seen as what it is made of. */
  datatype Piece = Gap(text: string) | Var(name: string)

  function Render(pieces: seq<Piece>): string {
    if pieces == [] then ""
    else
      (match pieces[0] case Gap(text) => text case Var(name) => Ref(0, name).Spelled()) + Render(pieces[1..])
  }

  /** Where the references of pieces stand when the first piece starts at offset at. */
  function RefsOf(pieces: seq<Piece>, at: nat): Refs {
    if pieces == [] then []
    else
      match pieces[0]
      case Gap(text) => RefsOf(pieces[1..], at + |text|)
      case Var(name) => [Ref(at, name)] + RefsOf(pieces[1..], Ref(at, name).End())
  }

  /** Every reference gives way to its value, or stays; every gap stays. */
  function Fill(pieces: seq<Piece>, resolve: Lookup): string {
    if pieces == [] then ""
    else
      (match pieces[0] case Gap(text) => text case Var(name) => ValueOf(Ref(0, name), resolve))
      + Fill(pieces[1..], resolve)
  }

  lemma {:induction false} RefsOfAhead(pieces: seq<Piece>, at: nat, q: string)
    requires at + |Render(pieces)| == |q|
    ensures Ahead(q, RefsOf(pieces, at), at)
  {
    if pieces != [] {
      var first := match pieces[0] case Gap(text) => |text| case Var(name) => |name| + 3;
      RefsOfAhead(pieces[1..], at + first, q);
    }
  }

  /** A gap in front of the first reference is copied. */
  lemma {:induction false} ExpandGap(q: string, refs: Refs, last: nat, next: nat, resolve: Lookup)
    requires last <= next && Ahead(q, refs, last) && Ahead(q, refs, next)
    ensures Expand(q, refs, last, resolve) == q[last..next] + Expand(q, refs, next, resolve)
  {
    if refs == [] {
      SplitRest(q, last, next);
    } else {
      var tail := Expand(q, refs[1..], refs[0].End(), resolve);
      var v := ValueOf(refs[0], resolve);
      SplitSlice(q, last, next, refs[0].at);
      Regroup(q[last..next], q[next..refs[0].at], v);
      Regroup(q[last..next], q[next..refs[0].at] + v, tail);
    }
  }

  /** The first piece, and what follows it, in a text that holds pieces from at on. */
  lemma {:induction false} FirstPiece(pieces: seq<Piece>, at: nat, q: string)
    requires pieces != [] && at <= |q| && q[at..] == Render(pieces)
    ensures var width := |Render(pieces)| - |Render(pieces[1..])|;
            && 0 <= width && at + width <= |q|
            && q[at + width..] == Render(pieces[1..])
            && match pieces[0]
               case Gap(text) => q[at..at + width] == text
               case Var(name) => width == |name| + 3
  {
    hide Render;
    var tail := Render(pieces[1..]);
    var head := match pieces[0] case Gap(text) => text case Var(name) => Ref(0, name).Spelled();
    RenderFirst(pieces);
    var width := |head|;
    SliceOfSlice(q, at, |q|, width, |q| - at);
    SliceOfSlice(q, at, |q|, 0, width);
    assert q[at..|q|] == q[at..];
    assert (head + tail)[width..] == tail && (head + tail)[0..width] == head;
  }

  lemma {:induction false} RenderFirst(pieces: seq<Piece>)
    requires pieces != []
    ensures Render(pieces) ==
      (match pieces[0] case Gap(text) => text case Var(name) => Ref(0, name).Spelled()) + Render(pieces[1..])
  {
  }

  /** A reference right at the current position gives way to its value. */
  lemma {:induction false} ExpandHere(q: string, ref: Ref, rest: Refs, resolve: Lookup)
    requires ref.End() <= |q| && Ahead(q, rest, ref.End())
    ensures Ahead(q, [ref] + rest, ref.at)
    ensures Expand(q, [ref] + rest, ref.at, resolve) == ValueOf(ref, resolve) + Expand(q, rest, ref.End(), resolve)
  {
    var refs := [ref] + rest;
    assert refs[1..] == rest;
    assert q[ref.at..ref.at] == "";
  }

  lemma {:induction false} ExpandNothing(q: string, last: nat, resolve: Lookup)
    requires last <= |q|
    ensures Ahead(q, [], last) && Expand(q, [], last, resolve) == q[last..]
  {
  }

  lemma {:induction false} ExpandIsFillFrom(pieces: seq<Piece>, at: nat, q: string, resolve: Lookup)
    requires at <= |q| && q[at..] == Render(pieces)
    ensures Ahead(q, RefsOf(pieces, at), at)
    ensures Expand(q, RefsOf(pieces, at), at, resolve) == Fill(pieces, resolve)
  {
    hide Expand, Ahead, Render;
    RefsOfAhead(pieces, at, q);
    if pieces == [] {
      NoPieces();
      ExpandNothing(q, at, resolve);
    } else {
      FirstPiece(pieces, at, q);
      var width := |Render(pieces)| - |Render(pieces[1..])|;
      var rest := RefsOf(pieces[1..], at + width);
      ExpandIsFillFrom(pieces[1..], at + width, q, resolve);
      match pieces[0] {
        case Gap(text) => ExpandGap(q, rest, at, at + width, resolve);
        case Var(name) => ExpandHere(q, Ref(at, name), rest, resolve);
      }
    }
  }

  /**
   Variable expansion: whatever the gaps and references a text is made of, expanding it at the
   offsets of its references fills each of them exactly once and keeps every gap. Values are
   not looked at again.
   */
  lemma ExpandIsFill(pieces: seq<Piece>, resolve: Lookup)
    ensures Ahead(Render(pieces), RefsOf(pieces, 0), 0)
    ensures Expand(Render(pieces), RefsOf(pieces, 0), 0, resolve) == Fill(pieces, resolve)
  {
    ExpandIsFillFrom(pieces, 0, Render(pieces), resolve);
  }

  /** The pieces of an aligned text. */
  ghost function PiecesOf(q: string, refs: Refs, last: nat): seq<Piece>
    requires Ahead(q, refs, last)
  {
    if refs == [] then [Gap(q[last..])]
    else [Gap(q[last..refs[0].at]), Var(refs[0].name)] + PiecesOf(q, refs[1..], refs[0].End())
  }

  lemma SpansFirst(q: string, refs: Refs)
    requires refs != [] && SpansMatch(q, refs)
    ensures refs[0].End() <= |q| && q[refs[0].at..refs[0].End()] == refs[0].Spelled()
    ensures SpansMatch(q, refs[1..])
  {
    assert SpanAt(q, refs[0]);
    forall k | 0 <= k < |refs[1..]| ensures SpanAt(q, refs[1..][k]) {
      assert SpanAt(q, refs[k + 1]);
    }
  }

  /** Every text whose spans match is rendered by pieces with just these references. */
  lemma {:induction false} AlignedIsRendered(q: string, refs: Refs, last: nat)
    requires Ahead(q, refs, last) && SpansMatch(q, refs)
    ensures Render(PiecesOf(q, refs, last)) == q[last..]
    ensures RefsOf(PiecesOf(q, refs, last), last) == refs
  {
    hide SpansMatch, Render, RefsOf;
    var pieces := PiecesOf(q, refs, last);
    if refs == [] {
      PiecesCons(Gap(q[last..]), [], last);
      assert pieces == [Gap(q[last..])] + [];
      NoPieces();
    } else {
      var ref, rest := refs[0], PiecesOf(q, refs[1..], refs[0].End());
      SpansFirst(q, refs);
      AlignedIsRendered(q, refs[1..], ref.End());
      PiecesCons(Gap(q[last..ref.at]), [Var(ref.name)] + rest, last);
      PiecesCons(Var(ref.name), rest, ref.at);
      assert pieces == [Gap(q[last..ref.at])] + ([Var(ref.name)] + rest);
      SplitRest(q, last, ref.at);
      SplitRest(q, ref.at, ref.End());
      assert refs == [ref] + refs[1..];
    }
  }

  lemma NoPieces()
    ensures Render([]) == "" && forall i :: RefsOf([], i) == []
  {
  }

  lemma {:induction false} PiecesCons(piece: Piece, rest: seq<Piece>, at: nat)
    ensures match piece
            case Gap(text) =>
              && Render([piece] + rest) == text + Render(rest)
              && RefsOf([piece] + rest, at) == RefsOf(rest, at + |text|)
            case Var(name) =>
              && Render([piece] + rest) == Ref(at, name).Spelled() + Render(rest)
              && RefsOf([piece] + rest, at) == [Ref(at, name)] + RefsOf(rest, Ref(at, name).End())
  {
    assert ([piece] + rest)[1..] == rest;
  }

  // ---------- The batch query ----------

  predicate Increasing(s: seq<int>) {
    forall j, k | 0 <= j < k < |s| :: s[j] < s[k]
  }

  lemma HasElement(s: seq<int>)
    requires s != []
    ensures s[0] in s
  {
  }

  /** Two increasing sequences of the same elements are equal. */
  lemma {:induction false} IncreasingUnique(a: seq<int>, b: seq<int>)
    requires Increasing(a) && Increasing(b)
    requires forall x :: x in a <==> x in b
    ensures a == b
  {
    if a != [] {
      assert a[0] in b && b[0] in a;
      assert a[0] == b[0];
      forall x ensures x in a[1..] <==> x in b[1..] {
        assert x in a <==> x == a[0] || x in a[1..];
        assert x in b <==> x == b[0] || x in b[1..];
      }
      IncreasingUnique(a[1..], b[1..]);
      assert a == [a[0]] + a[1..] && b == [b[0]] + b[1..];
    } else if b != [] {
      HasElement(b);
    }
  }

  /** The keys in increasing order. */
  method SortedKeys(keys: set<int>) returns (s: seq<int>)
    ensures Increasing(s) && forall x :: x in s <==> x in keys
  {
    s := [];
    var todo := keys;
    while todo != {}
      invariant todo <= keys && Increasing(s)
      invariant forall x :: x in s <==> x in keys && x !in todo
      decreases |todo|
    {
      var x := Pick(todo);
      todo := todo - {x};
      var p := 0;
      while p < |s| && s[p] < x
        invariant 0 <= p <= |s|
        invariant forall k | 0 <= k < p :: s[k] < x
      {
        p := p + 1;
      }
      ghost var was := s;
      s := s[..p] + [x] + s[p..];
      forall y ensures y in s <==> y == x || y in was {
        assert was == was[..p] + was[p..];
      }
    }
  }

  function Offsets(refs: Refs): (r: seq<int>)
    ensures |r| == |refs|
  {
    seq(|refs|, k requires 0 <= k < |refs| => refs[k].at)
  }

  lemma OffsetAt(refs: Refs, k: nat)
    requires k < |refs|
    ensures Offsets(refs)[k] == refs[k].at
  {
  }

  lemma OffsetsAreSortedKeys(m: map<int, string>, refs: Refs, hi: nat, keys: seq<int>)
    requires Records(m, refs) && SpansFit(refs, hi)
    requires Increasing(keys) && forall x :: x in keys <==> x in m.Keys
    ensures keys == Offsets(refs)
  {
    var offsets := Offsets(refs);
    forall x ensures x in offsets <==> x in keys {
      if x in offsets {
        var k :| 0 <= k < |offsets| && offsets[k] == x;
        assert refs[k].at in m;
      }
      if x in keys {
        var k :| 0 <= k < |refs| && refs[k].at == x;
        assert offsets[k] == x;
      }
    }
    IncreasingUnique(keys, offsets);
  }

  lemma RefsMakeKeys(m: map<int, string>, refs: Refs)
    requires Records(m, refs) && refs != []
    ensures |m| > 0
  {
    assert refs[0].at in m;
  }

  /** The loop over the keys has dealt with the first k references and stands at last. */
  ghost predicate Progress(q: string, refs: Refs, resolve: Lookup, k: nat, b: string, last: nat, missing: seq<string>)
    requires Ahead(q, refs, 0)
  {
    && k <= |refs| && last <= |q| && Ahead(q, refs[k..], last)
    && Expand(q, refs, 0, resolve) == b + Expand(q, refs[k..], last, resolve)
    && Missing(refs, resolve) == missing + Missing(refs[k..], resolve)
  }

  lemma {:induction false} ProgressStart(q: string, refs: Refs, resolve: Lookup)
    requires Ahead(q, refs, 0)
    ensures Progress(q, refs, resolve, 0, "", 0, [])
  {
    assert refs[0..] == refs;
  }

  lemma {:induction false} ProgressStep(q: string, refs: Refs, resolve: Lookup, k: nat, b: string, last: nat, missing: seq<string>)
    requires Ahead(q, refs, 0) && k < |refs| && Progress(q, refs, resolve, k, b, last, missing)
    ensures last <= refs[k].at && refs[k].End() <= |q|
    ensures Progress(q, refs, resolve, k + 1, (b + q[last..refs[k].at]) + ValueOf(refs[k], resolve), refs[k].End(),
                     if resolve(refs[k].name).Some? then missing else missing + [refs[k].name])
  {
    var rest, ref := refs[k..], refs[k];
    assert rest[1..] == refs[k + 1..];
    Regroup4(b, q[last..ref.at], ValueOf(ref, resolve), Expand(q, rest[1..], ref.End(), resolve));
    Regroup(missing, if resolve(ref.name).Some? then [] else [ref.name], Missing(rest[1..], resolve));
    assert missing + [] == missing;
  }

  lemma {:induction false} ProgressEnd(q: string, refs: Refs, resolve: Lookup, b: string, last: nat, missing: seq<string>)
    requires Ahead(q, refs, 0) && Progress(q, refs, resolve, |refs|, b, last, missing)
    ensures Expand(q, refs, 0, resolve) == b + q[last..] && Missing(refs, resolve) == missing
  {
  }

  /** Converts the batch text into the query to run, and lists the variables without a value. */
  method GetRunnableQuery(q: string, varmap: map<int, string>, disabled: bool, resolve: Lookup, ghost refs: Refs)
    returns (query: string, missing: seq<string>)
    requires Records(varmap, refs) && SpansFit(refs, |q|)
    ensures Ahead(q, refs, 0)
    ensures query == if disabled then q else Expand(q, refs, 0, resolve)
    ensures missing == if disabled then [] else Missing(refs, resolve)
  {
    hide Expand, Records, Ahead, Missing, Progress, SpansFit, Increasing, Offsets;
    FitIsAhead(q, refs, 0);
    ProgressStart(q, refs, resolve);
    if disabled || |varmap| == 0 {
      if !disabled {
        if refs != [] {
          RefsMakeKeys(varmap, refs);
        }
        ProgressEnd(q, refs, resolve, "", 0, []);
      }
      return q, [];
    }
    var keys := SortedKeys(varmap.Keys);
    OffsetsAreSortedKeys(varmap, refs, |q|, keys);
    var b, last, k := "", 0, 0;
    missing := [];
    while k < |keys|
      invariant 0 <= k <= |refs| && 0 <= last <= |q|
      invariant Progress(q, refs, resolve, k, b, last, missing)
    {
      ProgressStep(q, refs, resolve, k, b, last, missing);
      RecordsAt(varmap, refs, k);
      OffsetAt(refs, k);
      var i := keys[k];
      b := b + q[last..i];
      ghost var gap := b;
      var v := varmap[i];
      var val := resolve(v);
      if val.Some? {
        b := b + val.value;
      } else {
        missing := missing + [v];
        b := b + ("$(" + v + ")");
      }
      assert b == gap + ValueOf(refs[k], resolve);
      last := i + |v| + 3;
      k := k + 1;
    }
    ProgressEnd(q, refs, resolve, b, last, missing);
    query := b + q[last..];
  }

  // ---------- Command arguments ----------

  /** A resolved argument with the names that had no value, or the name that made it fail. */
  datatype Argument = Resolved(text: string, missing: seq<string>) | Undefined(name: string)

  function Before(text: string, missing: seq<string>, rest: Argument): Argument {
    match rest
    case Resolved(t, m) => Resolved(text + t, missing + m)
    case Undefined(name) => Undefined(name)
  }

  /** Eager substitution from left to right; a malformed reference is ordinary text. */
  function Eager(arg: string, i: nat, resolve: Lookup, failOnUnresolved: bool): Argument
    decreases |arg| - i
  {
    if i >= |arg| then Resolved("", [])
    else if Pair(arg, i, '$', '(') then
      match RefEnd(arg, i + 2)
      case None => Before(arg[i..i + 2], [], Eager(arg, i + 2, resolve, failOnUnresolved))
      case Some(e) =>
        var name := arg[i + 2..e];
        var rest := Eager(arg, e + 1, resolve, failOnUnresolved);
        if resolve(name).Some? then Before(resolve(name).value, [], rest)
        else if failOnUnresolved then Undefined(name)
        else Before(arg[i..e + 1], [name], rest)
    else Before(arg[i..i + 1], [], Eager(arg, i + 1, resolve, failOnUnresolved))
  }

  lemma BeforeBefore(a: string, m: seq<string>, b: string, n: seq<string>, rest: Argument)
    ensures Before(a, m, Before(b, n, rest)) == Before(a + b, m + n, rest)
  {
    if rest.Resolved? {
      Regroup(a, b, rest.text);
      Regroup(m, n, rest.missing);
    }
  }

  /**
   Resolves the references of a command argument. The builder is created at the first value;
   until then the argument itself stands for what has been written.
   */
  method ResolveArgumentVariables(arg: string, disabled: bool, resolve: Lookup, failOnUnresolved: bool)
    returns (r: Argument)
    ensures r == if disabled then Resolved(arg, []) else Eager(arg, 0, resolve, failOnUnresolved)
  {
    hide Eager, Before, RefEnd;
    var b: Option<string> := None;
    var missing := [];
    var end, i := |arg|, 0;
    if disabled {
      return Resolved(arg, []);
    }
    ghost var whole, written := Eager(arg, 0, resolve, failOnUnresolved), "";
    BeforeNothing(whole);
    while i < end
      invariant 0 <= i <= end
      invariant written == if b.None? then arg[..i] else b.value
      invariant whole == Before(written, missing, Eager(arg, i, resolve, failOnUnresolved))
    {
      EagerStep(arg, i, resolve, failOnUnresolved, written, missing);
      var c, next := arg[i], if i + 1 < end then arg[i + 1] else '\0';
      if c == '$' && next == '(' {
        var vl := ReadVariableReference(arg, i + 2);
        if vl.Some? {
          var name := arg[i + 2..vl.value];
          var val := resolve(name);
          if val.Some? {
            if b.None? {
              b := Some(arg[..i]);
            }
            b := Some(b.value + val.value);
            written := written + val.value;
          } else {
            if failOnUnresolved {
              return Undefined(name);
            }
            missing := missing + [name];
            if b.Some? {
              b := Some(b.value + arg[i..vl.value + 1]);
            }
            TakeMore(arg, i, vl.value + 1);
            written := written + arg[i..vl.value + 1];
          }
          i := i + ((vl.value - i) + 1);
        } else {
          if b.Some? {
            b := Some(b.value + "$(");
          }
          TakeMore(arg, i, i + 2);
          assert arg[i..i + 2] == "$(";
          written := written + "$(";
          i := i + 2;
        }
      } else {
        if b.Some? {
          b := Some(b.value + [c]);
        }
        TakeMore(arg, i, i + 1);
        written := written + [c];
        i := i + 1;
      }
    }
    EagerEnd(arg, resolve, failOnUnresolved, written, missing);
    if b.None? {
      assert arg[..end] == arg;
      return Resolved(arg, missing);
    }
    return Resolved(b.value, missing);
  }

  lemma BeforeNothing(rest: Argument)
    ensures Before("", [], rest) == rest
  {
  }

  lemma {:induction false} EagerEnd(arg: string, resolve: Lookup, fail: bool, done: string, missing: seq<string>)
    ensures Before(done, missing, Eager(arg, |arg|, resolve, fail)) == Resolved(done, missing)
  {
    assert done + "" == done && missing + [] == missing;
  }

  /** One unfolding of Eager, for proofs that hide its definition. */
  lemma {:induction false} EagerUnfold(arg: string, i: nat, resolve: Lookup, fail: bool)
    requires i < |arg|
    ensures Eager(arg, i, resolve, fail) ==
            if Pair(arg, i, '$', '(') then
              match RefEnd(arg, i + 2)
              case None => Before("$(", [], Eager(arg, i + 2, resolve, fail))
              case Some(e) =>
                var name := arg[i + 2..e];
                var rest := Eager(arg, e + 1, resolve, fail);
                if resolve(name).Some? then Before(resolve(name).value, [], rest)
                else if fail then Undefined(name)
                else Before(arg[i..e + 1], [name], rest)
            else Before([arg[i]], [], Eager(arg, i + 1, resolve, fail))
  {
    hide RefEnd, Before;
    assert arg[i..i + 1] == [arg[i]];
    assert Pair(arg, i, '$', '(') ==> arg[i..i + 2] == "$(";
  }

  /** One round of the loop over the argument. */
  lemma {:induction false} EagerStep(arg: string, i: nat, resolve: Lookup, fail: bool, done: string, missing: seq<string>)
    requires i < |arg|
    ensures Before(done, missing, Eager(arg, i, resolve, fail)) ==
            if Pair(arg, i, '$', '(') then
              match RefEnd(arg, i + 2)
              case None => Before(done + "$(", missing, Eager(arg, i + 2, resolve, fail))
              case Some(e) =>
                var name := arg[i + 2..e];
                var rest := Eager(arg, e + 1, resolve, fail);
                if resolve(name).Some? then Before(done + resolve(name).value, missing, rest)
                else if fail then Undefined(name)
                else Before(done + arg[i..e + 1], missing + [name], rest)
            else Before(done + [arg[i]], missing, Eager(arg, i + 1, resolve, fail))
  {
    hide Eager, RefEnd;
    EagerUnfold(arg, i, resolve, fail);
    assert missing + [] == missing;
    if Pair(arg, i, '$', '(') {
      var e := RefEnd(arg, i + 2);
      if e.None? {
        BeforeBefore(done, missing, "$(", [], Eager(arg, i + 2, resolve, fail));
      } else {
        var name, rest := arg[i + 2..e.value], Eager(arg, e.value + 1, resolve, fail);
        if resolve(name).Some? {
          BeforeBefore(done, missing, resolve(name).value, [], rest);
        } else {
          BeforeBefore(done, missing, arg[i..e.value + 1], [name], rest);
        }
      }
    } else {
      BeforeBefore(done, missing, [arg[i]], [], Eager(arg, i + 1, resolve, fail));
    }
  }

  // ---------- The two ways of substituting agree ----------

  /** Nothing in t looks like the start of a comment. */
  ghost predicate CommentFree(t: string) {
    forall i: nat :: !Pair(t, i, '-', '-') && !Pair(t, i, '/', '*')
  }

  /** What Eager makes of t from i on is the expansion at the references refs. */
  ghost predicate Agrees(t: string, i: nat, refs: Refs, resolve: Lookup) {
    && Ahead(t, refs, i)
    && Eager(t, i, resolve, false) == Resolved(Expand(t, refs, i, resolve), Missing(refs, resolve))
  }

  lemma {:induction false} AgreesOnPlain(t: string, i: nat, refs: Refs, resolve: Lookup)
    requires i < |t| && !Pair(t, i, '$', '(') && Agrees(t, i + 1, refs, resolve)
    ensures Agrees(t, i, refs, resolve)
  {
    ExpandGap(t, refs, i, i + 1, resolve);
  }

  lemma {:induction false} EagerAtReference(t: string, i: nat, e: nat, resolve: Lookup)
    requires Pair(t, i, '$', '(') && RefEnd(t, i + 2) == Some(e)
    ensures var name, rest := t[i + 2..e], Eager(t, e + 1, resolve, false);
      Eager(t, i, resolve, false) ==
        if resolve(name).Some? then Before(resolve(name).value, [], rest)
        else Before(t[i..e + 1], [name], rest)
    ensures t[i..e + 1] == Ref(i, t[i + 2..e]).Spelled()
  {
    hide Eager, RefEnd, Before;
    EagerUnfold(t, i, resolve, false);
    SpelledAt(t, i, e);
  }

  lemma MissingFirst(ref: Ref, refs: Refs, resolve: Lookup)
    ensures Missing([ref] + refs, resolve) ==
      (if resolve(ref.name).Some? then [] else [ref.name]) + Missing(refs, resolve)
  {
    assert ([ref] + refs)[1..] == refs;
  }

  lemma {:induction false} AgreesOnReference(t: string, i: nat, e: nat, refs: Refs, resolve: Lookup)
    requires Pair(t, i, '$', '(') && RefEnd(t, i + 2) == Some(e)
    requires Agrees(t, e + 1, refs, resolve)
    ensures Agrees(t, i, [Ref(i, t[i + 2..e])] + refs, resolve)
  {
    hide Eager, Expand, Ahead, Missing, RefEnd, Pair;
    var ref := Ref(i, t[i + 2..e]);
    AgreesInRange(t, e + 1, refs, resolve);
    ExpandHere(t, ref, refs, resolve);
    EagerAtReference(t, i, e, resolve);
    MissingFirst(ref, refs, resolve);
    assert [] + Missing(refs, resolve) == Missing(refs, resolve);
  }

  lemma AgreesInRange(t: string, i: nat, refs: Refs, resolve: Lookup)
    requires Agrees(t, i, refs, resolve)
    ensures i <= |t|
  {
  }

  /** One step of lexing a comment-free text. */
  lemma {:induction false} LexCommentFree(t: string, i: nat, mode: Mode, acc: Refs)
    requires mode != Comment && ValidMode(mode) && CommentFree(t) && i < |t|
    requires Lex(t, i, mode, acc, true).Open?
    ensures var h := Advance(t, i, mode, true);
            && h.Hop? && h.mode != Comment && ValidMode(h.mode)
            && Lex(t, i, mode, acc, true) == Lex(t, h.next, h.mode, Note(acc, i, h.ref), true)
            && match h.ref
               case Some(name) =>
                 && Pair(t, i, '$', '(') && RefEnd(t, i + 2).Some?
                 && h.next == RefEnd(t, i + 2).value + 1 && name == t[i + 2..h.next - 1]
               case None =>
                 && !Pair(t, i, '$', '(')
                 && (h.next == i + 1 || (h.next == i + 2 && !Pair(t, i + 1, '$', '(')))
  {
    assert !Pair(t, i, '-', '-') && !Pair(t, i, '/', '*');
  }

  lemma {:induction false} LexIsEager(t: string, i: nat, mode: Mode, acc: Refs, resolve: Lookup)
    requires mode != Comment && ValidMode(mode) && CommentFree(t) && i <= |t|
    requires Lex(t, i, mode, acc, true).Open?
    ensures var refs := Lex(t, i, mode, acc, true).refs;
            acc <= refs && Agrees(t, i, refs[|acc|..], resolve)
    decreases |t| - i
  {
    hide Agrees, Advance, Lex, RefEnd;
    if i == |t| {
      LexAtEnd(t, mode, acc, true);
      AgreesAtEnd(t, resolve);
    } else {
      LexCommentFree(t, i, mode, acc);
      var h := Advance(t, i, mode, true);
      LexIsEager(t, h.next, h.mode, Note(acc, i, h.ref), resolve);
      var refs := Lex(t, i, mode, acc, true).refs;
      if h.ref.Some? {
        AgreesOnReference(t, i, h.next - 1, refs[|acc| + 1..], resolve);
        assert refs[|acc|] == Ref(i, h.ref.value);
        assert refs[|acc|..] == [Ref(i, h.ref.value)] + refs[|acc| + 1..];
      } else {
        if h.next == i + 2 {
          AgreesOnPlain(t, i + 1, refs[|acc|..], resolve);
        }
        AgreesOnPlain(t, i, refs[|acc|..], resolve);
      }
    }
  }

  lemma {:induction false} AgreesAtEnd(t: string, resolve: Lookup)
    ensures Agrees(t, |t|, [], resolve)
  {
  }

  /**
   A comment-free line that is text for an empty batch: expanding the batch it makes, at the
   offsets recorded by the batch reader, equals resolving it as a command argument.
   */
  lemma EnginesAgree(rd: Reader, line: string, resolve: Lookup)
    requires ValidEol(rd.eol) && rd.vars && CommentFree(line)
    requires TextLine(rd, FRESH, line) && ScanLine(rd, FRESH, line).Text?
    ensures var s := ScanLine(rd, FRESH, line);
            var st := AfterText(FRESH, line, s.mode, s.refs, rd.eol);
            && st.text == Some(line)
            && Ahead(line, st.refs, 0)
            && Eager(line, 0, resolve, false) == Resolved(Expand(line, st.refs, 0, resolve), Missing(st.refs, resolve))
  {
    LineAtATimeIsOnePass(rd, [line]);
    LexIsEager(line, 0, Code, [], resolve);
  }
}
