/**
 Arguments of commands: a text of gaps and references resolves to the text with the values in place of
 the references, and an include opens the file of that name.
 */
module Arguments {
  import opened Runes
  import opened Lexing
  import opened LexingLaws
  import opened BatchState
  import opened Expansion
  import opened Script

  /** A reference is spelled in t at position i. */
  predicate Refers(t: string, i: nat) {
    Pair(t, i, '$', '(') && RefEnd(t, i + 2).Some?
  }

  /** The references of the text of pieces are exactly its variables: none starts in a gap. */
  predicate WellFormed(pieces: seq<Piece>) {
    pieces != [] ==>
      WellFormed(pieces[1..]) &&
      match pieces[0]
      case Gap(text) => forall i :: 0 <= i < |text| ==> !Refers(Render(pieces), i)
      case Var(name) => forall c | c in name :: NameRune(c)
  }

  /** The names of the variables that are not defined, in order. */
  function Unknown(pieces: seq<Piece>, resolve: Lookup): seq<string> {
    if pieces == [] then []
    else
      (match pieces[0] case Gap(_) => [] case Var(name) => if resolve(name).None? then [name] else [])
      + Unknown(pieces[1..], resolve)
  }

  /** What an argument made of pieces should resolve to. */
  function Filled(pieces: seq<Piece>, resolve: Lookup, fail: bool): Argument {
    if fail && Unknown(pieces, resolve) != [] then Undefined(Unknown(pieces, resolve)[0])
    else Resolved(Fill(pieces, resolve), Unknown(pieces, resolve))
  }

  // ---------- One character, one reference ----------

  lemma NoneMissing()
    ensures var none: seq<string> := []; none + none == none
  {
  }

  /** A character at which no reference starts stays as it is. */
  lemma {:induction false} EagerPlain(arg: string, i: nat, resolve: Lookup, fail: bool)
    requires i < |arg| && !Refers(arg, i)
    ensures Eager(arg, i, resolve, fail) == Before([arg[i]], [], Eager(arg, i + 1, resolve, fail))
  {
    hide RefEnd, Before;
    EagerUnfold(arg, i, resolve, fail);
    if Pair(arg, i, '$', '(') {
      var rest := Eager(arg, i + 2, resolve, fail);
      EagerUnfold(arg, i + 1, resolve, fail);
      BeforeBefore("$", [], "(", [], rest);
      assert "$" + "(" == "$(" && [arg[i]] == "$" && [arg[i + 1]] == "(";
      NoneMissing();
    }
  }

  /** A stretch of such characters. */
  lemma {:induction false} EagerGap(arg: string, i: nat, j: nat, resolve: Lookup, fail: bool)
    requires i <= j <= |arg| && forall k | i <= k < j :: !Refers(arg, k)
    ensures Eager(arg, i, resolve, fail) == Before(arg[i..j], [], Eager(arg, j, resolve, fail))
    decreases j - i
  {
    hide Before, Refers, Eager;
    if i < j {
      EagerPlain(arg, i, resolve, fail);
      EagerGap(arg, i + 1, j, resolve, fail);
      BeforeBefore([arg[i]], [], arg[i + 1..j], [], Eager(arg, j, resolve, fail));
      assert [arg[i]] + arg[i + 1..j] == arg[i..j];
      NoneMissing();
    } else {
      assert arg[i..j] == "";
      BeforeNothing(Eager(arg, j, resolve, fail));
    }
  }

  lemma {:induction false} EagerVar(arg: string, i: nat, name: string, resolve: Lookup, fail: bool)
    requires (forall c | c in name :: NameRune(c)) && StandsAt(arg, i, "$(" + name + ")")
    ensures var rest := Eager(arg, i + |name| + 3, resolve, fail);
            Eager(arg, i, resolve, fail) ==
            match resolve(name)
            case Some(value) => Before(value, [], rest)
            case None => if fail then Undefined(name) else Before("$(" + name + ")", [name], rest)
  {
    hide Before, RefEnd;
    var spelled := "$(" + name + ")";
    var e := i + 2 + |name|;
    forall k | 0 <= k < |spelled| ensures arg[i + k] == spelled[k] {
      RuneAt(arg, i, spelled, k);
    }
    forall k | i + 2 <= k < e ensures NameRune(arg[k]) {
      assert arg[i + (k - i)] == name[k - i - 2];
    }
    assert arg[e] == spelled[|name| + 2] == ')';
    RefEndIs(arg, i + 2, e);
    assert arg[i..i + |spelled|] == spelled && spelled[2..|name| + 2] == name;
    assert arg[i + 2..e] == arg[i..i + |spelled|][2..|name| + 2];
    EagerUnfold(arg, i, resolve, fail);
  }

  // ---------- Gaps and references ----------

  function Written(piece: Piece): string {
    match piece
    case Gap(text) => text
    case Var(name) => "$(" + name + ")"
  }

  lemma FirstStands(arg: string, i: nat, pieces: seq<Piece>)
    requires i <= |arg| && arg[i..] == Render(pieces) && pieces != []
    ensures var first := Written(pieces[0]);
            StandsAt(arg, i, first) && arg[i + |first|..] == Render(pieces[1..])
  {
    var first := Written(pieces[0]);
    RenderFirst(pieces);
    assert arg[i..] == first + Render(pieces[1..]);
    assert arg[i..][..|first|] == first && arg[i..][|first|..] == Render(pieces[1..]);
  }

  /** Resolving the rest of a text from the place where pieces start. */
  lemma {:induction false} EagerIsFillFrom(arg: string, i: nat, pieces: seq<Piece>, resolve: Lookup, fail: bool)
    requires i <= |arg| && arg[i..] == Render(pieces) && WellFormed(pieces)
    ensures Eager(arg, i, resolve, fail) == Filled(pieces, resolve, fail)
    decreases |pieces|
  {
    hide Eager, RefEnd, Refers, Before, Filled, Render;
    if pieces == [] {
      NoPieces();
      assert i == |arg|;
      EagerOfNothing(arg, resolve, fail);
      FilledNothing(resolve, fail);
    } else {
      var j := i + |Written(pieces[0])|;
      FirstStands(arg, i, pieces);
      EagerIsFillFrom(arg, j, pieces[1..], resolve, fail);
      FilledFirst(pieces, resolve, fail);
      match pieces[0] {
        case Gap(text) =>
          forall k | i <= k < j ensures !Refers(arg, k) {
            RefersInRest(arg, i, k);
          }
          EagerGap(arg, i, j, resolve, fail);
        case Var(name) =>
          EagerVar(arg, i, name, resolve, fail);
      }
    }
  }

  lemma FilledNothing(resolve: Lookup, fail: bool)
    ensures Filled([], resolve, fail) == Resolved("", [])
  {
  }

  /** The first piece in front of what the rest resolves to. */
  lemma FilledFirst(pieces: seq<Piece>, resolve: Lookup, fail: bool)
    requires pieces != []
    ensures var rest := Filled(pieces[1..], resolve, fail);
            Filled(pieces, resolve, fail) ==
            match pieces[0]
            case Gap(text) => Before(text, [], rest)
            case Var(name) =>
              match resolve(name)
              case Some(value) => Before(value, [], rest)
              case None => if fail then Undefined(name) else Before("$(" + name + ")", [name], rest)
  {
  }

  lemma EagerOfNothing(arg: string, resolve: Lookup, fail: bool)
    ensures Eager(arg, |arg|, resolve, fail) == Resolved("", [])
  {
  }

  /** Whether a reference starts somewhere depends on what follows only. */
  lemma RefersInRest(arg: string, i: nat, k: nat)
    requires i <= k <= |arg|
    ensures Refers(arg, k) <==> Refers(arg[i..], k - i)
  {
    if Pair(arg, k, '$', '(') {
      RefEndInRest(arg, i, k + 2);
    }
  }

  lemma {:induction false} RefEndInRest(arg: string, i: nat, k: nat)
    requires i <= k <= |arg|
    ensures RefEnd(arg, k).Some? <==> RefEnd(arg[i..], k - i).Some?
    decreases |arg| - k
  {
    if k < |arg| {
      RefEndInRest(arg, i, k + 1);
    }
  }

  /**
   Resolving an argument gives the text with the values in place of its references. References to
   variables that are not defined stay and are reported in order; where that is an error, the first
   of them is named.
   */
  lemma ArgumentIsFilled(pieces: seq<Piece>, resolve: Lookup, fail: bool)
    requires WellFormed(pieces)
    ensures Eager(Render(pieces), 0, resolve, fail) == Filled(pieces, resolve, fail)
  {
    assert Render(pieces)[0..] == Render(pieces);
    EagerIsFillFrom(Render(pieces), 0, pieces, resolve, fail);
  }

  /** The include of a path names the file of the path with its references replaced. */
  lemma IncludeOpensFilled(env: Env, pieces: seq<Piece>)
    requires WellFormed(pieces)
    ensures var path := Render(pieces);
            var file := if env.rd.vars then Fill(pieces, env.resolve) else path;
            FileName(env, path) == file && (IsInclude(env, ReadFile(path)) <==> file in env.files)
  {
    ArgumentIsFilled(pieces, env.resolve, false);
  }
}
