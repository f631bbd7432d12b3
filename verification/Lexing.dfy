/**
 Lexical state of a T-SQL batch: open quotes, multi-line comments and `$(name)` references.

 `Lex` reads a whole text in one pass. `Scan` is what the batch reader does with one chunk of
 input, including the recognition of commands. The refinement theorem says that scanning line
 after line is the same as lexing the joined lines once.
 */
module Lexing {
  import opened Runes

  datatype Mode = Code | Quoted(quote: char) | Comment

  /** A reference `$(name)` whose `$` stands at offset `at`. */
  datatype Ref = Ref(at: nat, name: string) {
    function Spelled(): string {
      "$(" + name + ")"
    }

    /** Offset of the first character after the reference. */
    function End(): nat {
      at + |name| + 3
    }
  }

  /** References in the order in which they were read. */
  type Refs = seq<Ref>

  predicate IsOpener(c: char) {
    c == '\'' || c == '"' || c == '['
  }

  /** Only quotes and brackets open a quoted string. */
  predicate ValidMode(mode: Mode) {
    mode.Quoted? ==> IsOpener(mode.quote)
  }

  function Closer(quote: char): char {
    if quote == '[' then ']' else quote
  }

  /** Position of the `)` that closes a reference whose name starts at i. */
  function RefEnd(t: string, i: nat): (r: Option<nat>)
    ensures r.Some? ==>
              && i <= r.value < |t|
              && t[r.value] == ')'
              && forall k | i <= k < r.value :: NameRune(t[k])
    ensures r.None? ==> forall e | i <= e < |t| && t[e] == ')' :: exists k | i <= k < e :: !NameRune(t[k])
    decreases |t| - i
  {
    if i >= |t| then None
    else if t[i] == ')' then Some(i)
    else if NameRune(t[i]) then RefEnd(t, i + 1)
    else None
  }

  /** First line feed at or after i, or the end of the text. */
  function LineEnd(t: string, i: nat): (e: nat)
    requires i <= |t|
    ensures i <= e <= |t|
    ensures forall k | i <= k < e :: t[k] != '\n'
    ensures e < |t| ==> t[e] == '\n'
    decreases |t| - i
  {
    if i < |t| && t[i] != '\n' then LineEnd(t, i + 1) else i
  }

  /** One lexical step: where it ends, the mode after it, and the reference it read. */
  datatype Hop = Hop(next: nat, mode: Mode, ref: Option<string>) | NoRef

  lemma SpelledAt(t: string, i: nat, e: nat)
    requires Pair(t, i, '$', '(') && i + 2 <= e < |t| && t[e] == ')'
    ensures t[i..e + 1] == Ref(i, t[i + 2..e]).Spelled()
  {
    SplitSlice(t, i, i + 2, e + 1);
    SplitSlice(t, i + 2, e, e + 1);
    assert t[i..i + 2] == "$(";
    Regroup("$(", t[i + 2..e], ")");
  }

  predicate AtDashes(t: string, i: nat, mode: Mode) {
    mode == Code && Pair(t, i, '-', '-')
  }

  function Advance(t: string, i: nat, mode: Mode, vars: bool): (h: Hop)
    requires i < |t|
    ensures h.Hop? ==> i < h.next <= |t| && (ValidMode(mode) ==> ValidMode(h.mode))
    ensures h.Hop? && h.ref.Some? ==> h.next == Ref(i, h.ref.value).End()
    ensures h.Hop? && h.ref.Some? ==> t[i..h.next] == Ref(i, h.ref.value).Spelled()
  {
    if mode == Comment then
      if Pair(t, i, '*', '/') then Hop(i + 2, Code, None) else Hop(i + 1, Comment, None)
    else if mode == Code && IsOpener(t[i]) then
      Hop(i + 1, Quoted(t[i]), None)
    else if mode == Code && Pair(t, i, '/', '*') then
      Hop(i + 2, Comment, None)
    else if vars && Pair(t, i, '$', '(') then
      match RefEnd(t, i + 2)
      case None => NoRef
      case Some(e) => SpelledAt(t, i, e); Hop(e + 1, mode, Some(t[i + 2..e]))
    else if mode.Quoted? && t[i] == Closer(mode.quote) then
      if mode.quote != '"' && Pair(t, i, t[i], t[i]) then Hop(i + 2, mode, None)
      else Hop(i + 1, Code, None)
    else
      Hop(i + 1, mode, None)
  }

  function Note(refs: Refs, i: nat, ref: Option<string>): Refs {
    if ref.None? then refs else refs + [Ref(i, ref.value)]
  }

  // ---------- The one-pass reference ----------

  datatype Lexed = Open(mode: Mode, refs: Refs) | Malformed

  /** Lexes t from position i to its end; a `--` comment stops at the line feed. */
  function Lex(t: string, i: nat, mode: Mode, refs: Refs, vars: bool): Lexed
    decreases |t| - i
  {
    if i >= |t| then Open(mode, refs)
    else if AtDashes(t, i, mode) then Lex(t, LineEnd(t, i), Code, refs, vars)
    else
      match Advance(t, i, mode, vars)
      case NoRef => Malformed
      case Hop(next, mode', ref) => Lex(t, next, mode', Note(refs, i, ref), vars)
  }

  /** One unfolding of Lex, for proofs that hide its definition. */
  lemma {:induction false} LexStep(t: string, i: nat, mode: Mode, refs: Refs, vars: bool)
    requires i < |t|
    ensures Lex(t, i, mode, refs, vars) ==
            if AtDashes(t, i, mode) then Lex(t, LineEnd(t, i), Code, refs, vars)
            else
              match Advance(t, i, mode, vars)
              case NoRef => Malformed
              case Hop(next, mode', ref) => Lex(t, next, mode', Note(refs, i, ref), vars)
  {
  }

  /** A complete text, read from its beginning outside any quote or comment. */
  function LexText(t: string, vars: bool): Lexed {
    Lex(t, 0, Code, [], vars)
  }

  // ---------- Scanning one chunk of input ----------

  /** What reading a chunk amounts to: text for the batch, a syntax error, or a command. */
  datatype Scanned<C> =
    | Text(mode: Mode, refs: Refs)
    | Bad
    | Found(command: C, at: nat, rest: nat)

  /** End of the text a command match looks at. */
  function CommandEnd(r: string, i: nat): (e: nat)
    requires i <= |r|
    ensures i <= e <= |r|
    ensures forall k | i <= k < e :: !EndsCommand(r[k])
    ensures e < |r| ==> EndsCommand(r[e])
    decreases |r| - i
  {
    if i < |r| && !EndsCommand(r[i]) then CommandEnd(r, i + 1) else i
  }

  /** A character with no lexical meaning of its own outside quotes and comments. */
  predicate Ordinary(r: string, i: nat, vars: bool)
    requires i < |r|
  {
    && !IsOpener(r[i])
    && !Pair(r, i, '-', '-')
    && !Pair(r, i, '/', '*')
    && !(vars && Pair(r, i, '$', '('))
  }

  /** Reads chunk r from i. `scanned` tells that a command has been ruled out already. */
  function Scan<C>(r: string, i: nat, mode: Mode, scanned: bool, refs: Refs, vars: bool,
                   match_: string -> Option<C>): (s: Scanned<C>)
    ensures s.Found? ==> i <= s.at <= s.rest <= |r| && !scanned && mode == Code
    ensures s.Found? ==> match_(r[..s.rest]) == Some(s.command) && s.rest == CommandEnd(r, s.at)
    decreases |r| - i
  {
    if i >= |r| then Text(mode, refs)
    else if AtDashes(r, i, mode) then Text(Code, refs)
    else
      var attempt := mode == Code && Ordinary(r, i, vars);
      if attempt && !scanned && match_(r[..CommandEnd(r, i)]).Some? then
        Found(match_(r[..CommandEnd(r, i)]).value, i, CommandEnd(r, i))
      else
        match Advance(r, i, mode, vars)
        case NoRef => Bad
        case Hop(next, mode', ref) =>
          Scan(r, next, mode', scanned || mode != Code || attempt, Note(refs, i, ref), vars, match_)
  }

  /** One unfolding of Scan, for proofs that hide its definition. */
  lemma {:induction false} ScanStep<C>(r: string, i: nat, mode: Mode, scanned: bool, refs: Refs, vars: bool,
                                       match_: string -> Option<C>)
    requires i < |r|
    ensures Scan(r, i, mode, scanned, refs, vars, match_) ==
            if AtDashes(r, i, mode) then Text(Code, refs)
            else
              var attempt := mode == Code && Ordinary(r, i, vars);
              if attempt && !scanned && match_(r[..CommandEnd(r, i)]).Some? then
                Found(match_(r[..CommandEnd(r, i)]).value, i, CommandEnd(r, i))
              else
                match Advance(r, i, mode, vars)
                case NoRef => Bad
                case Hop(next, mode', ref) =>
                  Scan(r, next, mode', scanned || mode != Code || attempt, Note(refs, i, ref), vars, match_)
  {
  }

  /** Inside a quote or a comment no command is looked for. */
  lemma {:induction false} ScanInside<C>(r: string, i: nat, mode: Mode, scanned: bool, refs: Refs, vars: bool,
                                         match_: string -> Option<C>)
    requires i < |r| && mode != Code
    ensures Scan(r, i, mode, scanned, refs, vars, match_) == Scan(r, i, mode, true, refs, vars, match_)
  {
  }

  lemma {:induction false} ScanOpener<C>(r: string, i: nat, scanned: bool, refs: Refs, vars: bool,
                                         match_: string -> Option<C>)
    requires i < |r| && IsOpener(r[i])
    ensures Scan(r, i, Code, scanned, refs, vars, match_) == Scan(r, i + 1, Quoted(r[i]), scanned, refs, vars, match_)
  {
  }

  lemma {:induction false} ScanDashes<C>(r: string, i: nat, scanned: bool, refs: Refs, vars: bool,
                                         match_: string -> Option<C>)
    requires Pair(r, i, '-', '-')
    ensures Scan(r, i, Code, scanned, refs, vars, match_) == Text(Code, refs)
  {
  }

  lemma {:induction false} ScanCommentStart<C>(r: string, i: nat, scanned: bool, refs: Refs, vars: bool,
                                               match_: string -> Option<C>)
    requires Pair(r, i, '/', '*')
    ensures Scan(r, i, Code, scanned, refs, vars, match_) == Scan(r, i + 2, Comment, scanned, refs, vars, match_)
  {
  }

  lemma AdvanceReference(r: string, i: nat, mode: Mode)
    requires mode != Comment && Pair(r, i, '$', '(')
    ensures Advance(r, i, mode, true) ==
            match RefEnd(r, i + 2)
            case None => NoRef
            case Some(e) => Hop(e + 1, mode, Some(r[i + 2..e]))
  {
    hide RefEnd;
  }

  lemma {:induction false} ScanReference<C>(r: string, i: nat, mode: Mode, scanned: bool, refs: Refs,
                                            match_: string -> Option<C>)
    requires mode != Comment && Pair(r, i, '$', '(')
    ensures Scan(r, i, mode, scanned, refs, true, match_) ==
            match RefEnd(r, i + 2)
            case None => Bad
            case Some(e) =>
              Scan(r, e + 1, mode, scanned || mode != Code, refs + [Ref(i, r[i + 2..e])], true, match_)
  {
    hide Scan, Advance, RefEnd, CommandEnd;
    ScanStep(r, i, mode, scanned, refs, true, match_);
    AdvanceReference(r, i, mode);
  }

  /** The first ordinary character of a chunk decides whether the chunk is a command. */
  lemma {:induction false} ScanOrdinary<C>(r: string, i: nat, scanned: bool, refs: Refs, vars: bool,
                                           match_: string -> Option<C>)
    requires i < |r| && Ordinary(r, i, vars)
    ensures Scan(r, i, Code, scanned, refs, vars, match_) ==
            if !scanned && match_(r[..CommandEnd(r, i)]).Some? then
              Found(match_(r[..CommandEnd(r, i)]).value, i, CommandEnd(r, i))
            else Scan(r, i + 1, Code, true, refs, vars, match_)
  {
  }

  lemma {:induction false} ScanEnd<C>(r: string, mode: Mode, scanned: bool, refs: Refs, vars: bool,
                                      match_: string -> Option<C>)
    ensures Scan(r, |r|, mode, scanned, refs, vars, match_) == Text(mode, refs)
  {
  }

  // ---------- References stay where they were read ----------

  /** The reference is spelled out at its offset in t. */
  predicate SpanAt(t: string, ref: Ref) {
    ref.End() <= |t| && t[ref.at..ref.End()] == ref.Spelled()
  }

  /** Spans of the references lie one after the other inside the first hi characters. */
  ghost predicate SpansFit(refs: Refs, hi: nat) {
    && (forall k | 0 <= k < |refs| :: refs[k].End() <= hi)
    && (forall j, k | 0 <= j < k < |refs| :: refs[j].End() <= refs[k].at)
  }

  /** Every recorded span holds exactly the reference it stands for. */
  ghost predicate SpansMatch(t: string, refs: Refs) {
    forall k | 0 <= k < |refs| :: SpanAt(t, refs[k])
  }

  lemma NoteKeepsSpans(t: string, i: nat, mode: Mode, refs: Refs, vars: bool)
    requires i < |t|
    requires SpansFit(refs, i) && SpansMatch(t, refs)
    ensures var h := Advance(t, i, mode, vars);
            h.Hop? ==> SpansFit(Note(refs, i, h.ref), h.next) && SpansMatch(t, Note(refs, i, h.ref))
  {
    var h := Advance(t, i, mode, vars);
    if h.Hop? && h.ref.Some? {
      assert SpanAt(t, Ref(i, h.ref.value));
    }
  }

  lemma {:induction false} ScanKeepsSpans<C>(r: string, i: nat, mode: Mode, scanned: bool, refs: Refs, vars: bool,
                                             match_: string -> Option<C>)
    requires i <= |r|
    requires SpansFit(refs, i) && SpansMatch(r, refs)
    ensures var s := Scan(r, i, mode, scanned, refs, vars, match_);
            s.Text? ==> SpansFit(s.refs, |r|) && SpansMatch(r, s.refs)
    decreases |r| - i
  {
    if i < |r| && !AtDashes(r, i, mode) {
      var h := Advance(r, i, mode, vars);
      if h.Hop? {
        NoteKeepsSpans(r, i, mode, refs, vars);
        ScanKeepsSpans(r, h.next, h.mode, scanned || mode != Code || (mode == Code && Ordinary(r, i, vars)),
                       Note(refs, i, h.ref), vars, match_);
      }
    }
  }

  lemma {:induction false} LexKeepsSpans(t: string, i: nat, mode: Mode, refs: Refs, vars: bool)
    requires i <= |t|
    requires SpansFit(refs, i) && SpansMatch(t, refs)
    ensures var x := Lex(t, i, mode, refs, vars);
            x.Open? ==> SpansFit(x.refs, |t|) && SpansMatch(t, x.refs)
    decreases |t| - i
  {
    if i < |t| {
      if AtDashes(t, i, mode) {
        LexKeepsSpans(t, LineEnd(t, i), Code, refs, vars);
      } else {
        var h := Advance(t, i, mode, vars);
        if h.Hop? {
          NoteKeepsSpans(t, i, mode, refs, vars);
          LexKeepsSpans(t, h.next, h.mode, Note(refs, i, h.ref), vars);
        }
      }
    }
  }

  /** References of a line that starts at offset d of a larger text. */
  function Shift(refs: Refs, d: nat): Refs {
    seq(|refs|, k requires 0 <= k < |refs| => Ref(refs[k].at + d, refs[k].name))
  }
}
