/**
 The value of a batch under construction, and what one chunk of input does to it.

 `Feed` runs lines through the batch one at a time. `LineAtATimeIsOnePass` proves that the
 result is the one-pass lexing of the joined lines.
 */
module BatchState {
  import opened Runes
  import opened Lexing

  /** The commands a script line can hold; the patterns that recognise them are abstract. */
  datatype Command =
    | Go(count: Option<int>)   // None: an argument that is not a number
    | ReadFile(path: string)
    | ResetBatch

  /** What the reader is configured with. */
  datatype Reader = Reader(eol: string, vars: bool, commands: string -> Option<Command>)

  /** text is None before the first line; line is the 1-based number of the next batch line. */
  datatype State = State(text: Option<string>, mode: Mode, line: nat, refs: Refs) {
    function Content(): string {
      if text.None? then "" else text.value
    }
  }

  const FRESH := State(None, Code, 1, [])

  function Append(text: Option<string>, r: string, sep: string): string {
    if text.None? then r else text.value + sep + r
  }

  /** The batch after a line of text that ended in `mode` and held the references `refs`. */
  function AfterText(st: State, r: string, mode: Mode, refs: Refs, eol: string): State {
    var inc := if st.line > 1 then |eol| else 0;
    State(Some(Append(st.text, r, eol)), mode, st.line + 1, st.refs + Shift(refs, |st.Content()| + inc))
  }

  function ScanLine(rd: Reader, st: State, r: string): Scanned<Command> {
    Scan(r, 0, st.mode, false, [], rd.vars, rd.commands)
  }

  // ---------- Invariants ----------

  /** Holds in every reachable state, whatever files were included. */
  ghost predicate Sound(st: State) {
    && st.line >= 1
    && (st.text.None? ==> st.line == 1 && st.mode == Code)
    && (st.Content() != "" ==> st.line > 1)
    && SpansFit(st.refs, |st.Content()|)
  }

  /** The offset invariant: every recorded span of the text is the reference it names. */
  ghost predicate Aligned(st: State) {
    && Sound(st)
    && (st.text.Some? ==> st.line > 1)
    && SpansMatch(st.Content(), st.refs)
  }

  lemma FreshIsAligned()
    ensures Aligned(FRESH)
  {
  }

  /** Spans of a first part and of a second part that starts at d fit together. */
  lemma SpansUnion(first: Refs, second: Refs, d: nat, len: nat)
    requires SpansFit(first, d) && SpansFit(second, len)
    ensures SpansFit(first + Shift(second, d), d + len)
  {
  }

  lemma SpansUnionMatch(t: string, first: Refs, r: string, second: Refs, d: nat)
    requires d <= |t| && t[d..] == r
    requires SpansMatch(t[..d], first) && SpansMatch(r, second)
    ensures SpansMatch(t, first + Shift(second, d))
  {
    var all := first + Shift(second, d);
    forall k | 0 <= k < |all| ensures SpanAt(t, all[k]) {
      if k < |first| {
        assert SpanAt(t[..d], first[k]);
        assert t[all[k].at..all[k].End()] == t[..d][all[k].at..all[k].End()];
      } else {
        var ref := second[k - |first|];
        assert SpanAt(r, ref);
        SliceOfSlice(t, d, |t|, ref.at, ref.End());
      }
    }
  }

  /** Soundness survives any chunk of text. */
  lemma TextKeepsSound(rd: Reader, st: State, r: string)
    requires Sound(st) && ValidEol(rd.eol)
    ensures var s := ScanLine(rd, st, r);
            s.Text? ==> Sound(AfterText(st, r, s.mode, s.refs, rd.eol))
  {
    var s := ScanLine(rd, st, r);
    ScanKeepsSpans(r, 0, st.mode, false, [], rd.vars, rd.commands);
    if s.Text? {
      var d := |st.Content()| + if st.line > 1 then |rd.eol| else 0;
      assert SpansFit(st.refs, d);
      SpansUnion(st.refs, s.refs, d, |r|);
    }
  }

  /** Text added after the content leaves the spans in it alone. */
  lemma ContentKeepsSpans(content: string, added: string, refs: Refs)
    requires SpansMatch(content, refs)
    ensures SpansMatch(content + added, refs)
  {
    var t := content + added;
    forall k | 0 <= k < |refs| ensures SpanAt(t, refs[k]) {
      assert SpanAt(content, refs[k]);
      assert t[refs[k].at..refs[k].End()] == content[refs[k].at..refs[k].End()];
    }
  }

  /** Offset invariant: a chunk of text keeps every recorded span on its reference. */
  lemma TextKeepsAligned(rd: Reader, st: State, r: string)
    requires Aligned(st) && ValidEol(rd.eol)
    ensures var s := ScanLine(rd, st, r);
            s.Text? ==> Aligned(AfterText(st, r, s.mode, s.refs, rd.eol))
  {
    hide Scan, SpansMatch, SpansFit, Shift;
    var s := ScanLine(rd, st, r);
    TextKeepsSound(rd, st, r);
    ScanKeepsSpans(r, 0, st.mode, false, [], rd.vars, rd.commands);
    if s.Text? {
      var content := st.Content();
      var sep := if st.text.Some? then rd.eol else "";
      var t := Append(st.text, r, rd.eol);
      ContentKeepsSpans(content, sep, st.refs);
      assert t == content + sep + r;
      assert t[..|content + sep|] == content + sep && t[|content + sep|..] == r;
      SpansUnionMatch(t, st.refs, r, s.refs, |content + sep|);
    }
  }

  /** The state after a chunk: an error clears the batch, and a command leaves it as it was. */
  function AfterChunk(rd: Reader, st: State, r: string): State {
    match ScanLine(rd, st, r)
    case Bad => FRESH
    case Found(_, _, _) => st
    case Text(mode, refs) => AfterText(st, r, mode, refs, rd.eol)
  }

  /** What can happen to a batch: a chunk read under any settings, or a reset. */
  datatype Step = Chunk(vars: bool, commands: string -> Option<Command>, text: string) | Clear

  function AfterSteps(eol: string, st: State, steps: seq<Step>): State
    decreases |steps|
  {
    if steps == [] then st
    else
      var next :=
        match steps[0]
        case Chunk(vars, commands, text) => AfterChunk(Reader(eol, vars, commands), st, text)
        case Clear => FRESH;
      AfterSteps(eol, next, steps[1..])
  }

  lemma {:induction false} StepsKeepAligned(eol: string, st: State, steps: seq<Step>)
    requires Aligned(st) && ValidEol(eol)
    ensures Aligned(AfterSteps(eol, st, steps))
    decreases |steps|
  {
    hide Aligned, ScanLine, AfterText;
    if steps != [] {
      FreshIsAligned();
      match steps[0] {
        case Chunk(vars, commands, text) =>
          var rd := Reader(eol, vars, commands);
          TextKeepsAligned(rd, st, text);
          StepsKeepAligned(eol, AfterChunk(rd, st, text), steps[1..]);
        case Clear =>
          StepsKeepAligned(eol, FRESH, steps[1..]);
      }
    }
  }

  /** In every state reached by reading and resetting, each recorded span is the reference it names. */
  lemma ReachableIsAligned(eol: string, steps: seq<Step>)
    requires ValidEol(eol)
    ensures Aligned(AfterSteps(eol, FRESH, steps))
  {
    FreshIsAligned();
    StepsKeepAligned(eol, FRESH, steps);
  }

  // ---------- Line at a time is one pass ----------

  /** No line feed, and nothing in the line is taken for a command. */
  predicate TextLine(rd: Reader, st: State, r: string) {
    '\n' !in r && !ScanLine(rd, st, r).Found?
  }

  /** Feeds lines one at a time; stops at the first syntax error. */
  function Feed(rd: Reader, st: State, lines: seq<string>): Option<State>
    decreases |lines|
  {
    if lines == [] then Some(st)
    else
      match ScanLine(rd, st, lines[0])
      case Text(mode, refs) => Feed(rd, AfterText(st, lines[0], mode, refs, rd.eol), lines[1..])
      case _ => None
  }

  /** Every line that is reached without an error is a line of text. */
  ghost predicate AllText(rd: Reader, st: State, lines: seq<string>)
    decreases |lines|
  {
    lines != [] ==>
      && TextLine(rd, st, lines[0])
      && var s := ScanLine(rd, st, lines[0]);
         s.Text? ==> AllText(rd, AfterText(st, lines[0], s.mode, s.refs, rd.eol), lines[1..])
  }

  /** r occupies t from a on and is followed by the terminator or by the end of t. */
  ghost predicate LineIn(t: string, a: nat, r: string, eol: string) {
    && a + |r| <= |t| && t[a..a + |r|] == r
    && '\n' !in r
    && (a + |r| == |t| || (a + |r| + |eol| <= |t| && t[a + |r|..a + |r| + |eol|] == eol))
  }

  lemma {:induction false} RefEndInText(t: string, a: nat, r: string, i: nat, eol: string)
    requires LineIn(t, a, r, eol) && ValidEol(eol) && i <= |r|
    ensures RefEnd(t, a + i) == match RefEnd(r, i) case None => None case Some(e) => Some(a + e)
    decreases |r| - i
  {
    if i < |r| {
      assert t[a + i] == r[i];
      if r[i] != ')' && NameRune(r[i]) {
        RefEndInText(t, a, r, i + 1, eol);
      }
    } else if a + |r| < |t| {
      assert t[a + |r|] == eol[0];
    }
  }

  lemma PairInText(t: string, a: nat, r: string, i: nat, eol: string, x: char, y: char)
    requires LineIn(t, a, r, eol) && ValidEol(eol) && i < |r| && y != '\n' && y != '\r'
    ensures t[a + i] == r[i]
    ensures Pair(t, a + i, x, y) == Pair(r, i, x, y)
  {
    assert t[a..a + |r|][i] == t[a + i];
    if i + 1 < |r| {
      assert t[a..a + |r|][i + 1] == t[a + i + 1];
    } else if a + |r| < |t| {
      assert t[a + |r|..a + |r| + |eol|][0] == t[a + |r|];
    }
  }

  lemma RefInText(t: string, a: nat, r: string, i: nat, eol: string)
    requires LineIn(t, a, r, eol) && ValidEol(eol) && i + 2 <= |r|
    ensures match RefEnd(r, i + 2)
            case None => RefEnd(t, a + i + 2) == None
            case Some(e) => RefEnd(t, a + i + 2) == Some(a + e) && t[a + i + 2..a + e] == r[i + 2..e]
  {
    RefEndInText(t, a, r, i + 2, eol);
    var e := RefEnd(r, i + 2);
    if e.Some? {
      SliceOfSlice(t, a, a + |r|, i + 2, e.value);
    }
  }

  /** One lexical step does not see past the end of its line. */
  lemma AdvanceInText(t: string, a: nat, r: string, i: nat, eol: string, mode: Mode, vars: bool)
    requires LineIn(t, a, r, eol) && ValidEol(eol) && i < |r| && ValidMode(mode)
    ensures AtDashes(t, a + i, mode) == AtDashes(r, i, mode)
    ensures match Advance(r, i, mode, vars)
            case NoRef => Advance(t, a + i, mode, vars) == NoRef
            case Hop(next, m, ref) => Advance(t, a + i, mode, vars) == Hop(a + next, m, ref)
  {
    PairInText(t, a, r, i, eol, '-', '-');
    PairInText(t, a, r, i, eol, '/', '*');
    PairInText(t, a, r, i, eol, '*', '/');
    PairInText(t, a, r, i, eol, '$', '(');
    if mode.Quoted? {
      PairInText(t, a, r, i, eol, Closer(mode.quote), Closer(mode.quote));
    }
    if Pair(r, i, '$', '(') {
      RefInText(t, a, r, i, eol);
    }
  }

  /** The terminator after a line changes no lexical state. */
  lemma LexEol(t: string, b: nat, mode: Mode, refs: Refs, eol: string, vars: bool)
    requires ValidEol(eol) && b + |eol| <= |t| && t[b..b + |eol|] == eol
    requires ValidMode(mode)
    ensures Lex(t, b, mode, refs, vars) == Lex(t, b + |eol|, mode, refs, vars)
  {
    assert t[b..b + |eol|][0] == t[b];
    assert Advance(t, b, mode, vars) == Hop(b + 1, mode, None);
    if |eol| == 2 {
      assert t[b..b + |eol|][1] == t[b + 1];
      assert Advance(t, b + 1, mode, vars) == Hop(b + 2, mode, None);
    }
  }

  lemma ShiftNote(before: Refs, refs: Refs, d: nat, i: nat, ref: Option<string>)
    ensures Note(before + Shift(refs, d), d + i, ref) == before + Shift(Note(refs, i, ref), d)
  {
  }

  /** Scanning a line as text is lexing it where it stands. */
  lemma {:induction false} ScanIsLex(rd: Reader, t: string, a: nat, r: string, i: nat, mode: Mode, scanned: bool,
                                     refs: Refs, before: Refs)
    requires LineIn(t, a, r, rd.eol) && ValidEol(rd.eol) && i <= |r| && ValidMode(mode)
    requires !Scan(r, i, mode, scanned, refs, rd.vars, rd.commands).Found?
    ensures var s := Scan(r, i, mode, scanned, refs, rd.vars, rd.commands);
            var x := Lex(t, a + i, mode, before + Shift(refs, a), rd.vars);
            if s.Bad? then x == Malformed
            else ValidMode(s.mode) && x == Lex(t, a + |r|, s.mode, before + Shift(s.refs, a), rd.vars)
    decreases |r| - i
  {
    hide Scan, Lex, Advance, LineIn, CommandEnd, Ordinary, AtDashes, Note, Shift, LineEnd;
    if i == |r| {
      ScanEnd(r, mode, scanned, refs, rd.vars, rd.commands);
    } else {
      LineFits(t, a, r, rd.eol);
      ScanStep(r, i, mode, scanned, refs, rd.vars, rd.commands);
      LexStep(t, a + i, mode, before + Shift(refs, a), rd.vars);
      AdvanceInText(t, a, r, i, rd.eol, mode, rd.vars);
      if AtDashes(r, i, mode) {
        DashesReachEol(t, a, r, i, rd, before + Shift(refs, a));
      } else {
        var h := Advance(r, i, mode, rd.vars);
        if h.Hop? {
          ShiftNote(before, refs, a, i, h.ref);
          var attempt := mode == Code && Ordinary(r, i, rd.vars);
          ScanIsLex(rd, t, a, r, h.next, h.mode, scanned || mode != Code || attempt, Note(refs, i, h.ref), before);
        }
      }
    }
  }

  lemma LineFits(t: string, a: nat, r: string, eol: string)
    requires LineIn(t, a, r, eol)
    ensures a + |r| <= |t|
  {
  }

  /** A `--` comment of one pass ends where the line ends. */
  lemma DashesReachEol(t: string, a: nat, r: string, i: nat, rd: Reader, refs: Refs)
    requires LineIn(t, a, r, rd.eol) && ValidEol(rd.eol) && i <= |r|
    ensures Lex(t, LineEnd(t, a + i), Code, refs, rd.vars) == Lex(t, a + |r|, Code, refs, rd.vars)
  {
    var e := LineEnd(t, a + i);
    assert forall k | 0 <= k < |r| :: t[a + k] == r[k];
    if a + |r| < |t| {
      assert t[a + |r|..a + |r| + |rd.eol|] == rd.eol;
      assert t[a + |r|] == rd.eol[0];
      if |rd.eol| == 2 {
        assert t[a + |r| + 1] == rd.eol[1];
        assert Advance(t, a + |r|, Code, rd.vars) == Hop(a + |r| + 1, Code, None);
      }
    }
  }

  /** The first line of joined lines stands at their beginning. */
  lemma FirstLineIn(t: string, a: nat, lines: seq<string>, eol: string)
    requires ValidEol(eol) && lines != [] && '\n' !in lines[0]
    requires a <= |t| && t[a..] == Join(lines, eol)
    ensures LineIn(t, a, lines[0], eol)
    ensures |lines| > 1 ==>
              var b := a + |lines[0]| + |eol|;
              b <= |t| && t[b - |eol|..b] == eol && t[b..] == Join(lines[1..], eol)
  {
    var r := lines[0];
    SliceOfSlice(t, a, |t|, 0, |r|);
    assert t[a..][..|r|] == r;
    if |lines| > 1 {
      var j := Join(lines, eol);
      SliceOfSlice(t, a, |t|, |r|, |r| + |eol|);
      assert j[|r|..|r| + |eol|] == eol;
      SliceOfSlice(t, a, |t|, |r| + |eol|, |t| - a);
      assert j[|r| + |eol|..] == Join(lines[1..], eol);
    }
  }

  lemma LexAtEnd(t: string, mode: Mode, refs: Refs, vars: bool)
    ensures Lex(t, |t|, mode, refs, vars) == Open(mode, refs)
  {
  }

  /** One line fed where it stands in the text. */
  lemma FeedLine(rd: Reader, st: State, r: string, t: string, start: nat)
    requires ValidEol(rd.eol) && Aligned(st) && ValidMode(st.mode)
    requires TextLine(rd, st, r) && LineIn(t, start, r, rd.eol)
    requires t[..start] == if st.text.None? then "" else st.text.value + rd.eol
    ensures var s := ScanLine(rd, st, r);
            if s.Bad? then Lex(t, start, st.mode, st.refs, rd.vars) == Malformed
            else
              var st' := AfterText(st, r, s.mode, s.refs, rd.eol);
              && ValidMode(s.mode)
              && st'.text == Some(t[..start + |r|])
              && Lex(t, start, st.mode, st.refs, rd.vars) == Lex(t, start + |r|, s.mode, st'.refs, rd.vars)
  {
    hide Scan, Lex, SpansFit, SpansMatch;
    ScanIsLex(rd, t, start, r, 0, st.mode, false, [], st.refs);
    assert st.refs + Shift([], start) == st.refs;
    var s := ScanLine(rd, st, r);
    if s.Text? {
      assert t[..start + |r|] == t[..start] + t[start..start + |r|];
      assert |st.Content()| + (if st.line > 1 then |rd.eol| else 0) == start;
    }
  }

  /** Feeding the lines that follow a first part of the text continues the one pass. */
  lemma {:induction false} FeedStep(rd: Reader, st: State, lines: seq<string>)
    requires lines != [] && AllText(rd, st, lines)
    ensures TextLine(rd, st, lines[0])
    ensures match ScanLine(rd, st, lines[0])
            case Text(mode, refs) =>
              var st' := AfterText(st, lines[0], mode, refs, rd.eol);
              AllText(rd, st', lines[1..]) && Feed(rd, st, lines) == Feed(rd, st', lines[1..])
            case _ => Feed(rd, st, lines) == None
  {
    hide ScanLine, AfterText;
  }

  lemma FeedNothing(rd: Reader, st: State)
    ensures Feed(rd, st, []) == Some(st)
  {
  }

  lemma {:induction false} FeedIsLex(rd: Reader, st: State, lines: seq<string>, t: string, start: nat)
    requires ValidEol(rd.eol) && Aligned(st) && ValidMode(st.mode)
    requires lines != [] && AllText(rd, st, lines)
    requires start <= |t| && t[start..] == Join(lines, rd.eol)
    requires t[..start] == if st.text.None? then "" else st.text.value + rd.eol
    ensures Feed(rd, st, lines) ==
            match Lex(t, start, st.mode, st.refs, rd.vars)
            case Malformed => None
            case Open(mode, refs) => Some(State(Some(t), mode, st.line + |lines|, refs))
    decreases |lines|
  {
    hide Scan, Lex, Aligned, Shift, LineIn, Feed, AllText;
    var r := lines[0];
    FeedStep(rd, st, lines);
    FirstLineIn(t, start, lines, rd.eol);
    FeedLine(rd, st, r, t, start);
    var s := ScanLine(rd, st, r);
    if s.Text? {
      var st' := AfterText(st, r, s.mode, s.refs, rd.eol);
      TextKeepsAligned(rd, st, r);
      if |lines| > 1 {
        var next := start + |r| + |rd.eol|;
        LexEol(t, start + |r|, s.mode, st'.refs, rd.eol, rd.vars);
        TakeMore(t, start + |r|, next);
        FeedIsLex(rd, st', lines[1..], t, next);
      } else {
        assert start + |r| == |t| && t[..start + |r|] == t;
        LexAtEnd(t, s.mode, st'.refs, rd.vars);
        assert lines[1..] == [];
        FeedNothing(rd, st');
      }
    }
  }

  /**
   Line-at-a-time lexing refines one pass: the quote and comment state, the recorded references
   and the presence of a syntax error are those of lexing the joined lines once.
   */
  lemma LineAtATimeIsOnePass(rd: Reader, lines: seq<string>)
    requires ValidEol(rd.eol) && lines != [] && AllText(rd, FRESH, lines)
    ensures Feed(rd, FRESH, lines) ==
            match LexText(Join(lines, rd.eol), rd.vars)
            case Malformed => None
            case Open(mode, refs) => Some(State(Some(Join(lines, rd.eol)), mode, 1 + |lines|, refs))
  {
    FeedIsLex(rd, FRESH, lines, Join(lines, rd.eol), 0);
  }
}
