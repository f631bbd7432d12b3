/**
 Batch splitting. `Cut` says which lines make up which batch, from the text of the script alone:
 a line is a command when one-pass lexing of the batch so far ends outside quotes and comments.
 A run that opens no file sends the batches of the cut.
 */
module Splitting {
  import opened Runes
  import opened Lexing
  import opened BatchState
  import opened Expansion
  import opened ReadOnly
  import opened Script

  // ---------- When a line is a command ----------

  /** Leading references aside, the line starts with an ordinary character. */
  predicate StartsPlainly(r: string, i: nat, vars: bool)
    decreases |r| - i
  {
    if i >= |r| then false
    else if vars && Pair(r, i, '$', '(') && !IsOpener(r[i]) then
      match RefEnd(r, i + 2)
      case None => false
      case Some(e) => StartsPlainly(r, e + 1, vars)
    else Ordinary(r, i, vars)
  }

  ghost predicate PlainLines(lines: seq<string>) {
    forall k | 0 <= k < |lines| :: Plain(lines[k])
  }

  lemma {:induction false} CommandEndOfPlain(r: string, i: nat)
    requires Plain(r) && i <= |r|
    ensures CommandEnd(r, i) == |r|
    decreases |r| - i
  {
    if i < |r| {
      CommandEndOfPlain(r, i + 1);
    }
  }

  lemma {:induction false} FoundFrom<C>(r: string, i: nat, refs: Refs, vars: bool, match_: string -> Option<C>)
    requires Plain(r) && i <= |r|
    ensures var s := Scan(r, i, Code, false, refs, vars, match_);
            if StartsPlainly(r, i, vars) && match_(r).Some? then s.Found? && s.command == match_(r).value
            else !s.Found?
    decreases |r| - i
  {
    hide Scan, RefEnd, CommandEnd, Plain;
    if i == |r| {
      ScanEnd(r, Code, false, refs, vars, match_);
    } else {
      if IsOpener(r[i]) {
        ScanOpener(r, i, false, refs, vars, match_);
      } else if Pair(r, i, '-', '-') {
        ScanDashes(r, i, false, refs, vars, match_);
      } else if Pair(r, i, '/', '*') {
        ScanCommentStart(r, i, false, refs, vars, match_);
      } else if vars && Pair(r, i, '$', '(') {
        ScanReference(r, i, Code, false, refs, match_);
        var e := RefEnd(r, i + 2);
        if e.Some? {
          FoundFrom(r, e.value + 1, refs + [Ref(i, r[i + 2..e.value])], vars, match_);
        }
      } else {
        CommandEndOfPlain(r, i);
        assert r[..|r|] == r;
        ScanOrdinary(r, i, false, refs, vars, match_);
      }
    }
  }

  /** A plain line is taken for a command exactly outside quotes and comments, when it matches. */
  lemma FoundIff(rd: Reader, st: State, r: string)
    requires Plain(r)
    ensures var s := ScanLine(rd, st, r);
            if st.mode == Code && StartsPlainly(r, 0, rd.vars) && rd.commands(r).Some? then
              s.Found? && s.command == rd.commands(r).value
            else !s.Found?
  {
    if st.mode == Code {
      FoundFrom(r, 0, [], rd.vars, rd.commands);
    } else {
      NoCommandLater(r, 0, st.mode, false, [], rd.vars, rd.commands);
    }
  }

  // ---------- The cut ----------

  datatype Kind = Prose | Broken | CommandLine(command: Command)

  /** The mode after the lines of a batch, read in one pass. */
  function ModeOf(rd: Reader, body: seq<string>): Mode {
    var x := LexText(Join(body, rd.eol), rd.vars);
    if x.Open? then x.mode else Code
  }

  /** What a line is to a batch that has the lines of body so far. */
  function KindOf(rd: Reader, body: seq<string>, line: string): Kind {
    if ModeOf(rd, body) == Code && StartsPlainly(line, 0, rd.vars) && rd.commands(line).Some? then
      CommandLine(rd.commands(line).value)
    else if LexText(Join(body + [line], rd.eol), rd.vars).Malformed? then Broken
    else Prose
  }

  /** A batch that is executed: its lines, and how often. */
  datatype Segment = Segment(body: seq<string>, runs: nat)

  /** The batches of a script whose current batch has the lines of body. */
  function Cut(env: Env, body: seq<string>, lines: seq<string>): seq<Segment>
    decreases |lines|
  {
    var text := Join(body, env.rd.eol);
    if lines == [] then if text == "" then [] else [Segment(body, 1)]
    else
      var rest := lines[1..];
      match KindOf(env.rd, body, lines[0])
      case Prose => Cut(env, body + [lines[0]], rest)
      case Broken => if env.Stops() then [] else Cut(env, [], rest)
      case CommandLine(ResetBatch) => Cut(env, [], rest)
      case CommandLine(ReadFile(_)) => if env.Stops() then [] else Cut(env, body, rest)
      case CommandLine(Go(count)) =>
        if count.None? || count.value < 1 then if env.Stops() then [] else Cut(env, body, rest)
        else if text == "" then Cut(env, body, rest)
        else [Segment(body, count.value)] + Cut(env, [], rest)
  }

  /** The text of a batch with its references, found in one pass, replaced. */
  ghost function Substituted(env: Env, text: string): string {
    var x := LexText(text, env.rd.vars);
    if env.rd.vars && x.Open? then
      LexKeepsSpans(text, 0, Code, [], env.rd.vars);
      FitIsAhead(text, x.refs, 0);
      Expand(text, x.refs, 0, env.resolve)
    else text
  }

  /** The queries of the segments, each as often as it runs. */
  ghost function Sent(env: Env, segments: seq<Segment>): seq<string> {
    if segments == [] then []
    else
      Copies(Substituted(env, Join(segments[0].body, env.rd.eol)), segments[0].runs) + Sent(env, segments[1..])
  }

  // ---------- The batch reader and its lines ----------

  /** st is the batch that feeding the lines of body makes. */
  ghost predicate Holds(rd: Reader, st: State, body: seq<string>) {
    AllText(rd, FRESH, body) && Feed(rd, FRESH, body) == Some(st)
  }

  lemma {:induction false} FeedSnoc(rd: Reader, st: State, body: seq<string>, line: string)
    requires AllText(rd, st, body) && Feed(rd, st, body).Some?
    ensures var st' := Feed(rd, st, body).value;
            && (TextLine(rd, st', line) ==> AllText(rd, st, body + [line]))
            && Feed(rd, st, body + [line]) == Feed(rd, st', [line])
    decreases |body|
  {
    hide Scan, AfterText;
    if body == [] {
      assert body + [line] == [line];
    } else {
      var s := ScanLine(rd, st, body[0]);
      assert (body + [line])[1..] == body[1..] + [line];
      FeedSnoc(rd, AfterText(st, body[0], s.mode, s.refs, rd.eol), body[1..], line);
    }
  }

  /** What Holds says about the batch, in terms of one pass. */
  lemma HoldsMeans(rd: Reader, st: State, body: seq<string>)
    requires ValidEol(rd.eol) && Holds(rd, st, body)
    ensures st.Content() == Join(body, rd.eol) && st.mode == ModeOf(rd, body) && Aligned(st)
    ensures body != [] ==> LexText(Join(body, rd.eol), rd.vars) == Open(st.mode, st.refs)
  {
    if body == [] {
      FreshIsAligned();
    } else {
      LineAtATimeIsOnePass(rd, body);
      FreshIsAligned();
      FeedKeepsAligned(rd, FRESH, body);
    }
  }

  lemma {:induction false} FeedKeepsAligned(rd: Reader, st: State, lines: seq<string>)
    requires ValidEol(rd.eol) && Aligned(st) && Feed(rd, st, lines).Some?
    ensures Aligned(Feed(rd, st, lines).value)
    decreases |lines|
  {
    hide Scan, AfterText, Aligned;
    if lines != [] {
      TextKeepsAligned(rd, st, lines[0]);
      var s := ScanLine(rd, st, lines[0]);
      FeedKeepsAligned(rd, AfterText(st, lines[0], s.mode, s.refs, rd.eol), lines[1..]);
    }
  }

  /** The kind of a line is what scanning it in the batch comes to. */
  lemma KindIsScan(rd: Reader, st: State, body: seq<string>, line: string)
    requires ValidEol(rd.eol) && Plain(line) && Holds(rd, st, body)
    ensures match ScanLine(rd, st, line)
            case Found(command, _, _) => KindOf(rd, body, line) == CommandLine(command)
            case Bad => KindOf(rd, body, line) == Broken
            case Text(mode, refs) =>
              && KindOf(rd, body, line) == Prose
              && Holds(rd, AfterText(st, line, mode, refs, rd.eol), body + [line])
  {
    hide Scan, AfterText, StartsPlainly, LexText, Join;
    HoldsMeans(rd, st, body);
    FoundIff(rd, st, line);
    var s := ScanLine(rd, st, line);
    if !s.Found? {
      assert '\n' !in line;
      FeedSnoc(rd, FRESH, body, line);
      LineAtATimeIsOnePass(rd, body + [line]);
      assert [line][1..] == [];
    }
  }

  // ---------- The theorem ----------

  ghost predicate AlwaysDone(env: Env) {
    forall log :: env.server(log) == Done
  }

  lemma {:induction false} ExecuteAll(env: Env, log: seq<string>, q: string, n: nat)
    requires AlwaysDone(env)
    ensures Execute(env, log, q, n) == Executed(log + Copies(q, n), Fine, 0)
    decreases n
  {
    if n > 0 {
      ExecuteAll(env, log + [q], q, n - 1);
      assert Copies(q, n) == [q] + Copies(q, n - 1);
      Regroup(log, [q], Copies(q, n - 1));
    } else {
      assert log + Copies(q, 0) == log;
    }
  }

  /** The query of a batch is its text with the references of one pass replaced. */
  lemma RunnableIsSubstituted(env: Env, st: State, body: seq<string>)
    requires env.Valid() && Holds(env.rd, st, body) && st.Content() != "" && Sound(st)
    ensures Runnable(env, st) == Substituted(env, Join(body, env.rd.eol))
  {
    hide Holds, LexText, Expand, Ahead;
    HoldsMeans(env.rd, st, body);
  }

  /** The read-only check, where it is asked for, turns the batch away. */
  ghost predicate Rejected(env: Env, body: seq<string>) {
    env.readOnly && Check(env.alphabet, Substituted(env, Join(body, env.rd.eol)), 0, env.allowExec).Some?
  }

  /**
   The segments that are sent: those that are not turned away, and in a run that stops on errors only
   the ones in front of the first that is.
   */
  ghost function Passing(env: Env, segments: seq<Segment>): seq<Segment> {
    if segments == [] then []
    else if !Rejected(env, segments[0].body) then [segments[0]] + Passing(env, segments[1..])
    else if env.Stops() then []
    else Passing(env, segments[1..])
  }

  ghost predicate AnyRejected(env: Env, segments: seq<Segment>) {
    exists k :: 0 <= k < |segments| && Rejected(env, segments[k].body)
  }

  /** GO on a batch that holds body. */
  lemma GoSends(env: Env, s: Session, body: seq<string>, count: Option<int>)
    requires env.Valid() && Steady(s) && Holds(env.rd, s.batch, body) && AlwaysDone(env)
    requires count.Some? && count.value >= 1
    ensures var text := Join(body, env.rd.eol);
            RunGo(env, s, count) ==
            if text == "" then (s, Fine)
            else if Rejected(env, body) then
              if env.exitOnError then (Cleared(s).(code := 1), Error) else (Cleared(s), Fine)
            else (Cleared(s).(log := s.log + Copies(Substituted(env, text), count.value)), Fine)
  {
    hide Holds, Runnable, Substituted, Execute, AlwaysDone, Join, Check;
    HoldsMeans(env.rd, s.batch, body);
    if s.batch.Content() != "" {
      RunnableIsSubstituted(env, s.batch, body);
      ExecuteAll(env, s.log, Runnable(env, s.batch), count.value);
    }
  }

  /** What the first of several segments adds to what is sent. */
  lemma PassingFirst(env: Env, first: Segment, rest: seq<Segment>)
    ensures var text := Substituted(env, Join(first.body, env.rd.eol));
            Sent(env, Passing(env, [first] + rest)) ==
            if !Rejected(env, first.body) then Copies(text, first.runs) + Sent(env, Passing(env, rest))
            else if env.Stops() then []
            else Sent(env, Passing(env, rest))
    ensures AnyRejected(env, [first] + rest) <==> Rejected(env, first.body) || AnyRejected(env, rest)
  {
    hide Substituted, Join, Rejected;
    var all := [first] + rest;
    assert all[1..] == rest;
    assert ([first] + Passing(env, rest))[1..] == Passing(env, rest);
    if AnyRejected(env, rest) {
      var k :| 0 <= k < |rest| && Rejected(env, rest[k].body);
      assert all[k + 1] == rest[k];
    }
    if AnyRejected(env, all) {
      var k :| 0 <= k < |all| && Rejected(env, all[k].body);
      assert k > 0 ==> all[k] == rest[k - 1];
    }
    assert all[0] == first;
  }

  lemma FreshHoldsNothing(rd: Reader)
    ensures Holds(rd, FRESH, [])
  {
  }

  lemma PlainRest(lines: seq<string>)
    requires PlainLines(lines) && lines != []
    ensures Plain(lines[0]) && PlainLines(lines[1..])
  {
  }

  /** A command found on a plain line takes up the line. */
  lemma FoundIsLine(rd: Reader, st: State, r: string)
    requires Plain(r) && ScanLine(rd, st, r).Found?
    ensures ScanLine(rd, st, r).rest == |r| && rd.commands(r) == Some(ScanLine(rd, st, r).command)
    ensures r[ScanLine(rd, st, r).rest..] == ""
  {
    hide Scan, CommandEnd;
    FoundIsHead(rd, st, r);
    CommandEndOfPlain(r, 0);
    assert r[..|r|] == r;
  }

  /** The exit code of a walk that sends the segments and started with the given code. */
  ghost predicate CodeFits(env: Env, segments: seq<Segment>, before: int, after: int) {
    && (before == 1 ==> after == 1)
    && (env.exitOnError && AnyRejected(env, segments) ==> after == 1)
    && (!env.exitOnError ==> after == before)
  }

  /** The log at the end of a walk that opens no file is what the cut sends. */
  lemma {:induction false} WalkIsCut(env: Env, s: Session, lines: seq<string>, last: Fault, body: seq<string>)
    requires env.Valid() && Steady(s) && s.tail == "" && PlainLines(lines) && Within(env, 0, false, s, lines)
    requires AlwaysDone(env) && Holds(env.rd, s.batch, body)
    ensures var r := AtEof(env, Walk(env, 0, s, lines, last), true).0;
            var segments := Cut(env, body, lines);
            r.log == s.log + Sent(env, Passing(env, segments)) && CodeFits(env, segments, s.code, r.code)
    decreases |lines|
  {
    hide Walk, Within, PlainLines, AlwaysDone, Holds, Substituted, KindOf, Scan, Steady, AfterText, Join, Rejected, Passing, AnyRejected, Sent;
    WalkStep(env, 0, s, lines, last);
    WithinStep(env, 0, false, s, lines);
    FreshHoldsNothing(env.rd);
    HoldsMeans(env.rd, s.batch, body);
    NothingPasses(env);
    assert s.log + [] == s.log;
    if lines == [] {
      GoSends(env, s, body, Some(1));
      assert [Segment(body, 1)] + [] == [Segment(body, 1)];
      PassingFirst(env, Segment(body, 1), []);
      var sent := Copies(Substituted(env, Join(body, env.rd.eol)), 1);
      assert sent + [] == sent;
    } else {
      PlainRest(lines);
      var r, rest := lines[0], lines[1..];
      KindIsScan(env.rd, s.batch, body, r);
      match ScanLine(env.rd, s.batch, r) {
        case Bad =>
          if !env.Stops() {
            WalkIsCut(env, Cleared(s), rest, last, []);
          }
        case Text(mode, refs) =>
          WalkIsCut(env, s.(batch := AfterText(s.batch, r, mode, refs, env.rd.eol), tail := ""), rest, last, body + [r]);
        case Found(command, _, end) =>
          FoundIsLine(env.rd, s.batch, r);
          assert s.(tail := r[end..]) == s;
          match command {
            case ResetBatch => WalkIsCut(env, Cleared(s), rest, Fine, []);
            case ReadFile(path) =>
              if !env.Stops() {
                WalkIsCut(env, s, rest, Error, body);
              }
            case Go(count) =>
              if count.None? || count.value < 1 {
                if !env.Stops() {
                  WalkIsCut(env, s, rest, Error, body);
                }
              } else {
                GoSends(env, s, body, count);
                if Join(body, env.rd.eol) == "" {
                  WalkIsCut(env, s, rest, Fine, body);
                } else {
                  SegmentIsSent(env, s, rest, body, count.value);
                }
              }
          }
      }
    }
  }

  lemma NothingPasses(env: Env)
    ensures Sent(env, Passing(env, [])) == [] && !AnyRejected(env, [])
  {
  }

  /** The part of the walk that starts with a GO on a batch with text. */
  lemma {:induction false} SegmentIsSent(env: Env, s: Session, rest: seq<string>, body: seq<string>, runs: nat)
    requires env.Valid() && Steady(s) && s.tail == "" && PlainLines(rest) && runs >= 1
    requires AlwaysDone(env) && Holds(env.rd, s.batch, body) && Join(body, env.rd.eol) != ""
    requires var (s1, fault) := RunGo(env, s, Some(runs));
             (fault == Error && env.Stops()) || Within(env, 0, false, s1, rest)
    ensures var (s1, fault) := RunGo(env, s, Some(runs));
            var r := AtEof(env, Continue(env, 0, s1, fault, rest), true).0;
            var segments := [Segment(body, runs)] + Cut(env, [], rest);
            r.log == s.log + Sent(env, Passing(env, segments)) && CodeFits(env, segments, s.code, r.code)
    decreases |rest| + 1, 0
  {
    hide Walk, Within, PlainLines, AlwaysDone, Holds, Substituted, Steady, Join, Rejected, Passing, AnyRejected, Sent, Cut;
    GoSends(env, s, body, Some(runs));
    FreshHoldsNothing(env.rd);
    var tail := Cut(env, [], rest);
    PassingFirst(env, Segment(body, runs), tail);
    assert s.log + [] == s.log;
    var (s1, fault) := RunGo(env, s, Some(runs));
    if fault == Fine || !env.Stops() {
      WalkIsCut(env, s1, rest, fault, []);
      Regroup(s.log, Copies(Substituted(env, Join(body, env.rd.eol)), runs), Sent(env, Passing(env, tail)));
    }
  }
}
