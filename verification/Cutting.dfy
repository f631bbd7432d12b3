/**
 What the cut of a script means: a script without includes sends its batches, wherever its quotes and
 comments read like commands, and no text line is lost, moved or repeated.
 */
module Cutting {
  import opened Runes
  import opened Lexing
  import opened BatchState
  import opened Script
  import opened Nesting
  import opened Splitting

  // ---------- Scripts without includes ----------

  /** The state of an empty batch in the given mode: all that scanning a line depends on. */
  function InMode(mode: Mode): State {
    FRESH.(mode := mode)
  }

  lemma ScanDependsOnMode(rd: Reader, st: State, st': State, r: string)
    requires st.mode == st'.mode
    ensures ScanLine(rd, st, r) == ScanLine(rd, st', r)
  {
  }

  /** No line of the script is an include of an existing file where it stands. */
  predicate IncludeFree(env: Env, lines: seq<string>, mode: Mode)
    decreases |lines|
  {
    lines != [] ==>
      match ScanLine(env.rd, InMode(mode), lines[0])
      case Text(after, _) => IncludeFree(env, lines[1..], after)
      case Bad => IncludeFree(env, lines[1..], Code)
      case Found(command, _, _) => !IsInclude(env, command) && IncludeFree(env, lines[1..], Code)
  }

  /** Such a script opens no file. */
  lemma {:induction false} IncludeFreeIsWithin(env: Env, s: Session, lines: seq<string>)
    requires env.Valid() && Steady(s) && s.tail == "" && PlainLines(lines)
    requires IncludeFree(env, lines, s.batch.mode)
    ensures Within(env, 0, false, s, lines)
    decreases |lines|
  {
    hide Walk, Within, PlainLines, Scan, Steady, AfterText, RunGo;
    WalkStep(env, 0, s, lines, Fine);
    WithinStep(env, 0, false, s, lines);
    if lines != [] {
      PlainRest(lines);
      var r, rest := lines[0], lines[1..];
      ScanDependsOnMode(env.rd, s.batch, InMode(s.batch.mode), r);
      match ScanLine(env.rd, s.batch, r) {
        case Bad => IncludeFreeIsWithin(env, Cleared(s), rest);
        case Text(mode, refs) =>
          var st := AfterText(s.batch, r, mode, refs, env.rd.eol);
          AfterTextMode(s.batch, r, mode, refs, env.rd.eol);
          IncludeFreeIsWithin(env, s.(batch := st, tail := ""), rest);
        case Found(command, _, end) =>
          FoundIsLine(env.rd, s.batch, r);
          FoundIsHead(env.rd, s.batch, r);
          assert s.(tail := r[end..]) == s;
          if command.Go? {
            GoKeepsCode(env, s, command.count);
          }
          IncludeFreeIsWithin(env, Perform(env, 0, s, command).0, rest);
      }
    }
  }

  lemma AfterTextMode(st: State, r: string, mode: Mode, refs: Refs, eol: string)
    ensures AfterText(st, r, mode, refs, eol).mode == mode
  {
  }

  lemma GoKeepsCode(env: Env, s: Session, count: Option<int>)
    requires Steady(s) && s.batch.mode == Code && s.tail == ""
    ensures RunGo(env, s, count).0.batch.mode == Code && RunGo(env, s, count).0.tail == ""
  {
    hide Steady, Runnable, Execute;
  }

  /**
   Batch splitting: with a server that does not fail, running a script sends exactly the batches of its
   cut that the read-only check lets pass, in order, each as often as its GO says, and the rest of the
   script once at the end. A line that reads like an include may stand inside a quote or comment.
   A rejected batch is gone with its rejection: the batches behind it are judged by themselves.
   */
  lemma RunSendsTheCut(env: Env, depth: nat, lines: seq<string>)
    requires env.Valid() && PlainLines(lines) && IncludeFree(env, lines, Code)
    requires AlwaysDone(env)
    ensures Steady(START) && Within(env, depth, false, START, lines)
    ensures var r := RunScript(env, depth, START, lines, true).0;
            var segments := Cut(env, [], lines);
            && r.log == Sent(env, Passing(env, segments))
            && (env.exitOnError && AnyRejected(env, segments) ==> r.code == 1)
            && (!env.exitOnError ==> r.code == 0)
  {
    hide Walk, Within, PlainLines, IncludeFree, Cut, Sent, Passing, AnyRejected;
    StartIsSteady();
    FreshHoldsNothing(env.rd);
    IncludeFreeIsWithin(env, START, lines);
    DeeperIsSame(env, 0, depth, false, START, lines, Fine);
    WalkIsCut(env, START, lines, Fine, []);
    var sent := Sent(env, Passing(env, Cut(env, [], lines)));
    assert [] + sent == sent;
  }

  /** What passes: every batch, as long as none is rejected, and so every batch when writes are allowed. */
  lemma {:induction false} AllPassIff(env: Env, segments: seq<Segment>)
    ensures !env.readOnly ==> !AnyRejected(env, segments)
    ensures Passing(env, segments) == segments <==> !AnyRejected(env, segments)
  {
    hide Rejected;
    if segments != [] {
      assert segments == [segments[0]] + segments[1..];
      PassingFirst(env, segments[0], segments[1..]);
      AllPassIff(env, segments[1..]);
      PassingIsShorter(env, segments[1..]);
    }
    if !env.readOnly {
      NothingRejected(env, segments);
    }
  }

  lemma NothingRejected(env: Env, segments: seq<Segment>)
    requires !env.readOnly
    ensures !AnyRejected(env, segments)
  {
  }

  lemma {:induction false} PassingIsShorter(env: Env, segments: seq<Segment>)
    ensures |Passing(env, segments)| <= |segments|
  {
    if segments != [] {
      PassingIsShorter(env, segments[1..]);
    }
  }

  /** In a run that stops on errors, what passes is what stands in front of the first rejected batch. */
  lemma {:induction false} PassingIsPrefix(env: Env, segments: seq<Segment>)
    requires env.Stops()
    ensures var passing := Passing(env, segments);
            && passing <= segments
            && (forall k :: 0 <= k < |passing| ==> !Rejected(env, segments[k].body))
            && (passing != segments ==> Rejected(env, segments[|passing|].body))
  {
    hide Rejected;
    if segments != [] {
      PassingIsPrefix(env, segments[1..]);
      assert segments == [segments[0]] + segments[1..];
    }
  }

  // ---------- Nothing is lost ----------

  /** The lines that are text where they stand, in order. */
  function ProseOf(env: Env, body: seq<string>, lines: seq<string>): seq<string>
    decreases |lines|
  {
    if lines == [] then []
    else
      var rest := lines[1..];
      match KindOf(env.rd, body, lines[0])
      case Prose => [lines[0]] + ProseOf(env, body + [lines[0]], rest)
      case Broken => ProseOf(env, [], rest)
      case CommandLine(command) => ProseOf(env, BodyAfter(env, body, command), rest)
  }

  /** The batch that a command leaves, when the server does not fail. */
  function BodyAfter(env: Env, body: seq<string>, command: Command): seq<string> {
    match command
    case ResetBatch => []
    case ReadFile(_) => body
    case Go(count) =>
      if count.None? || count.value < 1 || Join(body, env.rd.eol) == "" then body else []
  }

  function NonBlank(lines: seq<string>): seq<string> {
    if lines == [] then []
    else (if lines[0] != "" then [lines[0]] else []) + NonBlank(lines[1..])
  }

  function Bodies(segments: seq<Segment>): seq<string> {
    if segments == [] then [] else segments[0].body + Bodies(segments[1..])
  }

  /**
   No line breaks its batch with a malformed reference, none resets it, and no command fails in a run
   that stops on errors.
   */
  predicate Unbroken(env: Env, body: seq<string>, lines: seq<string>)
    decreases |lines|
  {
    lines != [] ==>
      match KindOf(env.rd, body, lines[0])
      case Prose => Unbroken(env, body + [lines[0]], lines[1..])
      case Broken => false
      case CommandLine(ResetBatch) => false
      case CommandLine(ReadFile(_)) => !env.Stops() && Unbroken(env, body, lines[1..])
      case CommandLine(Go(count)) =>
        && (env.Stops() ==> count.Some? && count.value >= 1)
        && Unbroken(env, BodyAfter(env, body, Go(count)), lines[1..])
  }

  lemma {:induction false} NonBlankConcat(a: seq<string>, b: seq<string>)
    ensures NonBlank(a + b) == NonBlank(a) + NonBlank(b)
  {
    if a == [] {
      assert a + b == b;
    } else {
      assert (a + b)[1..] == a[1..] + b;
      NonBlankConcat(a[1..], b);
    }
  }

  lemma EmptyTextIsBlank(body: seq<string>, eol: string)
    requires ValidEol(eol) && Join(body, eol) == ""
    ensures NonBlank(body) == []
  {
    if |body| > 1 {
      ManyLinesAreText(body, eol);
    }
  }

  lemma ManyLinesAreText(body: seq<string>, eol: string)
    requires ValidEol(eol) && |body| > 1
    ensures Join(body, eol) != ""
  {
    assert |Join(body, eol)| >= |eol|;
  }

  /**
   Nothing is lost, moved or repeated: the non-blank lines of the batches are the non-blank text lines
   of the script, in the same order, whatever they read like.
   */
  lemma {:induction false} CutKeepsText(env: Env, body: seq<string>, lines: seq<string>)
    requires env.Valid() && Unbroken(env, body, lines)
    ensures NonBlank(Bodies(Cut(env, body, lines))) == NonBlank(body) + NonBlank(ProseOf(env, body, lines))
    decreases |lines|
  {
    hide KindOf, Join;
    if lines == [] {
      if Join(body, env.rd.eol) == "" {
        EmptyTextIsBlank(body, env.rd.eol);
      } else {
        assert Bodies([Segment(body, 1)]) == body + [];
        assert body + [] == body;
      }
    } else {
      var r, rest := lines[0], lines[1..];
      match KindOf(env.rd, body, r) {
        case Prose =>
          CutKeepsText(env, body + [r], rest);
          var prose := ProseOf(env, body + [r], rest);
          NonBlankConcat(body, [r]);
          NonBlankConcat([r], prose);
          Regroup(NonBlank(body), NonBlank([r]), NonBlank(prose));
        case CommandLine(command) =>
          var next := BodyAfter(env, body, command);
          CutKeepsText(env, next, rest);
          if command.Go? && command.count.Some? && command.count.value >= 1 && Join(body, env.rd.eol) != "" {
            var tail := Cut(env, [], rest);
            assert ([Segment(body, command.count.value)] + tail)[1..] == tail;
            NonBlankConcat(body, Bodies(tail));
          }
      }
    }
  }
}
