/**
 Include is inlining: a run sends the queries that a run of the same script with its included files
 spliced in would send. The included files must not end in an exit, nor leave a batch that is one blank
 line; IncludeLimits shows what happens when they do.
 */
module Inlining {
  import opened Runes
  import opened Lexing
  import opened BatchState
  import opened Expansion
  import opened ReadOnly
  import opened Unicode
  import opened Script
  import opened Nesting
  import opened Splitting
  import opened Cutting

  /** Spliced lines, and the lexical mode after them. */
  datatype Flat = Flat(lines: seq<string>, mode: Mode)

  /**
   The script with the lines of existing files in place of the `:R` commands that name them, down to
   the given depth.
   */
  function Splice(env: Env, depth: nat, lines: seq<string>, mode: Mode): Flat
    decreases depth, |lines|
  {
    if lines == [] then Flat([], mode)
    else
      var r, rest := lines[0], lines[1..];
      match ScanLine(env.rd, InMode(mode), r)
      case Bad => Prepend([r], Splice(env, depth, rest, Code))
      case Text(after, _) => Prepend([r], Splice(env, depth, rest, after))
      case Found(command, _, _) =>
        if IsInclude(env, command) && depth > 0 then
          var file := Splice(env, depth - 1, env.files[FileName(env, command.path)], Code);
          Prepend(file.lines, Splice(env, depth, rest, file.mode))
        else
          Prepend([r], Splice(env, depth, rest, Code))
  }

  function Prepend(lines: seq<string>, flat: Flat): Flat {
    Flat(lines + flat.lines, flat.mode)
  }

  /** A sound batch with text only past the first line. */
  ghost predicate Firm(st: State) {
    Sound(st) && (st.text.Some? ==> st.line > 1)
  }

  /** The sessions differ at most in the line number, and not in whether it is the first. */
  ghost predicate Same(s: Session, t: Session) {
    && Firm(s.batch) && Firm(t.batch) && s.tail == ""
    && t == s.(batch := s.batch.(line := t.batch.line))
  }

  // ---------- Single steps ----------

  lemma SameIsSteady(s: Session, t: Session)
    requires Same(s, t)
    ensures Steady(s) && Steady(t) && s.tail == t.tail == "" && s.batch.mode == t.batch.mode
  {
  }

  lemma ClearedSame(s: Session, t: Session)
    requires Same(s, t)
    ensures Same(Cleared(s), Cleared(t))
  {
    FreshIsAligned();
  }

  lemma GoSame(env: Env, s: Session, t: Session, count: Option<int>)
    requires Same(s, t)
    ensures Steady(s) && Steady(t)
    ensures var (s1, f1) := RunGo(env, s, count);
            var (t1, f2) := RunGo(env, t, count);
            Same(s1, t1) && f1 == f2 && (s.batch.mode == Code ==> s1.batch.mode == Code)
  {
    hide Execute, Check, Expand, SpansFit;
    ClearedSame(s, t);
  }

  lemma TextSame(env: Env, s: Session, t: Session, r: string, mode: Mode, refs: Refs)
    requires Same(s, t) && ValidEol(env.rd.eol)
    requires ScanLine(env.rd, s.batch, r) == Scanned.Text(mode, refs)
    ensures Same(s.(batch := AfterText(s.batch, r, mode, refs, env.rd.eol), tail := ""),
                 t.(batch := AfterText(t.batch, r, mode, refs, env.rd.eol), tail := ""))
  {
    hide SpansFit, Scan;
    TextKeepsSound(env.rd, s.batch, r);
    TextKeepsSound(env.rd, t.batch, r);
  }

  /** The line number an orderly include leaves behind does not matter. */
  lemma AfterIncludeSame(env: Env, before: nat, s: Session, t: Session)
    requires Same(s, t) && before >= 1
    requires env.echoFileLines || s.batch.mode != Code || s.batch.text != Some("")
    ensures Same(s.(batch := AfterInclude(env, before, s.batch)), t)
    ensures AfterInclude(env, before, s.batch).mode == s.batch.mode
  {
    hide SpansFit;
  }

  // ---------- Lines after lines ----------

  /** A run over a then b is a run over a followed by a run over b, unless a stops it. */
  lemma {:induction false} WalkConcat(env: Env, depth: nat, tidy: bool, s: Session, a: seq<string>, b: seq<string>,
                                      last: Fault)
    requires env.Valid() && Steady(s)
    ensures var w := Walk(env, depth, s, a, last);
            && Walk(env, depth, s, a + b, last) == (if w.stopped then w else Walk(env, depth, w.s, b, w.last))
            && (Within(env, depth, tidy, s, a + b) <==>
                  Within(env, depth, tidy, s, a) && (w.stopped || Within(env, depth, tidy, w.s, b)))
    decreases |a|, if s.tail == "" then 0 else 1
  {
    hide Walk, Within, Opens, Scan, AfterText, Perform, Steady;
    WalkStep(env, depth, s, a, last);
    WalkStep(env, depth, s, a + b, last);
    WithinStep(env, depth, tidy, s, a);
    WithinStep(env, depth, tidy, s, a + b);
    if s.tail == "" && a == [] {
      assert a + b == b;
    } else {
      var r, rest := NextChunk(s, a), Remaining(s, a);
      assert NextChunk(s, a + b) == r && Remaining(s, a + b) == rest + b;
      match ScanLine(env.rd, s.batch, r) {
        case Bad =>
          if !env.Stops() {
            WalkConcat(env, depth, tidy, Cleared(s), rest, b, last);
          }
        case Text(mode, refs) =>
          var s1 := s.(batch := AfterText(s.batch, r, mode, refs, env.rd.eol), tail := "");
          WalkConcat(env, depth, tidy, s1, rest, b, last);
        case Found(command, _, end) =>
          var (s1, fault) := Perform(env, depth, s.(tail := r[end..]), command);
          if fault == Fine || (fault == Error && !env.Stops()) {
            WalkConcat(env, depth, tidy, s1, rest, b, fault);
          }
      }
    }
  }

  // ---------- The two runs side by side ----------

  /** How a walk that started after the error last can end. */
  ghost predicate Ended(env: Env, w: Walked, last: Fault) {
    && w.last != Exit
    && (w.stopped && w.last == Error ==> env.Stops() && w.s.code != 0)
    && (!w.stopped && env.Stops() && last == Fine ==> w.last == Fine)
  }

  /** The walk w of a script and the walk v of its splice have come to the same. */
  ghost predicate Alike(w: Walked, v: Walked, mode: Mode) {
    && Same(w.s, v.s) && w.stopped == v.stopped
    && if w.stopped then w.last == v.last else w.s.batch.mode == mode
  }

  /** What an include leaves to the run around it, given the walk over the file. */
  lemma IncludeStep(env: Env, depth: nat, s: Session, command: Command)
    requires env.Valid() && Steady(s) && IsInclude(env, command) && depth > 0
    ensures var w := Walk(env, depth - 1, s, env.files[FileName(env, command.path)], Fine);
            var st := AfterInclude(env, s.batch.line, w.s.batch);
            Perform(env, depth, s, command) ==
            (w.s.(batch := st), if w.stopped || w.s.batch.Content() == "" then w.last else Fine)
  {
    hide Walk;
  }

  /** flat is next with the line r in front. */
  predicate Leads(r: string, next: Flat, flat: Flat) {
    flat.mode == next.mode && flat.lines != [] && flat.lines[0] == r && flat.lines[1..] == next.lines
  }

  /** The splice of a script whose first line is text, an error, or a command that opens no file. */
  lemma {:induction false} SpliceFirst(env: Env, depth: nat, lines: seq<string>, mode: Mode)
    requires lines != []
    ensures var flat := Splice(env, depth, lines, mode);
            match ScanLine(env.rd, InMode(mode), lines[0])
            case Found(command, _, _) =>
              (IsInclude(env, command) && depth > 0) || Leads(lines[0], Splice(env, depth, lines[1..], Code), flat)
            case Bad => Leads(lines[0], Splice(env, depth, lines[1..], Code), flat)
            case Text(after, _) => Leads(lines[0], Splice(env, depth, lines[1..], after), flat)
  {
    hide Scan;
  }

  lemma {:induction false} WalkSplice(env: Env, depth: nat, s: Session, lines: seq<string>, last: Fault,
                                      t: Session, last': Fault)
    requires env.Valid() && Same(s, t) && last != Exit
    requires Steady(s) && Within(env, depth, true, s, lines)
    ensures var flat := Splice(env, depth, lines, s.batch.mode);
            && Steady(t) && Within(env, 0, true, t, flat.lines)
            && var w, v := Walk(env, depth, s, lines, last), Walk(env, 0, t, flat.lines, last');
               Alike(w, v, flat.mode) && Ended(env, w, last)
    decreases depth, |lines|, 1
  {
    hide Walk, Within, Opens, Perform, Scan, Steady, Same, AfterText, Splice;
    var flat := Splice(env, depth, lines, s.batch.mode);
    SameIsSteady(s, t);
    WalkStep(env, depth, s, lines, last);
    WalkStep(env, 0, t, flat.lines, last');
    WithinStep(env, depth, true, s, lines);
    WithinStep(env, 0, true, t, flat.lines);
    if lines == [] {
      SpliceOfNothing(env, depth, s.batch.mode);
    } else {
      var r, rest := lines[0], lines[1..];
      ScanDependsOnMode(env.rd, s.batch, t.batch, r);
      ScanDependsOnMode(env.rd, s.batch, InMode(s.batch.mode), r);
      SpliceFirst(env, depth, lines, s.batch.mode);
      match ScanLine(env.rd, s.batch, r) {
        case Bad =>
          ClearedSame(s, t);
          if !env.Stops() {
            WalkSplice(env, depth, Cleared(s), rest, last, Cleared(t), last');
          } else {
            FailingSame(Cleared(s), Cleared(t));
          }
        case Text(mode, refs) =>
          TextSame(env, s, t, r, mode, refs);
          AfterTextMode(s.batch, r, mode, refs, env.rd.eol);
          WalkSplice(env, depth, s.(batch := AfterText(s.batch, r, mode, refs, env.rd.eol), tail := ""), rest, last,
                     t.(batch := AfterText(t.batch, r, mode, refs, env.rd.eol), tail := ""), last');
        case Found(command, _, _) =>
          if IsInclude(env, command) {
            SpliceInclude(env, depth, s, lines, last, t, last', command);
          } else {
            SpliceCommand(env, depth, s, lines, last, t, last', command);
          }
      }
    }
  }

  lemma {:induction false} SpliceOfNothing(env: Env, depth: nat, mode: Mode)
    ensures Splice(env, depth, [], mode) == Flat([], mode)
  {
  }

  lemma FailingSame(s: Session, t: Session)
    requires Same(s, t)
    ensures Same(Failing(s), Failing(t)) && Failing(s).code != 0
  {
  }

  /** A command other than a working include does the same in both runs. */
  lemma {:induction false} SpliceCommand(env: Env, depth: nat, s: Session, lines: seq<string>, last: Fault,
                                         t: Session, last': Fault, command: Command)
    requires env.Valid() && Same(s, t) && last != Exit && lines != []
    requires Steady(s) && Within(env, depth, true, s, lines)
    requires var x := ScanLine(env.rd, s.batch, lines[0]); x.Found? && x.command == command
    requires !IsInclude(env, command)
    ensures var flat := Splice(env, depth, lines, s.batch.mode);
            && Steady(t) && Within(env, 0, true, t, flat.lines)
            && var w, v := Walk(env, depth, s, lines, last), Walk(env, 0, t, flat.lines, last');
               Alike(w, v, flat.mode) && Ended(env, w, last)
    decreases depth, |lines|, 0
  {
    hide Walk, Within, RunGo, Scan, Steady, Same, Splice;
    var flat := Splice(env, depth, lines, s.batch.mode);
    var r, rest := lines[0], lines[1..];
    SameIsSteady(s, t);
    ScanDependsOnMode(env.rd, s.batch, t.batch, r);
    ScanDependsOnMode(env.rd, s.batch, InMode(s.batch.mode), r);
    FoundIsHead(env.rd, s.batch, r);
    SpliceFirst(env, depth, lines, s.batch.mode);
    WalkStep(env, depth, s, lines, last);
    WalkStep(env, 0, t, flat.lines, last');
    WithinStep(env, depth, true, s, lines);
    WithinStep(env, 0, true, t, flat.lines);
    var end := ScanLine(env.rd, s.batch, r).rest;
    assert s.(tail := r[end..]) == s && t.(tail := r[end..]) == t;
    ClearedSame(s, t);
    if command.Go? {
      GoSame(env, s, t, command.count);
    }
    var (s1, fault) := Perform(env, depth, s, command);
    var (t1, fault') := Perform(env, 0, t, command);
    assert Same(s1, t1) && fault == fault' && s1.batch.mode == Code;
    if fault == Fine || (fault == Error && !env.Stops()) {
      WalkSplice(env, depth, s1, rest, fault, t1, fault);
    } else {
      FailingSame(s1, t1);
    }
  }

  /** An include in one run is the lines of the file in the other. */
  lemma {:induction false} SpliceInclude(env: Env, depth: nat, s: Session, lines: seq<string>, last: Fault,
                                         t: Session, last': Fault, command: Command)
    requires env.Valid() && Same(s, t) && last != Exit && lines != []
    requires Steady(s) && Within(env, depth, true, s, lines)
    requires var x := ScanLine(env.rd, s.batch, lines[0]); x.Found? && x.command == command
    requires IsInclude(env, command)
    ensures var flat := Splice(env, depth, lines, s.batch.mode);
            && Steady(t) && Within(env, 0, true, t, flat.lines)
            && var w, v := Walk(env, depth, s, lines, last), Walk(env, 0, t, flat.lines, last');
               Alike(w, v, flat.mode) && Ended(env, w, last)
    decreases depth, |lines|, 0
  {
    hide Walk, Within, Perform, Scan, Steady, Same, AfterInclude, Splice;
    var r, rest := lines[0], lines[1..];
    SameIsSteady(s, t);
    FoundIsHead(env.rd, s.batch, r);
    ScanDependsOnMode(env.rd, s.batch, InMode(s.batch.mode), r);
    WalkStep(env, depth, s, lines, last);
    WithinStep(env, depth, true, s, lines);
    var end := ScanLine(env.rd, s.batch, r).rest;
    assert s.(tail := r[end..]) == s;
    OpensFile(env, depth, s, command);
    IncludeStep(env, depth, s, command);

    var f := env.files[FileName(env, command.path)];
    var file := Splice(env, depth - 1, f, Code);
    WalkSplice(env, depth - 1, s, f, Fine, t, last');
    var n, m := Walk(env, depth - 1, s, f, Fine), Walk(env, 0, t, file.lines, last');
    var tail := Splice(env, depth, rest, file.mode);
    SpliceOfInclude(env, depth, lines, command);
    WalkConcat(env, 0, true, t, file.lines, tail.lines, last');

    SameIsSteady(n.s, m.s);
    SteadyLine(s);
    AfterIncludeSame(env, s.batch.line, n.s, m.s);
    var (s1, fault) := Perform(env, depth, s, command);
    assert s1.code == n.s.code;
    if !n.stopped {
      WalkSplice(env, depth, s1, rest, fault, m.s, m.last);
    }
  }

  lemma SteadyLine(s: Session)
    requires Steady(s)
    ensures s.batch.line >= 1
  {
  }

  /** What Opens says about an include in a tidy run. */
  lemma OpensFile(env: Env, depth: nat, s: Session, command: Command)
    requires env.Valid() && Steady(s) && IsInclude(env, command) && Opens(env, depth, true, s, command)
    ensures depth > 0
    ensures var f := env.files[FileName(env, command.path)];
            Within(env, depth - 1, true, s, f) && Orderly(env, Walk(env, depth - 1, s, f, Fine))
  {
    hide Walk, Within, Orderly;
  }

  lemma {:induction false} SpliceOfInclude(env: Env, depth: nat, lines: seq<string>, command: Command)
    requires lines != [] && IsInclude(env, command) && depth > 0
    requires var x := ScanLine(env.rd, InMode(Code), lines[0]); x.Found? && x.command == command
    ensures var file := Splice(env, depth - 1, env.files[FileName(env, command.path)], Code);
            var next := Splice(env, depth, lines[1..], file.mode);
            Splice(env, depth, lines, Code) == Flat(file.lines + next.lines, next.mode)
  {
    hide Scan;
  }

  // ---------- The theorems ----------

  /**
   Include is inlining: when every include of the run is orderly, the script and its splice send the
   same queries in the same order and leave the same exit code; the spliced run opens no file.
   */
  lemma IncludeIsInlining(env: Env, depth: nat, s: Session, lines: seq<string>, processAll: bool)
    requires env.Valid() && Steady(s) && Firm(s.batch) && s.tail == ""
    requires Within(env, depth, true, s, lines)
    ensures var flat := Splice(env, depth, lines, s.batch.mode);
            && Within(env, 0, true, s, flat.lines)
            && var r := RunScript(env, depth, s, lines, processAll).0;
               var inlined := RunScript(env, 0, s, flat.lines, processAll).0;
               r.log == inlined.log && r.code == inlined.code
  {
    hide Walk, Within, Splice, RunGo;
    WalkSplice(env, depth, s, lines, Fine, s, Fine);
    var flat := Splice(env, depth, lines, s.batch.mode);
    var w, v := Walk(env, depth, s, lines, Fine), Walk(env, 0, s, flat.lines, Fine);
    GoSame(env, w.s, v.s, Some(1));
  }

  ghost predicate PlainFiles(env: Env) {
    forall f | f in env.files :: PlainLines(env.files[f])
  }

  lemma {:induction false} SpliceIsPlain(env: Env, depth: nat, lines: seq<string>, mode: Mode)
    requires PlainFiles(env) && PlainLines(lines)
    ensures PlainLines(Splice(env, depth, lines, mode).lines)
    decreases depth, |lines|
  {
    hide Scan, Plain;
    if lines != [] {
      var r, rest := lines[0], lines[1..];
      PlainRest(lines);
      match ScanLine(env.rd, InMode(mode), r) {
        case Bad => SpliceIsPlain(env, depth, rest, Code);
        case Text(after, _) => SpliceIsPlain(env, depth, rest, after);
        case Found(command, _, _) =>
          if IsInclude(env, command) && depth > 0 {
            var f := env.files[FileName(env, command.path)];
            SpliceIsPlain(env, depth - 1, f, Code);
            SpliceIsPlain(env, depth, rest, Splice(env, depth - 1, f, Code).mode);
          } else {
            SpliceIsPlain(env, depth, rest, Code);
          }
      }
    }
  }

  /**
   Splitting through includes: with a server that does not fail, running a script sends exactly the
   batches of the cut of its splice that the read-only check lets pass.
   */
  lemma RunSendsTheCutOfTheSplice(env: Env, depth: nat, lines: seq<string>)
    requires env.Valid() && PlainFiles(env) && PlainLines(lines)
    requires AlwaysDone(env)
    requires Steady(START) && Within(env, depth, true, START, lines)
    ensures var r := RunScript(env, depth, START, lines, true).0;
            var segments := Cut(env, [], Splice(env, depth, lines, Code).lines);
            && r.log == Sent(env, Passing(env, segments))
            && (env.exitOnError && AnyRejected(env, segments) ==> r.code == 1)
            && (!env.exitOnError ==> r.code == 0)
  {
    hide Walk, Within, Splice, PlainLines, PlainFiles, AlwaysDone, Cut, Sent, AtEof, Passing, AnyRejected;
    FreshIsAligned();
    IncludeIsInlining(env, depth, START, lines, true);
    var flat := Splice(env, depth, lines, Code).lines;
    SpliceIsPlain(env, depth, lines, Code);
    UntidyToo(env, 0, START, flat);
    FreshHoldsNothing(env.rd);
    WalkIsCut(env, START, flat, Fine, []);
    var sent := Sent(env, Passing(env, Cut(env, [], flat)));
    assert [] + sent == sent;
  }

  lemma {:induction false} UntidyToo(env: Env, depth: nat, s: Session, lines: seq<string>)
    requires env.Valid() && Steady(s) && Within(env, depth, true, s, lines)
    ensures Within(env, depth, false, s, lines)
    decreases depth, |lines|, if s.tail == "" then 0 else 1
  {
    hide Walk, Within, Perform, Scan, AfterText, Steady, Orderly;
    WalkStep(env, depth, s, lines, Fine);
    WithinStep(env, depth, true, s, lines);
    WithinStep(env, depth, false, s, lines);
    if s.tail != "" || lines != [] {
      var r := NextChunk(s, lines);
      match ScanLine(env.rd, s.batch, r) {
        case Bad =>
          if !env.Stops() {
            UntidyToo(env, depth, Cleared(s), Remaining(s, lines));
          }
        case Text(mode, refs) =>
          var s1 := s.(batch := AfterText(s.batch, r, mode, refs, env.rd.eol), tail := "");
          UntidyToo(env, depth, s1, Remaining(s, lines));
        case Found(command, _, end) =>
          var s0 := s.(tail := r[end..]);
          if IsInclude(env, command) {
            UntidyToo(env, depth - 1, s0, env.files[FileName(env, command.path)]);
          }
          var (s1, fault) := Perform(env, depth, s0, command);
          if fault == Fine || (fault == Error && !env.Stops()) {
            UntidyToo(env, depth, s1, lines[1..]);
          }
      }
    }
  }

  // ---------- Nothing is left to include ----------

  /** The mode after lines, command or text. */
  function ModeAfter(rd: Reader, lines: seq<string>, mode: Mode): Mode
    decreases |lines|
  {
    if lines == [] then mode
    else
      match ScanLine(rd, InMode(mode), lines[0])
      case Text(after, _) => ModeAfter(rd, lines[1..], after)
      case _ => ModeAfter(rd, lines[1..], Code)
  }

  lemma {:induction false} IncludeFreeConcat(env: Env, a: seq<string>, b: seq<string>, mode: Mode)
    requires IncludeFree(env, a, mode) && IncludeFree(env, b, ModeAfter(env.rd, a, mode))
    ensures IncludeFree(env, a + b, mode)
    ensures ModeAfter(env.rd, a + b, mode) == ModeAfter(env.rd, b, ModeAfter(env.rd, a, mode))
    decreases |a|
  {
    hide Scan;
    if a == [] {
      assert a + b == b;
    } else {
      assert (a + b)[0] == a[0] && (a + b)[1..] == a[1..] + b;
      match ScanLine(env.rd, InMode(mode), a[0])
      case Text(after, _) => IncludeFreeConcat(env, a[1..], b, after);
      case _ => IncludeFreeConcat(env, a[1..], b, Code);
    }
  }

  /** With acyclic includes, a splice that goes deep enough has none left, and ends in the mode it says. */
  lemma {:induction false} SpliceIsIncludeFree(env: Env, rank: string -> nat, depth: nat, lines: seq<string>, mode: Mode)
    requires Acyclic(env, rank) && Below(env, rank, lines, depth)
    ensures var flat := Splice(env, depth, lines, mode);
            IncludeFree(env, flat.lines, mode) && ModeAfter(env.rd, flat.lines, mode) == flat.mode
    decreases depth, |lines|
  {
    hide Scan, Acyclic, Below;
    if lines != [] {
      BelowRest(env, rank, lines, depth);
      var r, rest := lines[0], lines[1..];
      var flat := Splice(env, depth, lines, mode);
      match ScanLine(env.rd, InMode(mode), r) {
        case Bad =>
          SpliceIsIncludeFree(env, rank, depth, rest, Code);
          assert flat.lines[1..] == Splice(env, depth, rest, Code).lines;
        case Text(after, _) =>
          SpliceIsIncludeFree(env, rank, depth, rest, after);
          assert flat.lines[1..] == Splice(env, depth, rest, after).lines;
        case Found(command, _, _) =>
          FoundIsHead(env.rd, InMode(mode), r);
          if IsInclude(env, command) {
            var name := FileName(env, command.path);
            FileIsBelow(env, rank, name, depth - 1);
            SpliceIsIncludeFree(env, rank, depth - 1, env.files[name], Code);
            var file := Splice(env, depth - 1, env.files[name], Code);
            SpliceIsIncludeFree(env, rank, depth, rest, file.mode);
            IncludeFreeConcat(env, file.lines, Splice(env, depth, rest, file.mode).lines, Code);
          } else {
            SpliceIsIncludeFree(env, rank, depth, rest, Code);
            assert flat.lines[1..] == Splice(env, depth, rest, Code).lines;
          }
      }
    }
  }
}
