/**
 Where includes do and do not act as their lines would: when every include is orderly, and what happens
 after a blank batch or an exit.
 */
module IncludeLimits {
  import opened Runes
  import opened Lexing
  import opened BatchState
  import opened Expansion
  import opened ReadOnly
  import opened Unicode
  import opened Script
  import opened Nesting
  import opened Splitting
  import opened Cutting
  import opened Inlining

  // ---------- Runs whose includes are orderly ----------

  ghost predicate NoBlank(lines: seq<string>) {
    forall k | 0 <= k < |lines| :: lines[k] != ""
  }

  ghost predicate NoBlankFiles(env: Env) {
    forall f | f in env.files :: NoBlank(env.files[f])
  }

  ghost predicate NeverExits(env: Env) {
    forall log :: !env.server(log).ExitRequested?
  }

  lemma {:induction false} ExecuteNeverExits(env: Env, log: seq<string>, q: string, n: nat)
    requires NeverExits(env)
    ensures Execute(env, log, q, n).fault != Exit
    decreases n
  {
    if n > 0 {
      assert !env.server(log + [q]).ExitRequested?;
      ExecuteNeverExits(env, log + [q], q, n - 1);
    }
  }

  lemma GoNeverExits(env: Env, s: Session, count: Option<int>)
    requires Steady(s) && NeverExits(env)
    ensures RunGo(env, s, count).1 != Exit
  {
    hide Execute, NeverExits, Check, SpansFit;
    if count.Some? && count.value >= 1 && s.batch.Content() != "" {
      ExecuteNeverExits(env, s.log, Runnable(env, s.batch), count.value);
    }
  }

  /** The session of a plain run that has read no blank line. */
  ghost predicate Solid(s: Session) {
    Steady(s) && s.tail == "" && s.batch.text != Some("")
  }

  /** Lines without control characters, blank lines and cycles. */
  ghost predicate Tame(env: Env, rank: string -> nat, level: nat, lines: seq<string>) {
    PlainLines(lines) && NoBlank(lines) && Below(env, rank, lines, level)
  }

  lemma TameRest(env: Env, rank: string -> nat, level: nat, lines: seq<string>)
    requires Tame(env, rank, level, lines) && lines != []
    ensures Tame(env, rank, level, lines[1..]) && Plain(lines[0]) && lines[0] != ""
    ensures forall path | env.rd.commands(Head(lines[0])) == Some(ReadFile(path)) ::
              FileName(env, path) in env.files ==> rank(FileName(env, path)) < level
  {
  }

  lemma TameFile(env: Env, rank: string -> nat, level: nat, f: string)
    requires Acyclic(env, rank) && PlainFiles(env) && NoBlankFiles(env) && f in env.files && rank(f) <= level
    ensures Tame(env, rank, level, env.files[f])
  {
  }

  lemma {:induction false} WithoutBlanksIsTidy(env: Env, rank: string -> nat, level: nat, s: Session, lines: seq<string>,
                                               last: Fault)
    requires env.Valid() && Solid(s) && Tame(env, rank, level, lines)
    requires Acyclic(env, rank) && PlainFiles(env) && NoBlankFiles(env) && NeverExits(env) && last != Exit
    ensures Within(env, level, true, s, lines)
    ensures var w := Walk(env, level, s, lines, last);
            Solid(w.s) && w.last != Exit && (w.stopped ==> w.last == Error)
    decreases level, |lines|, 1
  {
    hide Walk, Within, Scan, AfterText, Steady, Perform, Acyclic, PlainFiles, NoBlankFiles, NeverExits, Tame;
    WalkStep(env, level, s, lines, last);
    WithinStep(env, level, true, s, lines);
    if lines != [] {
      TameRest(env, rank, level, lines);
      var r, rest := lines[0], lines[1..];
      match ScanLine(env.rd, s.batch, r) {
        case Bad =>
          if !env.Stops() {
            WithoutBlanksIsTidy(env, rank, level, Cleared(s), rest, last);
          }
        case Text(mode, refs) =>
          TextIsSolid(s.batch, r, mode, refs, env.rd.eol);
          var st := AfterText(s.batch, r, mode, refs, env.rd.eol);
          WithoutBlanksIsTidy(env, rank, level, s.(batch := st, tail := ""), rest, last);
        case Found(command, _, end) =>
          FoundIsLine(env.rd, s.batch, r);
          FoundIsHead(env.rd, s.batch, r);
          assert s.(tail := r[end..]) == s;
          CommandIsTidy(env, rank, level, s, command);
          var (s1, fault) := Perform(env, level, s, command);
          if fault == Fine || !env.Stops() {
            WithoutBlanksIsTidy(env, rank, level, s1, rest, fault);
          }
      }
    }
  }

  lemma TextIsSolid(st: State, r: string, mode: Mode, refs: Refs, eol: string)
    requires r != ""
    ensures AfterText(st, r, mode, refs, eol).text != Some("")
  {
  }

  lemma {:induction false} CommandIsTidy(env: Env, rank: string -> nat, level: nat, s: Session, command: Command)
    requires env.Valid() && Solid(s)
    requires IsInclude(env, command) ==> rank(FileName(env, command.path)) < level
    requires Acyclic(env, rank) && PlainFiles(env) && NoBlankFiles(env) && NeverExits(env)
    ensures Opens(env, level, true, s, command)
    ensures Solid(Perform(env, level, s, command).0) && Perform(env, level, s, command).1 != Exit
    decreases level, 0, 0
  {
    hide Walk, Within, Steady, Acyclic, PlainFiles, NoBlankFiles, NeverExits, Tame, RunGo;
    match command {
      case Go(count) =>
        GoNeverExits(env, s, count);
        GoKeepsSolid(env, s, count);
      case ResetBatch =>
      case ReadFile(path) =>
        if IsInclude(env, command) {
          var f := FileName(env, path);
          TameFile(env, rank, level - 1, f);
          WithoutBlanksIsTidy(env, rank, level - 1, s, env.files[f], Fine);
        }
    }
  }

  lemma GoKeepsSolid(env: Env, s: Session, count: Option<int>)
    requires Solid(s)
    ensures Solid(RunGo(env, s, count).0)
  {
    hide Execute, Runnable, Check, Steady;
  }

  /** Without blank lines, cycles and exits every include is orderly, so includes are inlining. */
  lemma InliningWithoutBlanks(env: Env, rank: string -> nat, level: nat, s: Session, lines: seq<string>, processAll: bool)
    requires env.Valid() && Solid(s) && Tame(env, rank, level, lines)
    requires Acyclic(env, rank) && PlainFiles(env) && NoBlankFiles(env) && NeverExits(env)
    ensures var flat := Splice(env, level, lines, s.batch.mode);
            && IncludeFree(env, flat.lines, s.batch.mode)
            && var r := RunScript(env, level, s, lines, processAll).0;
               var inlined := RunScript(env, level, s, flat.lines, processAll).0;
               r.log == inlined.log && r.code == inlined.code
  {
    hide Walk, Within, Splice, PlainLines, Acyclic, PlainFiles, NoBlankFiles, NeverExits, IncludeFree, AtEof, Sound;
    WithoutBlanksIsTidy(env, rank, level, s, lines, Fine);
    SolidIsFirm(s);
    IncludeIsInlining(env, level, s, lines, processAll);
    var flat := Splice(env, level, lines, s.batch.mode);
    SpliceIsIncludeFree(env, rank, level, lines, s.batch.mode);
    DeeperIsSame(env, 0, level, true, s, flat.lines, Fine);
  }

  lemma SolidIsFirm(s: Session)
    requires Solid(s)
    ensures Firm(s.batch)
  {
    hide SpansFit;
  }

  // ---------- A blank batch ----------

  /**
   The line number IncludeFile leaves behind keeps the offset invariant exactly unless the batch
   consists of one blank line.
   */
  lemma IncludeKeepsAlignedIff(env: Env, before: nat, st: State)
    requires Aligned(st) && before >= 1
    ensures Aligned(AfterInclude(env, before, st)) <==>
            (env.echoFileLines || st.mode != Code || st.text != Some(""))
  {
  }

  /** The offset invariant holds throughout a run whose includes are orderly. */
  lemma {:induction false} RunKeepsAligned(env: Env, depth: nat, s: Session, lines: seq<string>, last: Fault)
    requires env.Valid() && Steady(s) && Aligned(s.batch) && Within(env, depth, true, s, lines)
    ensures Aligned(Walk(env, depth, s, lines, last).s.batch)
    decreases depth, |lines|, if s.tail == "" then 0 else 1
  {
    hide Walk, Within, Opens, Perform, Scan, AfterText, Steady, Aligned;
    WalkStep(env, depth, s, lines, last);
    WithinStep(env, depth, true, s, lines);
    FreshIsAligned();
    if s.tail != "" || lines != [] {
      var r := NextChunk(s, lines);
      match ScanLine(env.rd, s.batch, r) {
        case Bad =>
          if !env.Stops() {
            RunKeepsAligned(env, depth, Cleared(s), Remaining(s, lines), last);
          }
        case Text(mode, refs) =>
          TextKeepsAligned(env.rd, s.batch, r);
          var s1 := s.(batch := AfterText(s.batch, r, mode, refs, env.rd.eol), tail := "");
          RunKeepsAligned(env, depth, s1, Remaining(s, lines), last);
        case Found(command, _, end) =>
          var s0 := s.(tail := r[end..]);
          var (s1, fault) := Perform(env, depth, s0, command);
          if IsInclude(env, command) {
            OpensFile(env, depth, s0, command);
            IncludeStep(env, depth, s0, command);
            var f := env.files[FileName(env, command.path)];
            var n := Walk(env, depth - 1, s0, f, Fine);
            RunKeepsAligned(env, depth - 1, s0, f, Fine);
            SteadyLine(s0);
            IncludeKeepsAlignedIff(env, s0.batch.line, n.s.batch);
          } else {
            CommandKeepsAligned(env, depth, s0, command);
          }
          if fault == Fine || (fault == Error && !env.Stops()) {
            RunKeepsAligned(env, depth, s1, lines[1..], fault);
          }
      }
    }
  }

  lemma CommandKeepsAligned(env: Env, depth: nat, s: Session, command: Command)
    requires env.Valid() && Steady(s) && Aligned(s.batch) && !IsInclude(env, command)
    ensures Aligned(Perform(env, depth, s, command).0.batch)
  {
    hide Aligned, Steady, Runnable, Execute, Check;
    FreshIsAligned();
  }

  // ---------- Single lines ----------

  /** A line of characters without lexical meaning. */
  predicate Bland(rd: Reader, r: string) {
    Plain(r) && rd.commands(r) == None && forall i | 0 <= i < |r| :: Ordinary(r, i, rd.vars)
  }

  lemma {:induction false} OrdinaryToEnd(rd: Reader, r: string, i: nat)
    requires i <= |r| && forall k | 0 <= k < |r| :: Ordinary(r, k, rd.vars)
    ensures Scan(r, i, Code, true, [], rd.vars, rd.commands) == Scanned.Text(Code, [])
    decreases |r| - i
  {
    hide Scan, CommandEnd, Ordinary;
    if i == |r| {
      ScanEnd(r, Code, true, [], rd.vars, rd.commands);
    } else {
      ScanOrdinary(r, i, true, [], rd.vars, rd.commands);
      OrdinaryToEnd(rd, r, i + 1);
    }
  }

  lemma BlandIsText(rd: Reader, st: State, r: string)
    requires Bland(rd, r) && st.mode == Code
    ensures ScanLine(rd, st, r) == Scanned.Text(Code, [])
  {
    hide Scan, CommandEnd, Ordinary, Plain;
    if r == "" {
      ScanEnd(r, Code, false, [], rd.vars, rd.commands);
    } else {
      CommandEndOfPlain(r, 0);
      assert r[..|r|] == r;
      ScanOrdinary(r, 0, false, [], rd.vars, rd.commands);
      OrdinaryToEnd(rd, r, 1);
    }
  }

  /** One line of text of a walk. */
  lemma TextStep(env: Env, depth: nat, s: Session, lines: seq<string>, last: Fault, refs: Refs)
    requires env.Valid() && Steady(s) && s.tail == "" && lines != []
    requires ScanLine(env.rd, s.batch, lines[0]) == Scanned.Text(Code, refs)
    ensures var s1 := s.(batch := AfterText(s.batch, lines[0], Code, refs, env.rd.eol));
            Steady(s1) && Walk(env, depth, s, lines, last) == Walk(env, depth, s1, lines[1..], last)
  {
    hide Walk, Scan, Steady, AfterText;
    WalkStep(env, depth, s, lines, last);
    var st := AfterText(s.batch, lines[0], Code, refs, env.rd.eol);
    assert s.(batch := st, tail := "") == s.(batch := st);
  }

  /** One command of a walk that takes up its line. */
  lemma CommandStep(env: Env, depth: nat, s: Session, lines: seq<string>, last: Fault, command: Command)
    requires env.Valid() && Steady(s) && s.tail == "" && lines != [] && s.batch.mode == Code
    requires Plain(lines[0]) && StartsPlainly(lines[0], 0, env.rd.vars) && env.rd.commands(lines[0]) == Some(command)
    ensures var (s1, fault) := Perform(env, depth, s, command);
            Walk(env, depth, s, lines, last) == Continue(env, depth, s1, fault, lines[1..])
  {
    hide Walk, Scan, Steady, Continue, Perform, StartsPlainly;
    FoundIff(env.rd, s.batch, lines[0]);
    FoundIsLine(env.rd, s.batch, lines[0]);
    WalkStep(env, depth, s, lines, last);
    assert s.(tail := "") == s;
  }

  /** GO sends a batch without references as it is. */
  lemma GoSendsOne(env: Env, s: Session)
    requires env.Valid() && Steady(s) && !env.readOnly && s.batch.text.Some? && s.batch.text.value != ""
    ensures var q := Runnable(env, s.batch);
            var log := s.log + [q];
            RunGo(env, s, Some(1)) ==
            match env.server(log)
            case Done => (Cleared(s).(log := log), Fine)
            case Failed(code) => (s.(log := log, code := code), Error)
            case ExitRequested(code) => (s.(log := log, code := code), Exit)
    ensures s.batch.refs == [] ==> Runnable(env, s.batch) == s.batch.text.value
  {
    hide Steady;
    RunnableNeedsSound(s);
    var q := Runnable(env, s.batch);
    assert Execute(env, s.log + [q], q, 0) == Executed(s.log + [q], Fine, 0);
    if s.batch.refs == [] {
      assert s.batch.text.value[0..] == s.batch.text.value;
    }
  }

  lemma RunnableNeedsSound(s: Session)
    requires Steady(s)
    ensures Sound(s.batch)
  {
  }

  /** The commands of the scripts below are what they read like, and f names itself. */
  ghost predicate ReadsCommands(env: Env) {
    && env.rd.commands(":R f") == Some(ReadFile("f"))
    && env.rd.commands("GO") == Some(Go(Some(1)))
    && "f" in env.files
  }

  lemma NamesItself(env: Env)
    ensures FileName(env, "f") == "f"
  {
    EagerUnfold("f", 0, env.resolve, false);
  }

  // ---------- A blank batch, as a run ----------

  /** A reference on its own. */
  lemma ReferenceIsText(rd: Reader, st: State)
    requires rd.vars && rd.commands("$(x)") == None && st.mode == Code
    ensures ScanLine(rd, st, "$(x)") == Scanned.Text(Code, [Ref(0, "x")])
  {
    hide Scan;
    var r := "$(x)";
    assert RefEnd(r, 3) == Some(3);
    assert RefEnd(r, 2) == Some(3);
    assert r[2..3] == "x";
    ScanReference(r, 0, Code, false, [], rd.commands);
    ScanEnd(r, Code, false, [Ref(0, "x")], rd.vars, rd.commands);
    assert [] + [Ref(0, "x")] == [Ref(0, "x")];
  }

  /** An include of a file with the given walk, in a run of depth at least one. */
  lemma ReadsFile(env: Env, depth: nat, s: Session, lines: seq<string>, last: Fault)
    requires env.Valid() && Steady(s) && s.tail == "" && s.batch.mode == Code && depth > 0 && ReadsCommands(env)
    requires lines != [] && lines[0] == ":R f"
    ensures var n := Walk(env, depth - 1, s, env.files["f"], Fine);
            var s1 := n.s.(batch := AfterInclude(env, s.batch.line, n.s.batch));
            var fault := if n.stopped || n.s.batch.Content() == "" then n.last else Fine;
            Steady(s1) && Walk(env, depth, s, lines, last) == Continue(env, depth, s1, fault, lines[1..])
  {
    hide Walk, Scan, Steady, Continue;
    NamesItself(env);
    CommandStep(env, depth, s, lines, last, ReadFile("f"));
    IncludeStep(env, depth, s, ReadFile("f"));
    var (s1, fault) := Perform(env, depth, s, ReadFile("f"));
  }

  lemma GoIsCommand(env: Env, depth: nat, s: Session, lines: seq<string>, last: Fault)
    requires env.Valid() && Steady(s) && s.tail == "" && s.batch.mode == Code && ReadsCommands(env)
    requires lines != [] && lines[0] == "GO"
    ensures var (s1, fault) := RunGo(env, s, Some(1));
            Walk(env, depth, s, lines, last) == Continue(env, depth, s1, fault, lines[1..])
  {
    hide Walk, Scan, Steady, Continue, RunGo;
    CommandStep(env, depth, s, lines, last, Go(Some(1)));
  }

  /** The state after the reference has been read with the line number one. */
  function Misplaced(eol: string): State {
    State(Some(eol + "$(x)"), Code, 2, [Ref(0, "x")])
  }

  lemma MisplacedAfterBlank(eol: string)
    ensures AfterText(State(Some(""), Code, 1, []), "$(x)", Code, [Ref(0, "x")], eol) == Misplaced(eol)
  {
    assert "" + eol + "$(x)" == eol + "$(x)";
    assert Shift([Ref(0, "x")], 0) == [Ref(0, "x")];
  }

  lemma MisplacedIsCut(env: Env, s: Session, value: string)
    requires env.Valid() && env.rd.vars && env.resolve("x") == Some(value)
    requires s.batch == Misplaced(env.rd.eol)
    ensures Sound(s.batch) && !Aligned(s.batch)
    ensures Runnable(env, s.batch) == value + (env.rd.eol + "$(x)")[4..]
  {
    var q := env.rd.eol + "$(x)";
    assert !SpanAt(q, Ref(0, "x")) by {
      assert q[0..4][0] != '$';
    }
    ExpandHere(q, Ref(0, "x"), [], env.resolve);
    ExpandNothing(q, 4, env.resolve);
    assert [Ref(0, "x")] + [] == [Ref(0, "x")];
  }

  /**
   A blank line, an include of an empty file, a reference and GO: the reference is recorded one line
   terminator too early, and the query that is sent is the value and the end of the text.
   */
  lemma BlankBatchMisplacesReference(env: Env, depth: nat, value: string)
    requires env.Valid() && env.rd.vars && !env.echoFileLines && !env.readOnly && ReadsCommands(env) && depth > 0
    requires env.files["f"] == [] && env.rd.commands("$(x)") == None && env.resolve("x") == Some(value)
    requires forall log :: env.server(log) == Done
    ensures Steady(START)
    ensures RunScript(env, depth, START, ["", ":R f", "$(x)", "GO"], true).0.log == [value + (env.rd.eol + "$(x)")[4..]]
  {
    hide Walk, Scan, RunGo, Steady, Runnable, ReadsCommands;
    var lines := ["", ":R f", "$(x)", "GO"];
    StartIsSteady();
    BlandIsText(env.rd, FRESH, "");
    TextStep(env, depth, START, lines, Fine, []);
    var s1 := START.(batch := State(Some(""), Code, 2, []));
    assert AfterText(FRESH, "", Code, [], env.rd.eol) == s1.batch;

    assert lines[1..] == [":R f", "$(x)", "GO"];
    FileNamed(env);
    ReadsFile(env, depth, s1, lines[1..], Fine);
    WalkOfNothing(env, depth - 1, s1, Fine);
    var s2 := s1.(batch := State(Some(""), Code, 1, []));

    assert lines[1..][1..] == ["$(x)", "GO"];
    ReferenceIsText(env.rd, s2.batch);
    TextStep(env, depth, s2, ["$(x)", "GO"], Fine, [Ref(0, "x")]);
    var s3 := s2.(batch := Misplaced(env.rd.eol));
    MisplacedAfterBlank(env.rd.eol);

    assert ["$(x)", "GO"][1..] == ["GO"] && ["GO"][1..] == [];
    MisplacedIsCut(env, s3, value);
    GoIsCommand(env, depth, s3, ["GO"], Fine);
    GoSendsOne(env, s3);
    WalkOfNothing(env, depth, RunGo(env, s3, Some(1)).0, Fine);
    assert [] + [Runnable(env, s3.batch)] == [Runnable(env, s3.batch)];
  }

  lemma FileNamed(env: Env)
    requires ReadsCommands(env)
    ensures "f" in env.files
  {
  }

  // ---------- An exit in a file ----------

  /**
   The file asks to exit, but the run around it goes on: it sends another query, which holds the text
   of the one that asked.
   */
  lemma ExitEndsOnlyTheFile(env: Env, depth: nat, a: string, b: string, code: int)
    requires env.Valid() && !env.readOnly && ReadsCommands(env) && depth > 0
    requires a != "" && Bland(env.rd, a) && Bland(env.rd, b) && env.files["f"] == [a, "GO"]
    requires env.server([a]) == ExitRequested(code) && env.server([a, a + env.rd.eol + b]) == Done
    ensures Steady(START)
    ensures RunScript(env, depth, START, [":R f", b, "GO"], true).0.log == [a, a + env.rd.eol + b]
  {
    hide Walk, Scan, RunGo, Bland, Steady, Runnable, ReadsCommands;
    StartIsSteady();
    FileNamed(env);
    ReadsFile(env, depth, START, [":R f", b, "GO"], Fine);
    BlandIsText(env.rd, FRESH, a);
    TextStep(env, depth - 1, START, [a, "GO"], Fine, []);
    var s1 := START.(batch := State(Some(a), Code, 2, []));
    assert AfterText(FRESH, a, Code, [], env.rd.eol) == s1.batch;
    assert [a, "GO"][1..] == ["GO"];
    GoIsCommand(env, depth - 1, s1, ["GO"], Fine);
    GoSendsOne(env, s1);
    assert [] + [a] == [a];

    var s2 := s1.(log := [a], code := code);
    assert [":R f", b, "GO"][1..] == [b, "GO"];
    BlandIsText(env.rd, s2.batch, b);
    TextStep(env, depth, s2, [b, "GO"], Fine, []);
    var s3 := s2.(batch := State(Some(a + env.rd.eol + b), Code, 3, []));
    assert AfterText(s2.batch, b, Code, [], env.rd.eol) == s3.batch;
    assert [b, "GO"][1..] == ["GO"] && ["GO"][1..] == [];
    GoIsCommand(env, depth, s3, ["GO"], Fine);
    GoSendsOne(env, s3);
    assert [a] + [a + env.rd.eol + b] == [a, a + env.rd.eol + b];
    WalkOfNothing(env, depth, RunGo(env, s3, Some(1)).0, Fine);
  }
}
