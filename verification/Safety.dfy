/** What holds of every run, whatever the script, the files and the server: safety over whole runs. */
module Safety {
  import opened Runes
  import opened Lexing
  import opened BatchState
  import opened Expansion
  import opened ReadOnly
  import opened Script

  /** more is log with queries added that the read-only check accepts, if that is asked for. */
  ghost predicate Extends(env: Env, log: seq<string>, more: seq<string>) {
    && log <= more
    && (env.readOnly ==> forall k | |log| <= k < |more| :: Check(env.alphabet, more[k], 0, env.allowExec) == None)
  }

  lemma ExtendsItself(env: Env, log: seq<string>)
    ensures Extends(env, log, log)
  {
  }

  lemma ExtendsThrough(env: Env, a: seq<string>, b: seq<string>, c: seq<string>)
    requires Extends(env, a, b) && Extends(env, b, c)
    ensures Extends(env, a, c)
  {
    assert forall k | |a| <= k < |b| :: c[k] == b[k];
  }

  lemma {:induction false} ExecuteExtends(env: Env, log: seq<string>, q: string, n: nat)
    requires env.readOnly ==> Check(env.alphabet, q, 0, env.allowExec) == None
    ensures Extends(env, log, Execute(env, log, q, n).log)
    decreases n
  {
    hide Check;
    if n == 0 {
      ExtendsItself(env, log);
    } else {
      assert Extends(env, log, log + [q]);
      if env.server(log + [q]) == Done {
        ExecuteExtends(env, log + [q], q, n - 1);
        ExtendsThrough(env, log, log + [q], Execute(env, log, q, n).log);
      }
    }
  }

  /** The last query sent asked to exit, with this exit code. */
  ghost predicate AskedToExit(env: Env, s: Session) {
    s.log != [] && env.server(s.log) == ExitRequested(s.code)
  }

  lemma {:induction false} ExecuteExits(env: Env, log: seq<string>, q: string, n: nat)
    ensures var x := Execute(env, log, q, n);
            x.fault == Exit ==> x.log != [] && env.server(x.log) == ExitRequested(x.code)
    decreases n
  {
    if n > 0 && env.server(log + [q]) == Done {
      ExecuteExits(env, log + [q], q, n - 1);
    }
  }

  /**
   Sending a query: it is sent m times, and only the last answer can be anything but success. With
   fewer than n sends that answer is an error or a request to exit, and it gives the code.
   */
  lemma {:induction false} ExecuteOutcome(env: Env, log: seq<string>, q: string, n: nat) returns (m: nat)
    requires n >= 1
    ensures 1 <= m <= n && forall k | 1 <= k < m :: env.server(log + Copies(q, k)) == Done
    ensures Execute(env, log, q, n) ==
            match env.server(log + Copies(q, m))
            case Done => Executed(log + Copies(q, m), Fine, 0)
            case Failed(code) => Executed(log + Copies(q, m), Error, code)
            case ExitRequested(code) => Executed(log + Copies(q, m), Exit, code)
    ensures env.server(log + Copies(q, m)) == Done ==> m == n
    decreases n
  {
    assert Copies(q, 1) == [q];
    if n == 1 || env.server(log + [q]) != Done {
      m := 1;
      assert n == 1 ==> Execute(env, log + [q], q, 0) == Executed(log + [q], Fine, 0);
    } else {
      var rest := ExecuteOutcome(env, log + [q], q, n - 1);
      m := rest + 1;
      forall k | 0 <= k <= rest ensures (log + [q]) + Copies(q, k) == log + Copies(q, k + 1) {
        assert Copies(q, k + 1) == [q] + Copies(q, k);
        Regroup(log, [q], Copies(q, k));
      }
      forall k | 1 <= k < m ensures env.server(log + Copies(q, k)) == Done {
        if k > 1 {
          assert (log + [q]) + Copies(q, k - 1) == log + Copies(q, k);
        }
      }
    }
  }

  /**
   What a GO leaves behind. After its last successful send the batch is empty; after an error or a
   request to exit the batch is still there, for the lines behind it to be added to and sent again.
   */
  lemma GoLeaves(env: Env, s: Session, count: Option<int>) returns (m: nat)
    requires Steady(s) && count.Some? && count.value >= 1 && s.batch.Content() != ""
    requires env.readOnly ==> Check(env.alphabet, Runnable(env, s.batch), 0, env.allowExec) == None
    ensures var q := Runnable(env, s.batch);
            var log := s.log + Copies(q, m);
            && 1 <= m <= count.value && (forall k | 1 <= k < m :: env.server(s.log + Copies(q, k)) == Done)
            && RunGo(env, s, count) ==
               match env.server(log)
               case Done => (Session(FRESH, "", log, s.code), Fine)
               case Failed(code) => (s.(log := log, code := code), Error)
               case ExitRequested(code) => (s.(log := log, code := code), Exit)
    ensures env.server(s.log + Copies(Runnable(env, s.batch), m)) == Done ==> m == count.value
  {
    hide Check, Runnable, SpansFit, Execute;
    m := ExecuteOutcome(env, s.log, Runnable(env, s.batch), count.value);
  }

  lemma GoIsSafe(env: Env, s: Session, count: Option<int>)
    requires Steady(s)
    ensures var (s1, fault) := RunGo(env, s, count);
            Extends(env, s.log, s1.log) && (fault == Exit ==> AskedToExit(env, s1))
  {
    hide Check, Extends, Runnable, SpansFit, Execute;
    ExtendsItself(env, s.log);
    if count.Some? && count.value >= 1 {
      var q := Runnable(env, s.batch);
      ExecuteExits(env, s.log, q, count.value);
      if !(env.readOnly && Check(env.alphabet, q, 0, env.allowExec).Some?) {
        ExecuteExtends(env, s.log, q, count.value);
      }
    }
  }

  /**
   A run stops early on an error only when it was told to, with an exit code, and otherwise only when
   the last query asked to exit, with the code that it asked for.
   */
  ghost predicate StopsRightly(env: Env, w: Walked) {
    && w.last != Exit
    && (w.stopped ==> if w.last == Error then env.Stops() && w.s.code != 0 else AskedToExit(env, w.s))
  }

  lemma {:induction false} WalkIsSafe(env: Env, depth: nat, s: Session, lines: seq<string>, last: Fault)
    requires env.Valid() && Steady(s) && last != Exit
    ensures var w := Walk(env, depth, s, lines, last);
            Extends(env, s.log, w.s.log) && StopsRightly(env, w)
    decreases depth, |lines|, if s.tail == "" then 0 else 1, 1
  {
    hide Walk, Perform, Continue, Scan, Extends, Steady, AfterText, AskedToExit;
    WalkStep(env, depth, s, lines, last);
    ExtendsItself(env, s.log);
    if s.tail != "" || lines != [] {
      var r := NextChunk(s, lines);
      match ScanLine(env.rd, s.batch, r) {
        case Bad =>
          if !env.Stops() {
            WalkIsSafe(env, depth, Cleared(s), Remaining(s, lines), last);
          }
        case Text(mode, refs) =>
          var s1 := s.(batch := AfterText(s.batch, r, mode, refs, env.rd.eol), tail := "");
          WalkIsSafe(env, depth, s1, Remaining(s, lines), last);
        case Found(command, _, end) =>
          var s0 := s.(tail := r[end..]);
          CommandIsSafe(env, depth, s0, command);
          var (s1, fault) := Perform(env, depth, s0, command);
          ContinueIsSafe(env, depth, s1, fault, lines[1..]);
          ExtendsThrough(env, s.log, s1.log, Continue(env, depth, s1, fault, lines[1..]).s.log);
      }
    }
  }

  lemma {:induction false} ContinueIsSafe(env: Env, depth: nat, s: Session, fault: Fault, rest: seq<string>)
    requires env.Valid() && Steady(s) && (fault == Exit ==> AskedToExit(env, s))
    ensures var w := Continue(env, depth, s, fault, rest);
            Extends(env, s.log, w.s.log) && StopsRightly(env, w)
    decreases depth, |rest|, 2, 0
  {
    hide Walk, Extends, Steady, AskedToExit;
    ExtendsItself(env, s.log);
    if fault == Fine || (fault == Error && !env.Stops()) {
      WalkIsSafe(env, depth, s, rest, fault);
    }
  }

  lemma {:induction false} CommandIsSafe(env: Env, depth: nat, s: Session, command: Command)
    requires env.Valid() && Steady(s)
    ensures var (s1, fault) := Perform(env, depth, s, command);
            && Extends(env, s.log, s1.log)
            && (fault == Exit ==> command.Go? && AskedToExit(env, s1))
    decreases depth, 0, 0, 0
  {
    hide Walk, RunGo, Extends, Steady, AfterInclude, AskedToExit;
    match command {
      case Go(count) => GoIsSafe(env, s, count);
      case ResetBatch => ExtendsItself(env, s.log);
      case ReadFile(path) =>
        ExtendsItself(env, s.log);
        if IsInclude(env, command) && depth > 0 {
          WalkIsSafe(env, depth - 1, s, env.files[FileName(env, path)], Fine);
        }
    }
  }

  /** No include asks the run around it to exit, whatever the file and the server. */
  lemma IncludeNeverExits(env: Env, depth: nat, s: Session, path: string)
    requires env.Valid() && Steady(s)
    ensures Perform(env, depth, s, ReadFile(path)).1 != Exit
  {
    hide Perform;
    CommandIsSafe(env, depth, s, ReadFile(path));
  }

  /**
   Every run only adds to what the server has received, and in read-only mode every query it adds is
   one the check accepts, through includes, errors and repeated batches.
   */
  lemma RunIsSafe(env: Env, depth: nat, s: Session, lines: seq<string>, processAll: bool)
    requires env.Valid() && Steady(s)
    ensures var log := RunScript(env, depth, s, lines, processAll).0.log;
            && s.log <= log
            && (env.readOnly ==> forall k | |s.log| <= k < |log| :: Check(env.alphabet, log[k], 0, env.allowExec) == None)
  {
    hide Walk, RunGo, Check, Steady;
    var w := Walk(env, depth, s, lines, Fine);
    WalkIsSafe(env, depth, s, lines, Fine);
    GoIsSafe(env, w.s, Some(1));
    ExtendsThrough(env, s.log, w.s.log, RunGo(env, w.s, Some(1)).0.log);
  }

  /**
   A run that stops before its end leaves an exit code: one that is not zero after an error, which
   stops it only when the settings say so, and the one the server asked for after an exit.
   */
  lemma StoppedRunHasExitCode(env: Env, depth: nat, s: Session, lines: seq<string>, last: Fault)
    requires env.Valid() && Steady(s) && last != Exit
    requires Walk(env, depth, s, lines, last).stopped
    ensures var w := Walk(env, depth, s, lines, last);
            if w.last == Error then env.Stops() && w.s.code != 0
            else w.s.log != [] && env.server(w.s.log) == ExitRequested(w.s.code)
  {
    hide Walk;
    WalkIsSafe(env, depth, s, lines, last);
  }
}
