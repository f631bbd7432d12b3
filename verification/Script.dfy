/**
 What running a script means: lines go into the batch, commands act on it, and the server sees a
 sequence of query texts. The class in Sqlcmd.dfy computes these functions.
 */
module Script {
  import opened Runes
  import opened Lexing
  import opened BatchState
  import opened Expansion
  import opened ReadOnly
  import opened Unicode

  /** The server's answer to a query; ExitRequested is a severity that ends the program. */
  datatype Reply = Done | Failed(code: int) | ExitRequested(code: int)

  /** How a command or a run ends. Exit ends the run it happens in. */
  datatype Fault = Fine | Exit | Error

  datatype Env = Env(
    rd: Reader,
    resolve: Lookup,
    files: map<string, seq<string>>,
    server: seq<string> -> Reply,     // answer to the last query of a log
    alphabet: Alphabet,
    readOnly: bool,
    allowExec: bool,
    exitOnError: bool,
    ignoreError: bool,
    echoFileLines: bool)
  {
    predicate Stops() {
      exitOnError && !ignoreError
    }

    /** The empty text is no command: the batch terminator is not empty. */
    ghost predicate Valid() {
      ValidEol(rd.eol) && ValidAlphabet(alphabet) && rd.commands("") == None
    }
  }

  /** tail is what a command left unread of its line; it is read before the next line. */
  datatype Session = Session(batch: State, tail: string, log: seq<string>, code: int)

  /** What a command leaves unread starts with the control character that ended the command. */
  ghost predicate Steady(s: Session) {
    Sound(s.batch) && (s.tail != "" ==> EndsCommand(s.tail[0]))
  }

  /** The session in which a run starts. */
  const START := Session(FRESH, "", [], 0)

  lemma StartIsSteady()
    ensures Steady(START)
  {
    FreshIsAligned();
  }

  // ---------- What a command takes up ----------

  lemma {:induction false} NoCommandLater<C>(r: string, i: nat, mode: Mode, scanned: bool, refs: Refs, vars: bool,
                                             match_: string -> Option<C>)
    requires i <= |r| && (scanned || mode != Code)
    ensures !Scan(r, i, mode, scanned, refs, vars, match_).Found?
  {
    if i < |r| && !scanned {
      ScanInside(r, i, mode, scanned, refs, vars, match_);
    }
  }

  lemma {:induction false} CommandEndLater(r: string, i: nat, j: nat)
    requires i <= j <= |r| && forall k | i <= k < j :: !EndsCommand(r[k])
    ensures CommandEnd(r, i) == CommandEnd(r, j)
    decreases j - i
  {
    if i < j {
      CommandEndLater(r, i + 1, j);
    }
  }

  lemma {:induction false} FoundUpTo<C>(r: string, i: nat, refs: Refs, vars: bool, match_: string -> Option<C>)
    requires i <= |r| && CommandEnd(r, i) == CommandEnd(r, 0)
    ensures var s := Scan(r, i, Code, false, refs, vars, match_);
            s.Found? ==> s.rest == CommandEnd(r, 0)
    decreases |r| - i
  {
    hide Scan, RefEnd, CommandEnd;
    if i == |r| {
      ScanEnd(r, Code, false, refs, vars, match_);
    } else if IsOpener(r[i]) {
      ScanOpener(r, i, false, refs, vars, match_);
      NoCommandLater(r, i + 1, Quoted(r[i]), false, refs, vars, match_);
    } else if Pair(r, i, '-', '-') {
      ScanDashes(r, i, false, refs, vars, match_);
    } else if Pair(r, i, '/', '*') {
      ScanCommentStart(r, i, false, refs, vars, match_);
      NoCommandLater(r, i + 2, Comment, false, refs, vars, match_);
    } else if vars && Pair(r, i, '$', '(') {
      ScanReference(r, i, Code, false, refs, match_);
      var e := RefEnd(r, i + 2);
      if e.Some? {
        CommandEndLater(r, i, e.value + 1);
        FoundUpTo(r, e.value + 1, refs + [Ref(i, r[i + 2..e.value])], vars, match_);
      }
    } else {
      ScanOrdinary(r, i, false, refs, vars, match_);
      NoCommandLater(r, i + 1, Code, true, refs, vars, match_);
    }
  }

  /** A command takes up the line, or the line up to the first control character other than tab. */
  lemma FoundIsHead(rd: Reader, st: State, r: string)
    requires ScanLine(rd, st, r).Found?
    ensures var s := ScanLine(rd, st, r);
            && s.rest == CommandEnd(r, 0)
            && rd.commands(r[..s.rest]) == Some(s.command)
            && (s.rest < |r| ==> EndsCommand(r[s.rest]))
            && st.mode == Code
  {
    hide Scan, CommandEnd;
    FoundUpTo(r, 0, [], rd.vars, rd.commands);
  }

  /** The characters a command can hold, and the one it stops at. */
  lemma CommandCharacters(rd: Reader, st: State, r: string)
    requires ScanLine(rd, st, r).Found?
    ensures var e := ScanLine(rd, st, r).rest;
            && (forall k | 0 <= k < e :: r[k] == '\t' || (' ' <= r[k] && !('\U{7F}' <= r[k] <= '\U{9F}')))
            && (e < |r| ==> r[e] != '\t' && (r[e] < ' ' || '\U{7F}' <= r[e] <= '\U{9F}'))
  {
    hide Scan, CommandEnd;
    FoundIsHead(rd, st, r);
  }

  /** What a command leaves unread holds no command. */
  lemma TailHasNoCommand(rd: Reader, st: State, tail: string)
    requires rd.commands("") == None && tail != "" && EndsCommand(tail[0])
    ensures !ScanLine(rd, st, tail).Found?
  {
    hide Scan;
    assert tail[..0] == "" && CommandEnd(tail, 0) == 0;
    if ScanLine(rd, st, tail).Found? {
      FoundIsHead(rd, st, tail);
    }
  }

  // ---------- GO ----------

  /** The query text a batch stands for. */
  ghost function Runnable(env: Env, st: State): string
    requires Sound(st)
  {
    FitIsAhead(st.Content(), st.refs, 0);
    if env.rd.vars then Expand(st.Content(), st.refs, 0, env.resolve) else st.Content()
  }

  datatype Executed = Executed(log: seq<string>, fault: Fault, code: int)

  /** Sends q n times, until the server fails. */
  function Execute(env: Env, log: seq<string>, q: string, n: nat): Executed
    decreases n
  {
    if n == 0 then Executed(log, Fine, 0)
    else
      match env.server(log + [q])
      case Done => Execute(env, log + [q], q, n - 1)
      case Failed(code) => Executed(log + [q], Error, code)
      case ExitRequested(code) => Executed(log + [q], Exit, code)
  }

  /** Clearing the batch drops what was left of the line too. */
  function Cleared(s: Session): Session {
    s.(batch := FRESH, tail := "")
  }

  ghost function RunGo(env: Env, s: Session, count: Option<int>): (r: (Session, Fault))
    requires Steady(s)
    ensures Steady(r.0)
  {
    FreshIsAligned();
    if count.None? || count.value < 1 then (s, Error)
    else if s.batch.Content() == "" then (s, Fine)
    else
      var q := Runnable(env, s.batch);
      if env.readOnly && Check(env.alphabet, q, 0, env.allowExec).Some? then
        if env.exitOnError then (Cleared(s).(code := 1), Error) else (Cleared(s), Fine)
      else
        var x := Execute(env, s.log, q, count.value);
        if x.fault == Fine then (Cleared(s).(log := x.log), Fine)
        else (s.(log := x.log, code := x.code), x.fault)
  }

  // ---------- Runs ----------

  /** The file a `:R` argument names. */
  function FileName(env: Env, path: string): string {
    if env.rd.vars then
      match Eager(path, 0, env.resolve, false)
      case Resolved(text, _) => text
      case Undefined(_) => ""
    else path
  }

  predicate IsInclude(env: Env, command: Command) {
    command.ReadFile? && FileName(env, command.path) in env.files
  }

  /** What IncludeFile does to the line number after the run, given the number before it. */
  function AfterInclude(env: Env, before: nat, st: State): State {
    if env.echoFileLines then st
    else if st.mode == Code && st.Content() == "" then st.(line := 1)
    else st.(line := before + 1)
  }

  lemma AfterIncludeSound(env: Env, before: nat, st: State)
    requires Sound(st) && before >= 1
    ensures Sound(AfterInclude(env, before, st))
  {
  }

  /** Where a run stands: stopped tells that it ended before the end of its input. */
  datatype Walked = Walked(s: Session, last: Fault, stopped: bool)

  function Failing(s: Session): Session {
    if s.code == 0 then s.(code := 1) else s
  }

  /** End of input: the rest of the batch runs if processAll is set. */
  ghost function AtEof(env: Env, w: Walked, processAll: bool): (r: (Session, Fault))
    requires Steady(w.s)
    ensures Steady(r.0)
  {
    if w.stopped || w.s.batch.Content() == "" then (w.s, w.last)
    else if !processAll then (w.s, Fine)
    else (RunGo(env, w.s, Some(1)).0, Fine)
  }

  /** What is read next, when there is anything to read. */
  function NextChunk(s: Session, lines: seq<string>): string
    requires s.tail != "" || lines != []
  {
    if s.tail != "" then s.tail else lines[0]
  }

  function Remaining(s: Session, lines: seq<string>): seq<string>
    requires s.tail != "" || lines != []
  {
    if s.tail != "" then lines else lines[1..]
  }

  /**
   Runs lines one after the other; last is the error of the latest command. Files are opened at most
   depth deep, one inside the other; Within tells whether that limit is ever met.
   */
  ghost function Walk(env: Env, depth: nat, s: Session, lines: seq<string>, last: Fault): (w: Walked)
    requires env.Valid() && Steady(s)
    ensures Steady(w.s)
    decreases depth, |lines|, if s.tail == "" then 0 else 1, 0
  {
    if s.tail == "" && lines == [] then Walked(s, last, false)
    else
      var r := NextChunk(s, lines);
      FreshIsAligned();
      TextKeepsSound(env.rd, s.batch, r);
      match ScanLine(env.rd, s.batch, r)
      case Bad =>
        if env.Stops() then Walked(Failing(Cleared(s)), Error, true)
        else Walk(env, depth, Cleared(s), Remaining(s, lines), last)
      case Text(mode, refs) =>
        Walk(env, depth, s.(batch := AfterText(s.batch, r, mode, refs, env.rd.eol), tail := ""), Remaining(s, lines), last)
      case Found(command, _, end) =>
        FoundIsHead(env.rd, s.batch, r);
        CommandIsOnLine(env, s, lines);
        var (s1, fault) := Perform(env, depth, s.(tail := r[end..]), command);
        Continue(env, depth, s1, fault, lines[1..])
  }

  lemma CommandIsOnLine(env: Env, s: Session, lines: seq<string>)
    requires env.Valid() && Steady(s) && (s.tail != "" || lines != [])
    requires ScanLine(env.rd, s.batch, NextChunk(s, lines)).Found?
    ensures s.tail == "" && lines != []
  {
    hide Scan;
    if s.tail != "" {
      TailHasNoCommand(env.rd, s.batch, s.tail);
    }
  }

  /** What follows a command that ended in fault. */
  ghost function Continue(env: Env, depth: nat, s: Session, fault: Fault, rest: seq<string>): (w: Walked)
    requires env.Valid() && Steady(s)
    ensures Steady(w.s)
    decreases depth, |rest|, 2, 0
  {
    match fault
    case Exit => Walked(s, Fine, true)
    case Error => if env.Stops() then Walked(Failing(s), Error, true) else Walk(env, depth, s, rest, Error)
    case Fine => Walk(env, depth, s, rest, Fine)
  }

  /** Runs one command; at depth 0 no file can be opened. */
  ghost function Perform(env: Env, depth: nat, s: Session, command: Command): (r: (Session, Fault))
    requires env.Valid() && Steady(s)
    ensures Steady(r.0)
    decreases depth, 0, 0, 0
  {
    match command
    case Go(count) => RunGo(env, s, count)
    case ResetBatch => FreshIsAligned(); (Cleared(s), Fine)
    case ReadFile(path) =>
      if !IsInclude(env, command) || depth == 0 then (s, Error)
      else
        var (s1, fault) := AtEof(env, Walk(env, depth - 1, s, env.files[FileName(env, path)], Fine), false);
        AfterIncludeSound(env, s.batch.line, s1.batch);
        (s1.(batch := AfterInclude(env, s.batch.line, s1.batch)), fault)
  }

  /** A whole run over its input. */
  ghost function RunScript(env: Env, depth: nat, s: Session, lines: seq<string>, processAll: bool): (Session, Fault)
    requires env.Valid() && Steady(s)
  {
    AtEof(env, Walk(env, depth, s, lines, Fine), processAll)
  }

  /** An include that leaves the run around it as it would be after its lines. */
  ghost predicate Orderly(env: Env, n: Walked) {
    && (n.stopped ==> n.last == Error)
    && (env.echoFileLines || n.s.batch.mode != Code || n.s.batch.text != Some(""))
  }

  /**
   The run never opens a file more than depth deep. If tidy is set, every include is orderly as well,
   and every command takes up its whole line.
   */
  ghost predicate Within(env: Env, depth: nat, tidy: bool, s: Session, lines: seq<string>)
    requires env.Valid() && Steady(s)
    decreases depth, |lines|, if s.tail == "" then 0 else 1, 0
  {
    if s.tail == "" && lines == [] then true
    else
      var r := NextChunk(s, lines);
      FreshIsAligned();
      TextKeepsSound(env.rd, s.batch, r);
      match ScanLine(env.rd, s.batch, r)
      case Bad =>
        env.Stops() || Within(env, depth, tidy, Cleared(s), Remaining(s, lines))
      case Text(mode, refs) =>
        Within(env, depth, tidy, s.(batch := AfterText(s.batch, r, mode, refs, env.rd.eol), tail := ""), Remaining(s, lines))
      case Found(command, _, end) =>
        FoundIsHead(env.rd, s.batch, r);
        CommandIsOnLine(env, s, lines);
        var s0 := s.(tail := r[end..]);
        var (s1, fault) := Perform(env, depth, s0, command);
        && (tidy ==> end == |r|)
        && Opens(env, depth, tidy, s0, command)
        && (fault == Exit || (fault == Error && env.Stops()) || Within(env, depth, tidy, s1, lines[1..]))
  }

  /** The command stays within depth. */
  ghost predicate Opens(env: Env, depth: nat, tidy: bool, s: Session, command: Command)
    requires env.Valid() && Steady(s)
    decreases depth, 0, 0, 0
  {
    IsInclude(env, command) ==>
      && depth > 0
      && var file := env.files[FileName(env, command.path)];
         && Within(env, depth - 1, tidy, s, file)
         && (tidy ==> Orderly(env, Walk(env, depth - 1, s, file, Fine)))
  }

  // ---------- Steps ----------

  /** One unfolding of Walk, for proofs that hide its definition. */
  lemma {:induction false} WalkStep(env: Env, depth: nat, s: Session, lines: seq<string>, last: Fault)
    requires env.Valid() && Steady(s)
    ensures s.tail == "" && lines == [] ==> Walk(env, depth, s, lines, last) == Walked(s, last, false)
    ensures s.tail != "" || lines != [] ==>
              var r, w := NextChunk(s, lines), Walk(env, depth, s, lines, last);
              match ScanLine(env.rd, s.batch, r)
              case Bad =>
                && Steady(Cleared(s))
                && w == if env.Stops() then Walked(Failing(Cleared(s)), Error, true)
                        else Walk(env, depth, Cleared(s), Remaining(s, lines), last)
              case Text(mode, refs) =>
                var s1 := s.(batch := AfterText(s.batch, r, mode, refs, env.rd.eol), tail := "");
                Steady(s1) && w == Walk(env, depth, s1, Remaining(s, lines), last)
              case Found(command, _, end) =>
                && s.tail == "" && lines != [] && Steady(s.(tail := r[end..]))
                && var (s1, fault) := Perform(env, depth, s.(tail := r[end..]), command);
                   w == Continue(env, depth, s1, fault, lines[1..])
  {
    hide Scan, AfterText, Perform, Sound;
    FreshIsAligned();
    if s.tail != "" || lines != [] {
      var r := NextChunk(s, lines);
      TextKeepsSound(env.rd, s.batch, r);
      if ScanLine(env.rd, s.batch, r).Found? {
        FoundIsHead(env.rd, s.batch, r);
        CommandIsOnLine(env, s, lines);
      }
    }
  }

  /** Within, by what it says about the first chunk. */
  ghost predicate FirstWithin(env: Env, depth: nat, tidy: bool, s: Session, lines: seq<string>)
    requires env.Valid() && Steady(s) && (s.tail != "" || lines != [])
  {
    var r := NextChunk(s, lines);
    match ScanLine(env.rd, s.batch, r)
    case Bad => Steady(Cleared(s)) && (env.Stops() || Within(env, depth, tidy, Cleared(s), Remaining(s, lines)))
    case Text(mode, refs) =>
      var s1 := s.(batch := AfterText(s.batch, r, mode, refs, env.rd.eol), tail := "");
      Steady(s1) && Within(env, depth, tidy, s1, Remaining(s, lines))
    case Found(command, _, end) =>
      && s.tail == "" && lines != [] && Steady(s.(tail := r[end..]))
      && (tidy ==> end == |r|)
      && Opens(env, depth, tidy, s.(tail := r[end..]), command)
      && var (s1, fault) := Perform(env, depth, s.(tail := r[end..]), command);
         fault == Exit || (fault == Error && env.Stops()) || Within(env, depth, tidy, s1, lines[1..])
  }

  lemma {:induction false} WithinStep(env: Env, depth: nat, tidy: bool, s: Session, lines: seq<string>)
    requires env.Valid() && Steady(s)
    ensures if s.tail == "" && lines == [] then Within(env, depth, tidy, s, lines)
            else Within(env, depth, tidy, s, lines) <==> FirstWithin(env, depth, tidy, s, lines)
  {
    hide Scan, AfterText, Perform, Opens, Sound;
    FreshIsAligned();
    if s.tail != "" || lines != [] {
      var r := NextChunk(s, lines);
      TextKeepsSound(env.rd, s.batch, r);
      if ScanLine(env.rd, s.batch, r).Found? {
        FoundIsHead(env.rd, s.batch, r);
        CommandIsOnLine(env, s, lines);
      }
    }
  }

  lemma WalkOfNothing(env: Env, depth: nat, s: Session, last: Fault)
    requires env.Valid() && Steady(s) && s.tail == ""
    ensures Walk(env, depth, s, [], last) == Walked(s, last, false)
  {
  }

  /** Nothing more happens at the end of the input once the run has stopped. */
  lemma StoppedAtEof(env: Env, s: Session, last: Fault, processAll: bool)
    requires Steady(s)
    ensures AtEof(env, Walked(s, last, true), processAll) == (s, last)
  {
  }
}
