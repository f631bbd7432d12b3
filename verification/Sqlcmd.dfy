/**
 The processor of script lines: a mutable object around the batch reader that executes GO, `:R`
 and RESET. Its methods compute the functions of Script.
 */
module Sqlcmds {
  import opened Runes
  import opened Lexing
  import opened BatchState
  import opened Batches
  import opened Expansion
  import opened ReadOnly
  import opened Unicode
  import opened Scanners
  import opened Script

  class Sqlcmd {
    const env: Env
    const batch: Batch
    var log: seq<string>        // the queries the server has received
    var exitcode: int

    ghost predicate Valid()
      reads this, batch, batch.buffer
    {
      && env.Valid()
      && batch.Valid()
      && batch.Reader() == env.rd
      && Steady(Session())
    }

    /** What is left of the line read last. */
    ghost function Tail(): string
      reads this, batch
    {
      if batch.rawlen == 0 then "" else batch.raw
    }

    ghost function Session(): Session
      reads this, batch, batch.buffer
      requires batch.Valid()
    {
      Script.Session(batch.State(), Tail(), log, exitcode)
    }

    constructor (env: Env, input: seq<string>)
      requires env.Valid()
      ensures Valid() && Session() == START && batch.input == input && this.env == env
      ensures fresh(batch) && fresh(batch.Repr())
    {
      this.env := env;
      this.batch := new Batch(env.rd.eol, env.rd.commands, env.rd.vars, input);
      log, exitcode := [], 0;
      new;
      StartIsSteady();
    }

    /** Sends the query to the server. */
    method RunQuery(query: string) returns (retcode: int, fault: Fault)
      modifies this`log
      ensures log == old(log) + [query]
      ensures match env.server(log)
              case Done => fault == Fine
              case Failed(code) => fault == Error && retcode == code
              case ExitRequested(code) => fault == Exit && retcode == code
    {
      log := log + [query];
      match env.server(log)
      case Done => return 0, Fine;
      case Failed(code) => return code, Error;
      case ExitRequested(code) => return code, Exit;
    }

    /** The batch text with its references replaced. */
    method RunnableQuery() returns (query: string)
      requires Valid() && batch.Length != 0
      ensures query == Runnable(env, batch.State())
    {
      hide Expand, SpansFit, Records, Ahead, Missing;
      var missing;
      query, missing := GetRunnableQuery(batch.buffer[..batch.Length], batch.varmap, !env.rd.vars, env.resolve,
                                         batch.recorded);
    }

    /** Sends the query n times, until the server fails. */
    method Send(query: string, n: nat) returns (fault: Fault)
      modifies this`log, this`exitcode
      ensures var x := Execute(env, old(log), query, n);
              log == x.log && fault == x.fault && exitcode == if fault == Fine then old(exitcode) else x.code
    {
      var i := 0;
      while i < n
        invariant 0 <= i <= n
        invariant Execute(env, old(log), query, n) == Execute(env, log, query, n - i)
        invariant exitcode == old(exitcode)
      {
        var retcode;
        retcode, fault := RunQuery(query);
        if fault != Fine {
          exitcode := retcode;
          return;
        }
        i := i + 1;
      }
      return Fine;
    }

    /** Runs the current batch the given number of times. */
    method GoCommand(count: Option<int>) returns (fault: Fault)
      requires Valid()
      modifies this, batch.Repr()
      ensures Valid() && (batch.buffer == old(batch.buffer) || batch.buffer == null)
      ensures batch.input == old(batch.input)
      ensures (Session(), fault) == RunGo(env, old(Session()), count)
    {
      hide Execute, Runnable, Check, SpansFit, Records;
      if count.None? || count.value < 1 {
        return Error;
      }
      if batch.Length == 0 {
        return Fine;
      }
      var query := RunnableQuery();
      if env.readOnly {
        var rejected := CheckReadOnly(env.alphabet, query, env.allowExec);
        if rejected.Some? {
          batch.Reset(None);
          if env.exitOnError {
            exitcode := 1;
            return Error;
          }
          return Fine;
        }
      }
      fault := Send(query, count.value);
      if fault == Fine {
        batch.Reset(None);
      }
    }

    /** The prompt line number after an include. */
    method SetBatchLine(before: nat)
      requires Valid() && before >= 1
      modifies batch`batchline
      ensures Valid()
      ensures Session() == old(Session()).(batch := AfterInclude(env, before, old(batch.State())))
    {
      AfterIncludeSound(env, before, batch.State());
      if !env.echoFileLines {
        if batch.quote == '\0' && !batch.comment && batch.Length == 0 {
          batch.batchline := 1;
        } else {
          batch.batchline := before + 1;
        }
      }
    }

    /** Processes the batches of a file in place of the input, and restores the input. */
    method IncludeFile(path: string, processAll: bool, ghost depth: nat) returns (fault: Fault)
      requires Valid()
      requires path in env.files ==> depth > 0 && Within(env, depth - 1, false, Session(), env.files[path])
      modifies this, batch.Repr()
      ensures Valid() && (batch.buffer == old(batch.buffer) || batch.buffer == null || fresh(batch.buffer))
      ensures batch.input == old(batch.input)
      ensures if path !in env.files then Session() == old(Session()) && fault == Error
              else
                var r := RunScript(env, depth - 1, old(Session()), env.files[path], processAll);
                && fault == r.1
                && Session() == r.0.(batch := AfterInclude(env, old(batch.batchline), r.0.batch))
      decreases depth, 0
    {
      hide RunScript, AfterInclude, Within, Steady, Records, ValidEol, ValidMode;
      if path !in env.files {
        return Error;
      }
      SteadyLine(Session());
      var b := batch.batchline;
      var curLine := batch.input;
      batch.input := env.files[path];
      fault := Run(processAll, depth - 1);
      batch.input := curLine;
      SetBatchLine(b);
    }

    lemma SteadyLine(s: Session)
      requires Steady(s)
      ensures s.batch.line >= 1
    {
    }

    method RunCommand(command: Command, ghost depth: nat) returns (fault: Fault)
      requires Valid() && Opens(env, depth, false, Session(), command)
      modifies this, batch.Repr()
      ensures Valid() && (batch.buffer == old(batch.buffer) || batch.buffer == null || fresh(batch.buffer))
      ensures batch.input == old(batch.input)
      ensures (Session(), fault) == Perform(env, depth, old(Session()), command)
      decreases depth, 1
    {
      hide Walk, Within, RunGo, Sound, Records;
      match command {
        case Go(count) => fault := GoCommand(count);
        case ResetBatch =>
          batch.Reset(None);
          StartIsSteady();
          fault := Fine;
        case ReadFile(path) =>
          var arg := ResolveArgumentVariables(path, !env.rd.vars, env.resolve, false);
          fault := IncludeFile(if arg.Resolved? then arg.text else "", false, depth);
      }
    }

    /** The end of the input, after lastError. */
    method RunRest(lastError: Fault, processAll: bool) returns (fault: Fault)
      requires Valid()
      modifies this, batch.Repr()
      ensures Valid() && (batch.buffer == old(batch.buffer) || batch.buffer == null)
      ensures batch.input == old(batch.input)
      ensures (Session(), fault) == AtEof(env, Walked(old(Session()), lastError, false), processAll)
    {
      hide Sound, Records, RunGo;
      if batch.Length == 0 {
        return lastError;
      }
      if !processAll {
        return Fine;
      }
      var ignored := GoCommand(Some(1));
      return Fine;
    }

    /** What the run w becomes of what Next found first, with rest still to come. */
    ghost predicate Ahead(depth: nat, w: Walked, command: Option<Command>, failure: Failure, last: Fault, rest: seq<string>)
      reads this, batch, batch.buffer
      requires Valid()
    {
      if command.Some? then
        var (s, fault) := Perform(env, depth, Session(), command.value);
        && failure == NoFailure
        && Opens(env, depth, false, Session(), command.value)
        && (fault == Exit || (fault == Error && env.Stops()) || Within(env, depth, false, s, rest))
        && w == Continue(env, depth, s, fault, rest)
      else if failure != NoFailure && env.Stops() then w == Walked(Failing(Session()), Error, true)
      else Within(env, depth, false, Session(), rest) && w == Walk(env, depth, Session(), rest, last)
    }

    lemma AfterNext(depth: nat, s: Session, lines: seq<string>, last: Fault, command: Option<Command>, failure: Failure)
      requires env.Valid() && Steady(s) && (s.tail != "" || lines != []) && Within(env, depth, false, s, lines)
      requires batch.Valid() && batch.Reader() == env.rd && log == s.log && exitcode == s.code
      requires batch.Took(env.rd, s.batch, NextChunk(s, lines), command, failure)
      ensures Valid() && failure != Eof
      ensures if command.Some? then s.tail == "" else batch.rawlen == 0
      ensures Ahead(depth, Walk(env, depth, s, lines, last), command, failure, last, Remaining(s, lines))
    {
      hide Walk, Within, Opens, Continue, Scan, Perform, Sound, Records, AfterText;
      WalkStep(env, depth, s, lines, last);
      WithinStep(env, depth, false, s, lines);
    }

    /** Performs the command that Next found, if any, and decides whether the run goes on. */
    method Act(command: Option<Command>, failure: Failure, last: Fault, ghost depth: nat, ghost w: Walked)
      returns (lastError: Fault, stop: bool)
      requires Valid() && Ahead(depth, w, command, failure, last, batch.input)
      modifies this, batch.Repr()
      ensures Valid() && (batch.buffer == old(batch.buffer) || batch.buffer == null || fresh(batch.buffer))
      ensures batch.input == old(batch.input)
      ensures if stop then w == Walked(Session(), lastError, true)
              else
                && w == Walk(env, depth, Session(), batch.input, lastError)
                && Within(env, depth, false, Session(), batch.input)
      ensures command.None? ==> batch.rawlen == old(batch.rawlen)
      decreases depth, 2
    {
      hide Walk, Within, Opens, RunGo, Perform, Sound, Records, ValidEol, ValidMode;
      var err := if failure == NoFailure then Fine else Error;
      lastError := last;
      if command.Some? {
        lastError := Fine;
        err := RunCommand(command.value, depth);
        if err == Exit {
          return lastError, true;
        }
        if err != Fine {
          lastError := err;
        }
      }
      if err != Fine && env.Stops() {
        if exitcode == 0 {
          exitcode := 1;
        }
        return err, true;
      }
      return lastError, false;
    }

    /**
     Processes the input; with processAll the rest of the batch runs at its end. The caller must know
     only that includes do not go on inside each other for ever.
     */
    method Run(processAll: bool, ghost depth: nat) returns (fault: Fault)
      requires Valid() && Within(env, depth, false, Session(), batch.input)
      modifies this, batch.Repr()
      ensures Valid() && (batch.buffer == old(batch.buffer) || batch.buffer == null || fresh(batch.buffer))
      ensures (Session(), fault) == RunScript(env, depth, old(Session()), old(batch.input), processAll)
      decreases depth, 3
    {
      hide Walk, Within, Ahead, batch.Took, Sound, Records, ValidEol, ValidMode, AtEof;
      var lastError, stop := Fine, false;
      ghost var w := Walk(env, depth, Session(), batch.input, Fine);
      while true
        invariant Valid() && (batch.buffer == old(batch.buffer) || batch.buffer == null || fresh(batch.buffer))
        invariant Within(env, depth, false, Session(), batch.input)
        invariant w == Walk(env, depth, Session(), batch.input, lastError)
        decreases |batch.input|, batch.rawlen
      {
        ghost var s, lines := Session(), batch.input;
        var command, failure := batch.Next();
        if s.tail == "" && lines == [] {
          WalkOfNothing(env, depth, s, lastError);
        } else {
          AfterNext(depth, s, lines, lastError, command, failure);
        }
        if failure == Eof {
          fault := RunRest(lastError, processAll);
          return;
        }
        lastError, stop := Act(command, failure, lastError, depth, w);
        if stop {
          StoppedAtEof(env, Session(), lastError, processAll);
          return lastError;
        }
      }
    }
  }
}
