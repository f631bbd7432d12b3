/**
 How deep includes go. A run that stays within a depth is the same at every greater depth, and when no
 file includes itself, directly or not, every run stays within some depth.
 */
module Nesting {
  import opened Runes
  import opened Lexing
  import opened BatchState
  import opened Expansion
  import opened Script

  lemma {:induction false} DeeperIsSame(env: Env, depth: nat, deeper: nat, tidy: bool, s: Session, lines: seq<string>,
                                        last: Fault)
    requires env.Valid() && Steady(s) && depth <= deeper
    requires Within(env, depth, tidy, s, lines)
    ensures Within(env, deeper, tidy, s, lines)
    ensures Walk(env, deeper, s, lines, last) == Walk(env, depth, s, lines, last)
    decreases depth, |lines|, if s.tail == "" then 0 else 1, 0
  {
    hide Walk, Within, Opens, Perform, Scan, AfterText, Steady;
    WalkStep(env, depth, s, lines, last);
    WalkStep(env, deeper, s, lines, last);
    WithinStep(env, depth, tidy, s, lines);
    WithinStep(env, deeper, tidy, s, lines);
    if s.tail != "" || lines != [] {
      var r := NextChunk(s, lines);
      match ScanLine(env.rd, s.batch, r) {
        case Bad =>
          if !env.Stops() {
            DeeperIsSame(env, depth, deeper, tidy, Cleared(s), Remaining(s, lines), last);
          }
        case Text(mode, refs) =>
          var s1 := s.(batch := AfterText(s.batch, r, mode, refs, env.rd.eol), tail := "");
          DeeperIsSame(env, depth, deeper, tidy, s1, Remaining(s, lines), last);
        case Found(command, _, end) =>
          var s0 := s.(tail := r[end..]);
          PerformDeeper(env, depth, deeper, tidy, s0, command);
          var (s1, fault) := Perform(env, depth, s0, command);
          if fault == Fine || (fault == Error && !env.Stops()) {
            DeeperIsSame(env, depth, deeper, tidy, s1, lines[1..], fault);
          }
      }
    }
  }

  lemma {:induction false} PerformDeeper(env: Env, depth: nat, deeper: nat, tidy: bool, s: Session, command: Command)
    requires env.Valid() && Steady(s) && depth <= deeper
    requires Opens(env, depth, tidy, s, command)
    ensures Opens(env, deeper, tidy, s, command)
    ensures Perform(env, deeper, s, command) == Perform(env, depth, s, command)
    decreases depth, 0, 0, 0
  {
    hide Walk, Within, RunGo, Steady;
    if IsInclude(env, command) {
      DeeperIsSame(env, depth - 1, deeper - 1, tidy, s, env.files[FileName(env, command.path)], Fine);
    }
  }

  // ---------- Acyclic includes ----------

  /** The part of a line that may be a command. */
  function Head(r: string): string {
    r[..CommandEnd(r, 0)]
  }

  /** Includes in the lines go to files of lower rank than level. */
  ghost predicate Below(env: Env, rank: string -> nat, lines: seq<string>, level: nat) {
    forall k, path | 0 <= k < |lines| && env.rd.commands(Head(lines[k])) == Some(ReadFile(path)) ::
      FileName(env, path) in env.files ==> rank(FileName(env, path)) < level
  }

  /** No file includes itself, directly or not: rank goes down along every include. */
  ghost predicate Acyclic(env: Env, rank: string -> nat) {
    forall f | f in env.files :: Below(env, rank, env.files[f], rank(f))
  }

  lemma BelowRest(env: Env, rank: string -> nat, lines: seq<string>, level: nat)
    requires Below(env, rank, lines, level) && lines != []
    ensures Below(env, rank, lines[1..], level)
    ensures forall path | env.rd.commands(Head(lines[0])) == Some(ReadFile(path)) ::
              FileName(env, path) in env.files ==> rank(FileName(env, path)) < level
  {
  }

  lemma FileIsBelow(env: Env, rank: string -> nat, f: string, level: nat)
    requires Acyclic(env, rank) && f in env.files && rank(f) <= level
    ensures Below(env, rank, env.files[f], level)
  {
  }

  /** When includes are acyclic, every run stays within the rank of its files. */
  lemma {:induction false} AcyclicIsWithin(env: Env, rank: string -> nat, level: nat, s: Session, lines: seq<string>)
    requires env.Valid() && Steady(s) && Acyclic(env, rank) && Below(env, rank, lines, level)
    ensures Within(env, level, false, s, lines)
    decreases level, |lines|, if s.tail == "" then 0 else 1, 0
  {
    hide Walk, Within, Perform, Scan, AfterText, Steady, Acyclic, Below, CommandEnd;
    WalkStep(env, level, s, lines, Fine);
    WithinStep(env, level, false, s, lines);
    if s.tail != "" || lines != [] {
      var r := NextChunk(s, lines);
      if s.tail == "" {
        BelowRest(env, rank, lines, level);
      }
      match ScanLine(env.rd, s.batch, r) {
        case Bad =>
          AcyclicIsWithin(env, rank, level, Cleared(s), Remaining(s, lines));
        case Text(mode, refs) =>
          var s1 := s.(batch := AfterText(s.batch, r, mode, refs, env.rd.eol), tail := "");
          AcyclicIsWithin(env, rank, level, s1, Remaining(s, lines));
        case Found(command, _, end) =>
          var s0 := s.(tail := r[end..]);
          FoundIsHead(env.rd, s.batch, r);
          if IsInclude(env, command) {
            var f := FileName(env, command.path);
            FileIsBelow(env, rank, f, level - 1);
            AcyclicIsWithin(env, rank, level - 1, s0, env.files[f]);
          }
          AcyclicIsWithin(env, rank, level, Perform(env, level, s0, command).0, lines[1..]);
      }
    }
  }
}
