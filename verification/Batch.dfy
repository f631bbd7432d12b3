/**
 The batch reader: a mutable object that lexes one chunk of input at a time, carries open quotes
 and comments across chunks, grows its buffer in place and records where references stand.
 */
module Batches {
  import opened Runes
  import opened Lexing
  import opened BatchState

  const MIN_CAP_INCREASE := 512

  datatype Failure = NoFailure | Eof | SyntaxError(line: nat)

  /** The map holds exactly the given references. */
  ghost predicate Records(m: map<int, string>, refs: Refs) {
    && (forall k | 0 <= k < |refs| :: refs[k].at in m && m[refs[k].at] == refs[k].name)
    && (forall at | at in m :: exists k :: 0 <= k < |refs| && refs[k].at == at)
  }

  /** Records of the current line, all of them read before position i. */
  ghost predicate LineRecords(m: map<int, string>, refs: Refs, i: nat) {
    Records(m, refs) && forall k | 0 <= k < |refs| :: refs[k].at < i
  }

  lemma LineRecordsLater(m: map<int, string>, refs: Refs, i: nat, j: nat)
    requires LineRecords(m, refs, i) && i <= j
    ensures LineRecords(m, refs, j)
  {
  }

  lemma LineRecordsAre(m: map<int, string>, refs: Refs, i: nat)
    requires LineRecords(m, refs, i)
    ensures Records(m, refs)
  {
  }

  lemma NoRecords()
    ensures Records(map[], []) && LineRecords(map[], [], 0)
  {
  }

  lemma RecordsSnoc(m: map<int, string>, refs: Refs, at: nat, name: string)
    requires Records(m, refs) && forall k | 0 <= k < |refs| :: refs[k].at < at
    ensures Records(m[at := name], refs + [Ref(at, name)])
  {
    var m', more := m[at := name], refs + [Ref(at, name)];
    forall x | x in m' ensures exists k :: 0 <= k < |more| && more[k].at == x {
      if x == at {
        assert more[|refs|].at == x;
      } else {
        var k :| 0 <= k < |refs| && refs[k].at == x;
        assert more[k].at == x;
      }
    }
  }

  function Moved(at: int, d: nat): int {
    at + d
  }

  /** r is m together with the entries of line moved by d, except those still to do. */
  ghost predicate Merged(r: map<int, string>, m: map<int, string>, line: map<int, string>, d: nat, todo: set<int>) {
    && (forall at | at in line && at !in todo :: Moved(at, d) in r && r[Moved(at, d)] == line[at])
    && (forall at | at in m :: at in r && r[at] == m[at])
    && (forall x | x in r :: x in m || exists at :: at in line && at !in todo && Moved(at, d) == x)
  }

  lemma MergeOne(r: map<int, string>, m: map<int, string>, line: map<int, string>, d: nat, todo: set<int>, at: int)
    requires Merged(r, m, line, d, todo) && at in todo && at in line && at >= 0
    requires forall x | x in m :: x < d
    ensures Merged(r[Moved(at, d) := line[at]], m, line, d, todo - {at})
  {
    var r' := r[Moved(at, d) := line[at]];
    forall x | x in r' ensures x in m || exists y :: y in line && y !in todo - {at} && Moved(y, d) == x {
      if x != Moved(at, d) && x !in m {
        var y :| y in line && y !in todo && Moved(y, d) == x;
      }
    }
  }

  /** Adds the entries of a line that starts at offset d. */
  method MergeLine(m: map<int, string>, line: map<int, string>, d: nat) returns (r: map<int, string>)
    requires forall x | x in m :: x < d
    requires forall at | at in line :: at >= 0
    ensures Merged(r, m, line, d, {})
  {
    r := m;
    var todo := line.Keys;
    while todo != {}
      invariant todo <= line.Keys
      invariant Merged(r, m, line, d, todo)
      decreases |todo|
    {
      hide Merged;
      var at := Pick(todo);
      MergeOne(r, m, line, d, todo, at);
      r := r[Moved(at, d) := line[at]];
      todo := todo - {at};
    }
  }

  lemma RecordsBounded(m: map<int, string>, refs: Refs, hi: nat)
    requires Records(m, refs) && SpansFit(refs, hi)
    ensures forall x | x in m :: 0 <= x < hi
  {
    forall x | x in m ensures 0 <= x < hi {
      var k :| 0 <= k < |refs| && refs[k].at == x;
    }
  }

  lemma RecordsNonNegative(m: map<int, string>, refs: Refs)
    requires Records(m, refs)
    ensures forall x | x in m :: 0 <= x
  {
    forall x | x in m ensures 0 <= x {
      var k :| 0 <= k < |refs| && refs[k].at == x;
    }
  }

  lemma RecordsAt(m: map<int, string>, refs: Refs, k: nat)
    requires Records(m, refs) && k < |refs|
    ensures refs[k].at in m && m[refs[k].at] == refs[k].name
  {
  }

  lemma RecordsFind(m: map<int, string>, refs: Refs, at: int) returns (k: nat)
    requires Records(m, refs) && at in m
    ensures k < |refs| && refs[k].at == at
  {
    k :| 0 <= k < |refs| && refs[k].at == at;
  }

  lemma RecordsMade(m: map<int, string>, refs: Refs)
    requires forall k | 0 <= k < |refs| :: refs[k].at in m && m[refs[k].at] == refs[k].name
    requires forall at | at in m :: exists k :: 0 <= k < |refs| && refs[k].at == at
    ensures Records(m, refs)
  {
  }

  /** Where an entry of a merged map comes from, and where the entries of the two maps are in it. */
  lemma MergedEntry(r: map<int, string>, m: map<int, string>, line: map<int, string>, d: nat, x: int)
    requires Merged(r, m, line, d, {})
    ensures x in m ==> x in r && r[x] == m[x]
    ensures x in line ==> Moved(x, d) in r && r[Moved(x, d)] == line[x]
    ensures x in r && x !in m ==> x - d in line
  {
  }

  lemma MergedRecords(r: map<int, string>, m: map<int, string>, line: map<int, string>, d: nat, refs: Refs, lineRefs: Refs)
    requires Records(m, refs) && Records(line, lineRefs) && Merged(r, m, line, d, {})
    ensures Records(r, refs + Shift(lineRefs, d))
  {
    hide Records, Merged;
    var all := refs + Shift(lineRefs, d);
    forall k | 0 <= k < |all| ensures all[k].at in r && r[all[k].at] == all[k].name {
      if k < |refs| {
        RecordsAt(m, refs, k);
        MergedEntry(r, m, line, d, refs[k].at);
      } else {
        RecordsAt(line, lineRefs, k - |refs|);
        MergedEntry(r, m, line, d, lineRefs[k - |refs|].at);
      }
    }
    forall x | x in r ensures exists k :: 0 <= k < |all| && all[k].at == x {
      MergedEntry(r, m, line, d, x);
      if x in m {
        var k := RecordsFind(m, refs, x);
        assert all[k].at == x;
      } else {
        var k := RecordsFind(line, lineRefs, x - d);
        assert all[|refs| + k].at == x;
      }
    }
    RecordsMade(r, all);
  }

  method ReadVariableReference(r: string, start: nat) returns (end: Option<nat>)
    ensures end == RefEnd(r, start)
  {
    var i := start;
    while i < |r|
      invariant start <= i
      invariant RefEnd(r, start) == RefEnd(r, i)
    {
      if r[i] == ')' {
        return Some(i);
      }
      if !NameRune(r[i]) {
        return None;
      }
      i := i + 1;
    }
    return None;
  }

  /** Finds the end of a multi-line comment that is open at start. */
  method ReadMultilineComment<C>(r: string, start: nat, ghost refs: Refs, ghost vars: bool,
                                 ghost match_: string -> Option<C>)
    returns (i: nat, ok: bool)
    requires start < |r|
    ensures if ok then start < i < |r| && r[i - 1] == '*' && r[i] == '/' else i == |r|
    ensures Scan(r, start, Comment, true, refs, vars, match_) ==
            if ok then Scan(r, i + 1, Code, true, refs, vars, match_) else Text(Comment, refs)
  {
    i := start + 1;
    while i < |r|
      invariant start < i <= |r|
      invariant Scan(r, start, Comment, true, refs, vars, match_) == Scan(r, i - 1, Comment, true, refs, vars, match_)
    {
      if r[i - 1] == '*' && r[i] == '/' {
        return i, true;
      }
      i := i + 1;
    }
    return |r|, false;
  }

  /** Reads to the end of the text a command may take up, and matches it. */
  method ReadCommand(commands: string -> Option<Command>, r: string, start: nat)
    returns (command: Option<Command>, i: nat)
    requires start <= |r|
    ensures i == CommandEnd(r, start) && command == commands(r[..i])
  {
    i := start;
    while i < |r| && !EndsCommand(r[i])
      invariant start <= i <= |r|
      invariant CommandEnd(r, start) == CommandEnd(r, i)
    {
      i := i + 1;
    }
    command := commands(r[..i]);
  }

  /** s with src written over it from position at on. */
  function Put(s: string, at: nat, src: string): (r: string)
    requires at + |src| <= |s|
    ensures |r| == |s|
  {
    s[..at] + src + s[at + |src|..]
  }

  lemma PutTwice(s: string, was: string, sep: string, r: string)
    requires was <= s && |was| + |sep| + |r| <= |s|
    ensures Put(Put(s, |was|, sep), |was| + |sep|, r)[..|was| + |sep| + |r|] == was + sep + r
  {
    var once := Put(s, |was|, sep);
    assert once[..|was| + |sep|] == was + sep;
    assert Put(once, |was| + |sep|, r)[..|was| + |sep| + |r|] == was + sep + r;
  }

  /** The characters at i and after it, as the loops look at them. */
  lemma NextRune(r: string, i: nat, a: char, b: char)
    requires i < |r| && b != '\0'
    ensures Pair(r, i, a, b) == (r[i] == a && b == if i + 1 < |r| then r[i + 1] else '\0')
  {
  }

  class Batch {
    const eol: string
    var input: seq<string>          // what the reader has still to provide
    var buffer: array?<char>        // null until the first line
    var Length: nat
    var raw: string
    var rawlen: nat
    var quote: char                 // '\0' outside quoted strings
    var comment: bool
    var batchline: nat
    var linecount: nat
    var varmap: map<int, string>
    var linevarmap: map<int, string>
    var commands: string -> Option<Command>
    var parseVariables: bool
    ghost var recorded: Refs        // the entries of varmap in text order
    ghost var lineRecorded: Refs

    ghost function Repr(): set<object>
      reads this
    {
      {this} + if buffer == null then {} else {buffer}
    }

    ghost function Reader(): Reader
      reads this
    {
      BatchState.Reader(eol, parseVariables, commands)
    }

    ghost function Text(): Option<string>
      reads this, buffer
      requires buffer != null ==> Length <= buffer.Length
    {
      if buffer == null then None else Some(buffer[..Length])
    }

    ghost function Mode(): Mode
      reads this
    {
      if quote != '\0' then Quoted(quote) else if comment then Comment else Code
    }

    ghost function State(): State
      reads this, buffer
      requires buffer != null ==> Length <= buffer.Length
    {
      BatchState.State(Text(), Mode(), batchline, recorded)
    }

    ghost predicate Valid()
      reads this, buffer
    {
      && ValidEol(eol)
      && (buffer != null ==> Length <= buffer.Length)
      && (buffer == null ==> Length == 0)
      && (rawlen == 0 || rawlen == |raw|)
      && !(quote != '\0' && comment)
      && ValidMode(Mode())
      && Records(varmap, recorded)
      && Sound(State())
    }

    constructor (eol: string, commands: string -> Option<Command>, parseVariables: bool, input: seq<string>)
      requires ValidEol(eol)
      ensures Valid() && State() == FRESH && rawlen == 0 && fresh(Repr())
      ensures this.eol == eol && this.commands == commands && this.parseVariables == parseVariables
      ensures this.input == input
    {
      this.eol, this.commands, this.parseVariables, this.input := eol, commands, parseVariables, input;
      raw, rawlen, linecount, linevarmap, lineRecorded := "", 0, 0, map[], [];
      buffer, Length, quote, comment, batchline, varmap, recorded := null, 0, '\0', false, 1, map[], [];
    }

    /** Clears the batch; r, when present, becomes the unprocessed input. */
    method Reset(r: Option<string>)
      requires ValidEol(eol)
      modifies this
      ensures Valid() && State() == FRESH && buffer == null
      ensures rawlen == match r { case None => 0 case Some(s) => |s| }
      ensures r.Some? ==> raw == r.value
      ensures input == old(input) && linecount == old(linecount)
      ensures commands == old(commands) && parseVariables == old(parseVariables)
    {
      hide Sound, Records, SpansMatch, ValidEol;
      FreshIsAligned();
      NoRecords();
      buffer, Length := null, 0;
      quote, comment, batchline := '\0', false, 1;
      if r.Some? {
        raw, rawlen := r.value, |r.value|;
      } else {
        rawlen := 0;
      }
      varmap, recorded := map[], [];
    }

    method AddVariableLocation(i: nat, name: string)
      requires LineRecords(linevarmap, lineRecorded, i)
      modifies this`linevarmap, this`lineRecorded
      ensures LineRecords(linevarmap, lineRecorded, i + 1)
      ensures lineRecorded == old(lineRecorded) + [Ref(i, name)]
    {
      RecordsSnoc(linevarmap, lineRecorded, i, name);
      linevarmap := linevarmap[i := name];
      lineRecorded := lineRecorded + [Ref(i, name)];
    }

    /**
     Seeks the end of a quoted string that is open at start. The result is the position of the
     closing quote, or the end of the chunk, or an error for a malformed reference.
     */
    method ReadString(r: string, start: nat, q: char) returns (i: nat, ok: bool, err: bool)
      requires start < |r| && IsOpener(q)
      requires LineRecords(linevarmap, lineRecorded, start)
      modifies this`linevarmap, this`lineRecorded
      ensures !err ==> start <= i <= |r| && LineRecords(linevarmap, lineRecorded, i)
      ensures !err && !ok ==> i == |r|
      ensures !err && ok ==> i < |r|
      ensures Scan(r, start, Quoted(q), true, old(lineRecorded), parseVariables, commands) ==
              if err then Bad
              else if ok then Scan(r, i + 1, Code, true, lineRecorded, parseVariables, commands)
              else Scanned.Text(Quoted(q), lineRecorded)
    {
      hide Scan, LineRecords, RefEnd;
      i := start;
      var prev := '\0';
      while i < |r|
        invariant start <= i <= |r|
        invariant q == '\'' ==> prev != '\''
        invariant LineRecords(linevarmap, lineRecorded, i)
        invariant Scan(r, start, Quoted(q), true, old(lineRecorded), parseVariables, commands) ==
                  Scan(r, i, Quoted(q), true, lineRecorded, parseVariables, commands)
      {
        ScanStep(r, i, Quoted(q), true, lineRecorded, parseVariables, commands);
        var c := r[i];
        var next := if i + 1 < |r| then r[i + 1] else '\0';
        if parseVariables && c == '$' && next == '(' {
          var vl := ReadVariableReference(r, i + 2);
          if vl.None? {
            return i, false, true;
          }
          AddVariableLocation(i, r[i + 2..vl.value]);
          LineRecordsLater(linevarmap, lineRecorded, i + 1, vl.value + 1);
          i := vl.value;
        } else if (q == '\'' && c == '\'' && next == '\'') || (q == '[' && c == ']' && next == ']') {
          LineRecordsLater(linevarmap, lineRecorded, i, i + 2);
          i := i + 2;
          continue;
        } else if (q == '\'' && c == '\'' && prev != '\'') || (q == '"' && c == '"') || (q == '[' && c == ']') {
          return i, true, false;
        } else {
          LineRecordsLater(linevarmap, lineRecorded, i, i + 1);
        }
        prev := c;
        i := i + 1;
      }
      ScanEnd(r, Quoted(q), true, lineRecorded, parseVariables, commands);
      return |r|, false, false;
    }

    /** Appends r, separated by sep unless the buffer is nil, growing the buffer when it must. */
    method Append(r: string, sep: string)
      requires buffer != null ==> Length <= buffer.Length
      requires buffer == null ==> Length == 0
      modifies this`buffer, this`Length, buffer
      ensures buffer != null && Length <= buffer.Length
      ensures Text() == Some(BatchState.Append(old(Text()), r, sep))
      ensures buffer == old(buffer) || fresh(buffer)
    {
      var rlen := |r|;
      if buffer == null {
        var capacity :| capacity >= rlen;
        buffer := new char[capacity];
        Length := rlen;
        Copy(buffer, 0, r);
        assert buffer[..Length] == buffer[..][..rlen] == r;
        return;
      }
      var blen, seplen := Length, |sep|;
      var tlen := blen + rlen + seplen;
      ghost var was := buffer[..blen];
      if tlen > buffer.Length {
        var n := tlen + 2 * rlen;
        n := n + MIN_CAP_INCREASE - n % MIN_CAP_INCREASE;
        var z := new char[n];
        Copy(z, 0, buffer[..blen]);
        buffer := z;
      }
      ghost var all := buffer[..];
      assert all[..blen] == was;
      Length := tlen;
      Copy(buffer, blen, sep);
      Copy(buffer, blen + seplen, r);
      PutTwice(all, was, sep, r);
      assert buffer[..tlen] == buffer[..][..tlen];
    }

    static method Copy(dst: array<char>, at: nat, src: string)
      requires at + |src| <= dst.Length
      modifies dst
      ensures dst[..] == Put(old(dst[..]), at, src)
    {
      forall k | 0 <= k < |src| {
        dst[at + k] := src[k];
      }
    }

    /** The chunk the next call of Next reads. */
    ghost function Chunk(): string
      reads this
      requires rawlen != 0 || input != []
    {
      if rawlen == 0 then input[0] else raw
    }

    /** A `$(` outside quotes and comments. */
    method ParseReference(i: nat, ghost scanned: bool) returns (to: nat, err: bool)
      requires Pair(raw, i, '$', '(') && parseVariables
      requires LineRecords(linevarmap, lineRecorded, i)
      modifies this`linevarmap, this`lineRecorded
      ensures !err ==> i < to <= |raw| && LineRecords(linevarmap, lineRecorded, to)
      ensures Scan(raw, i, Code, scanned, old(lineRecorded), parseVariables, commands) ==
              if err then Bad else Scan(raw, to, Code, scanned, lineRecorded, parseVariables, commands)
    {
      hide Scan, LineRecords, RefEnd;
      ScanReference(raw, i, Code, scanned, lineRecorded, commands);
      var vi := ReadVariableReference(raw, i + 2);
      if vi.None? {
        return i, true;
      }
      AddVariableLocation(i, raw[i + 2..vi.value]);
      LineRecordsLater(linevarmap, lineRecorded, i + 1, vi.value + 1);
      return vi.value + 1, false;
    }

    /** An ordinary character: the first one in a chunk may start a command. */
    method ParseOrdinary(i: nat, scanned: bool) returns (scannedCommand: bool, command: Option<Command>, rest: nat)
      requires i < |raw| && Ordinary(raw, i, parseVariables)
      ensures scannedCommand
      ensures Scan(raw, i, Code, scanned, lineRecorded, parseVariables, commands) ==
              if command.Some? then Found(command.value, i, rest)
              else Scan(raw, i + 1, Code, true, lineRecorded, parseVariables, commands)
    {
      hide Scan, CommandEnd, Ordinary;
      ScanOrdinary(raw, i, scanned, lineRecorded, parseVariables, commands);
      scannedCommand, command, rest := scanned, None, 0;
      if !scannedCommand {
        scannedCommand := true;
        command, rest := ReadCommand(commands, raw, i);
      }
    }

    /** One character outside quotes and comments; `to` is where the loop goes on. */
    method ParseCode(i: nat, scanned: bool)
      returns (to: nat, scannedCommand: bool, command: Option<Command>, rest: nat, err: bool)
      requires i < |raw| && quote == '\0' && !comment
      requires LineRecords(linevarmap, lineRecorded, i)
      modifies this`quote, this`comment, this`linevarmap, this`lineRecorded
      ensures !(quote != '\0' && comment) && ValidMode(Mode())
      ensures !err ==> i <= to <= |raw| + 1 && LineRecords(linevarmap, lineRecorded, to)
      ensures var s := Scan(raw, i, Code, scanned, old(lineRecorded), parseVariables, commands);
              if err then s == Bad && command == None
              else if command.Some? then s == Found(command.value, to, rest) && Mode() == Code
              else to > i && s == Scan(raw, Upto(to, raw), Mode(), scannedCommand, lineRecorded, parseVariables, commands)
    {
      hide Scan, LineRecords, CommandEnd, Pair;
      NextRune(raw, i, '-', '-');
      NextRune(raw, i, '/', '*');
      NextRune(raw, i, '$', '(');
      to, scannedCommand, command, rest, err := i, scanned, None, 0, false;
      var c := raw[i];
      var next := if i + 1 < |raw| then raw[i + 1] else '\0';
      if c == '\'' || c == '"' || c == '[' {
        ScanOpener(raw, i, scanned, lineRecorded, parseVariables, commands);
        quote := c;
      } else if c == '-' && next == '-' {
        ScanDashes(raw, i, scanned, lineRecorded, parseVariables, commands);
        ScanEnd(raw, Code, scanned, lineRecorded, parseVariables, commands);
        to := |raw|;
      } else if c == '/' && next == '*' {
        ScanCommentStart(raw, i, scanned, lineRecorded, parseVariables, commands);
        comment := true;
        to := to + 1;
      } else if parseVariables && c == '$' && next == '(' {
        to, err := ParseReference(i, scanned);
        return;
      } else {
        scannedCommand, command, rest := ParseOrdinary(i, scanned);
        if command.Some? {
          return;
        }
      }
      to := to + 1;
      LineRecordsLater(linevarmap, lineRecorded, i, to);
    }

    /** One character or more inside an open quote or comment. */
    method ParseOpen(i: nat, ghost scanned: bool) returns (to: nat, err: bool)
      requires i < |raw| && Mode() != Code && !(quote != '\0' && comment) && ValidMode(Mode())
      requires LineRecords(linevarmap, lineRecorded, i)
      modifies this`quote, this`comment, this`linevarmap, this`lineRecorded
      ensures !(quote != '\0' && comment) && ValidMode(Mode())
      ensures !err ==> i < to <= |raw| + 1 && LineRecords(linevarmap, lineRecorded, to)
      ensures var s := Scan(raw, i, old(Mode()), scanned, old(lineRecorded), parseVariables, commands);
              if err then s == Bad
              else s == Scan(raw, Upto(to, raw), Mode(), true, lineRecorded, parseVariables, commands)
    {
      hide Scan, LineRecords, RefEnd, Advance;
      ScanInside(raw, i, Mode(), scanned, lineRecorded, parseVariables, commands);
      var ok;
      err := false;
      if quote != '\0' {
        to, ok, err := ReadString(raw, i, quote);
        if err {
          return;
        }
        if ok {
          quote := '\0';
        }
        LineRecordsLater(linevarmap, lineRecorded, to, to + 1);
      } else {
        to, ok := ReadMultilineComment(raw, i, lineRecorded, parseVariables, commands);
        comment := !ok;
        LineRecordsLater(linevarmap, lineRecorded, i, to + 1);
      }
      to := to + 1;
      ScanEnd(raw, Mode(), true, lineRecorded, parseVariables, commands);
    }

    /** The loop of Next: reads the chunk in raw up to its end, an error or a command. */
    method Parse() returns (i: nat, command: Option<Command>, rest: nat, err: bool)
      requires rawlen == |raw| && !(quote != '\0' && comment) && ValidMode(Mode())
      requires LineRecords(linevarmap, lineRecorded, 0) && lineRecorded == []
      modifies this`quote, this`comment, this`linevarmap, this`lineRecorded
      ensures !(quote != '\0' && comment) && ValidMode(Mode())
      ensures !err ==> LineRecords(linevarmap, lineRecorded, i)
      ensures var s := Scan(raw, 0, old(Mode()), false, [], parseVariables, commands);
              if err then s == Bad && command == None
              else if command.Some? then s == Found(command.value, i, rest) && Mode() == old(Mode())
              else i >= |raw| && s == Scanned.Text(Mode(), lineRecorded)
    {
      hide Scan, LineRecords;
      ghost var whole := Scan(raw, 0, Mode(), false, [], parseVariables, commands);
      i := 0;
      rest, command, err := 0, None, false;
      var scannedCommand := false;
      while i < rawlen
        invariant i <= |raw| + 1 && command == None && !err
        invariant !(quote != '\0' && comment) && ValidMode(Mode())
        invariant LineRecords(linevarmap, lineRecorded, i)
        invariant whole == Scan(raw, Upto(i, raw), Mode(), scannedCommand, lineRecorded, parseVariables, commands)
      {
        if quote != '\0' || comment {
          i, err := ParseOpen(i, scannedCommand);
          scannedCommand := true;
        } else {
          i, scannedCommand, command, rest, err := ParseCode(i, scannedCommand);
        }
        if err || command.Some? {
          return;
        }
      }
      ScanEnd(raw, Mode(), scannedCommand, lineRecorded, parseVariables, commands);
    }

    /** Puts a finished line of text into the batch. */
    method AddText(r: string)
      requires buffer != null ==> Length <= buffer.Length
      requires buffer == null ==> Length == 0
      requires batchline >= 1 && (Length != 0 ==> batchline > 1)
      requires Records(varmap, recorded) && SpansFit(recorded, Length)
      requires Records(linevarmap, lineRecorded)
      modifies this`varmap, this`recorded, this`buffer, this`Length, this`batchline, buffer
      ensures buffer != null && Length <= buffer.Length && (buffer == old(buffer) || fresh(buffer))
      ensures Records(varmap, recorded)
      ensures State() == AfterText(old(State()), r, Mode(), lineRecorded, eol)
    {
      hide SpansFit, Merged, Records, Shift;
      var inc := if batchline > 1 then |eol| else 0;
      ghost var m, refs := varmap, recorded;
      RecordsBounded(varmap, recorded, Length);
      RecordsNonNegative(linevarmap, lineRecorded);
      varmap := MergeLine(varmap, linevarmap, Length + inc);
      MergedRecords(varmap, m, linevarmap, Length + inc, recorded, lineRecorded);
      recorded := recorded + Shift(lineRecorded, Length + inc);
      Append(r, eol);
      batchline := batchline + 1;
    }

    /** Moves the whole chunk, up to i, into the batch. */
    method FinishLine(i: nat, ghost st: BatchState.State)
      requires buffer != null ==> Length <= buffer.Length
      requires buffer == null ==> Length == 0
      requires ValidEol(eol) && !(quote != '\0' && comment) && ValidMode(Mode())
      requires Records(varmap, recorded) && Records(linevarmap, lineRecorded)
      requires Sound(st) && State() == st.(mode := Mode())
      requires Sound(AfterText(st, raw, Mode(), lineRecorded, eol))
      requires i == |raw|
      modifies this`varmap, this`recorded, this`buffer, this`Length, this`batchline, this`raw, this`rawlen, buffer
      ensures Valid() && rawlen == 0 && (buffer == old(buffer) || fresh(buffer))
      ensures State() == AfterText(st, old(raw), Mode(), lineRecorded, eol)
    {
      hide SpansFit, AfterText, Records;
      SameAfterText(st, State(), raw, Mode(), lineRecorded, eol);
      assert raw[..i] == raw;
      AddText(raw[..i]);
      raw := raw[i..];
      rawlen := |raw|;
    }

    /** What Next leaves behind after reading chunk r in state st. */
    ghost predicate Took(rd: BatchState.Reader, st: BatchState.State, r: string, command: Option<Command>, failure: Failure)
      reads this, buffer
      requires buffer != null ==> Length <= buffer.Length
    {
      && State() == AfterChunk(rd, st, r)
      && match ScanLine(rd, st, r)
         case Bad =>
           command == None && failure == SyntaxError(linecount) && rawlen == 0
         case Found(c, _, rest) =>
           command == Some(c) && failure == NoFailure && raw == r[rest..] && rawlen == |raw|
         case Text(_, _) =>
           command == None && failure == NoFailure && rawlen == 0
    }

    /** Removes a command that stands from i up to cend, and everything before it. */
    method CutCommand(i: nat, cend: nat)
      requires i <= cend <= |raw|
      modifies this`raw, this`rawlen
      ensures raw == old(raw)[cend..] && rawlen == |raw|
    {
      raw := raw[..i] + raw[cend..];
      assert raw[i..] == old(raw)[cend..];
      raw := raw[i..];
      rawlen := |raw|;
    }

    lemma TookError(rd: BatchState.Reader, st: BatchState.State, r: string)
      requires buffer != null ==> Length <= buffer.Length
      requires ScanLine(rd, st, r) == Bad && State() == FRESH && rawlen == 0
      ensures Took(rd, st, r, None, SyntaxError(linecount))
    {
    }

    lemma TookText(rd: BatchState.Reader, st: BatchState.State, r: string, mode: Mode, refs: Refs)
      requires buffer != null ==> Length <= buffer.Length
      requires ScanLine(rd, st, r) == Scanned.Text(mode, refs)
      requires State() == AfterText(st, r, mode, refs, rd.eol) && rawlen == 0
      ensures Took(rd, st, r, None, NoFailure)
    {
    }

    lemma TookCommand(rd: BatchState.Reader, st: BatchState.State, r: string, command: Command, at: nat, rest: nat)
      requires buffer != null ==> Length <= buffer.Length
      requires ScanLine(rd, st, r) == Found(command, at, rest)
      requires State() == st && raw == r[rest..] && rawlen == |raw|
      ensures Took(rd, st, r, Some(command), NoFailure)
    {
    }

    /** The part of Next that follows reading: takes the chunk in raw. */
    method Take() returns (command: Option<Command>, failure: Failure)
      requires Valid() && rawlen == |raw| && LineRecords(linevarmap, lineRecorded, 0) && lineRecorded == []
      modifies Repr()
      ensures Valid() && (buffer == old(buffer) || buffer == null || fresh(buffer))
      ensures commands == old(commands) && parseVariables == old(parseVariables)
      ensures input == old(input)
      ensures Took(old(Reader()), old(State()), old(raw), command, failure)
    {
      hide Took, Scan, Sound, AfterText, LineRecords, Records, ValidEol, ValidMode;
      ghost var rd, st, r := Reader(), State(), raw;
      TextKeepsSound(rd, st, r);
      var i, cend, err;
      i, command, cend, err := Parse();
      if err {
        failure := SyntaxError(linecount);
        Reset(None);
        TookError(rd, st, r);
        return;
      }
      failure := NoFailure;
      if command.Some? {
        CutCommand(i, cend);
        TookCommand(rd, st, r, command.value, i, cend);
      } else {
        LineRecordsAre(linevarmap, lineRecorded, i);
        FinishLine(if i < rawlen then i else rawlen, st);
        TookText(rd, st, r, Mode(), lineRecorded);
      }
    }

    /** Processes the next chunk of input. */
    method Next() returns (command: Option<Command>, failure: Failure)
      requires Valid()
      modifies Repr()
      ensures Valid() && (buffer == old(buffer) || buffer == null || fresh(buffer))
      ensures commands == old(commands) && parseVariables == old(parseVariables)
      ensures input == if old(rawlen) == 0 && old(input) != [] then old(input[1..]) else old(input)
      ensures if old(rawlen == 0 && input == []) then
                command == None && failure == Eof && State() == old(State()) && rawlen == 0
              else
                Took(old(Reader()), old(State()), old(Chunk()), command, failure)
    {
      hide Took, ScanLine, Scan, Sound, AfterText, LineRecords, Records, ValidEol, ValidMode;
      linevarmap, lineRecorded := map[], [];
      NoRecords();
      if rawlen == 0 {
        if input == [] {
          return None, Eof;
        }
        raw := input[0];
        input := input[1..];
        rawlen := |raw|;
      }
      linecount := linecount + 1;
      command, failure := Take();
    }
  }

  /** Appending a line looks at the text of the batch only, not at its mode. */
  lemma SameAfterText(st: BatchState.State, st': BatchState.State, r: string, mode: Mode, refs: Refs, eol: string)
    requires st' == st.(mode := st'.mode)
    ensures AfterText(st', r, mode, refs, eol) == AfterText(st, r, mode, refs, eol)
  {
  }

  /** Positions past the end of the chunk stand for its end. */
  function Upto(i: nat, r: string): nat {
    if i < |r| then i else |r|
  }
}
