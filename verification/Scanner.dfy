/**
 The cursor that computes the read-only verdict: each method moves `pos` to where the functions
 of ReadOnly say the construct ends. The cursor never leaves the text and every loop ends.
 */
module Scanners {
  import opened Runes
  import opened ReadOnly
  import opened Unicode
  import opened ReadOnlyLocal

  class Scanner {
    const u: Alphabet
    const runes: string
    var pos: nat

    constructor (u: Alphabet, text: string)
      requires ValidAlphabet(u)
      ensures Valid() && this.u == u && runes == text && pos == 0
    {
      this.u, runes, pos := u, text, 0;
    }

    ghost predicate Valid()
      reads this
    {
      pos <= |runes| && ValidAlphabet(u)
    }

    function Peek(offset: nat): char
      reads this
    {
      if pos + offset < |runes| then runes[pos + offset] else '\0'
    }

    method SkipWhitespace()
      requires Valid()
      modifies this
      ensures Valid() && pos == SpaceEnd(u, runes, old(pos))
    {
      while pos < |runes| && u.isSpace(runes[pos])
        invariant Valid()
        invariant SpaceEnd(u, runes, old(pos)) == SpaceEnd(u, runes, pos)
      {
        pos := pos + 1;
      }
    }

    method ReadWord() returns (word: string)
      requires Valid()
      modifies this
      ensures Valid() && pos == WordEnd(u, runes, old(pos)) && word == runes[old(pos)..pos]
    {
      var start := pos;
      while pos < |runes| && WordChar(u, runes[pos])
        invariant start <= pos && Valid()
        invariant WordEnd(u, runes, start) == WordEnd(u, runes, pos)
      {
        pos := pos + 1;
      }
      if pos == start {
        return "";
      }
      return runes[start..pos];
    }

    method SkipLineComment()
      requires Valid() && pos + 2 <= |runes|
      modifies this
      ensures Valid() && pos == LineCommentEnd(runes, old(pos) + 2)
    {
      pos := pos + 2;
      while pos < |runes| && runes[pos] != '\n'
        invariant Valid()
        invariant LineCommentEnd(runes, old(pos) + 2) == LineCommentEnd(runes, pos)
      {
        pos := pos + 1;
      }
      if pos < |runes| {
        pos := pos + 1;
      }
    }

    method SkipBlockComment()
      requires Valid() && pos + 2 <= |runes|
      modifies this
      ensures Valid() && pos == BlockCommentEnd(runes, old(pos) + 2, 1)
    {
      pos := pos + 2;
      var depth: nat := 1;
      while pos < |runes| && depth > 0
        invariant Valid()
        invariant BlockCommentEnd(runes, old(pos) + 2, 1) == BlockCommentEnd(runes, pos, depth)
        decreases |runes| - pos
      {
        var cc, nn := runes[pos], Peek(1);
        if cc == '/' && nn == '*' {
          depth := depth + 1;
          pos := pos + 2;
        } else if cc == '*' && nn == '/' {
          depth := depth - 1;
          pos := pos + 2;
        } else {
          pos := pos + 1;
        }
      }
    }

    /** The three quoting forms differ in their closing character only. */
    method SkipQuoted(closer: char)
      requires Valid() && pos < |runes|
      modifies this
      ensures Valid() && pos == QuoteEnd(runes, old(pos) + 1, closer)
    {
      pos := pos + 1;
      while pos < |runes|
        invariant Valid()
        invariant QuoteEnd(runes, old(pos) + 1, closer) == QuoteEnd(runes, pos, closer)
      {
        if runes[pos] == closer {
          pos := pos + 1;
          if pos < |runes| && runes[pos] == closer {
            pos := pos + 1;
            continue;
          }
          return;
        }
        pos := pos + 1;
      }
    }

    method SkipWS()
      requires Valid()
      modifies this
      ensures Valid() && pos == GapEnd(u, runes, old(pos))
    {
      while pos < |runes|
        invariant Valid()
        invariant GapEnd(u, runes, old(pos)) == GapEnd(u, runes, pos)
        decreases |runes| - pos
      {
        var c := runes[pos];
        if u.isSpace(c) {
          pos := pos + 1;
          continue;
        }
        var next := Peek(1);
        if c == '-' && next == '-' {
          SkipLineComment();
          continue;
        }
        if c == '/' && next == '*' {
          SkipBlockComment();
          continue;
        }
        break;
      }
    }

    /** A quoted text, a comment or one character: the common cases of the skipping loops. */
    method SkipToken()
      requires Valid() && pos < |runes|
      modifies this
      ensures Valid() && pos == TokenEnd(runes, old(pos))
    {
      var c, next := runes[pos], Peek(1);
      if c == '\'' {
        SkipQuoted('\'');
      } else if c == '"' {
        SkipQuoted('"');
      } else if c == '[' {
        SkipQuoted(']');
      } else if c == '-' && next == '-' {
        SkipLineComment();
      } else if c == '/' && next == '*' {
        SkipBlockComment();
      } else {
        pos := pos + 1;
      }
    }

    method SkipBalancedParens()
      requires Valid() && pos < |runes| && runes[pos] == '('
      modifies this
      ensures Valid() && pos == ParensEnd(runes, old(pos) + 1, 1)
    {
      ghost var whole := ParensEnd(runes, pos + 1, 1);
      var depth: nat := 0;
      while pos < |runes|
        invariant Valid()
        invariant depth == 0 ==> pos == old(pos)
        invariant depth > 0 ==> pos > old(pos) && whole == ParensEnd(runes, pos, depth)
      {
        var c := runes[pos];
        if c == '(' {
          depth := depth + 1;
          pos := pos + 1;
        } else if c == ')' {
          depth := depth - 1;
          pos := pos + 1;
          if depth == 0 {
            return;
          }
        } else {
          SkipToken();
        }
      }
    }

    method SkipToStatementEnd()
      requires Valid()
      modifies this
      ensures Valid() && pos == StatementEnd(runes, old(pos))
    {
      while pos < |runes|
        invariant Valid()
        invariant StatementEnd(runes, old(pos)) == StatementEnd(runes, pos)
      {
        if runes[pos] == ';' {
          pos := pos + 1;
          return;
        }
        SkipToken();
      }
    }

    method NextStatementKeyword() returns (word: string)
      requires Valid()
      modifies this
      ensures Valid()
      ensures var w := StatementWord(u, runes, old(pos));
              pos == WordEnd(u, runes, w) && word == runes[w..pos] && (word == "" <==> w == |runes|)
    {
      while true
        invariant Valid()
        invariant StatementWord(u, runes, old(pos)) == StatementWord(u, runes, pos)
        decreases |runes| - pos
      {
        SkipWS();
        if pos >= |runes| {
          return "";
        }
        if runes[pos] == ';' {
          pos := pos + 1;
          continue;
        }
        word := ReadWord();
        if word == "" {
          pos := pos + 1;
          continue;
        }
        return;
      }
    }

    method NextKeyword() returns (word: string)
      requires Valid()
      modifies this
      ensures Valid()
      ensures var w := NextWord(u, runes, old(pos));
              && pos == WordEnd(u, runes, w) && word == runes[w..pos]
    {
      hide GapEnd, ParensEnd, QuoteEnd, ValidAlphabet, WordChar;
      SemicolonIsNoWord(u);
      while true
        invariant Valid()
        invariant NextWord(u, runes, old(pos)) == NextWord(u, runes, pos)
        decreases |runes| - pos
      {
        SkipWS();
        if pos >= |runes| {
          return "";
        }
        var c := runes[pos];
        if c == ';' {
          return "";
        }
        if c == '(' {
          SkipBalancedParens();
          continue;
        }
        if c == '\'' {
          SkipQuoted('\'');
          continue;
        }
        if c == '"' {
          SkipQuoted('"');
          continue;
        }
        if c == '[' {
          SkipQuoted(']');
          continue;
        }
        if !WordChar(u, c) {
          pos := pos + 1;
          continue;
        }
        word := ReadWord();
        return;
      }
    }

    /** BEGIN TRAN and BEGIN TRANSACTION are rejected; a block is not, and the cursor rewinds. */
    method CheckBeginTran() returns (rejected: Option<string>)
      requires Valid()
      modifies this
      ensures Valid() && Verdict(rejected, pos) == BeginTran(u, runes, old(pos))
    {
      var saved := pos;
      var next := NextKeyword();
      var upper := Upper(u, next);
      if upper == "TRAN" || upper == "TRANSACTION" {
        return Some("BEGIN " + upper);
      }
      pos := saved;
      return None;
    }

    method CheckCreateTemp() returns (rejected: Option<string>)
      requires Valid()
      modifies this
      ensures Valid() && Verdict(rejected, pos) == CreateTemp(u, runes, old(pos))
    {
      var saved := pos;
      var next := NextKeyword();
      if Upper(u, next) == "TABLE" {
        SkipWhitespace();
        if pos < |runes| && runes[pos] == '#' {
          return None;
        }
      }
      pos := saved;
      return Some("CREATE");
    }

    method CheckSelectInto() returns (rejected: Option<string>)
      requires Valid()
      modifies this
      ensures Valid() && pos == old(pos) && rejected == SelectInto(u, runes, pos)
    {
      hide NextWord, WordEnd, SpaceEnd;
      var saved := pos;
      while true
        invariant Valid()
        invariant SelectInto(u, runes, saved) == SelectInto(u, runes, pos)
        decreases |runes| - pos
      {
        var kw := NextKeyword();
        if kw == "" {
          break;
        }
        var upper := Upper(u, kw);
        if upper == "FROM" {
          pos := saved;
          return None;
        }
        if upper == "INTO" {
          SkipWhitespace();
          if pos < |runes| && runes[pos] == '#' {
            pos := saved;
            return None;
          }
          pos := saved;
          return Some("SELECT INTO");
        }
      }
      pos := saved;
      return None;
    }

    method CheckCTE() returns (rejected: Option<string>)
      requires Valid()
      modifies this
      ensures Valid() && Verdict(rejected, pos) == Cte(u, runes, old(pos))
    {
      hide NextWord, WordEnd;
      while true
        invariant Valid()
        invariant Cte(u, runes, old(pos)) == Cte(u, runes, pos)
        decreases |runes| - pos
      {
        var kw := NextKeyword();
        if kw == "" {
          return None;
        }
        var upper := Upper(u, kw);
        if upper !in DML {
          continue;
        }
        if upper == "SELECT" {
          return None;
        }
        return Some(upper);
      }
    }

    method ClassifyKeyword(kw: string, allowExec: bool) returns (rejected: Option<string>)
      requires Valid()
      modifies this
      ensures Valid() && Verdict(rejected, pos) == Classify(u, runes, old(pos), Upper(u, kw), allowExec)
    {
      hide BeginTran, CreateTemp, SelectInto, Cte;
      var upper := Upper(u, kw);
      if upper in ALLOWED {
        if upper == "SELECT" {
          rejected := CheckSelectInto();
          return;
        }
        return None;
      }
      if upper == "BEGIN" {
        rejected := CheckBeginTran();
      } else if upper == "CREATE" {
        rejected := CheckCreateTemp();
      } else if upper == "WITH" {
        rejected := CheckCTE();
      } else if upper == "EXEC" || upper == "EXECUTE" {
        rejected := if allowExec then None else Some(upper);
      } else {
        rejected := Some(upper);
      }
    }
  }

  /** Scans a query for destructive statements; the result is the offending keyword. */
  method CheckReadOnly(u: Alphabet, query: string, allowExec: bool) returns (rejected: Option<string>)
    requires ValidAlphabet(u)
    ensures rejected == Check(u, query, 0, allowExec)
  {
    hide StatementWord, StatementEnd, WordEnd, Classify;
    var s := new Scanner(u, query);
    while true
      invariant fresh(s) && s.Valid() && s.runes == query && s.u == u
      invariant Check(u, query, 0, allowExec) == Check(u, query, s.pos, allowExec)
      decreases |query| - s.pos
    {
      var kw := s.NextStatementKeyword();
      if kw == "" {
        return None;
      }
      rejected := s.ClassifyKeyword(kw, allowExec);
      if rejected.Some? {
        return;
      }
      s.SkipToStatementEnd();
    }
  }
}
