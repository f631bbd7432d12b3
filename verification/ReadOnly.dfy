/**
 The read-only check: which statements of a query text are rejected before they reach the server.

 The functions say where each construct of the text ends; `Check` is the verdict. The class in
 Scanner.dfy computes them with a moving cursor. Proved here: the verdict is blind to ASCII
 case, monotone in allowExec, and local to statements.
 */
module ReadOnly {
  import opened Runes
  import opened Unicode

  predicate WordChar(u: Alphabet, c: char) {
    c == '_' || c == '#' || c == '@' || u.isLetter(c) || u.isDigit(c)
  }

  /** Keywords that start a harmless statement. Whatever is not listed is rejected, known or not. */
  const ALLOWED: set<string> := {
    "SELECT", "SET", "DECLARE", "PRINT", "USE", "IF", "ELSE", "END", "WHILE", "RETURN", "THROW", "RAISERROR",
    "WAITFOR", "BREAK", "CONTINUE", "GOTO", "TRY", "CATCH"}

  const DML: set<string> := {"SELECT", "INSERT", "UPDATE", "DELETE", "MERGE"}

  // ---------- Where things end ----------

  function SpaceEnd(u: Alphabet, r: string, p: nat): (e: nat)
    requires p <= |r|
    ensures p <= e <= |r|
    decreases |r| - p
  {
    if p < |r| && u.isSpace(r[p]) then SpaceEnd(u, r, p + 1) else p
  }

  function WordEnd(u: Alphabet, r: string, p: nat): (e: nat)
    requires p <= |r|
    ensures p <= e <= |r|
    decreases |r| - p
  {
    if p < |r| && WordChar(u, r[p]) then WordEnd(u, r, p + 1) else p
  }

  /** End of a `--` comment whose dashes have been read. */
  function LineCommentEnd(r: string, p: nat): (e: nat)
    requires p <= |r|
    ensures p <= e <= |r|
    decreases |r| - p
  {
    if p == |r| then p
    else if r[p] == '\n' then p + 1
    else LineCommentEnd(r, p + 1)
  }

  /** End of nested block comments of which depth are open. */
  function BlockCommentEnd(r: string, p: nat, depth: nat): (e: nat)
    requires p <= |r|
    ensures p <= e <= |r|
    decreases |r| - p
  {
    if p == |r| || depth == 0 then p
    else if Pair(r, p, '/', '*') then BlockCommentEnd(r, p + 2, depth + 1)
    else if Pair(r, p, '*', '/') then BlockCommentEnd(r, p + 2, depth - 1)
    else BlockCommentEnd(r, p + 1, depth)
  }

  predicate OpensQuote(c: char) {
    c == '\'' || c == '"' || c == '['
  }

  function QuoteCloser(c: char): char {
    if c == '[' then ']' else c
  }

  /** End of a quoted text whose opening quote has been read; a doubled closer is an escape. */
  function QuoteEnd(r: string, p: nat, closer: char): (e: nat)
    requires p <= |r|
    ensures p <= e <= |r|
    decreases |r| - p
  {
    if p == |r| then p
    else if r[p] != closer then QuoteEnd(r, p + 1, closer)
    else if Pair(r, p, closer, closer) then QuoteEnd(r, p + 2, closer)
    else p + 1
  }

  /** End of whitespace and comments. */
  function GapEnd(u: Alphabet, r: string, p: nat): (e: nat)
    requires p <= |r|
    ensures p <= e <= |r|
    ensures e < |r| ==> !u.isSpace(r[e]) && !Pair(r, e, '-', '-') && !Pair(r, e, '/', '*')
    decreases |r| - p
  {
    if p == |r| then p
    else if u.isSpace(r[p]) then GapEnd(u, r, p + 1)
    else if Pair(r, p, '-', '-') then GapEnd(u, r, LineCommentEnd(r, p + 2))
    else if Pair(r, p, '/', '*') then GapEnd(u, r, BlockCommentEnd(r, p + 2, 1))
    else p
  }

  /** One unfolding of GapEnd, for proofs that hide its definition. */
  lemma {:induction false} GapStep(u: Alphabet, r: string, p: nat)
    requires p < |r|
    ensures GapEnd(u, r, p) ==
      if u.isSpace(r[p]) then GapEnd(u, r, p + 1)
      else if Pair(r, p, '-', '-') then GapEnd(u, r, LineCommentEnd(r, p + 2))
      else if Pair(r, p, '/', '*') then GapEnd(u, r, BlockCommentEnd(r, p + 2, 1))
      else p
  {
  }

  /** One token that is neither a word nor a parenthesis: a quoted text, a comment, a character. */
  function TokenEnd(r: string, p: nat): (e: nat)
    requires p < |r|
    ensures p < e <= |r|
  {
    if OpensQuote(r[p]) then QuoteEnd(r, p + 1, QuoteCloser(r[p]))
    else if Pair(r, p, '-', '-') then LineCommentEnd(r, p + 2)
    else if Pair(r, p, '/', '*') then BlockCommentEnd(r, p + 2, 1)
    else p + 1
  }

  /** End of parenthesised content at nesting depth. */
  function ParensEnd(r: string, p: nat, depth: nat): (e: nat)
    requires p <= |r|
    ensures p <= e <= |r|
    decreases |r| - p
  {
    if p == |r| then p
    else if r[p] == '(' then ParensEnd(r, p + 1, depth + 1)
    else if r[p] == ')' then if depth <= 1 then p + 1 else ParensEnd(r, p + 1, depth - 1)
    else ParensEnd(r, TokenEnd(r, p), depth)
  }

  predicate Skipped(c: char) {
    c == '(' || OpensQuote(c)
  }

  /** End of parenthesised content, a quoted text or a single character. */
  function SkipOne(r: string, g: nat): (e: nat)
    requires g < |r|
    ensures g < e <= |r|
  {
    if r[g] == '(' then ParensEnd(r, g + 1, 1)
    else if OpensQuote(r[g]) then QuoteEnd(r, g + 1, QuoteCloser(r[g]))
    else g + 1
  }

  /** Where the next word of the statement starts, or a `;`, or the end of the text. */
  function NextWord(u: Alphabet, r: string, p: nat): (w: nat)
    requires p <= |r|
    ensures p <= w <= |r|
    decreases |r| - p
  {
    var g := GapEnd(u, r, p);
    if g == |r| || r[g] == ';' || (!Skipped(r[g]) && WordChar(u, r[g])) then g
    else NextWord(u, r, SkipOne(r, g))
  }

  /** Where the first word of the next statement starts, or the end of the text. */
  function StatementWord(u: Alphabet, r: string, p: nat): (w: nat)
    requires p <= |r|
    ensures p <= w <= |r|
    ensures w < |r| ==> WordChar(u, r[w])
    decreases |r| - p
  {
    var g := GapEnd(u, r, p);
    if g == |r| then g
    else if r[g] == ';' || !WordChar(u, r[g]) then StatementWord(u, r, g + 1)
    else g
  }

  /** Past the `;` that ends the statement, or the end of the text. */
  function StatementEnd(r: string, p: nat): (e: nat)
    requires p <= |r|
    ensures p <= e <= |r|
    decreases |r| - p
  {
    if p == |r| then p
    else if r[p] == ';' then p + 1
    else StatementEnd(r, TokenEnd(r, p))
  }

  // ---------- The verdict ----------

  /** The keyword a statement is rejected with, if it is, and where the cursor is left. */
  datatype Verdict = Verdict(rejected: Option<string>, pos: nat)

  function Word(u: Alphabet, r: string, w: nat): string
    requires w <= |r|
  {
    Upper(u, r[w..WordEnd(u, r, w)])
  }

  predicate TempAt(u: Alphabet, r: string, p: nat)
    requires p <= |r|
  {
    SpaceEnd(u, r, p) < |r| && r[SpaceEnd(u, r, p)] == '#'
  }

  /** INTO before FROM must name a temporary table. */
  function SelectInto(u: Alphabet, r: string, p: nat): (rejected: Option<string>)
    requires p <= |r|
    ensures rejected.Some? ==> rejected.value == "SELECT INTO"
    decreases |r| - p
  {
    var w := NextWord(u, r, p);
    var e := WordEnd(u, r, w);
    if e == w || Word(u, r, w) == "FROM" then None
    else if Word(u, r, w) == "INTO" then if TempAt(u, r, e) then None else Some("SELECT INTO")
    else SelectInto(u, r, e)
  }

  function BeginTran(u: Alphabet, r: string, p: nat): (v: Verdict)
    requires p <= |r|
    ensures p <= v.pos <= |r|
  {
    var w := NextWord(u, r, p);
    var word := Word(u, r, w);
    if word == "TRAN" || word == "TRANSACTION" then Verdict(Some("BEGIN " + word), WordEnd(u, r, w))
    else Verdict(None, p)
  }

  function CreateTemp(u: Alphabet, r: string, p: nat): (v: Verdict)
    requires p <= |r|
    ensures p <= v.pos <= |r|
  {
    var w := NextWord(u, r, p);
    var e := WordEnd(u, r, w);
    if Word(u, r, w) == "TABLE" && TempAt(u, r, e) then Verdict(None, SpaceEnd(u, r, e))
    else Verdict(Some("CREATE"), p)
  }

  /** The first data keyword after the common table expressions decides. */
  function Cte(u: Alphabet, r: string, p: nat): (v: Verdict)
    requires p <= |r|
    ensures p <= v.pos <= |r|
    ensures v.rejected.Some? ==> v.rejected.value in DML && v.rejected.value != "SELECT"
    decreases |r| - p
  {
    var w := NextWord(u, r, p);
    var e := WordEnd(u, r, w);
    if e == w then Verdict(None, w)
    else if Word(u, r, w) !in DML then Cte(u, r, e)
    else if Word(u, r, w) == "SELECT" then Verdict(None, e)
    else Verdict(Some(Word(u, r, w)), e)
  }

  function Classify(u: Alphabet, r: string, p: nat, keyword: string, allowExec: bool): (v: Verdict)
    requires p <= |r|
    ensures p <= v.pos <= |r|
  {
    if keyword in ALLOWED then
      if keyword == "SELECT" then Verdict(SelectInto(u, r, p), p) else Verdict(None, p)
    else if keyword == "BEGIN" then BeginTran(u, r, p)
    else if keyword == "CREATE" then CreateTemp(u, r, p)
    else if keyword == "WITH" then Cte(u, r, p)
    else if keyword == "EXEC" || keyword == "EXECUTE" then
      Verdict(if allowExec then None else Some(keyword), p)
    else Verdict(Some(keyword), p)
  }

  /** None, or the keyword of the first statement from p on that is rejected. */
  function Check(u: Alphabet, r: string, p: nat, allowExec: bool): Option<string>
    requires p <= |r|
    decreases |r| - p
  {
    var w := StatementWord(u, r, p);
    if w == |r| then None
    else
      var v := Classify(u, r, WordEnd(u, r, w), Word(u, r, w), allowExec);
      if v.rejected.Some? then v.rejected else Check(u, r, StatementEnd(r, v.pos), allowExec)
  }

  /** One unfolding of Check, for proofs that hide its definition. */
  lemma {:induction false} CheckStep(u: Alphabet, r: string, p: nat, allowExec: bool)
    requires p <= |r|
    ensures Check(u, r, p, allowExec) ==
      var w := StatementWord(u, r, p);
      if w == |r| then None
      else
        var v := Classify(u, r, WordEnd(u, r, w), Word(u, r, w), allowExec);
        if v.rejected.Some? then v.rejected else Check(u, r, StatementEnd(r, v.pos), allowExec)
  {
  }

  // ---------- Monotone ----------

  predicate IsExec(keyword: string) {
    keyword == "EXEC" || keyword == "EXECUTE"
  }

  /** With EXEC allowed, no statement is rejected for being one. */
  lemma ClassifyLax(u: Alphabet, r: string, p: nat, keyword: string)
    requires p <= |r|
    ensures var strict, lax := Classify(u, r, p, keyword, false), Classify(u, r, p, keyword, true);
            && (lax.rejected.Some? ==> !IsExec(lax.rejected.value))
            && if IsExec(keyword) then strict == Verdict(Some(keyword), p) && lax == Verdict(None, p)
               else strict == lax
  {
    var lax := Classify(u, r, p, keyword, true);
    if lax.rejected.Some? {
      var k := lax.rejected.value;
      if keyword in ALLOWED {
        assert |k| == 11;
      } else if keyword == "BEGIN" {
        assert |k| >= 10;
      } else if keyword == "WITH" {
        assert k[0] != 'E';
      }
    }
  }

  /** Allowing EXEC changes nothing but verdicts on EXEC statements. */
  lemma {:induction false} CheckIsMonotone(u: Alphabet, r: string, p: nat)
    requires p <= |r|
    ensures var strict, lax := Check(u, r, p, false), Check(u, r, p, true);
            && (strict == None ==> lax == None)
            && (strict.Some? && !IsExec(strict.value) ==> lax == strict)
            && (lax.Some? ==> strict.Some? && !IsExec(lax.value))
    decreases |r| - p
  {
    hide Classify;
    var w := StatementWord(u, r, p);
    if w < |r| {
      var e, word := WordEnd(u, r, w), Word(u, r, w);
      ClassifyLax(u, r, e, word);
      var v := Classify(u, r, e, word, true);
      if v.rejected.None? {
        CheckIsMonotone(u, r, StatementEnd(r, v.pos));
      }
    }
  }
}
