/**
 The read-only verdict is local to statements: a text of statements separated by `;`, each with
 its quotes, comments and parentheses closed, is rejected exactly when one of its statements is,
 with the keyword of the first such statement.
 */
module ReadOnlyLocal {
  import opened Runes
  import opened ReadOnly
  import opened Unicode
  import opened ReadOnlyMirror

  // ---------- Closed statements ----------

  predicate LineClosed(s: string, p: nat)
    decreases |s| - p
  {
    p < |s| && (s[p] == '\n' || LineClosed(s, p + 1))
  }

  predicate BlockClosed(s: string, p: nat, depth: nat)
    decreases |s| - p
  {
    if depth == 0 then true
    else if p >= |s| then false
    else if Pair(s, p, '/', '*') then BlockClosed(s, p + 2, depth + 1)
    else if Pair(s, p, '*', '/') then BlockClosed(s, p + 2, depth - 1)
    else BlockClosed(s, p + 1, depth)
  }

  predicate QuoteClosed(s: string, p: nat, closer: char)
    decreases |s| - p
  {
    if p >= |s| then false
    else if s[p] != closer then QuoteClosed(s, p + 1, closer)
    else if Pair(s, p, closer, closer) then QuoteClosed(s, p + 2, closer)
    else true
  }

  predicate TokenClosed(s: string, p: nat)
    requires p < |s|
  {
    if OpensQuote(s[p]) then QuoteClosed(s, p + 1, QuoteCloser(s[p]))
    else if Pair(s, p, '-', '-') then LineClosed(s, p + 2)
    else if Pair(s, p, '/', '*') then BlockClosed(s, p + 2, 1)
    else true
  }

  /** From p on: no `;` outside quotes and comments, everything closes, depth parentheses too. */
  predicate Closed(s: string, p: nat, depth: nat)
    requires p <= |s|
    decreases |s| - p
  {
    if p == |s| then depth == 0
    else if s[p] == ';' then false
    else if s[p] == '(' then Closed(s, p + 1, depth + 1)
    else if s[p] == ')' then Closed(s, p + 1, if depth > 0 then depth - 1 else 0)
    else TokenClosed(s, p) && Closed(s, TokenEnd(s, p), depth)
  }

  /** A closed statement that starts with a word, or is blank. */
  predicate Statement(u: Alphabet, s: string) {
    Closed(s, 0, 0) && (GapEnd(u, s, 0) == |s| || WordChar(u, s[GapEnd(u, s, 0)]))
  }

  // ---------- Scanning a closed statement does not look past its `;` ----------

  /** t continues s with a `;`. */
  ghost predicate Continues(s: string, t: string) {
    |s| < |t| && t[..|s|] == s && t[|s|] == ';'
  }

  lemma RuneIn(s: string, t: string, p: nat)
    requires Continues(s, t) && p <= |s|
    ensures p < |s| ==> t[p] == s[p]
    ensures p < |t| && (p == |s| ==> t[p] == ';')
  {
    assert p < |s| ==> t[..|s|][p] == t[p];
  }

  lemma PairIn(s: string, t: string, p: nat, x: char, y: char)
    requires Continues(s, t) && p < |s| && y != ';'
    ensures Pair(t, p, x, y) == Pair(s, p, x, y)
  {
    RuneIn(s, t, p);
    RuneIn(s, t, p + 1);
  }

  lemma {:induction false} LineIn(s: string, t: string, p: nat)
    requires Continues(s, t) && p <= |s| && LineClosed(s, p)
    ensures LineCommentEnd(t, p) == LineCommentEnd(s, p)
    decreases |s| - p
  {
    RuneIn(s, t, p);
    if s[p] != '\n' {
      LineIn(s, t, p + 1);
    }
  }

  lemma {:induction false} BlockIn(s: string, t: string, p: nat, depth: nat)
    requires Continues(s, t) && p <= |s| && BlockClosed(s, p, depth)
    ensures BlockCommentEnd(t, p, depth) == BlockCommentEnd(s, p, depth)
    decreases |s| - p
  {
    if depth > 0 {
      PairIn(s, t, p, '/', '*');
      PairIn(s, t, p, '*', '/');
      if Pair(s, p, '/', '*') {
        BlockIn(s, t, p + 2, depth + 1);
      } else if Pair(s, p, '*', '/') {
        BlockIn(s, t, p + 2, depth - 1);
      } else {
        BlockIn(s, t, p + 1, depth);
      }
    }
  }

  lemma {:induction false} QuoteIn(s: string, t: string, p: nat, closer: char)
    requires Continues(s, t) && p <= |s| && QuoteClosed(s, p, closer) && closer != ';'
    ensures QuoteEnd(t, p, closer) == QuoteEnd(s, p, closer)
    decreases |s| - p
  {
    RuneIn(s, t, p);
    PairIn(s, t, p, closer, closer);
    if s[p] != closer {
      QuoteIn(s, t, p + 1, closer);
    } else if Pair(s, p, closer, closer) {
      QuoteIn(s, t, p + 2, closer);
    }
  }

  lemma TokenIn(s: string, t: string, p: nat)
    requires Continues(s, t) && p < |s| && TokenClosed(s, p)
    ensures TokenEnd(t, p) == TokenEnd(s, p)
  {
    hide QuoteEnd, LineCommentEnd, BlockCommentEnd, QuoteClosed, LineClosed, BlockClosed, Continues;
    RuneIn(s, t, p);
    PairIn(s, t, p, '-', '-');
    PairIn(s, t, p, '/', '*');
    if OpensQuote(s[p]) {
      QuoteIn(s, t, p + 1, QuoteCloser(s[p]));
    } else if Pair(s, p, '-', '-') {
      LineIn(s, t, p + 2);
    } else if Pair(s, p, '/', '*') {
      BlockIn(s, t, p + 2, 1);
    }
  }

  /** A space or a word character is a token of its own. */
  lemma PlainToken(u: Alphabet, s: string, p: nat, depth: nat)
    requires ValidAlphabet(u) && p < |s| && Closed(s, p, depth)
    requires u.isSpace(s[p]) || WordChar(u, s[p])
    ensures Closed(s, p + 1, depth)
  {
  }

  lemma {:induction false} SpaceIn(u: Alphabet, s: string, t: string, p: nat)
    requires ValidAlphabet(u) && Continues(s, t) && p <= |s| && Closed(s, p, 0)
    ensures SpaceEnd(u, t, p) == SpaceEnd(u, s, p) && Closed(s, SpaceEnd(u, s, p), 0)
    decreases |s| - p
  {
    RuneIn(s, t, p);
    if p < |s| && u.isSpace(s[p]) {
      PlainToken(u, s, p, 0);
      SpaceIn(u, s, t, p + 1);
    }
  }

  lemma {:induction false} WordEndIn(u: Alphabet, s: string, t: string, p: nat)
    requires ValidAlphabet(u) && Continues(s, t) && p <= |s| && Closed(s, p, 0)
    ensures WordEnd(u, t, p) == WordEnd(u, s, p) && Closed(s, WordEnd(u, s, p), 0)
    decreases |s| - p
  {
    RuneIn(s, t, p);
    if p < |s| && WordChar(u, s[p]) {
      PlainToken(u, s, p, 0);
      WordEndIn(u, s, t, p + 1);
    }
  }

  lemma {:induction false} GapIn(u: Alphabet, s: string, t: string, p: nat)
    requires ValidAlphabet(u) && Continues(s, t) && p <= |s| && Closed(s, p, 0)
    ensures GapEnd(u, t, p) == GapEnd(u, s, p) && Closed(s, GapEnd(u, s, p), 0)
    decreases |s| - p
  {
    hide LineCommentEnd, BlockCommentEnd, Continues;
    RuneIn(s, t, p);
    if p < |s| {
      PairIn(s, t, p, '-', '-');
      PairIn(s, t, p, '/', '*');
      if u.isSpace(s[p]) {
        PlainToken(u, s, p, 0);
        GapIn(u, s, t, p + 1);
      } else if Pair(s, p, '-', '-') {
        LineIn(s, t, p + 2);
        GapIn(u, s, t, LineCommentEnd(s, p + 2));
      } else if Pair(s, p, '/', '*') {
        BlockIn(s, t, p + 2, 1);
        GapIn(u, s, t, BlockCommentEnd(s, p + 2, 1));
      }
    } else {
      assert !u.isSpace(';');
    }
  }

  lemma {:induction false} ParensIn(s: string, t: string, p: nat, depth: nat)
    requires Continues(s, t) && p <= |s| && depth > 0 && Closed(s, p, depth)
    ensures ParensEnd(t, p, depth) == ParensEnd(s, p, depth) && Closed(s, ParensEnd(s, p, depth), 0)
    decreases |s| - p
  {
    hide TokenEnd, TokenClosed, Continues;
    RuneIn(s, t, p);
    if s[p] == '(' {
      ParensIn(s, t, p + 1, depth + 1);
    } else if s[p] == ')' {
      if depth > 1 {
        ParensIn(s, t, p + 1, depth - 1);
      }
    } else {
      TokenIn(s, t, p);
      ParensIn(s, t, TokenEnd(s, p), depth);
    }
  }

  lemma SkipOneIn(s: string, t: string, g: nat)
    requires Continues(s, t) && g < |s| && Closed(s, g, 0)
    requires !Pair(s, g, '-', '-') && !Pair(s, g, '/', '*')
    ensures SkipOne(t, g) == SkipOne(s, g) && Closed(s, SkipOne(s, g), 0)
  {
    hide QuoteEnd, ParensEnd, QuoteClosed, Continues;
    RuneIn(s, t, g);
    if s[g] == '(' {
      ParensIn(s, t, g + 1, 1);
    } else if OpensQuote(s[g]) {
      QuoteIn(s, t, g + 1, QuoteCloser(s[g]));
    }
  }

  lemma {:induction false} NextWordIn(u: Alphabet, s: string, t: string, p: nat)
    requires ValidAlphabet(u) && Continues(s, t) && p <= |s| && Closed(s, p, 0)
    ensures NextWord(u, t, p) == NextWord(u, s, p) && Closed(s, NextWord(u, s, p), 0)
    decreases |s| - p
  {
    hide GapEnd, SkipOne, Continues, Closed, ValidAlphabet, WordChar;
    GapIn(u, s, t, p);
    var g := GapEnd(u, s, p);
    RuneIn(s, t, g);
    if g < |s| && s[g] != ';' && !(!Skipped(s[g]) && WordChar(u, s[g])) {
      SkipOneIn(s, t, g);
      NextWordIn(u, s, t, SkipOne(s, g));
    }
  }

  lemma TempIn(u: Alphabet, s: string, t: string, p: nat)
    requires ValidAlphabet(u) && Continues(s, t) && p <= |s| && Closed(s, p, 0)
    ensures TempAt(u, t, p) == TempAt(u, s, p)
  {
    SpaceIn(u, s, t, p);
    RuneIn(s, t, SpaceEnd(u, s, p));
  }

  lemma NextIn(u: Alphabet, s: string, t: string, p: nat)
    requires ValidAlphabet(u) && Continues(s, t) && p <= |s| && Closed(s, p, 0)
    ensures var w := NextWord(u, s, p);
            var e := WordEnd(u, s, w);
            && NextWord(u, t, p) == w && WordEnd(u, t, w) == e && Word(u, t, w) == Word(u, s, w)
            && Closed(s, w, 0) && Closed(s, e, 0)
            && TempAt(u, t, e) == TempAt(u, s, e)
            && SpaceEnd(u, t, e) == SpaceEnd(u, s, e) && Closed(s, SpaceEnd(u, s, e), 0)
  {
    hide NextWord, WordEnd, SpaceEnd, TempAt, Closed, ValidAlphabet;
    NextWordIn(u, s, t, p);
    var w := NextWord(u, s, p);
    WordEndIn(u, s, t, w);
    var e := WordEnd(u, s, w);
    TempIn(u, s, t, e);
    SpaceIn(u, s, t, e);
    SliceOfSlice(t, 0, |s|, w, e);
  }

  lemma {:induction false} SelectIntoIn(u: Alphabet, s: string, t: string, p: nat)
    requires ValidAlphabet(u) && Continues(s, t) && p <= |s| && Closed(s, p, 0)
    ensures SelectInto(u, t, p) == SelectInto(u, s, p)
    decreases |s| - p
  {
    hide NextWord, WordEnd, Word, TempAt, Closed, ValidAlphabet, Continues;
    NextIn(u, s, t, p);
    var w := NextWord(u, s, p);
    var e := WordEnd(u, s, w);
    if e > w {
      SelectIntoIn(u, s, t, e);
    }
  }

  lemma {:induction false} CteIn(u: Alphabet, s: string, t: string, p: nat)
    requires ValidAlphabet(u) && Continues(s, t) && p <= |s| && Closed(s, p, 0)
    ensures Cte(u, t, p) == Cte(u, s, p) && Closed(s, Cte(u, s, p).pos, 0)
    decreases |s| - p
  {
    hide NextWord, WordEnd, Word, TempAt, Closed, ValidAlphabet, Continues;
    NextIn(u, s, t, p);
    var w := NextWord(u, s, p);
    var e := WordEnd(u, s, w);
    if e > w {
      CteIn(u, s, t, e);
    }
  }

  lemma ClassifyIn(u: Alphabet, s: string, t: string, p: nat, keyword: string, allowExec: bool)
    requires ValidAlphabet(u) && Continues(s, t) && p <= |s| && Closed(s, p, 0)
    ensures var v := Classify(u, s, p, keyword, allowExec);
            && Classify(u, t, p, keyword, allowExec) == v
            && Closed(s, v.pos, 0)
  {
    hide NextWord, WordEnd, Word, TempAt, SelectInto, Cte, Closed, ValidAlphabet, Continues;
    NextIn(u, s, t, p);
    SelectIntoIn(u, s, t, p);
    CteIn(u, s, t, p);
  }

  lemma {:induction false} StatementEndIn(s: string, t: string, p: nat, depth: nat)
    requires Continues(s, t) && p <= |s| && Closed(s, p, depth)
    ensures StatementEnd(s, p) == |s| && StatementEnd(t, p) == |s| + 1
    decreases |s| - p
  {
    hide QuoteEnd, LineCommentEnd, BlockCommentEnd, QuoteClosed, LineClosed, BlockClosed;
    RuneIn(s, t, p);
    if p < |s| {
      TokenIn(s, t, p);
      StatementEndIn(s, t, TokenEnd(s, p),
                     if s[p] == '(' then depth + 1 else if s[p] == ')' && depth > 0 then depth - 1 else depth);
    }
  }

  // ---------- The theorem ----------

  /** Where the first word is, in the statement alone and in front of the rest of the text. */
  lemma FirstWordIn(u: Alphabet, s: string, t: string)
    requires ValidAlphabet(u) && Statement(u, s) && Continues(s, t)
    ensures var g := GapEnd(u, s, 0);
      && Closed(s, g, 0)
      && StatementWord(u, s, 0) == g
      && StatementWord(u, t, 0) == if g == |s| then StatementWord(u, t, |s| + 1) else g
  {
    hide Closed, ValidAlphabet, GapEnd, WordChar;
    GapIn(u, s, t, 0);
    RuneIn(s, t, GapEnd(u, s, 0));
    SemicolonIsNoWord(u);
  }

  /** A statement in front of the rest of the text: its own verdict first. */
  lemma FirstStatement(u: Alphabet, s: string, t: string, allowExec: bool)
    requires ValidAlphabet(u) && Statement(u, s) && Continues(s, t)
    ensures Check(u, t, 0, allowExec) ==
            if Check(u, s, 0, allowExec).Some? then Check(u, s, 0, allowExec)
            else Check(u, t[|s| + 1..], 0, allowExec)
  {
    hide Check, Closed, ValidAlphabet, Classify, StatementEnd, StatementWord, GapEnd, WordEnd, Word, Statement;
    CheckStep(u, s, 0, allowExec);
    CheckStep(u, t, 0, allowExec);
    CheckStep(u, t, |s| + 1, allowExec);
    CheckOfRest(u, t, |s| + 1, allowExec);
    FirstWordIn(u, s, t);
    var g := GapEnd(u, s, 0);
    if g < |s| {
      WordEndIn(u, s, t, g);
      var e := WordEnd(u, s, g);
      SameWordIn(u, s, t, g);
      ClassifyIn(u, s, t, e, Word(u, s, g), allowExec);
      StatementEndIn(s, t, Classify(u, s, e, Word(u, s, g), allowExec).pos, 0);
      CheckAtEnd(u, s, allowExec);
    }
  }

  lemma SemicolonIsNoWord(u: Alphabet)
    requires ValidAlphabet(u)
    ensures !WordChar(u, ';')
  {
  }

  lemma SameWordIn(u: Alphabet, s: string, t: string, w: nat)
    requires ValidAlphabet(u) && Continues(s, t) && w <= |s| && Closed(s, w, 0)
    ensures Word(u, t, w) == Word(u, s, w)
  {
    WordEndIn(u, s, t, w);
    SliceOfSlice(t, 0, |s|, w, WordEnd(u, s, w));
  }

  lemma CheckAtEnd(u: Alphabet, s: string, allowExec: bool)
    ensures Check(u, s, |s|, allowExec) == None
  {
  }

  /** The keyword of the first statement that is rejected on its own. */
  function FirstRejected(u: Alphabet, statements: seq<string>, allowExec: bool): Option<string> {
    if statements == [] then None
    else if Check(u, statements[0], 0, allowExec).Some? then Check(u, statements[0], 0, allowExec)
    else FirstRejected(u, statements[1..], allowExec)
  }

  /** The verdict on a text is the verdict on its statements, one by one. */
  lemma {:induction false} CheckIsLocal(u: Alphabet, statements: seq<string>, allowExec: bool)
    requires ValidAlphabet(u) && forall k | 0 <= k < |statements| :: Statement(u, statements[k])
    ensures Check(u, Join(statements, ";"), 0, allowExec) == FirstRejected(u, statements, allowExec)
  {
    hide Check, Statement;
    if statements == [] {
      CheckAtEnd(u, "", allowExec);
    } else if |statements| == 1 {
      assert statements[1..] == [];
    } else {
      var s, rest := statements[0], Join(statements[1..], ";");
      var t := s + ";" + rest;
      assert Continues(s, t) && t[|s| + 1..] == rest;
      FirstStatement(u, s, t, allowExec);
      CheckIsLocal(u, statements[1..], allowExec);
    }
  }

  /** Every statement of an accepted text starts with a keyword that may be accepted. */
  lemma AcceptedStartsAllowed(u: Alphabet, statements: seq<string>, allowExec: bool, k: nat)
    requires ValidAlphabet(u) && forall j | 0 <= j < |statements| :: Statement(u, statements[j])
    requires Check(u, Join(statements, ";"), 0, allowExec) == None && k < |statements|
    ensures var s := statements[k];
            var w := GapEnd(u, s, 0);
            w < |s| ==> MayStart(Word(u, s, w), allowExec)
  {
    hide Join, MayStart;
    CheckIsLocal(u, statements, allowExec);
    EachAccepted(u, statements, allowExec, k);
    SemicolonIsNoWord(u);
    AcceptedKeyword(u, statements[k], allowExec);
  }

  predicate MayStart(keyword: string, allowExec: bool) {
    keyword in ALLOWED || keyword == "BEGIN" || keyword == "CREATE" || keyword == "WITH" || (allowExec && IsExec(keyword))
  }

  lemma {:induction false} EachAccepted(u: Alphabet, statements: seq<string>, allowExec: bool, k: nat)
    requires FirstRejected(u, statements, allowExec) == None && k < |statements|
    ensures Check(u, statements[k], 0, allowExec) == None
  {
    hide Check;
    if k > 0 {
      EachAccepted(u, statements[1..], allowExec, k - 1);
    }
  }

  lemma AcceptedKeyword(u: Alphabet, s: string, allowExec: bool)
    requires Check(u, s, 0, allowExec) == None
    requires var w := GapEnd(u, s, 0); w < |s| ==> WordChar(u, s[w]) && s[w] != ';'
    ensures var w := GapEnd(u, s, 0); w < |s| ==> MayStart(Word(u, s, w), allowExec)
  {
    hide SelectInto, Cte, BeginTran, CreateTemp, NextWord, Word;
  }
}
