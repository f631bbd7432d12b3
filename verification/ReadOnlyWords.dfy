/**
 The verdict in terms of a statement's words: which words decide, and when an accepted statement can
 have an INTO that names a permanent table.
 */
module ReadOnlyWords {
  import opened Runes
  import opened ReadOnly
  import opened Unicode

  /** A word in upper case, and where it ends. */
  datatype Spot = Spot(word: string, end: nat)

  /** The words of the statement from p on, outside parentheses, quotes and comments. */
  function Words(u: Alphabet, r: string, p: nat): (ws: seq<Spot>)
    requires p <= |r|
    ensures forall k | 0 <= k < |ws| :: ws[k].end <= |r|
    decreases |r| - p
  {
    var w := NextWord(u, r, p);
    var e := WordEnd(u, r, w);
    if e == w then [] else [Spot(Word(u, r, w), e)] + Words(u, r, e)
  }

  /** The first of the words that is in the set, or the number of words. */
  function First(ws: seq<Spot>, words: set<string>): (k: nat)
    ensures k <= |ws|
    ensures forall j | 0 <= j < k :: ws[j].word !in words
    ensures k < |ws| ==> ws[k].word in words
  {
    if ws == [] || ws[0].word in words then 0
    else
      var k := First(ws[1..], words);
      assert forall j | 0 < j <= k :: ws[j].word == ws[1..][j - 1].word;
      1 + k
  }

  const INTO_OR_FROM: set<string> := {"INTO", "FROM"}

  /** An INTO that names a permanent table. */
  predicate PermanentInto(u: Alphabet, r: string, spot: Spot)
    requires spot.end <= |r|
  {
    spot.word == "INTO" && !TempAt(u, r, spot.end)
  }

  lemma {:induction false} FirstOfMore(spot: Spot, ws: seq<Spot>, words: set<string>)
    ensures First([spot] + ws, words) == if spot.word in words then 0 else 1 + First(ws, words)
  {
    assert ([spot] + ws)[1..] == ws;
  }

  /** One unfolding of Words, for proofs that hide its definition. */
  lemma {:induction false} WordsStep(u: Alphabet, r: string, p: nat)
    requires p <= |r|
    ensures var w := NextWord(u, r, p);
      var e := WordEnd(u, r, w);
      Words(u, r, p) == if e == w then [] else [Spot(Word(u, r, w), e)] + Words(u, r, e)
  {
    hide NextWord, WordEnd, Word;
  }

  /** A SELECT is rejected exactly when the first INTO or FROM after it is an INTO with a permanent table. */
  lemma {:induction false} SelectRejectedIff(u: Alphabet, r: string, p: nat)
    requires p <= |r|
    ensures var ws := Words(u, r, p);
            var k := First(ws, INTO_OR_FROM);
            SelectInto(u, r, p).Some? <==> k < |ws| && PermanentInto(u, r, ws[k])
    decreases |r| - p
  {
    hide NextWord, WordEnd, Word, TempAt, Words, First;
    WordsStep(u, r, p);
    var w := NextWord(u, r, p);
    var e := WordEnd(u, r, w);
    if e > w {
      SelectRejectedIff(u, r, e);
      FirstOfMore(Spot(Word(u, r, w), e), Words(u, r, e), INTO_OR_FROM);
    }
  }

  /** After WITH the first data keyword decides, whatever comes before and after it. */
  lemma {:induction false} WithRejectedIff(u: Alphabet, r: string, p: nat)
    requires p <= |r|
    ensures var ws := Words(u, r, p);
            var k := First(ws, DML);
            Cte(u, r, p).rejected == if k == |ws| || ws[k].word == "SELECT" then None else Some(ws[k].word)
    decreases |r| - p
  {
    hide NextWord, WordEnd, Word, Words, First, DML;
    WordsStep(u, r, p);
    var w := NextWord(u, r, p);
    var e := WordEnd(u, r, w);
    if e > w {
      WithRejectedIff(u, r, e);
      FirstOfMore(Spot(Word(u, r, w), e), Words(u, r, e), DML);
    }
  }

  /** The verdict on a statement that starts with SELECT or WITH, given its further words. */
  lemma QueryAcceptedIff(u: Alphabet, r: string, p: nat, keyword: string, allowExec: bool)
    requires p <= |r| && (keyword == "SELECT" || keyword == "WITH")
    ensures var ws := Words(u, r, p);
            var i, d := First(ws, INTO_OR_FROM), First(ws, DML);
            Classify(u, r, p, keyword, allowExec).rejected == None <==>
              if keyword == "SELECT" then i < |ws| ==> !PermanentInto(u, r, ws[i])
              else d < |ws| ==> ws[d].word == "SELECT"
  {
    hide Words, First, SelectInto, Cte, TempAt;
    SelectRejectedIff(u, r, p);
    WithRejectedIff(u, r, p);
  }

  /**
   An accepted statement that has an INTO with a permanent table does not start with SELECT, or has
   another INTO or a FROM in front of it. After WITH it may stand anywhere behind a SELECT.
   */
  lemma AcceptedInto(u: Alphabet, r: string, p: nat, keyword: string, allowExec: bool, k: nat)
    requires p <= |r| && Classify(u, r, p, keyword, allowExec).rejected == None
    requires k < |Words(u, r, p)| && PermanentInto(u, r, Words(u, r, p)[k])
    ensures var ws := Words(u, r, p);
            && (keyword == "SELECT" ==> First(ws, INTO_OR_FROM) < k)
            && (keyword == "WITH" && First(ws, DML) < |ws| ==> ws[First(ws, DML)].word == "SELECT")
  {
    hide Words, First, Classify, TempAt;
    if keyword == "SELECT" || keyword == "WITH" {
      QueryAcceptedIff(u, r, p, keyword, allowExec);
    }
  }

  /** The first statement of an accepted text is accepted. */
  lemma {:induction false} AcceptedFirst(u: Alphabet, r: string, p: nat, allowExec: bool)
    requires p <= |r| && Check(u, r, p, allowExec) == None
    ensures var w := StatementWord(u, r, p);
            w < |r| ==> Classify(u, r, WordEnd(u, r, w), Word(u, r, w), allowExec).rejected == None
  {
    hide Check, Classify, StatementWord, WordEnd, Word;
    CheckStep(u, r, p, allowExec);
  }

  // ---------- A WITH that writes a permanent table ----------

  const WITH_INTO := "WITH C AS(SELECT 1)SELECT 2 INTO T"

  lemma {:induction false} WordIs(u: Alphabet, r: string, i: nat, j: nat)
    requires i <= j <= |r| && (forall k | i <= k < j :: WordChar(u, r[k])) && (j < |r| ==> !WordChar(u, r[j]))
    ensures WordEnd(u, r, i) == j
    decreases j - i
  {
    if i < j {
      WordIs(u, r, i + 1, j);
    }
  }

  /** Neither blank, nor the start of a comment. */
  predicate Solid(u: Alphabet, r: string, p: nat) {
    p < |r| && !u.isSpace(r[p]) && r[p] != '-' && r[p] != '/'
  }

  lemma NextWordHere(u: Alphabet, r: string, p: nat)
    requires Solid(u, r, p) && WordChar(u, r[p]) && !Skipped(r[p])
    ensures NextWord(u, r, p) == p
  {
    GapStep(u, r, p);
  }

  lemma NextWordAfterBlank(u: Alphabet, r: string, p: nat)
    requires p < |r| && u.isSpace(r[p]) && Solid(u, r, p + 1) && WordChar(u, r[p + 1]) && !Skipped(r[p + 1])
    ensures NextWord(u, r, p) == p + 1
  {
    GapStep(u, r, p);
    GapStep(u, r, p + 1);
  }

  lemma NextWordAfterParens(u: Alphabet, r: string, p: nat)
    requires Solid(u, r, p) && r[p] == '('
    ensures NextWord(u, r, p) == NextWord(u, r, ParensEnd(r, p + 1, 1))
  {
    GapStep(u, r, p);
  }

  lemma {:induction false} ParensCloseAt(r: string, p: nat, q: nat)
    requires p <= q < |r| && r[q] == ')'
    requires forall k | p <= k < q :: !OpensQuote(r[k]) && r[k] != '-' && r[k] != '/' && r[k] != '(' && r[k] != ')'
    ensures ParensEnd(r, p, 1) == q + 1
    decreases q - p
  {
    if p < q {
      ParensCloseAt(r, p + 1, q);
    }
  }

  lemma {:induction false} NoSemicolonLeft(r: string, p: nat)
    requires p <= |r| && forall k | p <= k < |r| :: !OpensQuote(r[k]) && r[k] != '-' && r[k] != '/' && r[k] != ';'
    ensures StatementEnd(r, p) == |r|
    decreases |r| - p
  {
    if p < |r| {
      NoSemicolonLeft(r, p + 1);
    }
  }

  lemma CheckNothing(u: Alphabet, r: string, allowExec: bool)
    ensures Check(u, r, |r|, allowExec) == None
  {
  }

  /** The characters of the text, where they matter. */
  lemma WithIntoSpelled()
    ensures var r := WITH_INTO;
      && |r| == 34
      && (forall k | 0 <= k < 34 :: r[k] == ' ' <==> k == 4 || k == 6 || k == 16 || k == 25 || k == 27 || k == 32)
      && (forall k | 0 <= k < 34 :: r[k] == '(' <==> k == 9)
      && (forall k | 0 <= k < 34 :: r[k] == ')' <==> k == 18)
      && (forall k | 0 <= k < 34 :: r[k] in " ()" || '0' <= r[k] <= '9' || 'A' <= r[k] <= 'Z')
  {
  }

  lemma WithIntoClasses(u: Alphabet)
    requires ValidAlphabet(u)
    ensures var r := WITH_INTO;
      && |r| == 34 && r[9] == '(' && r[18] == ')'
      && (forall k | 0 <= k < 34 :: u.isSpace(r[k]) <==> r[k] == ' ')
      && (forall k | 0 <= k < 34 :: WordChar(u, r[k]) <==> r[k] !in " ()")
      && (forall k | 0 <= k < 34 :: !OpensQuote(r[k]) && r[k] != '-' && r[k] != '/' && r[k] != ';')
  {
    hide WITH_INTO;
    WithIntoSpelled();
  }

  lemma WithIntoWords(u: Alphabet)
    requires ValidAlphabet(u)
    ensures var r := WITH_INTO;
      |r| == 34 && Upper(u, r[0..4]) == "WITH" && Upper(u, r[19..25]) == "SELECT"
  {
    var r := WITH_INTO;
    assert r[0..4] == "WITH" && r[19..25] == "SELECT";
  }

  lemma ShortIsNoDml(word: string)
    requires |word| < 5
    ensures word !in DML
  {
  }

  lemma WithIsNoOther()
    ensures "WITH" !in ALLOWED && "SELECT" in DML
  {
  }

  /** Accepted, though it writes the table T: the SELECT after WITH ends the look at the statement. */
  lemma WithIntoPasses(u: Alphabet, allowExec: bool)
    requires ValidAlphabet(u)
    ensures Check(u, WITH_INTO, 0, allowExec) == None
  {
    hide WITH_INTO, WordChar, ValidAlphabet, GapEnd, NextWord, WordEnd, StatementEnd, ParensEnd, Check, ALLOWED, DML;
    var r := WITH_INTO;
    WithIntoSpelled();
    WithIntoClasses(u);
    WithIntoWords(u);
    WithIsNoOther();
    CheckStep(u, r, 0, allowExec);
    GapStep(u, r, 0);
    WordIs(u, r, 0, 4);
    NextWordAfterBlank(u, r, 4);
    WordIs(u, r, 5, 6);
    ShortIsNoDml(Word(u, r, 5));
    NextWordAfterBlank(u, r, 6);
    WordIs(u, r, 7, 9);
    ShortIsNoDml(Word(u, r, 7));
    NextWordAfterParens(u, r, 9);
    ParensCloseAt(r, 10, 18);
    NextWordHere(u, r, 19);
    WordIs(u, r, 19, 25);
    CteStep(u, r, 4);
    CteStep(u, r, 6);
    CteStep(u, r, 9);
    NoSemicolonLeft(r, 25);
    CheckNothing(u, r, allowExec);
    StatementWordHere(u, r);
  }

  lemma {:induction false} CteStep(u: Alphabet, r: string, p: nat)
    requires p <= |r|
    ensures var w := NextWord(u, r, p);
      var e := WordEnd(u, r, w);
      Cte(u, r, p) ==
        if e == w then Verdict(None, w)
        else if Word(u, r, w) !in DML then Cte(u, r, e)
        else if Word(u, r, w) == "SELECT" then Verdict(None, e)
        else Verdict(Some(Word(u, r, w)), e)
  {
  }

  lemma {:induction false} StatementWordHere(u: Alphabet, r: string)
    requires Solid(u, r, 0) && WordChar(u, r[0]) && r[0] != ';'
    ensures StatementWord(u, r, 0) == 0
  {
    GapStep(u, r, 0);
  }
}
