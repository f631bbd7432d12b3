/**
 The read-only check on statements put together from words, quoted texts, comments, signs and
 parentheses: its words are the words that were put in, and they decide as the program promises.
 */
module ReadOnlyPieces {
  import opened Runes
  import opened Unicode
  import opened LexingLaws
  import opened ReadOnly
  import opened ReadOnlyWords
  import opened ReadOnlyLaws

  /** A piece of a statement; every piece is written with a blank or a line end behind it. */
  datatype Piece =
    | Name(w: string)
    | Quote(open: char, s: string)
    | LineNote(s: string)
    | BlockNote(s: string)
    | Sign(c: char)
    | Parens(inside: seq<Piece>)

  predicate NameChar(c: char) {
    'A' <= c <= 'Z' || 'a' <= c <= 'z' || '0' <= c <= '9' || c == '_' || c == '#' || c == '@'
  }

  predicate Proper(piece: Piece) {
    match piece
    case Name(w) => w != "" && forall c | c in w :: NameChar(c)
    case Quote(open, _) => open == '\'' || open == '"' || open == '['
    case LineNote(s) => '\n' !in s
    case BlockNote(s) => NoSigns(s, 0, |s|) && (s != "" ==> s[|s| - 1] != '/')
    case Sign(c) => c in ",.=<>+-*/%!&|^~:"
    case Parens(inside) => forall p | p in inside :: Proper(p)
  }

  function Laid(piece: Piece): string {
    match piece
    case Name(w) => w + " "
    case Quote(open, s) =>
      var close := if open == '[' then ']' else open;
      [open] + Escaped(s, close) + [close] + " "
    case LineNote(s) => "--" + s + "\n"
    case BlockNote(s) => "/*" + s + "*/" + " "
    case Sign(c) => [c] + " "
    case Parens(inside) => "( " + LaidAll(inside) + ") "
  }

  function LaidAll(pieces: seq<Piece>): string {
    if pieces == [] then "" else Laid(pieces[0]) + LaidAll(pieces[1..])
  }

  /** The names outside parentheses, in upper case. */
  function NamesIn(u: Alphabet, pieces: seq<Piece>): seq<string> {
    if pieces == [] then []
    else (if pieces[0].Name? then [Upper(u, pieces[0].w)] else []) + NamesIn(u, pieces[1..])
  }

  function Spelled(ws: seq<Spot>): seq<string> {
    if ws == [] then [] else [ws[0].word] + Spelled(ws[1..])
  }

  // ---------- One token ----------

  /** A quoted text or a comment is one token. */
  lemma TokenOver(t: string, p: nat, piece: Piece)
    requires Proper(piece) && StandsAt(t, p, Laid(piece))
    requires piece.Quote? || piece.LineNote? || piece.BlockNote?
    ensures p + |Laid(piece)| <= |t| && p < |t|
    ensures TokenEnd(t, p) == p + |Laid(piece)| - if piece.LineNote? then 0 else 1
    ensures piece.LineNote? ==> Pair(t, p, '-', '-') && LineCommentEnd(t, p + 2) == p + |Laid(piece)|
    ensures piece.BlockNote? ==> Pair(t, p, '/', '*') && BlockCommentEnd(t, p + 2, 1) == p + |Laid(piece)| - 1
    ensures piece.Quote? ==> t[p] == piece.open && QuoteEnd(t, p + 1, QuoteCloser(piece.open)) == p + |Laid(piece)| - 1
  {
    hide Escaped, QuoteEnd, LineCommentEnd, BlockCommentEnd, NoSigns, StandsAt;
    match piece {
      case Quote(open, s) => QuoteOver(t, p, open, s);
      case LineNote(s) => LineOver(t, p, s);
      case BlockNote(s) => BlockOver(t, p, s);
    }
    LaidLength(t, p, piece);
  }

  lemma LaidLength(t: string, p: nat, piece: Piece)
    requires StandsAt(t, p, Laid(piece))
    ensures p + |Laid(piece)| <= |t|
  {
  }

  lemma LineOver(t: string, p: nat, s: string)
    requires Proper(LineNote(s)) && StandsAt(t, p, Laid(LineNote(s)))
    ensures Pair(t, p, '-', '-') && LineCommentEnd(t, p + 2) == p + |s| + 3
  {
    hide LineCommentEnd;
    var all := Laid(LineNote(s));
    RuneAt(t, p, all, 0);
    RuneAt(t, p, all, 1);
    forall k | p + 2 <= k < p + 2 + |s| ensures t[k] != '\n' {
      RuneAt(t, p, all, k - p);
      assert all[k - p] == s[k - p - 2] && s[k - p - 2] in s;
    }
    RuneAt(t, p, all, |s| + 2);
    LineCommentEndIs(t, p + 2, p + 2 + |s|);
  }

  lemma QuoteOver(t: string, p: nat, open: char, s: string)
    requires Proper(Quote(open, s)) && StandsAt(t, p, Laid(Quote(open, s)))
    ensures p < |t| && t[p] == open
    ensures QuoteEnd(t, p + 1, QuoteCloser(open)) == p + |Laid(Quote(open, s))| - 1
  {
    hide Escaped, QuoteEnd;
    var close := QuoteCloser(open);
    var body := Escaped(s, close) + [close];
    var all := Laid(Quote(open, s));
    Regroup([open], Escaped(s, close), [close]);
    Regroup([open], body, " ");
    StandsIn(t, p, [open], body + " ");
    RuneAt(t, p, [open], 0);
    StandsIn(t, p + 1, body, " ");
    RuneAt(t, p + 1 + |body|, " ", 0);
    QuoteEndIs(t, p + 1, s, close);
  }

  lemma BlockOver(t: string, p: nat, s: string)
    requires Proper(BlockNote(s)) && StandsAt(t, p, Laid(BlockNote(s)))
    ensures Pair(t, p, '/', '*') && BlockCommentEnd(t, p + 2, 1) == p + |s| + 4
  {
    hide BlockCommentEnd;
    var all := Laid(BlockNote(s));
    var e := p + 2 + |s|;
    forall k | 0 <= k < |all| ensures t[p + k] == all[k] {
      RuneAt(t, p, all, k);
    }
    assert Pair(t, p, '/', '*') by {
      assert all[0] == '/' && all[1] == '*';
    }
    assert t[e] == '*' && t[e + 1] == '/' by {
      assert all[|s| + 2] == '*' && all[|s| + 3] == '/';
    }
    forall k | p + 2 <= k < e ensures !Pair(t, k, '/', '*') && !Pair(t, k, '*', '/') {
      assert all[k - p] == s[k - p - 2];
      if k + 1 < e {
        assert all[k + 1 - p] == s[k - p - 1];
        assert !Pair(s, k - p - 2, '/', '*') && !Pair(s, k - p - 2, '*', '/');
      }
    }
    CommentGoesOn(t, p + 2, e, 1);
    CommentStep(t, e, 1);
  }

  // ---------- Parentheses ----------

  lemma {:induction false} ParensStep(t: string, p: nat, depth: nat)
    requires p < |t|
    ensures ParensEnd(t, p, depth) ==
            if t[p] == '(' then ParensEnd(t, p + 1, depth + 1)
            else if t[p] == ')' then if depth <= 1 then p + 1 else ParensEnd(t, p + 1, depth - 1)
            else ParensEnd(t, TokenEnd(t, p), depth)
  {
  }

  /** Characters that stand for themselves. */
  predicate PlainAt(t: string, k: nat) {
    k < |t| && !OpensQuote(t[k]) && t[k] != '(' && t[k] != ')' && !Pair(t, k, '-', '-') && !Pair(t, k, '/', '*')
  }

  lemma {:induction false} ParensOverPlain(t: string, p: nat, q: nat, depth: nat)
    requires p <= q <= |t| && forall k | p <= k < q :: PlainAt(t, k)
    ensures ParensEnd(t, p, depth) == ParensEnd(t, q, depth)
    decreases q - p
  {
    hide ParensEnd;
    if p < q {
      assert PlainAt(t, p);
      ParensStep(t, p, depth);
      ParensOverPlain(t, p + 1, q, depth);
    }
  }

  /** The characters of a name and of a sign, and the blank behind them. */
  lemma PlainOver(t: string, p: nat, piece: Piece)
    requires Proper(piece) && StandsAt(t, p, Laid(piece)) && (piece.Name? || piece.Sign?)
    ensures forall k | p <= k < p + |Laid(piece)| :: PlainAt(t, k)
    ensures forall k | p <= k < p + |Laid(piece)| - 1 :: piece.Name? ==> NameChar(t[k])
    ensures piece.Sign? ==> t[p] == piece.c
    ensures t[p + |Laid(piece)| - 1] == ' '
  {
    var all := Laid(piece);
    forall k | 0 <= k < |all| ensures t[p + k] == all[k] {
      RuneAt(t, p, all, k);
    }
    forall k | p <= k < p + |all| - 1 ensures piece.Name? ==> NameChar(t[k]) {
      assert t[p + (k - p)] == all[k - p];
      assert piece.Name? ==> all[k - p] == piece.w[k - p] && piece.w[k - p] in piece.w;
    }
    assert t[p + (|all| - 1)] == all[|all| - 1] == ' ';
    assert t[p + 0] == all[0];
    forall k | p <= k < p + |all| ensures PlainAt(t, k) {
    }
  }

  lemma BlankBehind(t: string, p: nat, piece: Piece)
    requires StandsAt(t, p, Laid(piece)) && !piece.LineNote?
    ensures |Laid(piece)| >= 1 && t[p + |Laid(piece)| - 1] == ' '
  {
    hide Escaped, LaidAll;
    RuneAt(t, p, Laid(piece), |Laid(piece)| - 1);
  }

  lemma {:induction false} ParensOver(t: string, p: nat, piece: Piece, depth: nat)
    requires Proper(piece) && StandsAt(t, p, Laid(piece)) && depth >= 1
    ensures ParensEnd(t, p, depth) == ParensEnd(t, p + |Laid(piece)|, depth)
    decreases piece
  {
    hide ParensEnd, TokenEnd, Laid;
    var q := p + |Laid(piece)|;
    if piece.Name? || piece.Sign? {
      PlainOver(t, p, piece);
      ParensOverPlain(t, p, q, depth);
    } else if piece.Parens? {
      InsideParens(t, p, piece.inside);
      ParensStep(t, p, depth);
      ParensOverPlain(t, p + 1, p + 2, depth + 1);
      ParensOverAll(t, p + 2, piece.inside, depth + 1);
      ParensStep(t, q - 2, depth + 1);
      ParensOverPlain(t, q - 1, q, depth);
    } else {
      TokenOver(t, p, piece);
      ParensStep(t, p, depth);
      TokenIsNoParen(t, p, piece);
      if !piece.LineNote? {
        BlankBehind(t, p, piece);
        ParensOverPlain(t, q - 1, q, depth);
      }
    }
  }

  lemma TokenIsNoParen(t: string, p: nat, piece: Piece)
    requires Proper(piece) && StandsAt(t, p, Laid(piece))
    requires piece.Quote? || piece.LineNote? || piece.BlockNote?
    ensures p < |t| && t[p] != '(' && t[p] != ')' && t[p] != ' ' && t[p] != ';' && (piece.Quote? ==> OpensQuote(t[p]))
  {
    hide Escaped;
    RuneAt(t, p, Laid(piece), 0);
  }

  /** Where the parts of a parenthesised piece stand. */
  lemma InsideParens(t: string, p: nat, inside: seq<Piece>)
    requires StandsAt(t, p, Laid(Parens(inside)))
    ensures var q := p + |Laid(Parens(inside))|;
            && q == p + |LaidAll(inside)| + 4 && q <= |t|
            && t[p] == '(' && PlainAt(t, p + 1) && t[p + 1] == ' ' && StandsAt(t, p + 2, LaidAll(inside))
            && t[q - 2] == ')' && PlainAt(t, q - 1) && t[q - 1] == ' '
  {
    hide LaidAll;
    var body := LaidAll(inside);
    Regroup("( ", body, ") ");
    StandsIn(t, p, "( ", body + ") ");
    RuneAt(t, p, "( ", 0);
    RuneAt(t, p, "( ", 1);
    StandsIn(t, p + 2, body, ") ");
    RuneAt(t, p + 2 + |body|, ") ", 0);
    RuneAt(t, p + 2 + |body|, ") ", 1);
  }

  lemma {:induction false} ParensOverAll(t: string, p: nat, pieces: seq<Piece>, depth: nat)
    requires (forall x | x in pieces :: Proper(x)) && StandsAt(t, p, LaidAll(pieces)) && depth >= 1
    ensures ParensEnd(t, p, depth) == ParensEnd(t, p + |LaidAll(pieces)|, depth)
    decreases pieces
  {
    hide ParensEnd, Laid, Proper;
    if pieces != [] {
      var rest := pieces[1..];
      StandsIn(t, p, Laid(pieces[0]), LaidAll(rest));
      ParensOver(t, p, pieces[0], depth);
      ParensOverAll(t, p + |Laid(pieces[0])|, rest, depth);
    }
  }

  // ---------- Words ----------

  lemma {:induction false} NextWordStep(u: Alphabet, t: string, p: nat)
    requires p <= |t|
    ensures var g := GapEnd(u, t, p);
            NextWord(u, t, p) ==
            if g == |t| || t[g] == ';' || (!Skipped(t[g]) && WordChar(u, t[g])) then g
            else NextWord(u, t, SkipOne(t, g))
  {
    hide GapEnd, SkipOne;
  }

  lemma BlankIsSkipped(u: Alphabet, t: string, p: nat)
    requires ValidAlphabet(u) && p < |t| && t[p] == ' '
    ensures NextWord(u, t, p) == NextWord(u, t, p + 1)
  {
    hide GapEnd, SkipOne, NextWord;
    GapStep(u, t, p);
    NextWordStep(u, t, p);
    NextWordStep(u, t, p + 1);
  }

  /** At a character that starts neither a gap nor a word. */
  lemma NoGapHere(u: Alphabet, t: string, p: nat)
    requires ValidAlphabet(u) && p < |t| && t[p] < '\U{80}' && !AsciiSpace(t[p])
    requires !Pair(t, p, '-', '-') && !Pair(t, p, '/', '*') && t[p] != ';'
    ensures Skipped(t[p]) || !WordChar(u, t[p]) ==> NextWord(u, t, p) == NextWord(u, t, SkipOne(t, p))
    ensures !Skipped(t[p]) && WordChar(u, t[p]) ==> NextWord(u, t, p) == p
  {
    hide GapEnd, SkipOne, NextWord;
    GapStep(u, t, p);
    NextWordStep(u, t, p);
  }

  /** A name is the next word where it stands. */
  lemma NameIsWord(u: Alphabet, t: string, p: nat, w: string)
    requires ValidAlphabet(u) && Proper(Name(w)) && StandsAt(t, p, Laid(Name(w)))
    ensures NextWord(u, t, p) == p && WordEnd(u, t, p) == p + |w| && Word(u, t, p) == Upper(u, w)
    ensures NextWord(u, t, p + |w|) == NextWord(u, t, p + |w| + 1)
  {
    hide GapEnd, SkipOne, NextWord, WordEnd, Upper, Pair;
    PlainOver(t, p, Name(w));
    NamesAreWords(u, t, p, p + |w|);
    BlankEndsWord(u, t, p + |w|);
    WordIs(u, t, p, p + |w|);
    StandsIn(t, p, w, " ");
    assert PlainAt(t, p);
    NoGapHere(u, t, p);
    BlankIsSkipped(u, t, p + |w|);
  }

  lemma NamesAreWords(u: Alphabet, t: string, p: nat, q: nat)
    requires ValidAlphabet(u) && p <= q <= |t| && forall k | p <= k < q :: NameChar(t[k])
    ensures forall k | p <= k < q :: WordChar(u, t[k]) && t[k] < '\U{80}' && !AsciiSpace(t[k]) && t[k] != ';'
  {
  }

  lemma BlankEndsWord(u: Alphabet, t: string, p: nat)
    requires ValidAlphabet(u) && p < |t| && t[p] == ' '
    ensures !WordChar(u, t[p])
  {
  }

  /** Any other piece is skipped on the way to the next word. */
  lemma OtherIsSkipped(u: Alphabet, t: string, p: nat, piece: Piece)
    requires ValidAlphabet(u) && Proper(piece) && StandsAt(t, p, Laid(piece)) && !piece.Name?
    ensures NextWord(u, t, p) == NextWord(u, t, p + |Laid(piece)|)
  {
    hide GapEnd, SkipOne, NextWord, ParensEnd, QuoteEnd, LineCommentEnd, BlockCommentEnd, Laid;
    var q := p + |Laid(piece)|;
    match piece {
      case Sign(c) =>
        SignIsSkipped(u, t, p, c);
      case LineNote(s) =>
        TokenOver(t, p, piece);
        NoteIsSkipped(u, t, p);
      case BlockNote(s) =>
        TokenOver(t, p, piece);
        NoteIsSkipped(u, t, p);
        BlankBehind(t, p, piece);
        BlankIsSkipped(u, t, q - 1);
      case Quote(open, s) =>
        TokenOver(t, p, piece);
        QuoteIsSkipped(u, t, p);
        BlankBehind(t, p, piece);
        BlankIsSkipped(u, t, q - 1);
      case Parens(inside) =>
        InsideParens(t, p, inside);
        ParensOverPlain(t, p + 1, p + 2, 1);
        ParensOverAll(t, p + 2, inside, 1);
        ParensStep(t, q - 2, 1);
        ParensAreSkipped(u, t, p);
        BlankIsSkipped(u, t, q - 1);
    }
  }

  lemma SignIsSkipped(u: Alphabet, t: string, p: nat, c: char)
    requires ValidAlphabet(u) && Proper(Sign(c)) && StandsAt(t, p, Laid(Sign(c)))
    ensures NextWord(u, t, p) == NextWord(u, t, p + |Laid(Sign(c))|)
  {
    hide GapEnd, NextWord, Pair, AsciiSpace, ValidAlphabet;
    PlainOver(t, p, Sign(c));
    assert PlainAt(t, p);
    SignIsNoWord(u, c);
    NoGapHere(u, t, p);
    BlankIsSkipped(u, t, p + 1);
  }

  lemma SignIsNoWord(u: Alphabet, c: char)
    requires ValidAlphabet(u) && Proper(Sign(c))
    ensures !WordChar(u, c) && !Skipped(c) && c < '\U{80}' && !AsciiSpace(c) && c != ';'
  {
    var signs := ",.=<>+-*/%!&|^~:";
    assert forall k | 0 <= k < |signs| :: signs[k] < '0' || '9' < signs[k] < '@' || signs[k] == '^' || signs[k] > 'z';
  }

  lemma QuoteIsSkipped(u: Alphabet, t: string, p: nat)
    requires ValidAlphabet(u) && p < |t| && OpensQuote(t[p])
    ensures NextWord(u, t, p) == NextWord(u, t, QuoteEnd(t, p + 1, QuoteCloser(t[p])))
  {
    hide GapEnd, NextWord, QuoteEnd;
    NoGapHere(u, t, p);
  }

  lemma ParensAreSkipped(u: Alphabet, t: string, p: nat)
    requires ValidAlphabet(u) && p < |t| && t[p] == '('
    ensures NextWord(u, t, p) == NextWord(u, t, ParensEnd(t, p + 1, 1))
  {
    hide GapEnd, NextWord, ParensEnd;
    NoGapHere(u, t, p);
  }

  lemma NoteIsSkipped(u: Alphabet, t: string, p: nat)
    requires ValidAlphabet(u) && p < |t|
    ensures Pair(t, p, '-', '-') ==> NextWord(u, t, p) == NextWord(u, t, LineCommentEnd(t, p + 2))
    ensures Pair(t, p, '/', '*') ==> NextWord(u, t, p) == NextWord(u, t, BlockCommentEnd(t, p + 2, 1))
  {
    hide GapEnd, NextWord, SkipOne, LineCommentEnd, BlockCommentEnd;
    GapStep(u, t, p);
    NextWordStep(u, t, p);
    if Pair(t, p, '-', '-') {
      NextWordStep(u, t, LineCommentEnd(t, p + 2));
    } else if Pair(t, p, '/', '*') {
      NextWordStep(u, t, BlockCommentEnd(t, p + 2, 1));
    }
  }

  lemma SameNextWord(u: Alphabet, t: string, p: nat, q: nat)
    requires p <= |t| && q <= |t| && NextWord(u, t, p) == NextWord(u, t, q)
    ensures Words(u, t, p) == Words(u, t, q)
  {
    hide NextWord, Words, WordEnd, Word;
    WordsStep(u, t, p);
    WordsStep(u, t, q);
  }

  /**
   The words of a statement are the names it was put together from, in order: nothing in quotes, in a
   comment or in parentheses is one, and nothing else is lost.
   */
  lemma {:induction false} WordsOfPieces(u: Alphabet, t: string, p: nat, pieces: seq<Piece>)
    requires ValidAlphabet(u) && (forall x | x in pieces :: Proper(x))
    requires StandsAt(t, p, LaidAll(pieces)) && p + |LaidAll(pieces)| == |t|
    ensures Spelled(Words(u, t, p)) == NamesIn(u, pieces)
    decreases |pieces|
  {
    hide NextWord, Words, WordEnd, Word, Laid, Proper, Upper;
    if pieces == [] {
      WordsAtEnd(u, t);
    } else {
      var piece, rest := pieces[0], pieces[1..];
      var q := p + |Laid(piece)|;
      StandsIn(t, p, Laid(piece), LaidAll(rest));
      WordsOfPieces(u, t, q, rest);
      if piece.Name? {
        NameIsWord(u, t, p, piece.w);
        NameLength(piece.w);
        SameNextWord(u, t, p + |piece.w|, q);
        WordsStep(u, t, p);
        SpelledFirst(Spot(Word(u, t, p), p + |piece.w|), Words(u, t, q));
        NameNotEmpty(piece.w);
      } else {
        OtherIsSkipped(u, t, p, piece);
        SameNextWord(u, t, p, q);
      }
    }
  }

  lemma NameLength(w: string)
    ensures |Laid(Name(w))| == |w| + 1
  {
  }

  lemma NameNotEmpty(w: string)
    requires Proper(Name(w))
    ensures |w| > 0
  {
  }

  lemma SpelledFirst(spot: Spot, ws: seq<Spot>)
    ensures Spelled([spot] + ws) == [spot.word] + Spelled(ws)
  {
    assert ([spot] + ws)[1..] == ws;
  }

  lemma WordsAtEnd(u: Alphabet, t: string)
    ensures Words(u, t, |t|) == []
  {
  }

  // ---------- Temporary tables ----------

  /** What follows starts with the name of a temporary table. */
  predicate Temporary(pieces: seq<Piece>) {
    pieces != [] && pieces[0].Name? && pieces[0].w != "" && pieces[0].w[0] == '#'
  }

  lemma FirstCharacter(u: Alphabet, piece: Piece)
    requires ValidAlphabet(u) && Proper(piece)
    ensures Laid(piece) != "" && !u.isSpace(Laid(piece)[0]) && (Laid(piece)[0] == '#' <==> Temporary([piece]))
  {
    hide Escaped, LaidAll;
    match piece {
      case Name(w) =>
        assert w[0] in w && Laid(piece)[0] == w[0];
      case Sign(c) =>
        assert Laid(piece)[0] == c && c != '#';
        SignIsNoWord(u, c);
      case Quote(open, s) =>
        assert Laid(piece)[0] == open;
      case _ =>
    }
  }

  lemma TemporaryBehind(u: Alphabet, t: string, p: nat, pieces: seq<Piece>)
    requires ValidAlphabet(u) && (forall x | x in pieces :: Proper(x)) && p < |t| && t[p] == ' '
    requires StandsAt(t, p + 1, LaidAll(pieces)) && p + 1 + |LaidAll(pieces)| == |t|
    ensures TempAt(u, t, p) <==> Temporary(pieces)
  {
    hide Laid, Proper;
    if pieces != [] {
      FirstCharacter(u, pieces[0]);
      StandsIn(t, p + 1, Laid(pieces[0]), LaidAll(pieces[1..]));
      RuneAt(t, p + 1, Laid(pieces[0]), 0);
      assert SpaceEnd(u, t, p + 1) == p + 1;
    } else {
      assert p + 1 == |t| && SpaceEnd(u, t, p + 1) == |t|;
    }
    assert SpaceEnd(u, t, p) == SpaceEnd(u, t, p + 1);
  }

  /** The first INTO or FROM is an INTO that names a permanent table. */
  predicate IntoPermanent(u: Alphabet, pieces: seq<Piece>) {
    if pieces == [] then false
    else if pieces[0].Name? && Upper(u, pieces[0].w) == "FROM" then false
    else if pieces[0].Name? && Upper(u, pieces[0].w) == "INTO" then !Temporary(pieces[1..])
    else IntoPermanent(u, pieces[1..])
  }

  /** The first name is TABLE, and a temporary one follows. */
  predicate TemporaryTable(u: Alphabet, pieces: seq<Piece>) {
    if pieces == [] then false
    else if pieces[0].Name? then Upper(u, pieces[0].w) == "TABLE" && Temporary(pieces[1..])
    else TemporaryTable(u, pieces[1..])
  }

  /** pieces make up the text from p on. */
  predicate Ends(t: string, p: nat, pieces: seq<Piece>) {
    (forall x | x in pieces :: Proper(x)) && StandsAt(t, p, LaidAll(pieces)) && p + |LaidAll(pieces)| == |t|
  }

  /** The first piece and the rest; what the first one does to the search for the next word. */
  lemma EndsFirst(u: Alphabet, t: string, p: nat, pieces: seq<Piece>)
    requires ValidAlphabet(u) && Ends(t, p, pieces)
    ensures pieces == [] ==> p == |t| && NextWord(u, t, p) == |t|
    ensures pieces != [] ==>
              var piece, q := pieces[0], p + |Laid(pieces[0])|;
              && StandsAt(t, p, Laid(piece)) && Ends(t, q, pieces[1..])
              && if piece.Name? then
                   && q == p + |piece.w| + 1 && |piece.w| > 0 && t[q - 1] == ' '
                   && NextWord(u, t, p) == p && WordEnd(u, t, p) == q - 1 && Word(u, t, p) == Upper(u, piece.w)
                   && NextWord(u, t, q - 1) == NextWord(u, t, q)
                   && (TempAt(u, t, q - 1) <==> Temporary(pieces[1..]))
                 else NextWord(u, t, p) == NextWord(u, t, q)
  {
    hide NextWord, WordEnd, Word, Laid, Proper, Upper, TempAt, Temporary;
    if pieces != [] {
      var piece, rest := pieces[0], pieces[1..];
      StandsIn(t, p, Laid(piece), LaidAll(rest));
      if piece.Name? {
        NameIsWord(u, t, p, piece.w);
        NameLength(piece.w);
        NameNotEmpty(piece.w);
        BlankBehind(t, p, piece);
        TemporaryBehind(u, t, p + |piece.w|, rest);
      } else {
        OtherIsSkipped(u, t, p, piece);
      }
    } else {
      NextWordAtEnd(u, t);
    }
  }

  lemma NextWordAtEnd(u: Alphabet, t: string)
    ensures NextWord(u, t, |t|) == |t|
  {
  }

  lemma {:induction false} SelectStep(u: Alphabet, t: string, p: nat, q: nat)
    requires p <= |t| && q <= |t| && NextWord(u, t, p) == NextWord(u, t, q)
    ensures SelectInto(u, t, p) == SelectInto(u, t, q)
  {
    hide NextWord, WordEnd, Word, TempAt;
  }

  lemma {:induction false} SelectUnfold(u: Alphabet, t: string, p: nat)
    requires p <= |t|
    ensures var w := NextWord(u, t, p);
            var e := WordEnd(u, t, w);
            SelectInto(u, t, p) ==
            if e == w || Word(u, t, w) == "FROM" then None
            else if Word(u, t, w) == "INTO" then if TempAt(u, t, e) then None else Some("SELECT INTO")
            else SelectInto(u, t, e)
  {
    hide NextWord, WordEnd, Word, TempAt;
  }

  lemma {:induction false} SelectOfPieces(u: Alphabet, t: string, p: nat, pieces: seq<Piece>)
    requires ValidAlphabet(u) && Ends(t, p, pieces)
    ensures SelectInto(u, t, p) == if IntoPermanent(u, pieces) then Some("SELECT INTO") else None
    decreases |pieces|
  {
    hide NextWord, WordEnd, Word, TempAt, Temporary, Upper, Laid, Ends, SelectInto;
    EndsFirst(u, t, p, pieces);
    SelectUnfold(u, t, p);
    if pieces == [] {
      NoWordAtEnd(u, t);
    } else {
      var q := p + |Laid(pieces[0])|;
      SelectOfPieces(u, t, q, pieces[1..]);
      SelectStep(u, t, if pieces[0].Name? then q - 1 else p, q);
    }
  }

  lemma NoWordAtEnd(u: Alphabet, t: string)
    ensures WordEnd(u, t, |t|) == |t| && Word(u, t, |t|) == ""
  {
  }

  lemma {:induction false} CreateOfPieces(u: Alphabet, t: string, p: nat, pieces: seq<Piece>)
    requires ValidAlphabet(u) && Ends(t, p, pieces)
    ensures CreateTemp(u, t, p).rejected == if TemporaryTable(u, pieces) then None else Some("CREATE")
    decreases |pieces|
  {
    hide NextWord, WordEnd, Word, TempAt, Temporary, Upper, Laid, Ends;
    EndsFirst(u, t, p, pieces);
    if pieces == [] {
      NoWordAtEnd(u, t);
    } else if !pieces[0].Name? {
      CreateOfPieces(u, t, p + |Laid(pieces[0])|, pieces[1..]);
    }
  }

  // ---------- The verdict ----------

  lemma {:induction false} NoSemicolonEnds(t: string, p: nat)
    requires ';' !in t && p <= |t|
    ensures StatementEnd(t, p) == |t|
    decreases |t| - p
  {
    if p < |t| {
      assert t[p] in t;
      NoSemicolonEnds(t, TokenEnd(t, p));
    }
  }

  /** The first of the words that is a data keyword. */
  function DataKeyword(ws: seq<string>): Option<string> {
    if ws == [] then None
    else if ws[0] in ["SELECT", "INSERT", "UPDATE", "DELETE", "MERGE"] then Some(ws[0])
    else DataKeyword(ws[1..])
  }

  lemma {:induction false} FirstIsDataKeyword(ws: seq<Spot>)
    ensures var k := First(ws, DML);
            DataKeyword(Spelled(ws)) == if k == |ws| then None else Some(ws[k].word)
  {
    if ws != [] {
      var rest := ws[1..];
      FirstIsDataKeyword(rest);
      assert ws == [ws[0]] + rest;
      FirstOfMore(ws[0], rest, DML);
    }
  }

  lemma FirstSpelled(ws: seq<Spot>)
    ensures |Spelled(ws)| > 0 <==> |ws| > 0
    ensures ws != [] ==> Spelled(ws)[0] == ws[0].word
  {
  }

  const HARMLESS: seq<string> := [
    "SET", "DECLARE", "PRINT", "USE", "IF", "ELSE", "END", "WHILE", "RETURN", "THROW", "RAISERROR", "WAITFOR", "BREAK",
    "CONTINUE", "GOTO", "TRY", "CATCH"]

  /** What the program promises about a statement that starts with word and goes on with pieces. */
  ghost predicate Promised(u: Alphabet, word: string, pieces: seq<Piece>, allowExec: bool, r: Option<string>) {
    var ws := NamesIn(u, pieces);
    && (word in HARMLESS ==> r == None)
    && (word in WRITING ==> r == Some(word))
    && (word == "EXEC" || word == "EXECUTE" ==> r == if allowExec then None else Some(word))
    && (word == "SELECT" ==> r == if IntoPermanent(u, pieces) then Some("SELECT INTO") else None)
    && (word == "CREATE" ==> r == if TemporaryTable(u, pieces) then None else Some("CREATE"))
    && (word == "BEGIN" ==>
          r == if ws != [] && ws[0] == "TRAN" then Some("BEGIN TRAN")
               else if ws != [] && ws[0] == "TRANSACTION" then Some("BEGIN TRANSACTION")
               else None)
    && (word == "WITH" ==> r == if DataKeyword(ws) == Some("SELECT") then None else DataKeyword(ws))
  }

  lemma ClassifyOfPieces(u: Alphabet, t: string, p: nat, q: nat, word: string, pieces: seq<Piece>, allowExec: bool)
    requires ValidAlphabet(u) && p <= |t| && Ends(t, q, pieces) && NextWord(u, t, p) == NextWord(u, t, q)
    ensures Promised(u, word, pieces, allowExec, Classify(u, t, p, word, allowExec).rejected)
  {
    hide Words, NextWord, WordEnd, Word, Ends, SelectInto, CreateTemp, BeginTran, Cte, Laid, LaidAll, HARMLESS, WRITING,
      IntoPermanent, TemporaryTable, ALLOWED, NamesIn, DataKeyword, Spelled;
    SelectOfPieces(u, t, q, pieces);
    SelectStep(u, t, p, q);
    CreateOfPieces(u, t, q, pieces);
    CreateStep(u, t, p, q);
    PiecesWords(u, t, q, pieces);
    SameNextWord(u, t, p, q);
    FirstSpelled(Words(u, t, p));
    BeginRejectedIff(u, t, p, allowExec);
    WithRejectedIff(u, t, p);
    FirstIsDataKeyword(Words(u, t, p));
    Apart(word);
    if word in WRITING {
      WritingIsRejected(u, t, p, word, allowExec);
    }
    if word in HARMLESS {
      ListedIsAccepted(u, t, p, word, allowExec);
    }
  }

  lemma CreateStep(u: Alphabet, t: string, p: nat, q: nat)
    requires p <= |t| && q <= |t| && NextWord(u, t, p) == NextWord(u, t, q)
    ensures CreateTemp(u, t, p).rejected == CreateTemp(u, t, q).rejected
  {
    hide NextWord, WordEnd, Word, TempAt;
  }

  lemma PiecesWords(u: Alphabet, t: string, p: nat, pieces: seq<Piece>)
    requires ValidAlphabet(u) && Ends(t, p, pieces)
    ensures Spelled(Words(u, t, p)) == NamesIn(u, pieces)
  {
    WordsOfPieces(u, t, p, pieces);
  }

  lemma ListedIsAccepted(u: Alphabet, t: string, p: nat, word: string, allowExec: bool)
    requires p <= |t| && word in HARMLESS
    ensures Classify(u, t, p, word, allowExec).rejected == None
  {
    hide Classify;
    HarmlessIsAccepted(u, t, p, word, allowExec);
  }

  lemma Apart(word: string)
    ensures "SELECT" in ALLOWED && "CREATE" !in ALLOWED && "BEGIN" !in ALLOWED && "WITH" !in ALLOWED
    ensures "EXEC" !in ALLOWED && "EXECUTE" !in ALLOWED
  {
  }

  /**
   The verdict on a statement put together from pieces is what the program promises for its first word
   and the names behind it, whatever its quoted texts and comments say.
   */
  lemma VerdictOfPieces(u: Alphabet, k: string, pieces: seq<Piece>, allowExec: bool)
    requires ValidAlphabet(u) && Proper(Name(k)) && (forall x | x in pieces :: Proper(x))
    requires ';' !in LaidAll([Name(k)] + pieces)
    ensures Promised(u, Upper(u, k), pieces, allowExec, Check(u, LaidAll([Name(k)] + pieces), 0, allowExec))
  {
    hide Classify, Check, NextWord, WordEnd, Word, Laid, LaidAll, Proper, Promised, Upper, StatementEnd, StatementWord;
    var all := [Name(k)] + pieces;
    var t := LaidAll(all);
    assert all[1..] == pieces && all[0] == Name(k);
    assert t[..|t|] == t;
    EndsFirst(u, t, 0, all);
    StatementHere(u, t, k);
    CheckStep(u, t, 0, allowExec);
    ClassifyOfPieces(u, t, |k|, |k| + 1, Upper(u, k), pieces, allowExec);
    var v := Classify(u, t, |k|, Upper(u, k), allowExec);
    NoSemicolonEnds(t, v.pos);
    CheckNothing(u, t, allowExec);
  }

  lemma StatementHere(u: Alphabet, t: string, k: string)
    requires ValidAlphabet(u) && Proper(Name(k)) && StandsAt(t, 0, Laid(Name(k)))
    ensures StatementWord(u, t, 0) == 0
  {
    PlainOver(t, 0, Name(k));
    NamesAreWords(u, t, 0, |k|);
    assert PlainAt(t, 0);
    GapStep(u, t, 0);
  }
}
