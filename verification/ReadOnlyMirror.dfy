/**
 Two-run theorem for the read-only check: a text that differs from the rest of another only in
 the case of ASCII letters gets the same verdict, at the same offset. Case blindness and
 independence of what was read before are its two instances.
 */
module ReadOnlyMirror {
  import opened Runes
  import opened ReadOnly
  import opened Unicode

  /** Equal up to ASCII case. */
  predicate SameRune(x: char, y: char) {
    x == y || (AsciiLetter(x) && AsciiLetter(y) && AsciiUpper(x) == AsciiUpper(y))
  }

  /** From offset d on, b is a up to ASCII case. */
  ghost predicate Mirrors(a: string, b: string, d: nat) {
    |b| == |a| + d && forall p {:trigger a[p]} | 0 <= p < |a| :: SameRune(a[p], b[p + d])
  }

  lemma SameClass(u: Alphabet, x: char, y: char)
    requires ValidAlphabet(u) && SameRune(x, y)
    ensures u.isSpace(x) == u.isSpace(y) && WordChar(u, x) == WordChar(u, y) && u.upper(x) == u.upper(y)
  {
  }

  lemma {:induction false} MirrorSpace(u: Alphabet, a: string, b: string, d: nat, p: nat)
    requires ValidAlphabet(u) && Mirrors(a, b, d) && p <= |a|
    ensures SpaceEnd(u, b, p + d) == SpaceEnd(u, a, p) + d
    decreases |a| - p
  {
    if p < |a| {
      SameClass(u, a[p], b[p + d]);
      if u.isSpace(a[p]) {
        MirrorSpace(u, a, b, d, p + 1);
      }
    }
  }

  lemma {:induction false} MirrorWordEnd(u: Alphabet, a: string, b: string, d: nat, p: nat)
    requires ValidAlphabet(u) && Mirrors(a, b, d) && p <= |a|
    ensures WordEnd(u, b, p + d) == WordEnd(u, a, p) + d
    decreases |a| - p
  {
    if p < |a| {
      SameClass(u, a[p], b[p + d]);
      if WordChar(u, a[p]) {
        MirrorWordEnd(u, a, b, d, p + 1);
      }
    }
  }

  lemma MirrorWord(u: Alphabet, a: string, b: string, d: nat, w: nat)
    requires ValidAlphabet(u) && Mirrors(a, b, d) && w <= |a|
    ensures Word(u, b, w + d) == Word(u, a, w)
  {
    MirrorWordEnd(u, a, b, d, w);
    var e := WordEnd(u, a, w);
    forall k | 0 <= k < e - w ensures u.upper(a[w..e][k]) == u.upper(b[w + d..e + d][k]) {
      SameClass(u, a[w + k], b[w + k + d]);
    }
  }

  lemma MirrorPair(a: string, b: string, d: nat, p: nat, x: char, y: char)
    requires Mirrors(a, b, d) && p <= |a| && !AsciiLetter(x) && !AsciiLetter(y)
    ensures Pair(b, p + d, x, y) == Pair(a, p, x, y)
  {
    assert p + 1 < |a| ==> SameRune(a[p], b[p + d]) && SameRune(a[p + 1], b[p + 1 + d]);
  }

  lemma {:induction false} MirrorLine(a: string, b: string, d: nat, p: nat)
    requires Mirrors(a, b, d) && p <= |a|
    ensures LineCommentEnd(b, p + d) == LineCommentEnd(a, p) + d
    decreases |a| - p
  {
    if p < |a| && a[p] != '\n' {
      MirrorLine(a, b, d, p + 1);
    }
  }

  lemma {:induction false} MirrorBlock(a: string, b: string, d: nat, p: nat, depth: nat)
    requires Mirrors(a, b, d) && p <= |a|
    ensures BlockCommentEnd(b, p + d, depth) == BlockCommentEnd(a, p, depth) + d
    decreases |a| - p
  {
    MirrorPair(a, b, d, p, '/', '*');
    MirrorPair(a, b, d, p, '*', '/');
    if p < |a| && depth > 0 {
      if Pair(a, p, '/', '*') {
        MirrorBlock(a, b, d, p + 2, depth + 1);
      } else if Pair(a, p, '*', '/') {
        MirrorBlock(a, b, d, p + 2, depth - 1);
      } else {
        MirrorBlock(a, b, d, p + 1, depth);
      }
    }
  }

  lemma {:induction false} MirrorQuote(a: string, b: string, d: nat, p: nat, closer: char)
    requires Mirrors(a, b, d) && p <= |a| && !AsciiLetter(closer)
    ensures QuoteEnd(b, p + d, closer) == QuoteEnd(a, p, closer) + d
    decreases |a| - p
  {
    MirrorPair(a, b, d, p, closer, closer);
    if p < |a| {
      if a[p] != closer {
        MirrorQuote(a, b, d, p + 1, closer);
      } else if Pair(a, p, closer, closer) {
        MirrorQuote(a, b, d, p + 2, closer);
      }
    }
  }

  /** The character at p, seen by the scanner. */
  lemma MirrorRune(u: Alphabet, a: string, b: string, d: nat, p: nat)
    requires ValidAlphabet(u) && Mirrors(a, b, d) && p <= |a|
    ensures |b| == |a| + d
    ensures p < |a| ==>
              && u.isSpace(a[p]) == u.isSpace(b[p + d])
              && WordChar(u, a[p]) == WordChar(u, b[p + d])
              && (AsciiLetter(a[p]) == AsciiLetter(b[p + d]))
              && (!AsciiLetter(a[p]) ==> a[p] == b[p + d])
  {
    if p < |a| {
      SameClass(u, a[p], b[p + d]);
    }
  }

  lemma {:induction false} MirrorGap(u: Alphabet, a: string, b: string, d: nat, p: nat)
    requires ValidAlphabet(u) && Mirrors(a, b, d) && p <= |a|
    ensures GapEnd(u, b, p + d) == GapEnd(u, a, p) + d
    decreases |a| - p
  {
    hide GapEnd, LineCommentEnd, BlockCommentEnd, Mirrors, ValidAlphabet, WordChar, Pair;
    MirrorRune(u, a, b, d, p);
    MirrorPair(a, b, d, p, '-', '-');
    MirrorPair(a, b, d, p, '/', '*');
    if p < |a| {
      GapStep(u, a, p);
      GapStep(u, b, p + d);
      if u.isSpace(a[p]) {
        MirrorGap(u, a, b, d, p + 1);
      } else if Pair(a, p, '-', '-') {
        MirrorLine(a, b, d, p + 2);
        MirrorGap(u, a, b, d, LineCommentEnd(a, p + 2));
      } else if Pair(a, p, '/', '*') {
        MirrorBlock(a, b, d, p + 2, 1);
        MirrorGap(u, a, b, d, BlockCommentEnd(a, p + 2, 1));
      }
    }
  }

  lemma MirrorToken(a: string, b: string, d: nat, p: nat)
    requires Mirrors(a, b, d) && p < |a|
    ensures TokenEnd(b, p + d) == TokenEnd(a, p) + d
  {
    MirrorPair(a, b, d, p, '-', '-');
    MirrorPair(a, b, d, p, '/', '*');
    assert SameRune(a[p], b[p + d]);
    if OpensQuote(a[p]) {
      MirrorQuote(a, b, d, p + 1, QuoteCloser(a[p]));
    } else if Pair(a, p, '-', '-') {
      MirrorLine(a, b, d, p + 2);
    } else if Pair(a, p, '/', '*') {
      MirrorBlock(a, b, d, p + 2, 1);
    }
  }

  lemma {:induction false} MirrorParens(a: string, b: string, d: nat, p: nat, depth: nat)
    requires Mirrors(a, b, d) && p <= |a|
    ensures ParensEnd(b, p + d, depth) == ParensEnd(a, p, depth) + d
    decreases |a| - p
  {
    if p < |a| {
      assert SameRune(a[p], b[p + d]);
      if a[p] == '(' {
        MirrorParens(a, b, d, p + 1, depth + 1);
      } else if a[p] == ')' {
        if depth > 1 {
          MirrorParens(a, b, d, p + 1, depth - 1);
        }
      } else {
        MirrorToken(a, b, d, p);
        MirrorParens(a, b, d, TokenEnd(a, p), depth);
      }
    }
  }

  lemma MirrorSkipOne(a: string, b: string, d: nat, g: nat)
    requires Mirrors(a, b, d) && g < |a|
    ensures SkipOne(b, g + d) == SkipOne(a, g) + d
  {
    assert SameRune(a[g], b[g + d]);
    if a[g] == '(' {
      MirrorParens(a, b, d, g + 1, 1);
    } else if OpensQuote(a[g]) {
      MirrorQuote(a, b, d, g + 1, QuoteCloser(a[g]));
    }
  }

  lemma {:induction false} MirrorNextWord(u: Alphabet, a: string, b: string, d: nat, p: nat)
    requires ValidAlphabet(u) && Mirrors(a, b, d) && p <= |a|
    ensures NextWord(u, b, p + d) == NextWord(u, a, p) + d
    decreases |a| - p
  {
    hide GapEnd, SkipOne, Mirrors, ValidAlphabet, WordChar;
    MirrorGap(u, a, b, d, p);
    var g := GapEnd(u, a, p);
    MirrorRune(u, a, b, d, g);
    if g < |a| && a[g] != ';' {
      MirrorSkipOne(a, b, d, g);
      MirrorNextWord(u, a, b, d, SkipOne(a, g));
    }
  }

  lemma {:induction false} MirrorStatementWord(u: Alphabet, a: string, b: string, d: nat, p: nat)
    requires ValidAlphabet(u) && Mirrors(a, b, d) && p <= |a|
    ensures StatementWord(u, b, p + d) == StatementWord(u, a, p) + d
    decreases |a| - p
  {
    hide GapEnd, Mirrors, ValidAlphabet, WordChar;
    MirrorGap(u, a, b, d, p);
    var g := GapEnd(u, a, p);
    MirrorRune(u, a, b, d, g);
    if g < |a| {
      if a[g] == ';' || !WordChar(u, a[g]) {
        MirrorStatementWord(u, a, b, d, g + 1);
      }
    }
  }

  lemma {:induction false} MirrorStatementEnd(a: string, b: string, d: nat, p: nat)
    requires Mirrors(a, b, d) && p <= |a|
    ensures StatementEnd(b, p + d) == StatementEnd(a, p) + d
    decreases |a| - p
  {
    if p < |a| {
      assert SameRune(a[p], b[p + d]);
      if a[p] != ';' {
        MirrorToken(a, b, d, p);
        MirrorStatementEnd(a, b, d, TokenEnd(a, p));
      }
    }
  }

  lemma MirrorTemp(u: Alphabet, a: string, b: string, d: nat, p: nat)
    requires ValidAlphabet(u) && Mirrors(a, b, d) && p <= |a|
    ensures TempAt(u, b, p + d) == TempAt(u, a, p)
  {
    MirrorSpace(u, a, b, d, p);
    var s := SpaceEnd(u, a, p);
    assert s < |a| ==> SameRune(a[s], b[s + d]);
  }

  /** The next word, its end and its spelling. */
  lemma MirrorNext(u: Alphabet, a: string, b: string, d: nat, p: nat)
    requires ValidAlphabet(u) && Mirrors(a, b, d) && p <= |a|
    ensures var w := NextWord(u, a, p);
            var e := WordEnd(u, a, w);
            && NextWord(u, b, p + d) == w + d
            && WordEnd(u, b, w + d) == e + d
            && Word(u, b, w + d) == Word(u, a, w)
            && TempAt(u, b, e + d) == TempAt(u, a, e)
            && SpaceEnd(u, b, e + d) == SpaceEnd(u, a, e) + d
  {
    hide NextWord, WordEnd, Word, SpaceEnd, TempAt, Mirrors;
    MirrorNextWord(u, a, b, d, p);
    var w := NextWord(u, a, p);
    MirrorWordEnd(u, a, b, d, w);
    MirrorWord(u, a, b, d, w);
    MirrorTemp(u, a, b, d, WordEnd(u, a, w));
    MirrorSpace(u, a, b, d, WordEnd(u, a, w));
  }

  lemma {:induction false} MirrorSelectInto(u: Alphabet, a: string, b: string, d: nat, p: nat)
    requires ValidAlphabet(u) && Mirrors(a, b, d) && p <= |a|
    ensures SelectInto(u, b, p + d) == SelectInto(u, a, p)
    decreases |a| - p
  {
    hide NextWord, WordEnd, Word, TempAt, Mirrors;
    MirrorNext(u, a, b, d, p);
    var w := NextWord(u, a, p);
    var e := WordEnd(u, a, w);
    if e > w {
      MirrorSelectInto(u, a, b, d, e);
    }
  }

  lemma {:induction false} MirrorCte(u: Alphabet, a: string, b: string, d: nat, p: nat)
    requires ValidAlphabet(u) && Mirrors(a, b, d) && p <= |a|
    ensures var v := Cte(u, a, p);
            Cte(u, b, p + d) == Verdict(v.rejected, v.pos + d)
    decreases |a| - p
  {
    hide NextWord, WordEnd, Word, TempAt, Mirrors;
    MirrorNext(u, a, b, d, p);
    var w := NextWord(u, a, p);
    var e := WordEnd(u, a, w);
    if e > w {
      MirrorCte(u, a, b, d, e);
    }
  }

  lemma MirrorClassify(u: Alphabet, a: string, b: string, d: nat, p: nat, keyword: string, allowExec: bool)
    requires ValidAlphabet(u) && Mirrors(a, b, d) && p <= |a|
    ensures var v := Classify(u, a, p, keyword, allowExec);
            Classify(u, b, p + d, keyword, allowExec) == Verdict(v.rejected, v.pos + d)
  {
    hide NextWord, WordEnd, Word, TempAt, Mirrors, SelectInto, Cte;
    MirrorNext(u, a, b, d, p);
    MirrorSelectInto(u, a, b, d, p);
    MirrorCte(u, a, b, d, p);
  }

  lemma {:induction false} MirrorCheck(u: Alphabet, a: string, b: string, d: nat, p: nat, allowExec: bool)
    requires ValidAlphabet(u) && Mirrors(a, b, d) && p <= |a|
    ensures Check(u, b, p + d, allowExec) == Check(u, a, p, allowExec)
    decreases |a| - p
  {
    hide StatementWord, StatementEnd, WordEnd, Word, Classify, Mirrors;
    MirrorStatementWord(u, a, b, d, p);
    MirrorLength(a, b, d);
    var w := StatementWord(u, a, p);
    if w < |a| {
      WordNotEmpty(u, a, w);
      MirrorWord(u, a, b, d, w);
      MirrorWordEnd(u, a, b, d, w);
      var e := WordEnd(u, a, w);
      MirrorClassify(u, a, b, d, e, Word(u, a, w), allowExec);
      var v := Classify(u, a, e, Word(u, a, w), allowExec);
      if v.rejected.None? {
        MirrorStatementEnd(a, b, d, v.pos);
        MirrorCheck(u, a, b, d, StatementEnd(a, v.pos), allowExec);
      }
    }
  }

  lemma MirrorLength(a: string, b: string, d: nat)
    requires Mirrors(a, b, d)
    ensures |b| == |a| + d
  {
  }

  lemma WordNotEmpty(u: Alphabet, r: string, w: nat)
    requires w < |r| && WordChar(u, r[w])
    ensures w < WordEnd(u, r, w)
  {
  }

  /** Case-blind: texts that differ in ASCII case only get the same verdict and keyword. */
  lemma CheckIsCaseBlind(u: Alphabet, a: string, b: string, allowExec: bool)
    requires ValidAlphabet(u) && |a| == |b|
    requires forall p | 0 <= p < |a| :: SameRune(a[p], b[p])
    ensures Check(u, a, 0, allowExec) == Check(u, b, 0, allowExec)
  {
    forall p | 0 <= p < |a| ensures SameRune(a[p], b[p + 0]) {
      assert SameRune(a[p], b[p]);
    }
    assert Mirrors(a, b, 0);
    MirrorCheck(u, a, b, 0, 0, allowExec);
  }

  /** The verdict from an offset on is the verdict of the rest of the text. */
  lemma CheckOfRest(u: Alphabet, r: string, p: nat, allowExec: bool)
    requires ValidAlphabet(u) && p <= |r|
    ensures Check(u, r, p, allowExec) == Check(u, r[p..], 0, allowExec)
  {
    MirrorCheck(u, r[p..], r, p, 0, allowExec);
  }
}
