/** Where line ends are inserted, character by character, and what that leaves open: nothing. */
module WrappingLaws {
  import opened Runes
  import opened Wrapping

  /** The column after marks that start in column pos; the characters in ends go back to the first. */
  function Column(marks: seq<Mark>, pos: int, ends: set<char>): int {
    if marks == [] then pos
    else
      match marks[0]
      case Inserted => Column(marks[1..], 0, ends)
      case Kept(c) => Column(marks[1..], if c in ends then 0 else pos + 1, ends)
  }

  /** At position k a line end is inserted exactly if the line is full and text follows that does not start with eol. */
  ghost predicate FitsAt(marks: seq<Mark>, k: nat, pos: int, w: int, eol: string)
    requires k < |marks|
  {
    var left := KeptOf(marks[k..]);
    var ends := if eol == "\r\n" then {'\r', '\n'} else {'\n'};
    marks[k].Inserted? <==> Column(marks[..k], pos, ends) == w && left != "" && !(eol <= left)
  }

  ghost predicate WrapsAt(marks: seq<Mark>, k: nat, pos: int, w: int)
    requires k < |marks|
  {
    marks[k].Inserted? <==> Column(marks[..k], pos, {'\r', '\n'}) == w && KeptOf(marks[k..]) != ""
  }

  /** The column and what is left, seen from behind the first mark. */
  lemma BehindFirst(marks: seq<Mark>, k: nat, pos: int, ends: set<char>)
    requires 0 < k <= |marks|
    ensures var next := match marks[0] case Inserted => 0 case Kept(c) => if c in ends then 0 else pos + 1;
            Column(marks[..k], pos, ends) == Column(marks[1..][..k - 1], next, ends)
    ensures marks[k..] == marks[1..][k - 1..]
  {
    assert marks[..k][0] == marks[0] && marks[..k][1..] == marks[1..][..k - 1];
  }

  lemma BreaksMeans(s: string, eol: string)
    requires ValidEol(eol)
    ensures Breaks(s, eol) <==> s != "" && !(eol <= s)
  {
  }

  lemma FirstOf(m: Mark, rest: seq<Mark>)
    ensures ([m] + rest)[0] == m && ([m] + rest)[1..] == rest
    ensures KeptOf([m] + rest) == (match m case Kept(c) => [c] case Inserted => "") + KeptOf(rest)
  {
  }

  // ---------- The stateless wrapper ----------

  lemma {:induction false} FitUnfold(s: string, c: int, w: int, eol: string)
    requires s != "" && ValidEol(eol) && w != 0
    ensures var breaks := c == w && !(eol <= s);
            Fit(s, c, w, eol) == if breaks then [Inserted] + Fit(s, 0, w, eol)
                                 else [Kept(s[0])] + Fit(s[1..], NextFit(c, s[0], eol), w, eol)
  {
    BreaksMeans(s, eol);
    if c == w && !(eol <= s) {
      var tail := Fit(s[1..], NextFit(0, s[0], eol), w, eol);
      assert [Inserted, Kept(s[0])] + tail == [Inserted] + ([Kept(s[0])] + tail);
    }
  }

  /** Line ends go exactly in front of text on full lines, but never in front of a line terminator. */
  lemma {:induction false} FitIsExact(s: string, c: int, w: int, eol: string, k: nat)
    requires w != 0 && ValidEol(eol) && k < |Fit(s, c, w, eol)|
    ensures FitsAt(Fit(s, c, w, eol), k, c, w, eol)
    decreases |s|, if c == w then 1 else 0
  {
    hide Fit;
    var marks := Fit(s, c, w, eol);
    FitKeeps(s, c, w, eol);
    FitOfNone(c, w, eol);
    if s != "" {
      FitUnfold(s, c, w, eol);
      var breaks := c == w && !(eol <= s);
      var pos := if breaks then 0 else NextFit(c, s[0], eol);
      var rest := Fit(if breaks then s else s[1..], pos, w, eol);
      FirstOf(if breaks then Inserted else Kept(s[0]), rest);
      if k == 0 {
        assert marks[..0] == [] && marks[0..] == marks;
      } else {
        BehindFirst(marks, k, c, if eol == "\r\n" then {'\r', '\n'} else {'\n'});
        FitIsExact(if breaks then s else s[1..], pos, w, eol, k - 1);
      }
    }
  }

  lemma FitOfNone(c: int, w: int, eol: string)
    ensures Fit("", c, w, eol) == []
  {
  }

  /** No other way of inserting line ends is exact. */
  lemma {:induction false} FitIsUnique(marks: seq<Mark>, c: int, w: int, eol: string)
    requires w != 0 && ValidEol(eol)
    ensures (forall k | 0 <= k < |marks| :: FitsAt(marks, k, c, w, eol)) <==> marks == Fit(KeptOf(marks), c, w, eol)
  {
    hide Fit, FitsAt;
    var s := KeptOf(marks);
    if marks == Fit(s, c, w, eol) {
      forall k | 0 <= k < |marks| ensures FitsAt(marks, k, c, w, eol) {
        FitIsExact(s, c, w, eol, k);
      }
    } else if forall k | 0 <= k < |marks| :: FitsAt(marks, k, c, w, eol) {
      OnlyFit(marks, c, w, eol);
    }
  }

  lemma {:induction false} OnlyFit(marks: seq<Mark>, c: int, w: int, eol: string)
    requires w != 0 && ValidEol(eol) && forall k | 0 <= k < |marks| :: FitsAt(marks, k, c, w, eol)
    ensures marks == Fit(KeptOf(marks), c, w, eol)
  {
    hide Fit, FitsAt;
    var s := KeptOf(marks);
    FitOfNone(c, w, eol);
    if marks != [] {
      var rest := marks[1..];
      var pos := match marks[0] case Inserted => 0 case Kept(r) => NextFit(c, r, eol);
      forall k | 0 <= k < |rest| ensures FitsAt(rest, k, pos, w, eol) {
        assert FitsAt(marks, k + 1, c, w, eol);
        FitsBehind(marks, k + 1, c, w, eol);
      }
      OnlyFit(rest, pos, w, eol);
      assert marks == [marks[0]] + rest;
      assert FitsAt(marks, 0, c, w, eol);
      FitsFirst(marks, c, w, eol);
      FirstOf(marks[0], rest);
      if s != "" {
        FitUnfold(s, c, w, eol);
        assert marks[0].Kept? ==> s[1..] == KeptOf(rest);
        assert marks[0].Inserted? ==> s == KeptOf(rest);
      }
    }
  }

  lemma FitsFirst(marks: seq<Mark>, c: int, w: int, eol: string)
    requires marks != [] && FitsAt(marks, 0, c, w, eol)
    ensures var s := KeptOf(marks); marks[0].Inserted? <==> c == w && s != "" && !(eol <= s)
  {
    assert marks[..0] == [] && marks[0..] == marks;
  }

  lemma FitsBehind(marks: seq<Mark>, k: nat, c: int, w: int, eol: string)
    requires 0 < k < |marks| && FitsAt(marks, k, c, w, eol) && ValidEol(eol)
    ensures var pos := match marks[0] case Inserted => 0 case Kept(r) => NextFit(c, r, eol);
            FitsAt(marks[1..], k - 1, pos, w, eol)
  {
    BehindFirst(marks, k, c, if eol == "\r\n" then {'\r', '\n'} else {'\n'});
  }

  // ---------- The stateful writer ----------

  /** The writer puts a line end in front of every character on a full line, whatever the character. */
  lemma {:induction false} WrapIsExact(s: string, pos: int, w: int, k: nat)
    requires w != 0 && k < |Wrap(s, pos, w)|
    ensures WrapsAt(Wrap(s, pos, w), k, pos, w)
    decreases |s|, if pos == w then 1 else 0
  {
    hide KeptOf;
    var marks := Wrap(s, pos, w);
    WrapKeeps(s, pos, w);
    if s != "" {
      var next := if pos == w then 0 else Next(pos, s[0]);
      var rest := Wrap(if pos == w then s else s[1..], next, w);
      FirstOf(if pos == w then Inserted else Kept(s[0]), rest);
      if k == 0 {
        assert marks[..0] == [] && marks[0..] == marks;
      } else {
        BehindFirst(marks, k, pos, {'\r', '\n'});
        WrapIsExact(if pos == w then s else s[1..], next, w, k - 1);
      }
    }
  }
}
