/**
 Wrapping output at the screen width: a stateful writer that remembers its column across calls,
 and a function that wraps one finished text. `Wrap` and `Fit` say where line ends are inserted.
 */
module Wrapping {
  import opened Runes

  /** A character of the input, or a line end that was inserted. */
  datatype Mark = Kept(c: char) | Inserted

  function Render(marks: seq<Mark>, eol: string): string {
    if marks == [] then ""
    else (match marks[0] case Kept(c) => [c] case Inserted => eol) + Render(marks[1..], eol)
  }

  /** The output without the inserted line ends. */
  function KeptOf(marks: seq<Mark>): string {
    if marks == [] then ""
    else (match marks[0] case Kept(c) => [c] case Inserted => "") + KeptOf(marks[1..])
  }

  predicate LineBreak(c: char) {
    c == '\r' || c == '\n'
  }

  function Next(pos: int, c: char): int {
    if LineBreak(c) then 0 else pos + 1
  }

  // ---------- The stateful writer ----------

  /** s written from column pos on: a line end goes in front of a character on a full line. */
  function Wrap(s: string, pos: int, w: int): seq<Mark>
    requires w != 0
    decreases |s|, if pos == w then 1 else 0
  {
    if s == "" then []
    else if pos == w then [Inserted] + Wrap(s, 0, w)
    else [Kept(s[0])] + Wrap(s[1..], Next(pos, s[0]), w)
  }

  /** The column after s. */
  function PosAfter(s: string, pos: int, w: int): int
    requires w != 0
    decreases |s|, if pos == w then 1 else 0
  {
    if s == "" then pos
    else if pos == w then PosAfter(s, 0, w)
    else PosAfter(s[1..], Next(pos, s[0]), w)
  }

  lemma {:induction false} WrapKeeps(s: string, pos: int, w: int)
    requires w != 0
    ensures KeptOf(Wrap(s, pos, w)) == s
    decreases |s|, if pos == w then 1 else 0
  {
    if s != "" {
      if pos == w {
        WrapKeeps(s, 0, w);
        ConsMark(Inserted, Wrap(s, 0, w));
      } else {
        WrapKeeps(s[1..], Next(pos, s[0]), w);
        ConsMark(Kept(s[0]), Wrap(s[1..], Next(pos, s[0]), w));
      }
    }
  }

  lemma ConsMark(m: Mark, rest: seq<Mark>)
    ensures ([m] + rest)[0] == m && ([m] + rest)[1..] == rest
  {
  }

  /** It does not matter how the text is divided between calls. */
  lemma {:induction false} WrapConcat(a: string, b: string, pos: int, w: int)
    requires w != 0
    ensures Wrap(a + b, pos, w) == Wrap(a, pos, w) + Wrap(b, PosAfter(a, pos, w), w)
    ensures PosAfter(a + b, pos, w) == PosAfter(b, PosAfter(a, pos, w), w)
    decreases |a|, if pos == w then 1 else 0
  {
    if a == "" {
      assert a + b == b && [] + Wrap(b, pos, w) == Wrap(b, pos, w);
    } else if pos == w {
      WrapConcat(a, b, 0, w);
      Regroup([Inserted], Wrap(a, 0, w), Wrap(b, PosAfter(a, 0, w), w));
    } else {
      var next := Next(pos, a[0]);
      assert (a + b)[0] == a[0] && (a + b)[1..] == a[1..] + b;
      WrapConcat(a[1..], b, next, w);
      Regroup([Kept(a[0])], Wrap(a[1..], next, w), Wrap(b, PosAfter(a[1..], next, w), w));
    }
  }

  /** The largest column reached by text that starts in column col. */
  function MaxColumn(text: string, col: int): (m: int)
    ensures m >= col
  {
    if text == "" then col
    else
      var rest := MaxColumn(text[1..], Next(col, text[0]));
      if rest > col then rest else col
  }

  /** No line of the output is longer than the width, counting what was on the line before. */
  lemma {:induction false} WrapBounds(s: string, pos: int, w: int, eol: string)
    requires 0 <= pos <= w && w != 0 && ValidEol(eol)
    ensures MaxColumn(Render(Wrap(s, pos, w), eol), pos) <= w
    ensures 0 <= PosAfter(s, pos, w) <= w
    decreases |s|, if pos == w then 1 else 0
  {
    if s != "" {
      if pos == w {
        WrapBounds(s, 0, w, eol);
        ConsMark(Inserted, Wrap(s, 0, w));
        EolResets(eol, Render(Wrap(s, 0, w), eol), pos);
      } else {
        WrapBounds(s[1..], Next(pos, s[0]), w, eol);
        var rest := Render(Wrap(s[1..], Next(pos, s[0]), w), eol);
        ConsMark(Kept(s[0]), Wrap(s[1..], Next(pos, s[0]), w));
        assert ([s[0]] + rest)[1..] == rest;
      }
    }
  }

  lemma EolResets(eol: string, rest: string, pos: int)
    requires ValidEol(eol) && pos >= 0
    ensures MaxColumn(eol + rest, pos) <= if MaxColumn(rest, 0) > pos then MaxColumn(rest, 0) else pos
  {
    var t := eol + rest;
    if eol == "\n" {
      assert t[1..] == rest;
    } else {
      assert t[1..][1..] == rest;
    }
  }

  /** Line ends are inserted on full lines only, and only in front of a character. */
  predicate Proper(marks: seq<Mark>, pos: int, w: int) {
    if marks == [] then true
    else
      match marks[0]
      case Inserted => pos == w && |marks| > 1 && marks[1].Kept? && Proper(marks[1..], 0, w)
      case Kept(c) => pos != w && Proper(marks[1..], Next(pos, c), w)
  }

  /** Wrap is the only way of inserting line ends with that property. */
  lemma {:induction false} WrapIsUnique(marks: seq<Mark>, pos: int, w: int)
    requires w != 0
    ensures Proper(marks, pos, w) <==> marks == Wrap(KeptOf(marks), pos, w)
  {
    var s := KeptOf(marks);
    if marks != [] {
      var rest := marks[1..];
      match marks[0] {
        case Inserted =>
          WrapIsUnique(rest, 0, w);
          assert KeptOf(rest) == s;
          if rest == [] {
            assert Wrap(s, pos, w) == [];
          } else if pos == w && s != "" {
            assert marks == [Inserted] + rest;
            assert Wrap(s, pos, w)[1..] == Wrap(s, 0, w);
            assert Wrap(s, 0, w)[0] == Kept(s[0]);
          } else if s == "" {
            assert Wrap(s, pos, w) == [];
          }
        case Kept(c) =>
          WrapIsUnique(rest, Next(pos, c), w);
          assert s[0] == c && s[1..] == KeptOf(rest);
          assert marks == [Kept(c)] + rest;
          if pos != w {
            assert Wrap(s, pos, w)[1..] == Wrap(s[1..], Next(pos, c), w);
          }
      }
    }
  }

  class Writer {
    const width: int
    const eol: string
    var writepos: int
    var out: string

    constructor (width: int, eol: string)
      ensures this.width == width && this.eol == eol && writepos == 0 && out == ""
    {
      this.width, this.eol, writepos, out := width, eol, 0, "";
    }

    /** Writes s, wrapping it at the width; width 0 stands for no wrapping. */
    method WriteOut(s: string)
      modifies this
      ensures width == 0 ==> out == old(out) + s && writepos == old(writepos)
      ensures width != 0 ==>
                && out == old(out) + Render(Wrap(s, old(writepos), width), eol)
                && writepos == PosAfter(s, old(writepos), width)
    {
      var w := width;
      if w == 0 {
        out := out + s;
        return;
      }
      var r, i := s, 0;
      ghost var start := writepos;      // column in which r starts
      ghost var all, end := Render(Wrap(s, writepos, w), eol), PosAfter(s, writepos, w);
      while true
        invariant 0 <= i <= |r|
        invariant old(out) + all == out + Render(Wrap(r, start, w), eol)
        invariant end == PosAfter(r[i..], writepos, w)
        invariant Wrap(r, start, w) == AllKept(r[..i]) + Wrap(r[i..], writepos, w)
        decreases |r| - i, if writepos == w then 1 else 0
      {
        if i == |r| {
          assert r[..i] == r && r[i..] == "";
          assert AllKept(r) + [] == AllKept(r);
          RenderKept(r, eol);
          out := out + r;
          return;
        } else if writepos == w {
          ghost var rest := Wrap(r[i..], 0, w);
          RenderConcat(AllKept(r[..i]), [Inserted] + rest, eol);
          RenderConcat([Inserted], rest, eol);
          RenderKept(r[..i], eol);
          RenderOne(Inserted, eol);
          Regroup(out, r[..i], eol + Render(rest, eol));
          Regroup(out + r[..i], eol, Render(rest, eol));
          out := out + r[..i];
          out := out + eol;
          r := r[i..];
          writepos := 0;
          start := 0;
          i := 0;
          assert r[0..] == r && AllKept(r[..0]) == [];
          assert [] + Wrap(r, 0, w) == Wrap(r, 0, w);
        } else {
          var c := r[i];
          ghost var was := writepos;
          if c != '\r' && c != '\n' {
            writepos := writepos + 1;
          } else {
            writepos := 0;
          }
          assert r[i..][0] == c && r[i..][1..] == r[i + 1..];
          assert AllKept(r[..i + 1]) == AllKept(r[..i]) + [Kept(c)];
          Regroup(AllKept(r[..i]), [Kept(c)], Wrap(r[i + 1..], writepos, w));
          i := i + 1;
        }
      }
    }
  }

  function AllKept(s: string): seq<Mark> {
    seq(|s|, k requires 0 <= k < |s| => Kept(s[k]))
  }

  lemma {:induction false} RenderKept(s: string, eol: string)
    ensures Render(AllKept(s), eol) == s
  {
    if s != "" {
      RenderKept(s[1..], eol);
      assert AllKept(s)[1..] == AllKept(s[1..]);
    }
  }

  lemma RenderOne(m: Mark, eol: string)
    ensures Render([m], eol) == match m case Kept(c) => [c] case Inserted => eol
  {
    assert [m][1..] == [];
  }

  lemma {:induction false} RenderConcat(a: seq<Mark>, b: seq<Mark>, eol: string)
    ensures Render(a + b, eol) == Render(a, eol) + Render(b, eol)
  {
    if a == [] {
      assert a + b == b;
    } else {
      assert (a + b)[0] == a[0] && (a + b)[1..] == a[1..] + b;
      RenderConcat(a[1..], b, eol);
    }
  }

  // ---------- Any sequence of calls ----------

  function Concat(texts: seq<string>): string {
    if texts == [] then "" else texts[0] + Concat(texts[1..])
  }

  /** What a sequence of calls inserts, one call after the other. */
  function WrapAll(texts: seq<string>, pos: int, w: int): seq<Mark>
    requires w != 0
  {
    if texts == [] then [] else Wrap(texts[0], pos, w) + WrapAll(texts[1..], PosAfter(texts[0], pos, w), w)
  }

  /**
   Over any sequence of calls: the output is that of one call with all the text, without the
   inserted line ends it is the text, and no line of it is longer than the width.
   */
  lemma {:induction false} WritesWrapTheText(texts: seq<string>, pos: int, w: int, eol: string)
    requires 0 <= pos <= w && w != 0 && ValidEol(eol)
    ensures var marks := WrapAll(texts, pos, w);
            && marks == Wrap(Concat(texts), pos, w)
            && KeptOf(marks) == Concat(texts)
            && MaxColumn(Render(marks, eol), pos) <= w
    decreases |texts|
  {
    WrapKeeps(Concat(texts), pos, w);
    WrapBounds(Concat(texts), pos, w, eol);
    if texts != [] {
      WrapConcat(texts[0], Concat(texts[1..]), pos, w);
      WrapBounds(texts[0], pos, w, eol);
      WritesWrapTheText(texts[1..], PosAfter(texts[0], pos, w), w, eol);
    }
  }

  // ---------- The stateless wrapper ----------

  /** On a full line, a line end goes in front of s unless s starts with one. */
  predicate Breaks(s: string, eol: string) {
    if eol == "\r\n" then |s| == 1 || (|s| > 1 && s[..2] != eol) else s != "" && s[0] != '\n'
  }

  /** A carriage return ends the line only where it is part of the line terminator. */
  function NextFit(c: int, r: char, eol: string): int {
    if r == '\n' || (r == '\r' && eol == "\r\n") then 0 else c + 1
  }

  function Fit(s: string, c: int, w: int, eol: string): seq<Mark> {
    if s == "" then []
    else if c == w && Breaks(s, eol) then [Inserted, Kept(s[0])] + Fit(s[1..], NextFit(0, s[0], eol), w, eol)
    else [Kept(s[0])] + Fit(s[1..], NextFit(c, s[0], eol), w, eol)
  }

  /** A text shorter than the width needs no line ends. */
  lemma {:induction false} ShortFits(s: string, c: int, w: int, eol: string)
    requires 0 <= c && c + |s| <= w
    ensures Fit(s, c, w, eol) == AllKept(s)
  {
    if s != "" {
      ShortFits(s[1..], NextFit(c, s[0], eol), w, eol);
      assert AllKept(s) == [Kept(s[0])] + AllKept(s[1..]);
    }
  }

  /** One character of the text, with the line end in front of it if there is one. */
  lemma {:induction false} FitStep(s: string, c: int, w: int, eol: string)
    requires s != ""
    ensures var breaks := c == w && Breaks(s, eol);
      Render(Fit(s, c, w, eol), eol) ==
        ((if breaks then eol else "") + [s[0]])
        + Render(Fit(s[1..], NextFit(if breaks then 0 else c, s[0], eol), w, eol), eol)
  {
    hide Breaks, NextFit, Render;
    var breaks := c == w && Breaks(s, eol);
    var tail := Fit(s[1..], NextFit(if breaks then 0 else c, s[0], eol), w, eol);
    RenderConcat([Kept(s[0])], tail, eol);
    RenderOne(Kept(s[0]), eol);
    if breaks {
      assert [Inserted, Kept(s[0])] + tail == [Inserted] + ([Kept(s[0])] + tail);
      RenderConcat([Inserted], [Kept(s[0])] + tail, eol);
      RenderOne(Inserted, eol);
      Regroup(eol, [s[0]], Render(tail, eol));
    }
  }

  method FitToScreen(s: string, width: int, eol: string) returns (line: string)
    requires ValidEol(eol)
    ensures line == if width == 0 then s else Render(Fit(s, 0, width, eol), eol)
  {
    hide Fit, Render;
    if width == 0 || |s| < width {
      if width != 0 {
        ShortFits(s, 0, width, eol);
        RenderKept(s, eol);
      }
      return s;
    }
    line := "";
    var c, i := 0, 0;
    assert s[0..] == s;
    while i < |s|
      invariant 0 <= i <= |s|
      invariant line + Render(Fit(s[i..], c, width, eol), eol) == Render(Fit(s, 0, width, eol), eol)
    {
      var r := s[i];
      ghost var was, rest := line, s[i..];
      assert rest[0] == r && rest[1..] == s[i + 1..];
      FitStep(rest, c, width, eol);
      var inserts := false;
      if c == width {
        assert i < |s| - 1 ==> rest[..2] == s[i..i + 2];
        if (eol == "\r\n" && (i == |s| - 1 || (i < |s| - 1 && s[i..i + 2] != eol))) || (eol == "\n" && r != '\n') {
          line := line + eol;
          c := 0;
          inserts := true;
        }
      }
      line := line + [r];
      if r == '\n' {
        c := 0;
      } else if r == '\r' && eol == "\r\n" {
        c := 0;
      } else {
        c := c + 1;
      }
      ghost var tail := Render(Fit(s[i + 1..], c, width, eol), eol);
      ghost var head := if inserts then eol else "";
      Regroup(was, head, [r]);
      Regroup(was, head + [r], tail);
      i := i + 1;
    }
    assert s[|s|..] == "";
    FitOfNothing(c, width, eol);
  }

  lemma FitOfNothing(c: int, w: int, eol: string)
    ensures Render(Fit("", c, w, eol), eol) == ""
  {
  }

  lemma {:induction false} FitKeeps(s: string, c: int, w: int, eol: string)
    ensures KeptOf(Fit(s, c, w, eol)) == s
  {
    if s != "" {
      var c' := NextFit(if c == w && Breaks(s, eol) then 0 else c, s[0], eol);
      var tail := Fit(s[1..], c', w, eol);
      FitKeeps(s[1..], c', w, eol);
      ConsMark(Kept(s[0]), tail);
      if c == w && Breaks(s, eol) {
        assert [Inserted, Kept(s[0])] + tail == [Inserted] + ([Kept(s[0])] + tail);
        ConsMark(Inserted, [Kept(s[0])] + tail);
      }
    }
  }

  /** The largest column of a text, in the columns fitToScreen counts. */
  function MaxFitColumn(text: string, col: int, eol: string): (m: int)
    ensures m >= col
  {
    if text == "" then col
    else
      var rest := MaxFitColumn(text[1..], NextFit(col, text[0], eol), eol);
      if rest > col then rest else col
  }

  lemma {:induction false} FitBounds(s: string, c: int, w: int, eol: string)
    requires 0 <= c <= w && w != 0 && ValidEol(eol)
    ensures MaxFitColumn(Render(Fit(s, c, w, eol), eol), c, eol) <= w
  {
    if s != "" {
      var inserts := c == w && Breaks(s, eol);
      var from := if inserts then 0 else c;
      var c' := NextFit(from, s[0], eol);
      FitBounds(s[1..], c', w, eol);
      var tail := Fit(s[1..], c', w, eol);
      var text := Render(tail, eol);
      ConsMark(Kept(s[0]), tail);
      assert ([s[0]] + text)[1..] == text;
      if inserts {
        assert [Inserted, Kept(s[0])] + tail == [Inserted] + ([Kept(s[0])] + tail);
        ConsMark(Inserted, [Kept(s[0])] + tail);
        FitEolResets(eol, [s[0]] + text, c);
      }
    }
  }

  lemma FitEolResets(eol: string, rest: string, pos: int)
    requires ValidEol(eol) && pos >= 0
    ensures MaxFitColumn(eol + rest, pos, eol) <=
            if MaxFitColumn(rest, 0, eol) > pos then MaxFitColumn(rest, 0, eol) else pos
  {
    var t := eol + rest;
    if eol == "\n" {
      assert t[1..] == rest;
    } else {
      assert t[1..][1..] == rest;
    }
  }

  /** On text without line breaks the two ways of wrapping agree. */
  lemma {:induction false} FitIsWrap(s: string, c: int, w: int, eol: string)
    requires w != 0 && ValidEol(eol) && forall k | 0 <= k < |s| :: !LineBreak(s[k])
    ensures Fit(s, c, w, eol) == Wrap(s, c, w)
    decreases |s|
  {
    if s != "" {
      FitIsWrap(s[1..], (if c == w then 0 else c) + 1, w, eol);
      if c == w {
        assert Breaks(s, eol);
        var tail := Wrap(s[1..], 1, w);
        assert [Inserted, Kept(s[0])] + tail == [Inserted] + ([Kept(s[0])] + tail);
      }
    }
  }
}
