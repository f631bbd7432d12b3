/**
 The table formatter: column widths grow with the rows, columns are cut into segments that fit the
 screen, and every line of a segment has the same length. The greedy cut uses the fewest segments.
 */
module AsciiTable {
  import opened Runes

  type Row = seq<string>

  function Max(a: nat, b: nat): nat {
    if a > b then a else b
  }

  function Min(a: nat, b: nat): nat {
    if a < b then a else b
  }

  // ---------- Widths ----------

  /** Width of column i: the longest of its name and its values. */
  function ColumnWidth(names: Row, rows: seq<Row>, i: nat): nat
    requires i < |names|
  {
    if rows == [] then |names[i]|
    else
      var before := ColumnWidth(names, rows[..|rows| - 1], i);
      var last := rows[|rows| - 1];
      if i < |last| then Max(before, |last[i]|) else before
  }

  function Widths(names: Row, rows: seq<Row>): seq<nat> {
    seq(|names|, i requires 0 <= i < |names| => ColumnWidth(names, rows, i))
  }

  /** Nothing in a column is wider than its width, and something is as wide. */
  lemma {:induction false} WidthIsTight(names: Row, rows: seq<Row>, i: nat)
    requires i < |names|
    ensures var w := ColumnWidth(names, rows, i);
            && |names[i]| <= w
            && (forall k | 0 <= k < |rows| && i < |rows[k]| :: |rows[k][i]| <= w)
            && (w == |names[i]| || exists k :: 0 <= k < |rows| && i < |rows[k]| && |rows[k][i]| == w)
  {
    if rows != [] {
      var init := rows[..|rows| - 1];
      WidthIsTight(names, init, i);
      var before := ColumnWidth(names, init, i);
      forall k | 0 <= k < |rows| && i < |rows[k]| ensures |rows[k][i]| <= ColumnWidth(names, rows, i) {
        if k < |init| {
          assert init[k] == rows[k];
        }
      }
      if ColumnWidth(names, rows, i) == before && before != |names[i]| {
        var k :| 0 <= k < |init| && i < |init[k]| && |init[k][i]| == before;
        assert rows[k] == init[k];
      }
    }
  }

  // ---------- Segments ----------

  /** Columns from first up to, but not including, end. */
  datatype Segment = Segment(first: nat, end: nat)

  /** Width of the columns from i up to j: content, padding and a separator each. */
  function Sum(widths: seq<nat>, i: nat, j: nat): nat
    requires i <= j <= |widths|
    decreases j - i
  {
    if i == j then 0 else widths[i] + 3 + Sum(widths, i + 1, j)
  }

  predicate Fits(widths: seq<nat>, s: Segment, maxWidth: int)
    requires s.first <= s.end <= |widths|
  {
    1 + Sum(widths, s.first, s.end) <= maxWidth
  }

  /** Consecutive non-empty segments that cover the columns from `from` on. */
  ghost predicate Covers(segments: seq<Segment>, from: nat, n: nat) {
    if segments == [] then from == n
    else
      segments[0].first == from && from < segments[0].end <= n && Covers(segments[1..], segments[0].end, n)
  }

  /** A way to print the columns from `from` on such that every segment fits the width. */
  ghost predicate Layout(segments: seq<Segment>, widths: seq<nat>, from: nat, maxWidth: int) {
    && Covers(segments, from, |widths|)
    && forall k | 0 <= k < |segments| ::
         segments[k].first <= segments[k].end <= |widths| && Fits(widths, segments[k], maxWidth)
  }

  /** Where the greedy segment that starts at i ends: at least one column, then while they fit. */
  function GreedyEnd(widths: seq<nat>, i: nat, j: nat, maxWidth: int): (e: nat)
    requires i <= j <= |widths|
    ensures j <= e <= |widths|
    decreases |widths| - j
  {
    if j < |widths| && 1 + Sum(widths, i, j + 1) <= maxWidth then GreedyEnd(widths, i, j + 1, maxWidth) else j
  }

  function Greedy(widths: seq<nat>, from: nat, maxWidth: int): (segments: seq<Segment>)
    requires from <= |widths|
    decreases |widths| - from
  {
    if from == |widths| then []
    else
      var e := GreedyEnd(widths, from, from, maxWidth);
      var end := if e == from then from + 1 else e;
      [Segment(from, end)] + Greedy(widths, end, maxWidth)
  }

  lemma {:induction false} SumSnoc(widths: seq<nat>, i: nat, j: nat)
    requires i <= j < |widths|
    ensures Sum(widths, i, j + 1) == Sum(widths, i, j) + widths[j] + 3
    decreases j - i
  {
    if i < j {
      SumSnoc(widths, i + 1, j);
    }
  }

  /** Fewer columns are narrower. */
  lemma {:induction false} SumMonotone(widths: seq<nat>, i: nat, i': nat, j: nat, j': nat)
    requires i <= i' <= j <= j' <= |widths|
    ensures Sum(widths, i', j) <= Sum(widths, i, j')
    decreases (i' - i) + (j' - j)
  {
    if j < j' {
      SumMonotone(widths, i, i', j, j' - 1);
      SumSnoc(widths, i, j' - 1);
    } else if i < i' {
      SumMonotone(widths, i + 1, i', j, j');
    }
  }

  lemma {:induction false} GreedyEndFits(widths: seq<nat>, i: nat, j: nat, maxWidth: int)
    requires i <= j <= |widths| && 1 + Sum(widths, i, j) <= maxWidth
    ensures var e := GreedyEnd(widths, i, j, maxWidth);
            1 + Sum(widths, i, e) <= maxWidth && (e < |widths| ==> 1 + Sum(widths, i, e + 1) > maxWidth)
    decreases |widths| - j
  {
    if j < |widths| && 1 + Sum(widths, i, j + 1) <= maxWidth {
      GreedyEndFits(widths, i, j + 1, maxWidth);
    }
  }

  /** Every single column fits. */
  ghost predicate ColumnsFit(widths: seq<nat>, maxWidth: int) {
    forall k | 0 <= k < |widths| :: 1 + widths[k] + 3 <= maxWidth
  }

  /** The greedy segments cover the columns once, in order, and each fits the width. */
  lemma {:induction false} GreedyIsLayout(widths: seq<nat>, from: nat, maxWidth: int)
    requires from <= |widths| && ColumnsFit(widths, maxWidth) && 1 <= maxWidth
    ensures Layout(Greedy(widths, from, maxWidth), widths, from, maxWidth)
    decreases |widths| - from
  {
    if from < |widths| {
      GreedyStart(widths, from, maxWidth);
      var end := GreedyEnd(widths, from, from, maxWidth);
      GreedyIsLayout(widths, end, maxWidth);
      var rest := Greedy(widths, end, maxWidth);
      assert ([Segment(from, end)] + rest)[1..] == rest;
    }
  }

  lemma GreedyStart(widths: seq<nat>, from: nat, maxWidth: int)
    requires from < |widths| && ColumnsFit(widths, maxWidth)
    ensures var e := GreedyEnd(widths, from, from, maxWidth);
            && from < e && 1 + Sum(widths, from, e) <= maxWidth
            && (e < |widths| ==> 1 + Sum(widths, from, e + 1) > maxWidth)
  {
    assert Sum(widths, from, from + 1) == widths[from] + 3 + Sum(widths, from + 1, from + 1);
    GreedyEndFits(widths, from, from + 1, maxWidth);
  }

  /** Starting no later, any other layout needs at least as many segments. */
  lemma {:induction false} GreedyStaysAhead(widths: seq<nat>, from: nat, other: seq<Segment>, otherFrom: nat, maxWidth: int)
    requires otherFrom <= from <= |widths| && ColumnsFit(widths, maxWidth)
    requires Layout(other, widths, otherFrom, maxWidth)
    ensures |Greedy(widths, from, maxWidth)| <= |other|
    decreases |widths| - from, |other|
  {
    if from < |widths| {
      GreedyStart(widths, from, maxWidth);
      var e := GreedyEnd(widths, from, from, maxWidth);
      var s, rest := other[0], other[1..];
      assert Fits(widths, s, maxWidth);
      assert Layout(rest, widths, s.end, maxWidth) by {
        forall k | 0 <= k < |rest|
          ensures rest[k].first <= rest[k].end <= |widths| && Fits(widths, rest[k], maxWidth)
        {
          assert rest[k] == other[k + 1];
        }
      }
      if s.end <= e {
        GreedyStaysAhead(widths, e, rest, s.end, maxWidth);
      } else {
        SumMonotone(widths, otherFrom, from, e + 1, s.end);
        assert false;
      }
    }
  }

  /** Greedy segmentation is optimal: no layout of the columns has fewer segments. */
  lemma GreedyIsOptimal(widths: seq<nat>, other: seq<Segment>, maxWidth: int)
    requires ColumnsFit(widths, maxWidth) && Layout(other, widths, 0, maxWidth)
    ensures |Greedy(widths, 0, maxWidth)| <= |other|
  {
    GreedyStaysAhead(widths, 0, other, 0, maxWidth);
  }

  /** The greedy segments fit the width exactly when every single column does. */
  lemma GreedyFitsIff(widths: seq<nat>, maxWidth: int)
    requires 1 <= maxWidth
    ensures Layout(Greedy(widths, 0, maxWidth), widths, 0, maxWidth) <==> ColumnsFit(widths, maxWidth)
  {
    if ColumnsFit(widths, maxWidth) {
      GreedyIsLayout(widths, 0, maxWidth);
    } else if Layout(Greedy(widths, 0, maxWidth), widths, 0, maxWidth) {
      forall k | 0 <= k < |widths| ensures 1 + widths[k] + 3 <= maxWidth {
        ColumnInLayout(Greedy(widths, 0, maxWidth), widths, 0, k, maxWidth);
      }
    }
  }

  lemma {:induction false} ColumnInLayout(segments: seq<Segment>, widths: seq<nat>, from: nat, k: nat, maxWidth: int)
    requires Layout(segments, widths, from, maxWidth) && from <= k < |widths|
    ensures 1 + widths[k] + 3 <= maxWidth
  {
    var s, rest := segments[0], segments[1..];
    assert Fits(widths, s, maxWidth);
    if k < s.end {
      SumMonotone(widths, s.first, k, k + 1, s.end);
      assert Sum(widths, k, k + 1) == widths[k] + 3 + Sum(widths, k + 1, k + 1);
    } else {
      forall j | 0 <= j < |rest| ensures rest[j].first <= rest[j].end <= |widths| && Fits(widths, rest[j], maxWidth) {
        assert rest[j] == segments[j + 1];
      }
      ColumnInLayout(rest, widths, s.end, k, maxWidth);
    }
  }

  // ---------- Limited widths ----------

  /** Content width a column may have: the screen less border and padding, but at least one. */
  function ContentLimit(maxWidth: int): nat {
    if maxWidth - 4 > 1 then maxWidth - 4 else 1
  }

  function Clamp(widths: seq<nat>, limit: nat): seq<nat> {
    seq(|widths|, i requires 0 <= i < |widths| => Min(widths[i], limit))
  }

  /** From screen width 5 on, every limited column fits. */
  lemma ClampedColumnsFit(widths: seq<nat>, maxWidth: int)
    requires maxWidth >= 5
    ensures ColumnsFit(Clamp(widths, ContentLimit(maxWidth)), maxWidth)
  {
  }

  /** When everything fits on the screen there is one segment. */
  lemma {:induction false} OneSegment(widths: seq<nat>, maxWidth: int)
    requires 1 + Sum(widths, 0, |widths|) <= maxWidth
    ensures Greedy(widths, 0, maxWidth) == if widths == [] then [] else [Segment(0, |widths|)]
  {
    if widths != [] {
      AllFit(widths, 0, maxWidth);
    }
  }

  lemma {:induction false} AllFit(widths: seq<nat>, j: nat, maxWidth: int)
    requires j <= |widths| && 1 + Sum(widths, 0, |widths|) <= maxWidth
    ensures GreedyEnd(widths, 0, j, maxWidth) == |widths|
    decreases |widths| - j
  {
    if j < |widths| {
      SumMonotone(widths, 0, 0, j + 1, |widths|);
      AllFit(widths, j + 1, maxWidth);
    }
  }

  // ---------- Lines ----------

  function Shortened(s: string, width: nat): string
    requires width < |s|
  {
    if width >= 3 then s[..width - 3] + "..." else s[..width]
  }

  /** r is the beginning of s with dots in the place of its last three characters, if they have room. */
  predicate ShortFor(r: string, s: string, width: nat) {
    && |r| == width <= |s|
    && var kept := if width >= 3 then width - 3 else width;
       r[..kept] == s[..kept] && forall k | kept <= k < width :: r[k] == '.'
  }

  function PadRight(s: string, width: nat): (r: string)
    ensures |r| == width
    ensures |s| > width ==> ShortFor(r, s, width)
    ensures |s| <= width ==> r[..|s|] == s && forall k | |s| <= k < width :: r[k] == ' '
  {
    if |s| > width then Shortened(s, width) else s + Copies(' ', width - |s|)
  }

  function PadLeft(s: string, width: nat): (r: string)
    ensures |r| == width
    ensures |s| > width ==> ShortFor(r, s, width)
    ensures |s| <= width ==> r[width - |s|..] == s && forall k | 0 <= k < width - |s| :: r[k] == ' '
  {
    if |s| > width then Shortened(s, width) else Copies(' ', width - |s|) + s
  }

  /** The separator between columns: a blank or missing one shows as a bar. */
  function Bar(separator: string): string {
    if separator == "" || separator == " " then "|" else separator[..1]
  }

  /** The dashes of columns from i up to j. */
  function Dashes(widths: seq<nat>, i: nat, j: nat): string
    requires i <= j <= |widths|
    decreases j - i
  {
    if i == j then "" else (Copies('-', widths[i] + 2) + "+") + Dashes(widths, i + 1, j)
  }

  function Cell(row: Row, i: nat): string {
    if i < |row| then row[i] else ""
  }

  /** The padded cells of columns from i up to j; numeric columns are aligned to the right. */
  function Cells(row: Row, widths: seq<nat>, numeric: seq<bool>, bar: string, i: nat, j: nat): string
    requires i <= j <= |widths| && |numeric| == |widths|
    decreases j - i
  {
    if i == j then ""
    else
      var text := if numeric[i] then PadLeft(Cell(row, i), widths[i]) else PadRight(Cell(row, i), widths[i]);
      ((" " + text) + (" " + bar)) + Cells(row, widths, numeric, bar, i + 1, j)
  }

  /** One unfolding of Cells, for proofs that hide its definition. */
  lemma {:induction false} CellsStep(row: Row, widths: seq<nat>, numeric: seq<bool>, bar: string, i: nat, j: nat)
    requires i <= j <= |widths| && |numeric| == |widths|
    ensures Cells(row, widths, numeric, bar, i, j) ==
      if i == j then ""
      else
        var text := if numeric[i] then PadLeft(Cell(row, i), widths[i]) else PadRight(Cell(row, i), widths[i]);
        ((" " + text) + (" " + bar)) + Cells(row, widths, numeric, bar, i + 1, j)
  {
    hide PadLeft, PadRight, ShortFor;
  }

  lemma {:induction false} DashesStep(widths: seq<nat>, i: nat, j: nat)
    requires i <= j <= |widths|
    ensures Dashes(widths, i, j) ==
      if i == j then "" else (Copies('-', widths[i] + 2) + "+") + Dashes(widths, i + 1, j)
  {
  }

  lemma {:induction false} DashesLength(widths: seq<nat>, i: nat, j: nat)
    requires i <= j <= |widths|
    ensures |Dashes(widths, i, j)| == Sum(widths, i, j)
    decreases j - i
  {
    if i < j {
      DashesLength(widths, i + 1, j);
    }
  }

  lemma {:induction false} CellsLength(row: Row, widths: seq<nat>, numeric: seq<bool>, bar: string, i: nat, j: nat)
    requires i <= j <= |widths| && |numeric| == |widths| && |bar| == 1
    ensures |Cells(row, widths, numeric, bar, i, j)| == Sum(widths, i, j)
    decreases j - i
  {
    hide Cells, PadLeft, PadRight, ShortFor;
    CellsStep(row, widths, numeric, bar, i, j);
    if i < j {
      CellsLength(row, widths, numeric, bar, i + 1, j);
    }
  }

  function NoneNumeric(n: nat): seq<bool> {
    Copies(false, n)
  }

  /** The lines of one segment: rule, names, rule, rows, rule. */
  function SegmentLines(names: Row, rows: seq<Row>, widths: seq<nat>, numeric: seq<bool>, bar: string, s: Segment)
    : seq<string>
    requires s.first <= s.end <= |widths| && |numeric| == |widths|
  {
    var rule := "+" + Dashes(widths, s.first, s.end);
    [rule, bar + Cells(names, widths, NoneNumeric(|widths|), bar, s.first, s.end), rule]
    + RowLines(rows, widths, numeric, bar, s)
    + [rule]
  }

  function RowLines(rows: seq<Row>, widths: seq<nat>, numeric: seq<bool>, bar: string, s: Segment): (r: seq<string>)
    requires s.first <= s.end <= |widths| && |numeric| == |widths|
    ensures |r| == |rows|
  {
    seq(|rows|, k requires 0 <= k < |rows| => bar + Cells(rows[k], widths, numeric, bar, s.first, s.end))
  }

  lemma RowLineNext(rows: seq<Row>, widths: seq<nat>, numeric: seq<bool>, bar: string, s: Segment, k: nat)
    requires s.first <= s.end <= |widths| && |numeric| == |widths| && k < |rows|
    ensures var lines := RowLines(rows, widths, numeric, bar, s);
      lines[..k + 1] == lines[..k] + [bar + Cells(rows[k], widths, numeric, bar, s.first, s.end)]
  {
    hide Cells;
  }

  /** Every line of a segment has exactly the width that the segment was chosen by. */
  lemma LinesHaveTheWidth(names: Row, rows: seq<Row>, widths: seq<nat>, numeric: seq<bool>, bar: string, s: Segment)
    requires s.first <= s.end <= |widths| && |numeric| == |widths| && |bar| == 1
    ensures forall line | line in SegmentLines(names, rows, widths, numeric, bar, s) ::
              |line| == 1 + Sum(widths, s.first, s.end)
  {
    hide Cells, Dashes, Sum;
    DashesLength(widths, s.first, s.end);
    CellsLength(names, widths, NoneNumeric(|widths|), bar, s.first, s.end);
    forall k | 0 <= k < |rows| ensures |RowLines(rows, widths, numeric, bar, s)[k]| == 1 + Sum(widths, s.first, s.end) {
      CellsLength(rows[k], widths, numeric, bar, s.first, s.end);
    }
  }

  /** All lines of the table. */
  function TableLines(names: Row, rows: seq<Row>, widths: seq<nat>, numeric: seq<bool>, bar: string, segments: seq<Segment>)
    : seq<string>
    requires |numeric| == |widths|
    requires forall k | 0 <= k < |segments| :: segments[k].first <= segments[k].end <= |widths|
  {
    if segments == [] then []
    else
      SegmentLines(names, rows, widths, numeric, bar, segments[0])
      + TableLines(names, rows, widths, numeric, bar, segments[1..])
  }

  lemma {:induction false} GreedyInRange(widths: seq<nat>, from: nat, maxWidth: int)
    requires from <= |widths|
    ensures forall k | 0 <= k < |Greedy(widths, from, maxWidth)| ::
              var s := Greedy(widths, from, maxWidth)[k]; s.first <= s.end <= |widths|
    decreases |widths| - from
  {
    if from < |widths| {
      var e := GreedyEnd(widths, from, from, maxWidth);
      GreedyInRange(widths, if e == from then from + 1 else e, maxWidth);
    }
  }

  /** From screen width 5 on, no line of a table is wider than the screen. */
  lemma TableFitsScreen(names: Row, rows: seq<Row>, numeric: seq<bool>, separator: string, maxWidth: int)
    requires maxWidth >= 5 && |numeric| == |names|
    ensures var widths := Clamp(Widths(names, rows), ContentLimit(maxWidth));
            var segments := Greedy(widths, 0, maxWidth);
            && (forall k | 0 <= k < |segments| :: segments[k].first <= segments[k].end <= |widths|)
            && forall line | line in TableLines(names, rows, widths, numeric, Bar(separator), segments) :: |line| <= maxWidth
  {
    var widths := Clamp(Widths(names, rows), ContentLimit(maxWidth));
    ClampedColumnsFit(Widths(names, rows), maxWidth);
    GreedyIsLayout(widths, 0, maxWidth);
    LayoutLinesFit(names, rows, widths, numeric, Bar(separator), Greedy(widths, 0, maxWidth), 0, maxWidth);
  }

  lemma {:induction false} LayoutLinesFit(names: Row, rows: seq<Row>, widths: seq<nat>, numeric: seq<bool>, bar: string,
                                          segments: seq<Segment>, from: nat, maxWidth: int)
    requires |numeric| == |widths| && |bar| == 1 && Layout(segments, widths, from, maxWidth)
    ensures forall line | line in TableLines(names, rows, widths, numeric, bar, segments) :: |line| <= maxWidth
  {
    hide SegmentLines;
    if segments != [] {
      var s, rest := segments[0], segments[1..];
      assert Fits(widths, s, maxWidth);
      LinesHaveTheWidth(names, rows, widths, numeric, bar, s);
      forall k | 0 <= k < |rest| ensures rest[k].first <= rest[k].end <= |widths| && Fits(widths, rest[k], maxWidth) {
        assert rest[k] == segments[k + 1];
      }
      LayoutLinesFit(names, rows, widths, numeric, bar, rest, s.end, maxWidth);
    }
  }
}
