/**
 What a printed table says: which characters of which line are the cell of a row and a column, and
 that every cell is printed once.
 */
module AsciiCells {
  import opened Runes
  import opened AsciiTable

  // ---------- Reading a line ----------

  /** A field is text: at the left or the right with blanks around it, or as much of it as there is room for. */
  predicate Shows(field: string, text: string, right: bool) {
    var width := |field|;
    if |text| > width then
      var kept := if width >= 3 then width - 3 else width;
      field[..kept] == text[..kept] && forall k :: kept <= k < width ==> field[k] == '.'
    else if right then
      field[width - |text|..] == text && forall k :: 0 <= k < width - |text| ==> field[k] == ' '
    else
      field[..|text|] == text && forall k :: |text| <= k < width ==> field[k] == ' '
  }

  /** A column of a line of cells: a blank, the text, a blank and the separator. */
  predicate Column(line: string, at: nat, width: nat, text: string, right: bool, bar: char) {
    && 1 <= at && at + width + 1 < |line|
    && line[at - 1] == ' ' && Shows(line[at..at + width], text, right) && line[at + width] == ' '
    && line[at + width + 1] == bar
  }

  /** The value of a row in column i; a short row has no more values. */
  function Value(row: Row, i: nat): string {
    if i < |row| then row[i] else ""
  }

  /** Where the content of column i starts in a line that starts with the column first. */
  function At(widths: seq<nat>, first: nat, i: nat): nat
    requires first <= i <= |widths|
  {
    2 + Sum(widths, first, i)
  }

  /** The line of a row in the segment s. */
  predicate RowLine(line: string, row: Row, widths: seq<nat>, numeric: seq<bool>, bar: char, s: Segment)
    requires s.first <= s.end <= |widths| && |numeric| == |widths|
  {
    && |line| == 1 + Sum(widths, s.first, s.end)
    && line[0] == bar
    && forall i :: s.first <= i < s.end ==>
         Column(line, At(widths, s.first, i), widths[i], Value(row, i), numeric[i], bar)
  }

  predicate HeadLine(line: string, names: Row, widths: seq<nat>, bar: char, s: Segment)
    requires s.first <= s.end <= |widths|
  {
    && |line| == 1 + Sum(widths, s.first, s.end)
    && line[0] == bar
    && forall i :: s.first <= i < s.end ==>
         Column(line, At(widths, s.first, i), widths[i], Value(names, i), false, bar)
  }

  /** A rule has a plus where lines of cells have a separator, and dashes elsewhere. */
  predicate Rule(line: string, widths: seq<nat>, s: Segment)
    requires s.first <= s.end <= |widths|
  {
    && |line| == 1 + Sum(widths, s.first, s.end)
    && line[0] == '+'
    && forall i :: s.first <= i < s.end ==> Dashed(line, At(widths, s.first, i), widths[i])
  }

  predicate Dashed(line: string, at: nat, width: nat) {
    && 1 <= at && at + width + 1 < |line|
    && (forall p :: at - 1 <= p <= at + width ==> line[p] == '-')
    && line[at + width + 1] == '+'
  }

  // ---------- One line ----------

  lemma PadShows(value: string, width: nat, right: bool)
    ensures var text := if right then PadLeft(value, width) else PadRight(value, width);
            |text| == width && Shows(text, value, right)
  {
    hide PadLeft, PadRight;
  }

  /** The first column of some cells, and the rest of them. */
  lemma ColumnOfCell(before: string, text: string, value: string, bar: string, rest: string, right: bool)
    requires |bar| == 1 && before != [] && Shows(text, value, right)
    ensures Column(before + (((" " + text) + (" " + bar)) + rest), |before| + 1, |text|, value, right, bar[0])
  {
    hide Shows;
    var cell := (" " + text) + (" " + bar);
    assert (cell + rest)[1..|text| + 1] == text;
    assert cell[|text| + 1] == ' ' && cell[|text| + 2] == bar[0];
    assert (before + (cell + rest))[|before| + 1..|before| + 1 + |text|] == (cell + rest)[1..|text| + 1];
  }

  lemma {:induction false} CellsShow(before: string, row: Row, widths: seq<nat>, numeric: seq<bool>, bar: string,
                                     first: nat, i: nat, j: nat)
    requires first <= i <= j <= |widths| && |numeric| == |widths| && |bar| == 1
    requires |before| == 1 + Sum(widths, first, i)
    ensures var line := before + Cells(row, widths, numeric, bar, i, j);
            forall c :: i <= c < j ==> Column(line, At(widths, first, c), widths[c], Value(row, c), numeric[c], bar[0])
    decreases j - i
  {
    hide PadLeft, PadRight, Shows, Column, Cells, Sum;
    CellsStep(row, widths, numeric, bar, i, j);
    if i < j {
      var value := Cell(row, i);
      var text := if numeric[i] then PadLeft(value, widths[i]) else PadRight(value, widths[i]);
      var cell, rest := (" " + text) + (" " + bar), Cells(row, widths, numeric, bar, i + 1, j);
      PadShows(value, widths[i], numeric[i]);
      ColumnOfCell(before, text, value, bar, rest, numeric[i]);
      SumSnoc(widths, first, i);
      Regroup(before, cell, rest);
      CellsShow(before + cell, row, widths, numeric, bar, first, i + 1, j);
    }
  }

  lemma {:induction false} DashesShow(before: string, widths: seq<nat>, first: nat, i: nat, j: nat)
    requires first <= i <= j <= |widths| && |before| == 1 + Sum(widths, first, i)
    ensures var line := before + Dashes(widths, i, j);
            forall c :: i <= c < j ==> Dashed(line, At(widths, first, c), widths[c])
    decreases j - i
  {
    hide Sum;
    if i < j {
      var cell, rest := Copies('-', widths[i] + 2) + "+", Dashes(widths, i + 1, j);
      SumSnoc(widths, first, i);
      Regroup(before, cell, rest);
      DashesShow(before + cell, widths, first, i + 1, j);
    }
  }

  // ---------- One segment ----------

  /**
   A segment has a line for every row between its names and its last rule, and in each line the
   characters from At on are the value of the column, as far as they fit.
   */
  lemma SegmentShows(names: Row, rows: seq<Row>, widths: seq<nat>, numeric: seq<bool>, bar: string, s: Segment)
    requires s.first <= s.end <= |widths| && |numeric| == |widths| && |bar| == 1
    ensures var lines := SegmentLines(names, rows, widths, numeric, bar, s);
            && |lines| == |rows| + 4
            && Rule(lines[0], widths, s) && Rule(lines[2], widths, s) && Rule(lines[|rows| + 3], widths, s)
            && HeadLine(lines[1], names, widths, bar[0], s)
            && forall k :: 0 <= k < |rows| ==> RowLine(lines[3 + k], rows[k], widths, numeric, bar[0], s)
  {
    hide Cells, Dashes, Shows, Column, Dashed, Sum;
    EmptySum(widths, s.first);
    DashesLength(widths, s.first, s.end);
    DashesShow("+", widths, s.first, s.first, s.end);
    CellsLength(names, widths, NoneNumeric(|widths|), bar, s.first, s.end);
    CellsShow(bar, names, widths, NoneNumeric(|widths|), bar, s.first, s.first, s.end);
    forall k | 0 <= k < |rows|
      ensures RowLine(bar + Cells(rows[k], widths, numeric, bar, s.first, s.end), rows[k], widths, numeric, bar[0], s)
    {
      CellsLength(rows[k], widths, numeric, bar, s.first, s.end);
      CellsShow(bar, rows[k], widths, numeric, bar, s.first, s.first, s.end);
    }
  }

  lemma EmptySum(widths: seq<nat>, i: nat)
    requires i <= |widths|
    ensures Sum(widths, i, i) == 0
  {
  }

  // ---------- The whole table ----------

  predicate Has(s: Segment, i: nat) {
    s.first <= i < s.end
  }

  /** Whatever the screen, the greedy segments cover the columns once and in order. */
  lemma {:induction false} GreedyCovers(widths: seq<nat>, from: nat, maxWidth: int)
    requires from <= |widths|
    ensures Covers(Greedy(widths, from, maxWidth), from, |widths|)
    decreases |widths| - from
  {
    if from < |widths| {
      var e := GreedyEnd(widths, from, from, maxWidth);
      var end := if e == from then from + 1 else e;
      var rest := Greedy(widths, end, maxWidth);
      GreedyCovers(widths, end, maxWidth);
      assert ([Segment(from, end)] + rest)[1..] == rest;
    }
  }

  lemma {:induction false} NothingBefore(segments: seq<Segment>, from: nat, n: nat)
    requires Covers(segments, from, n)
    ensures forall k :: 0 <= k < |segments| ==> from <= segments[k].first
  {
    if segments != [] {
      NothingBefore(segments[1..], segments[0].end, n);
      forall k | 0 <= k < |segments| ensures from <= segments[k].first {
        assert k > 0 ==> segments[k] == segments[1..][k - 1];
      }
    }
  }

  /** Every column is in exactly one segment. */
  lemma {:induction false} OneHas(segments: seq<Segment>, from: nat, n: nat, i: nat) returns (j: nat)
    requires Covers(segments, from, n) && from <= i < n
    ensures j < |segments| && Has(segments[j], i)
    ensures forall k :: 0 <= k < |segments| && Has(segments[k], i) ==> k == j
  {
    var rest := segments[1..];
    NothingBefore(rest, segments[0].end, n);
    if i < segments[0].end {
      j := 0;
      assert forall k | 0 < k < |segments| :: segments[k] == rest[k - 1];
    } else {
      var m := OneHas(rest, segments[0].end, n, i);
      j := m + 1;
      forall k | 0 <= k < |segments| && Has(segments[k], i) ensures k == j {
        assert k > 0 ==> segments[k] == rest[k - 1];
      }
    }
  }

  /** The line at which block j starts, when every block has n lines. */
  function Top(j: nat, n: nat): nat {
    if j == 0 then 0 else Top(j - 1, n) + n
  }

  /** Which is j times n. */
  lemma {:induction false} TopIsProduct(j: nat, n: nat)
    ensures Top(j, n) == j * n
  {
    if j > 0 {
      TopIsProduct(j - 1, n);
      assert j * n == (j - 1) * n + n;
    }
  }

  /** block is the lines from top on. */
  predicate Block(lines: seq<string>, top: nat, block: seq<string>) {
    top + |block| <= |lines| && forall k :: 0 <= k < |block| ==> lines[top + k] == block[k]
  }

  lemma BlockBehind(a: seq<string>, lines: seq<string>, top: nat, block: seq<string>)
    requires Block(lines, top, block)
    ensures Block(a + lines, |a| + top, block)
  {
    forall k | 0 <= k < |block| ensures (a + lines)[|a| + top + k] == block[k] {
      assert (a + lines)[|a| + (top + k)] == lines[top + k];
    }
  }

  predicate InRange(segments: seq<Segment>, n: nat) {
    forall k | 0 <= k < |segments| :: segments[k].first <= segments[k].end <= n
  }

  lemma {:induction false} TableLength(names: Row, rows: seq<Row>, widths: seq<nat>, numeric: seq<bool>, bar: string,
                                       segments: seq<Segment>)
    requires |numeric| == |widths| && |bar| == 1 && InRange(segments, |widths|)
    ensures |TableLines(names, rows, widths, numeric, bar, segments)| == Top(|segments|, |rows| + 4)
    decreases |segments|
  {
    hide SegmentLines, Rule, HeadLine, RowLine;
    if segments != [] {
      SegmentShows(names, rows, widths, numeric, bar, segments[0]);
      TableLength(names, rows, widths, numeric, bar, segments[1..]);
    }
  }

  /** The lines of the segments stand one after the other. */
  lemma {:induction false} BlocksOf(names: Row, rows: seq<Row>, widths: seq<nat>, numeric: seq<bool>, bar: string,
                                    segments: seq<Segment>, j: nat)
    requires |numeric| == |widths| && |bar| == 1 && InRange(segments, |widths|) && j < |segments|
    ensures var n := |rows| + 4;
            var lines := TableLines(names, rows, widths, numeric, bar, segments);
            Block(lines, Top(j, n), SegmentLines(names, rows, widths, numeric, bar, segments[j]))
    decreases j
  {
    hide SegmentLines, Rule, HeadLine, RowLine;
    var n := |rows| + 4;
    var first := SegmentLines(names, rows, widths, numeric, bar, segments[0]);
    var rest := TableLines(names, rows, widths, numeric, bar, segments[1..]);
    SegmentShows(names, rows, widths, numeric, bar, segments[0]);
    if j > 0 {
      BlocksOf(names, rows, widths, numeric, bar, segments[1..], j - 1);
      BlockBehind(first, rest, Top(j - 1, n), SegmentLines(names, rows, widths, numeric, bar, segments[j]));
    }
  }

  /** A column keeps its width when it fits between the borders, and otherwise gets all there is. */
  lemma LimitedWidth(widths: seq<nat>, maxWidth: int, i: nat)
    requires i < |widths|
    ensures var limited := Clamp(widths, ContentLimit(maxWidth));
            && |limited| == |widths|
            && (limited[i] == widths[i] <==> widths[i] <= 1 || 1 + widths[i] + 3 <= maxWidth)
            && (limited[i] != widths[i] ==> limited[i] == if maxWidth > 5 then maxWidth - 4 else 1)
  {
  }

  predicate ColumnIn(lines: seq<string>, line: nat, at: nat, width: nat, text: string, right: bool, bar: char) {
    line < |lines| && Column(lines[line], at, width, text, right, bar)
  }

  /**
   The lines have column i in block j and in no other; there its name stands in the line of names, and
   the value of row k in the line of that row.
   */
  predicate Printed(lines: seq<string>, names: Row, rows: seq<Row>, widths: seq<nat>, numeric: seq<bool>, bar: char,
                    segments: seq<Segment>, j: nat, k: nat, i: nat)
    requires |widths| == |names| == |numeric| && k < |rows| && i < |names|
  {
    && |lines| == Top(|segments|, |rows| + 4)
    && j < |segments| && Has(segments[j], i) && (forall m :: 0 <= m < |segments| && m != j ==> !Has(segments[m], i))
    && var top, at := Top(j, |rows| + 4), At(widths, segments[j].first, i);
       && ColumnIn(lines, top + 1, at, widths[i], names[i], false, bar)
       && ColumnIn(lines, top + 3 + k, at, widths[i], Value(rows[k], i), numeric[i], bar)
  }

  /** The columns of one block. */
  lemma BlockShows(names: Row, rows: seq<Row>, widths: seq<nat>, numeric: seq<bool>, bar: string, s: Segment,
                   lines: seq<string>, top: nat, k: nat, i: nat)
    requires |widths| == |names| == |numeric| && |bar| == 1 && s.first <= s.end <= |widths|
    requires Block(lines, top, SegmentLines(names, rows, widths, numeric, bar, s)) && k < |rows| && Has(s, i)
    ensures var at := At(widths, s.first, i);
            && ColumnIn(lines, top + 1, at, widths[i], names[i], false, bar[0])
            && ColumnIn(lines, top + 3 + k, at, widths[i], Value(rows[k], i), numeric[i], bar[0])
  {
    hide Column, SegmentLines, At;
    SegmentShows(names, rows, widths, numeric, bar, s);
    var block := SegmentLines(names, rows, widths, numeric, bar, s);
    assert lines[top + 1] == block[1] && lines[top + (3 + k)] == block[3 + k];
    assert HeadLine(block[1], names, widths, bar[0], s) && RowLine(block[3 + k], rows[k], widths, numeric, bar[0], s);
  }

  lemma PrintedIn(names: Row, rows: seq<Row>, widths: seq<nat>, numeric: seq<bool>, bar: string, segments: seq<Segment>,
                  j: nat, k: nat, i: nat)
    requires |widths| == |names| == |numeric| && |bar| == 1 && InRange(segments, |widths|)
    requires k < |rows| && i < |names| && j < |segments| && Has(segments[j], i)
    requires forall m :: 0 <= m < |segments| && m != j ==> !Has(segments[m], i)
    ensures Printed(TableLines(names, rows, widths, numeric, bar, segments), names, rows, widths, numeric, bar[0], segments,
                    j, k, i)
  {
    hide SegmentLines, TableLines, Top, Block, Column;
    TableLength(names, rows, widths, numeric, bar, segments);
    BlocksOf(names, rows, widths, numeric, bar, segments, j);
    var lines := TableLines(names, rows, widths, numeric, bar, segments);
    BlockShows(names, rows, widths, numeric, bar, segments[j], lines, Top(j, |rows| + 4), k, i);
  }

  /**
   Every cell is printed exactly once: the columns of a table are spread over blocks of lines, and the
   block of column i shows the value of each row between two separators.
   */
  lemma CellIsPrinted(names: Row, rows: seq<Row>, numeric: seq<bool>, separator: string, maxWidth: int, k: nat, i: nat)
    returns (j: nat)
    requires |numeric| == |names| && k < |rows| && i < |names|
    ensures var widths := Clamp(Widths(names, rows), ContentLimit(maxWidth));
            var segments := Greedy(widths, 0, maxWidth);
            var bar := if separator == "" || separator == " " then '|' else separator[0];
            && |widths| == |names| && InRange(segments, |widths|)
            && var lines := TableLines(names, rows, widths, numeric, Bar(separator), segments);
               Printed(lines, names, rows, widths, numeric, bar, segments, j, k, i)
  {
    hide Greedy, Widths, Clamp, TableLines, Covers, Printed, Has;
    var widths := Clamp(Widths(names, rows), ContentLimit(maxWidth));
    ClampLength(names, rows, maxWidth);
    var segments := Greedy(widths, 0, maxWidth);
    GreedyCovers(widths, 0, maxWidth);
    GreedyInRange(widths, 0, maxWidth);
    j := OneHas(segments, 0, |widths|, i);
    PrintedIn(names, rows, widths, numeric, Bar(separator), segments, j, k, i);
  }

  lemma ClampLength(names: Row, rows: seq<Row>, maxWidth: int)
    ensures |Clamp(Widths(names, rows), ContentLimit(maxWidth))| == |names|
  {
  }

  /** In a column that fits the screen by itself every value stands in full. */
  lemma ShownInFull(names: Row, rows: seq<Row>, maxWidth: int, k: nat, i: nat)
    requires k < |rows| && i < |names| && 1 + ColumnWidth(names, rows, i) + 3 <= maxWidth
    ensures var widths := Clamp(Widths(names, rows), ContentLimit(maxWidth));
            |widths| == |names| && |names[i]| <= widths[i] && |Value(rows[k], i)| <= widths[i]
  {
    WidthIsTight(names, rows, i);
    LimitedWidth(Widths(names, rows), maxWidth, i);
  }
}
