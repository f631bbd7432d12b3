/** The table formatter as an object: it collects rows, widens columns and prints segments. */
module AsciiFormatters {
  import opened Runes
  import opened AsciiTable

  class AsciiFormatter {
    const names: Row
    const numeric: seq<bool>
    const separator: string
    var rows: seq<Row>
    var colWidths: array<nat>
    var out: seq<string>        // the printed lines

    ghost predicate Valid()
      reads this
    {
      colWidths.Length == |names| == |numeric|
    }

    /** The widths are those of the names and the rows. */
    ghost predicate Tracking()
      reads this, colWidths
    {
      Valid() && colWidths[..] == Widths(names, rows)
    }

    /** Starts a result set. */
    constructor (names: Row, numeric: seq<bool>, separator: string)
      requires |numeric| == |names|
      ensures Tracking() && rows == [] && out == [] && fresh(colWidths)
      ensures this.names == names && this.numeric == numeric && this.separator == separator
    {
      this.names, this.numeric, this.separator := names, numeric, separator;
      rows, out := [], [];
      colWidths := new nat[|names|](i requires 0 <= i < |names| => |names[i]|);
    }

    method AddRow(values: Row) returns (first: string)
      requires Tracking()
      modifies this`rows, colWidths
      ensures Tracking() && rows == old(rows) + [values]
      ensures first == Cell(values, 0)
    {
      rows := rows + [values];
      assert rows[..|rows| - 1] == old(rows);
      var i := 0;
      while i < |values|
        invariant 0 <= i <= |values| && rows == old(rows) + [values]
        invariant forall k | 0 <= k < |names| && k < i :: colWidths[k] == ColumnWidth(names, rows, k)
        invariant forall k | i <= k < |names| :: colWidths[k] == ColumnWidth(names, old(rows), k)
      {
        if i < colWidths.Length {
          var l := |values[i]|;
          if l > colWidths[i] {
            colWidths[i] := l;
          }
        }
        i := i + 1;
      }
      assert forall k | 0 <= k < |names| :: colWidths[k] == ColumnWidth(names, rows, k);
      first := if |values| > 0 then values[0] else "";
    }

    /** Prints the whole table on a screen of maxWidth columns. */
    method PrintAsciiTable(maxWidth: int)
      requires Tracking()
      modifies this`out, colWidths
      ensures Valid() && colWidths[..] == Clamp(Widths(names, rows), ContentLimit(maxWidth))
      ensures var segments := Greedy(colWidths[..], 0, maxWidth);
              && (forall k | 0 <= k < |segments| :: segments[k].first <= segments[k].end <= |names|)
              && out == old(out) + TableLines(names, rows, colWidths[..], numeric, Bar(separator), segments)
    {
      var maxColContentWidth: nat := if maxWidth - 4 > 1 then maxWidth - 4 else 1;
      var i := 0;
      while i < colWidths.Length
        invariant 0 <= i <= colWidths.Length && out == old(out)
        invariant forall k | 0 <= k < i :: colWidths[k] == Min(old(colWidths[k]), maxColContentWidth)
        invariant forall k | i <= k < colWidths.Length :: colWidths[k] == old(colWidths[k])
      {
        if colWidths[i] > maxColContentWidth {
          colWidths[i] := maxColContentWidth;
        }
        i := i + 1;
      }
      ghost var widths := colWidths[..];
      assert widths == Clamp(Widths(names, rows), ContentLimit(maxWidth));

      var totalWidth: nat := 1;
      i := 0;
      while i < colWidths.Length
        invariant 0 <= i <= colWidths.Length && totalWidth == 1 + Sum(widths, 0, i)
        invariant colWidths[..] == widths && out == old(out)
      {
        SumSnoc(widths, 0, i);
        totalWidth := totalWidth + colWidths[i] + 3;
        i := i + 1;
      }

      GreedyInRange(widths, 0, maxWidth);
      if totalWidth <= maxWidth {
        OneSegment(widths, maxWidth);
        PrintTableSegment(0, |names| - 1);
        if widths != [] {
          OneSegmentLines(names, rows, widths, numeric, Bar(separator));
        }
      } else {
        PrintSegments(maxWidth);
      }
    }

    /** Cuts the columns into segments, as many columns each as fit. */
    method PrintSegments(maxWidth: int)
      requires Valid()
      requires forall k | 0 <= k < |Greedy(colWidths[..], 0, maxWidth)| ::
                 var s := Greedy(colWidths[..], 0, maxWidth)[k]; s.first <= s.end <= |names|
      modifies this`out
      ensures out == old(out) + TableLines(names, rows, colWidths[..], numeric, Bar(separator),
                                           Greedy(colWidths[..], 0, maxWidth))
    {
      hide SegmentLines, GreedyEnd;
      ghost var widths := colWidths[..];
      ghost var all := TableLines(names, rows, widths, numeric, Bar(separator), Greedy(widths, 0, maxWidth));
      var startCol := 0;
      while startCol < colWidths.Length
        invariant 0 <= startCol <= |widths|
        invariant forall k | 0 <= k < |Greedy(widths, startCol, maxWidth)| ::
                    var s := Greedy(widths, startCol, maxWidth)[k]; s.first <= s.end <= |names|
        invariant old(out) + all ==
                  out + TableLines(names, rows, widths, numeric, Bar(separator), Greedy(widths, startCol, maxWidth))
      {
        ghost var was, segments := out, Greedy(widths, startCol, maxWidth);
        var endCol := SegmentEnd(startCol, maxWidth);
        if endCol == startCol {
          endCol := endCol + 1;
        }
        assert segments[0] == Segment(startCol, endCol);
        assert segments[1..] == Greedy(widths, endCol, maxWidth);
        forall k | 0 <= k < |segments[1..]| ensures var s := segments[1..][k]; s.first <= s.end <= |names| {
          assert segments[1..][k] == segments[k + 1];
        }
        PrintTableSegment(startCol, endCol - 1);
        Regroup(was, SegmentLines(names, rows, widths, numeric, Bar(separator), segments[0]),
                TableLines(names, rows, widths, numeric, Bar(separator), segments[1..]));
        startCol := endCol;
      }
    }

    /** The columns from startCol on that fit the screen together. */
    method SegmentEnd(startCol: nat, maxWidth: int) returns (endCol: nat)
      requires Valid() && startCol <= colWidths.Length
      ensures endCol == GreedyEnd(colWidths[..], startCol, startCol, maxWidth)
    {
      var currentWidth: nat := 1;
      endCol := startCol;
      while endCol < colWidths.Length
        invariant startCol <= endCol <= colWidths.Length
        invariant currentWidth == 1 + Sum(colWidths[..], startCol, endCol)
        invariant GreedyEnd(colWidths[..], startCol, startCol, maxWidth) ==
                  GreedyEnd(colWidths[..], startCol, endCol, maxWidth)
      {
        var w := colWidths[endCol] + 3;
        SumSnoc(colWidths[..], startCol, endCol);
        if currentWidth + w > maxWidth {
          break;
        }
        currentWidth := currentWidth + w;
        endCol := endCol + 1;
      }
    }

    /** Prints the columns from startCol up to and including endCol. */
    method PrintTableSegment(startCol: nat, endCol: int)
      requires Valid() && -1 <= endCol < |names| && startCol <= endCol + 1
      modifies this`out
      ensures out == old(out) +
                     if startCol > endCol then []
                     else SegmentLines(names, rows, colWidths[..], numeric, Bar(separator), Segment(startCol, endCol + 1))
    {
      if startCol > endCol {
        return;
      }
      hide Cells, RowLines, Dashes;
      ghost var widths, s := colWidths[..], Segment(startCol, endCol + 1);
      var sep := separator;
      if sep == "" || sep == " " {
        sep := "|";
      } else {
        sep := sep[..1];
      }
      var divider := PrintDivider(startCol, endCol);
      var header := PrintCells(names, NoneNumeric(|names|), sep, startCol, endCol);
      out := out + [divider, header, divider];
      ghost var top, lines := out, RowLines(rows, widths, numeric, sep, s);
      var k := 0;
      while k < |rows|
        invariant 0 <= k <= |rows|
        invariant out == top + lines[..k]
      {
        var line := PrintCells(rows[k], numeric, sep, startCol, endCol);
        Regroup(top, lines[..k], [line]);
        RowLineNext(rows, widths, numeric, sep, s, k);
        out := out + [line];
        k := k + 1;
      }
      assert lines[..|rows|] == lines;
      out := out + [divider];
      Regroup(old(out), [divider, header, divider], lines);
      Regroup(old(out), [divider, header, divider] + lines, [divider]);
    }

    method PrintDivider(startCol: nat, endCol: nat) returns (divider: string)
      requires Valid() && startCol <= endCol < |names|
      ensures divider == "+" + Dashes(colWidths[..], startCol, endCol + 1)
    {
      hide Dashes;
      divider := "+";
      var i := startCol;
      while i <= endCol
        invariant startCol <= i <= endCol + 1
        invariant divider + Dashes(colWidths[..], i, endCol + 1) == "+" + Dashes(colWidths[..], startCol, endCol + 1)
      {
        DashesStep(colWidths[..], i, endCol + 1);
        Regroup(divider, Copies('-', colWidths[i] + 2) + "+", Dashes(colWidths[..], i + 1, endCol + 1));
        divider := divider + (Copies('-', colWidths[i] + 2) + "+");
        i := i + 1;
      }
      DashesStep(colWidths[..], i, endCol + 1);
    }

    /** One line of padded cells. */
    method PrintCells(row: Row, numericCells: seq<bool>, sep: string, startCol: nat, endCol: nat) returns (line: string)
      requires Valid() && startCol <= endCol < |names| && |numericCells| == |names|
      ensures line == sep + Cells(row, colWidths[..], numericCells, sep, startCol, endCol + 1)
    {
      hide Cells, PadLeft, PadRight, ShortFor;
      line := sep;
      var i := startCol;
      while i <= endCol
        invariant startCol <= i <= endCol + 1
        invariant line + Cells(row, colWidths[..], numericCells, sep, i, endCol + 1) ==
                  sep + Cells(row, colWidths[..], numericCells, sep, startCol, endCol + 1)
      {
        CellsStep(row, colWidths[..], numericCells, sep, i, endCol + 1);
        var val := if i < |row| then row[i] else "";
        var text := if numericCells[i] then PadLeft(val, colWidths[i]) else PadRight(val, colWidths[i]);
        Regroup(line, (" " + text) + (" " + sep), Cells(row, colWidths[..], numericCells, sep, i + 1, endCol + 1));
        line := line + ((" " + text) + (" " + sep));
        i := i + 1;
      }
      CellsStep(row, colWidths[..], numericCells, sep, i, endCol + 1);
    }
  }

  lemma OneSegmentLines(names: Row, rows: seq<Row>, widths: seq<nat>, numeric: seq<bool>, bar: string)
    requires |numeric| == |widths| && widths != []
    ensures TableLines(names, rows, widths, numeric, bar, [Segment(0, |widths|)]) ==
            SegmentLines(names, rows, widths, numeric, bar, Segment(0, |widths|))
  {
    assert [Segment(0, |widths|)][1..] == [];
  }
}
