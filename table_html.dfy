/**
 * DocumentAnalysisPdfParser.TableToHtml: a detected table rendered as an
 * HTML <table>. Rows follow LINQ's GroupBy on the row index (one group per
 * distinct row index, in order of first appearance, cells in input order),
 * and each row's cells follow OrderBy on the column index (a stable sort).
 */
module TableHtml {
  import opened Text

  /** A table cell as the layout analyzer reports it. */
  datatype Cell = Cell(rowIndex: int, columnIndex: int, rowSpan: int, columnSpan: int, kind: string, content: string)

  // ---------------------------------------------------------------------
  // Grouping the cells by row, in the order rows first appear
  // ---------------------------------------------------------------------

  /** The cells of row `r`, in input order. */
  function WithRow(cells: seq<Cell>, r: int): (s: seq<Cell>)
    ensures |s| <= |cells|
    ensures forall i :: 0 <= i < |s| ==> s[i].rowIndex == r && s[i] in cells
  {
    if cells == [] then []
    else (if cells[0].rowIndex == r then [cells[0]] else []) + WithRow(cells[1..], r)
  }

  /** The cells of every other row, in input order. */
  function WithoutRow(cells: seq<Cell>, r: int): (s: seq<Cell>)
    ensures |s| <= |cells|
    ensures forall i :: 0 <= i < |s| ==> s[i].rowIndex != r && s[i] in cells
    ensures cells != [] && cells[0].rowIndex == r ==> |s| < |cells|
  {
    if cells == [] then []
    else (if cells[0].rowIndex != r then [cells[0]] else []) + WithoutRow(cells[1..], r)
  }

  /** The row groups: the first cell's row, then the groups of the cells of the other rows. */
  function GroupByRow(cells: seq<Cell>): seq<seq<Cell>>
    decreases |cells|
  {
    if cells == [] then []
    else
      var r := cells[0].rowIndex;
      [WithRow(cells, r)] + GroupByRow(WithoutRow(cells, r))
  }

  /** Whether some cell lies in row `r`. */
  predicate HasRow(cells: seq<Cell>, r: int)
  {
    exists i :: 0 <= i < |cells| && cells[i].rowIndex == r
  }

  /** Position of the first cell of row `r`. */
  function FirstInRow(cells: seq<Cell>, r: int): (p: nat)
    requires HasRow(cells, r)
    ensures p < |cells| && cells[p].rowIndex == r
    ensures forall i :: 0 <= i < p ==> cells[i].rowIndex != r
  {
    if cells[0].rowIndex == r then 0
    else
      assert HasRow(cells[1..], r) by {
        var i :| 0 <= i < |cells| && cells[i].rowIndex == r;
        assert cells[1..][i - 1].rowIndex == r;
      }
      1 + FirstInRow(cells[1..], r)
  }

  lemma {:induction false} SplitRow(cells: seq<Cell>, r: int)
    ensures multiset(WithRow(cells, r)) + multiset(WithoutRow(cells, r)) == multiset(cells)
  {
    if cells != [] {
      SplitRow(cells[1..], r);
      assert cells == [cells[0]] + cells[1..];
    }
  }

  /** Filtering out another row keeps row `r2`'s cells. */
  lemma {:induction false} WithRowOfWithout(cells: seq<Cell>, r: int, r2: int)
    requires r != r2
    ensures WithRow(WithoutRow(cells, r), r2) == WithRow(cells, r2)
  {
    if cells != [] {
      WithRowOfWithout(cells[1..], r, r2);
      var head := if cells[0].rowIndex != r then [cells[0]] else [];
      assert WithoutRow(cells, r) == head + WithoutRow(cells[1..], r);
      WithRowAppend(head, WithoutRow(cells[1..], r), r2);
    }
  }

  lemma {:induction false} WithRowAppend(a: seq<Cell>, b: seq<Cell>, r: int)
    ensures WithRow(a + b, r) == WithRow(a, r) + WithRow(b, r)
  {
    if a != [] {
      assert (a + b)[1..] == a[1..] + b;
      WithRowAppend(a[1..], b, r);
    } else {
      assert a + b == b;
    }
  }

  lemma HasRowOfWithout(cells: seq<Cell>, r: int, r2: int)
    requires r != r2
    ensures HasRow(WithoutRow(cells, r), r2) <==> HasRow(cells, r2)
  {
    WithRowOfWithout(cells, r, r2);
    HasRowIffWithRow(cells, r2);
    HasRowIffWithRow(WithoutRow(cells, r), r2);
  }

  lemma {:induction false} HasRowIffWithRow(cells: seq<Cell>, r: int)
    ensures HasRow(cells, r) <==> WithRow(cells, r) != []
  {
    if cells != [] {
      HasRowIffWithRow(cells[1..], r);
      if HasRow(cells, r) && cells[0].rowIndex != r {
        var i :| 0 <= i < |cells| && cells[i].rowIndex == r;
        assert cells[1..][i - 1].rowIndex == r;
      }
      if HasRow(cells[1..], r) {
        var i :| 0 <= i < |cells[1..]| && cells[1..][i].rowIndex == r;
        assert cells[i + 1].rowIndex == r;
      }
    }
  }

  /** Removing the cells of another row keeps the relative order of first appearances. */
  lemma {:induction false} FirstInRowOfWithout(cells: seq<Cell>, r: int, r1: int, r2: int)
    requires r != r1 && r != r2 && HasRow(cells, r1) && HasRow(cells, r2)
    requires FirstInRow(cells, r1) < FirstInRow(cells, r2)
    ensures HasRow(WithoutRow(cells, r), r1) && HasRow(WithoutRow(cells, r), r2)
    ensures FirstInRow(WithoutRow(cells, r), r1) < FirstInRow(WithoutRow(cells, r), r2)
  {
    HasRowOfWithout(cells, r, r1);
    HasRowOfWithout(cells, r, r2);
    var rest := cells[1..];
    var w := WithoutRow(cells, r);
    if cells[0].rowIndex == r {
      assert w == WithoutRow(rest, r);
      FirstInRowOfWithout(rest, r, r1, r2);
    } else if cells[0].rowIndex == r1 {
      assert w[0] == cells[0];
    } else {
      assert w == [cells[0]] + WithoutRow(rest, r);
      assert cells[0].rowIndex != r2;
      FirstInRowOfWithout(rest, r, r1, r2);
    }
  }

  /** Each group is non-empty and holds exactly the cells of one row, in input order. */
  lemma {:induction false} GroupsAreRows(cells: seq<Cell>)
    ensures forall g :: 0 <= g < |GroupByRow(cells)| ==>
      GroupByRow(cells)[g] != [] && GroupByRow(cells)[g] == WithRow(cells, GroupByRow(cells)[g][0].rowIndex)
    decreases |cells|
  {
    if cells != [] {
      var r := cells[0].rowIndex;
      var rest := WithoutRow(cells, r);
      var groups: seq<seq<Cell>> := GroupByRow(cells);
      GroupsAreRows(rest);
      assert WithRow(cells, r) == [cells[0]] + WithRow(cells[1..], r);
      forall g | 1 <= g < |groups|
        ensures groups[g] != [] && groups[g] == WithRow(cells, groups[g][0].rowIndex)
      {
        var r2 := groups[g][0].rowIndex;
        assert groups[g] == GroupByRow(rest)[g - 1];
        assert groups[g][0] in rest;
        WithRowOfWithout(cells, r, r2);
      }
    }
  }

  /** Every cell appears in exactly one group. */
  lemma {:induction false} GroupsPermutation(cells: seq<Cell>)
    ensures multiset(Flatten(GroupByRow(cells))) == multiset(cells)
    decreases |cells|
  {
    if cells != [] {
      var r := cells[0].rowIndex;
      var rest := WithoutRow(cells, r);
      GroupsPermutation(rest);
      assert ([WithRow(cells, r)] + GroupByRow(rest))[1..] == GroupByRow(rest);
      SplitRow(cells, r);
    }
  }

  /** First appearances keep their order when the cells of a third row are put back. */
  lemma FirstAppearanceKept(cells: seq<Cell>, r: int, r1: int, r2: int)
    requires r1 != r && r2 != r && r1 != r2
    requires HasRow(WithoutRow(cells, r), r1) && HasRow(WithoutRow(cells, r), r2)
    requires FirstInRow(WithoutRow(cells, r), r1) < FirstInRow(WithoutRow(cells, r), r2)
    ensures HasRow(cells, r1) && HasRow(cells, r2)
    ensures FirstInRow(cells, r1) < FirstInRow(cells, r2)
  {
    HasRowOfWithout(cells, r, r1);
    HasRowOfWithout(cells, r, r2);
    var p1, p2 := FirstInRow(cells, r1), FirstInRow(cells, r2);
    assert cells[p1].rowIndex == r1 && cells[p2].rowIndex == r2;
    if p2 < p1 {
      FirstInRowOfWithout(cells, r, r2, r1);
      assert false;
    }
    assert p1 != p2;
  }

  /** The groups of non-empty cells: the first cell's row, then the groups of the other rows. */
  lemma GroupsStep(cells: seq<Cell>)
    requires cells != []
    ensures var r := cells[0].rowIndex;
      var groups, restGroups := GroupByRow(cells), GroupByRow(WithoutRow(cells, r));
      |groups| == |restGroups| + 1 &&
      groups[0] == [cells[0]] + WithRow(cells[1..], r) &&
      forall g :: 0 < g < |groups| ==> groups[g] == restGroups[g - 1]
  {
  }

  /** Each group is non-empty and its row occurs among the cells. */
  lemma {:induction false} GroupsHaveRows(cells: seq<Cell>)
    ensures forall g :: 0 <= g < |GroupByRow(cells)| ==>
      GroupByRow(cells)[g] != [] && HasRow(cells, GroupByRow(cells)[g][0].rowIndex)
    decreases |cells|
  {
    if cells != [] {
      var r := cells[0].rowIndex;
      var rest := WithoutRow(cells, r);
      var groups: seq<seq<Cell>> := GroupByRow(cells);
      var restGroups: seq<seq<Cell>> := GroupByRow(rest);
      GroupsStep(cells);
      GroupsHaveRows(rest);
      forall g | 0 <= g < |groups|
        ensures groups[g] != [] && HasRow(cells, groups[g][0].rowIndex)
      {
        if g == 0 {
          assert cells[0].rowIndex == groups[0][0].rowIndex;
        } else {
          var r1 := restGroups[g - 1][0].rowIndex;
          assert HasRow(rest, r1);
          HasRowOfWithout(cells, r, r1);
        }
      }
    }
  }

  /** Groups come in order of their row's first appearance among the cells. */
  lemma {:induction false} GroupsInFirstAppearanceOrder(cells: seq<Cell>)
    ensures forall g :: 0 <= g < |GroupByRow(cells)| ==>
      GroupByRow(cells)[g] != [] && HasRow(cells, GroupByRow(cells)[g][0].rowIndex)
    ensures forall g, h :: 0 <= g < h < |GroupByRow(cells)| ==>
      FirstInRow(cells, GroupByRow(cells)[g][0].rowIndex) < FirstInRow(cells, GroupByRow(cells)[h][0].rowIndex)
    decreases |cells|
  {
    GroupsHaveRows(cells);
    if cells != [] {
      var r := cells[0].rowIndex;
      var rest := WithoutRow(cells, r);
      var groups: seq<seq<Cell>> := GroupByRow(cells);
      var restGroups: seq<seq<Cell>> := GroupByRow(rest);
      GroupsStep(cells);
      GroupsInFirstAppearanceOrder(rest);
      forall g, h | 0 <= g < h < |groups|
        ensures FirstInRow(cells, groups[g][0].rowIndex) < FirstInRow(cells, groups[h][0].rowIndex)
      {
        var r1, r2 := groups[g][0].rowIndex, groups[h][0].rowIndex;
        assert HasRow(rest, r2) && r2 == restGroups[h - 1][0].rowIndex;
        if g == 0 {
          assert cells[FirstInRow(cells, r2)].rowIndex == r2 != r;
        } else {
          assert r1 == restGroups[g - 1][0].rowIndex;
          FirstAppearanceKept(cells, r, r1, r2);
        }
      }
    }
  }

  /** Distinct groups are distinct rows. */
  lemma GroupsDistinct(cells: seq<Cell>)
    ensures forall g, h :: 0 <= g < h < |GroupByRow(cells)| ==>
      GroupByRow(cells)[g] != [] && GroupByRow(cells)[h] != [] &&
      GroupByRow(cells)[g][0].rowIndex != GroupByRow(cells)[h][0].rowIndex
  {
    GroupsInFirstAppearanceOrder(cells);
  }

  // ---------------------------------------------------------------------
  // Ordering a row's cells by column, keeping input order within a column
  // ---------------------------------------------------------------------

  predicate SortedByColumn(cells: seq<Cell>)
  {
    forall i, j :: 0 <= i < j < |cells| ==> cells[i].columnIndex <= cells[j].columnIndex
  }

  /** The cells of column `k`, in order. */
  function WithColumn(cells: seq<Cell>, k: int): seq<Cell>
  {
    if cells == [] then [] else (if cells[0].columnIndex == k then [cells[0]] else []) + WithColumn(cells[1..], k)
  }

  /** Inserts `c` after every cell whose column is not greater than its own. */
  function InsertByColumn(c: Cell, sorted: seq<Cell>): (r: seq<Cell>)
    ensures multiset(r) == multiset(sorted) + multiset{c}
  {
    if sorted == [] then [c]
    else if c.columnIndex < sorted[0].columnIndex then [c] + sorted
    else
      assert sorted == [sorted[0]] + sorted[1..];
      [sorted[0]] + InsertByColumn(c, sorted[1..])
  }

  lemma {:induction false} InsertSorted(c: Cell, sorted: seq<Cell>)
    requires SortedByColumn(sorted)
    ensures SortedByColumn(InsertByColumn(c, sorted))
  {
    if sorted != [] && c.columnIndex >= sorted[0].columnIndex {
      var tail := InsertByColumn(c, sorted[1..]);
      SortedTail(sorted);
      InsertSorted(c, sorted[1..]);
      forall i | 0 <= i < |tail| ensures sorted[0].columnIndex <= tail[i].columnIndex {
        assert tail[i] in multiset(tail);
        assert tail[i] in multiset(sorted[1..]) + multiset{c};
        if tail[i] != c {
          assert tail[i] in sorted[1..];
        }
      }
    }
  }

  lemma SortedTail(sorted: seq<Cell>)
    requires SortedByColumn(sorted) && sorted != []
    ensures SortedByColumn(sorted[1..])
  {
    forall i, j | 0 <= i < j < |sorted| - 1
      ensures sorted[1..][i].columnIndex <= sorted[1..][j].columnIndex
    {
      assert sorted[1..][i] == sorted[i + 1] && sorted[1..][j] == sorted[j + 1];
    }
  }

  /** Insertion sort by column, taking the cells left to right. */
  function SortByColumn(cells: seq<Cell>): (r: seq<Cell>)
    ensures multiset(r) == multiset(cells)
  {
    if cells == [] then []
    else
      assert cells == cells[..|cells| - 1] + [cells[|cells| - 1]];
      InsertByColumn(cells[|cells| - 1], SortByColumn(cells[..|cells| - 1]))
  }

  /** The result is sorted by column. */
  lemma {:induction false} SortByColumnSorted(cells: seq<Cell>)
    ensures SortedByColumn(SortByColumn(cells))
  {
    if cells != [] {
      SortByColumnSorted(cells[..|cells| - 1]);
      InsertSorted(cells[|cells| - 1], SortByColumn(cells[..|cells| - 1]));
    }
  }

  lemma {:induction false} WithColumnAppend(a: seq<Cell>, b: seq<Cell>, k: int)
    ensures WithColumn(a + b, k) == WithColumn(a, k) + WithColumn(b, k)
  {
    if a != [] {
      assert (a + b)[1..] == a[1..] + b;
      WithColumnAppend(a[1..], b, k);
    } else {
      assert a + b == b;
    }
  }

  /** In a sorted list, inserting `c` puts it after every cell of its own column. */
  lemma {:induction false} InsertKeepsColumnOrder(c: Cell, sorted: seq<Cell>, k: int)
    requires SortedByColumn(sorted)
    ensures WithColumn(InsertByColumn(c, sorted), k)
         == WithColumn(sorted, k) + (if c.columnIndex == k then [c] else [])
  {
    if sorted == [] {
    } else if c.columnIndex < sorted[0].columnIndex {
      assert ([c] + sorted)[1..] == sorted;
      if c.columnIndex == k {
        NoColumnAbove(sorted, k);
      }
    } else {
      var r := [sorted[0]] + InsertByColumn(c, sorted[1..]);
      var head := if sorted[0].columnIndex == k then [sorted[0]] else [];
      assert r[1..] == InsertByColumn(c, sorted[1..]);
      assert WithColumn(r, k) == head + WithColumn(InsertByColumn(c, sorted[1..]), k);
      assert WithColumn(sorted, k) == head + WithColumn(sorted[1..], k);
      SortedTail(sorted);
      InsertKeepsColumnOrder(c, sorted[1..], k);
    }
  }

  /** No cell of a sorted list whose first column exceeds `k` lies in column `k`. */
  lemma {:induction false} NoColumnAbove(sorted: seq<Cell>, k: int)
    requires SortedByColumn(sorted) && sorted != [] && k < sorted[0].columnIndex
    ensures WithColumn(sorted, k) == []
  {
    if |sorted| > 1 {
      SortedTail(sorted);
      NoColumnAbove(sorted[1..], k);
    } else {
      assert sorted[1..] == [];
    }
  }

  /** The sort is stable: within each column, cells keep their input order. */
  lemma {:induction false} SortByColumnStable(cells: seq<Cell>, k: int)
    ensures WithColumn(SortByColumn(cells), k) == WithColumn(cells, k)
  {
    if cells != [] {
      var init, last := cells[..|cells| - 1], cells[|cells| - 1];
      assert cells == init + [last];
      var sortedInit := SortByColumn(init);
      assert SortByColumn(cells) == InsertByColumn(last, sortedInit);
      SortByColumnStable(init, k);
      SortByColumnSorted(init);
      InsertKeepsColumnOrder(last, sortedInit, k);
      assert WithColumn(SortByColumn(cells), k) == WithColumn(init, k) + (if last.columnIndex == k then [last] else []);
      WithColumnAppend(init, [last], k);
      WithColumnSingle(last, k);
    }
  }

  lemma WithColumnSingle(c: Cell, k: int)
    ensures WithColumn([c], k) == if c.columnIndex == k then [c] else []
  {
    assert [c][1..] == [];
  }

  // ---------------------------------------------------------------------
  // HTML
  // ---------------------------------------------------------------------

  /** The rows of the table: row groups, each sorted by column. */
  function Rows(cells: seq<Cell>): (rows: seq<seq<Cell>>)
    ensures |rows| == |GroupByRow(cells)|
  {
    var groups := GroupByRow(cells);
    seq(|groups|, i requires 0 <= i < |groups| => SortByColumn(groups[i]))
  }

  /** "th" for header cells, "td" for every other cell. */
  function CellTag(c: Cell): (tag: string)
    ensures tag == "th" <==> c.kind == "columnHeader" || c.kind == "rowHeader"
    ensures tag == "th" || tag == "td"
  {
    if c.kind == "columnHeader" || c.kind == "rowHeader" then "th" else "td"
  }

  /** The span attributes: colspan only when greater than 1, then rowspan only when greater than 1. */
  function CellSpans(c: Cell): (s: string)
    ensures s == "" <==> c.columnSpan <= 1 && c.rowSpan <= 1
    ensures c.columnSpan > 1 ==> IsPrefixOf(" colspan=" + IntToString(c.columnSpan), s)
    ensures c.rowSpan > 1 ==> IsSuffixOf(" rowspan=" + IntToString(c.rowSpan), s)
    ensures c.columnSpan <= 1 ==> s == if c.rowSpan > 1 then " rowspan=" + IntToString(c.rowSpan) else ""
  {
    var cellSpans := if c.columnSpan > 1 then " colspan=" + IntToString(c.columnSpan) else "";
    if c.rowSpan > 1 then cellSpans + " rowspan=" + IntToString(c.rowSpan) else cellSpans
  }

  predicate IsPrefixOf(prefix: string, s: string)
  {
    |prefix| <= |s| && s[..|prefix|] == prefix
  }

  predicate IsSuffixOf(suffix: string, s: string)
  {
    |suffix| <= |s| && s[|s| - |suffix|..] == suffix
  }

  /** One cell: its tag, its span attributes, and its entity-encoded content. */
  function CellHtml(c: Cell, htmlEncode: string -> string): string
  {
    "<" + CellTag(c) + CellSpans(c) + ">" + htmlEncode(c.content) + "</" + CellTag(c) + ">"
  }

  function CellHtmls(row: seq<Cell>, htmlEncode: string -> string): (r: seq<string>)
    ensures |r| == |row| && forall j :: 0 <= j < |row| ==> r[j] == CellHtml(row[j], htmlEncode)
  {
    seq(|row|, j requires 0 <= j < |row| => CellHtml(row[j], htmlEncode))
  }

  function RowHtml(row: seq<Cell>, htmlEncode: string -> string): string
  {
    "<tr>" + Flatten(CellHtmls(row, htmlEncode)) + "</tr>"
  }

  function RowHtmls(rows: seq<seq<Cell>>, htmlEncode: string -> string): (r: seq<string>)
    ensures |r| == |rows| && forall i :: 0 <= i < |rows| ==> r[i] == RowHtml(rows[i], htmlEncode)
  {
    seq(|rows|, i requires 0 <= i < |rows| => RowHtml(rows[i], htmlEncode))
  }

  /** The HTML of a table with the given cells. */
  function TableHtmlOf(cells: seq<Cell>, htmlEncode: string -> string): string
  {
    "<table>" + Flatten(RowHtmls(Rows(cells), htmlEncode)) + "</table>"
  }

  /**
   * Every cell is emitted exactly once: the rows, read in order, are a
   * permutation of the table's cells; each row is sorted by column.
   */
  lemma RowsArePermutation(cells: seq<Cell>)
    ensures multiset(Flatten(Rows(cells))) == multiset(cells)
    ensures forall i :: 0 <= i < |Rows(cells)| ==> SortedByColumn(Rows(cells)[i])
  {
    GroupsPermutation(cells);
    FlattenSameMultisets(Rows(cells), GroupByRow(cells));
    forall i | 0 <= i < |Rows(cells)| ensures SortedByColumn(Rows(cells)[i]) {
      SortByColumnSorted(GroupByRow(cells)[i]);
    }
  }

  lemma {:induction false} FlattenSameMultisets(a: seq<seq<Cell>>, b: seq<seq<Cell>>)
    requires |a| == |b| && forall i :: 0 <= i < |a| ==> multiset(a[i]) == multiset(b[i])
    ensures multiset(Flatten(a)) == multiset(Flatten(b))
  {
    if a != [] {
      FlattenSameMultisets(a[1..], b[1..]);
    }
  }

  /**
   * TableToHtml: appends "<table>", then per row "<tr>", the cells and
   * "</tr>", then "</table>".
   */
  method TableToHtml(cells: seq<Cell>, htmlEncode: string -> string) returns (tableHtml: string)
    ensures tableHtml == TableHtmlOf(cells, htmlEncode)
  {
    var rows := Rows(cells);
    ghost var rowHtmls := RowHtmls(rows, htmlEncode);
    tableHtml := "<table>";
    for i := 0 to |rows|
      invariant tableHtml == "<table>" + Flatten(rowHtmls[..i])
    {
      var row := RowToHtml(rows[i], htmlEncode);
      AppendStep("<table>", rowHtmls, i, row, tableHtml);
      tableHtml := tableHtml + row;
    }
    assert rowHtmls[..|rows|] == rowHtmls;
    tableHtml := tableHtml + "</table>";
  }

  /** The body of TableToHtml's row loop: "<tr>", each cell in turn, "</tr>". */
  method RowToHtml(rowCells: seq<Cell>, htmlEncode: string -> string) returns (row: string)
    ensures row == RowHtml(rowCells, htmlEncode)
  {
    ghost var cellHtmls := CellHtmls(rowCells, htmlEncode);
    row := "<tr>";
    for j := 0 to |rowCells|
      invariant row == "<tr>" + Flatten(cellHtmls[..j])
    {
      var cellHtml := CellHtml(rowCells[j], htmlEncode);
      AppendStep("<tr>", cellHtmls, j, cellHtml, row);
      row := row + cellHtml;
    }
    assert cellHtmls[..|rowCells|] == cellHtmls;
    row := row + "</tr>";
  }

  /** One step of an appending loop: the accumulator grows by the next part. */
  lemma AppendStep(prefix: string, parts: seq<string>, j: nat, part: string, acc: string)
    requires j < |parts| && part == parts[j] && acc == prefix + Flatten(parts[..j])
    ensures acc + part == prefix + Flatten(parts[..j + 1])
  {
    FlattenSnoc(parts, j);
  }

  lemma FlattenSnoc<T>(xss: seq<seq<T>>, i: nat)
    requires i < |xss|
    ensures Flatten(xss[..i + 1]) == Flatten(xss[..i]) + xss[i]
  {
    assert xss[..i + 1] == xss[..i] + [xss[i]];
    FlattenAppend(xss[..i], [xss[i]]);
    assert Flatten([xss[i]]) == xss[i] + Flatten([]);
  }
}
