/** The column formatter of ledger.py: tables are sequences of rows of cells, and a column is
    justified by padding every cell of it to the widest cell of that column. */
module Columns {
  import opened Text

  type Row = seq<string>

  /** Every row has a cell in `column`, which the column helpers index without a check. */
  predicate HasColumn(rows: seq<Row>, column: nat) {
    forall i :: 0 <= i < |rows| ==> column < |rows[i]|
  }

  /** The length of the widest cell of `column` (0 for no rows). */
  function Width(rows: seq<Row>, column: nat): (w: nat)
    requires HasColumn(rows, column)
    ensures forall i :: 0 <= i < |rows| ==> |rows[i][column]| <= w
    ensures rows != [] ==> exists i :: 0 <= i < |rows| && |rows[i][column]| == w
    decreases |rows|
  {
    if rows == [] then 0
    else
      var w := Width(rows[..|rows| - 1], column);
      var last := |rows[|rows| - 1][column]|;
      assert forall i :: 0 <= i < |rows| - 1 ==> rows[..|rows| - 1][i] == rows[i];
      if last > w then last else w
  }

  lemma WidthStep(rows: seq<Row>, column: nat, i: nat)
    requires HasColumn(rows, column) && i < |rows|
    ensures Width(rows[..i + 1], column) == if |rows[i][column]| > Width(rows[..i], column) then |rows[i][column]| else Width(rows[..i], column)
  {
    assert rows[..i + 1][..i] == rows[..i];
  }

  /** Tables that agree on `column` have the same width there. */
  lemma {:induction false} WidthSameColumn(a: seq<Row>, b: seq<Row>, column: nat)
    requires HasColumn(a, column) && HasColumn(b, column) && |a| == |b|
    requires forall i :: 0 <= i < |a| ==> a[i][column] == b[i][column]
    ensures Width(a, column) == Width(b, column)
    decreases |a|
  {
    if a != [] {
      var n := |a| - 1;
      WidthSameColumn(a[..n], b[..n], column);
    }
  }

  /** join_columns: each row's cells joined by the separator. */
  method JoinColumns(rows: seq<Row>, separator: string) returns (r: seq<string>)
    ensures |r| == |rows|
    ensures forall i :: 0 <= i < |rows| ==> r[i] == Join(rows[i], separator)
  {
    r := [];
    for i := 0 to |rows|
      invariant |r| == i
      invariant forall k :: 0 <= k < i ==> r[k] == Join(rows[k], separator)
    {
      r := r + [Join(rows[i], separator)];
    }
  }

  /** With a one-character separator that no cell contains, a joined row splits back into its cells. */
  lemma JoinColumnsSplit(rows: seq<Row>, lines: seq<string>, sep: char)
    requires |lines| == |rows| && forall i :: 0 <= i < |rows| ==> lines[i] == Join(rows[i], [sep])
    requires forall i, j :: 0 <= i < |rows| && 0 <= j < |rows[i]| ==> sep !in rows[i][j]
    requires forall i :: 0 <= i < |rows| ==> rows[i] != []
    ensures forall i :: 0 <= i < |rows| ==> Split(lines[i], sep) == rows[i]
  {
    forall i | 0 <= i < |rows|
      ensures Split(lines[i], sep) == rows[i]
    {
      SplitJoin(rows[i], sep);
    }
  }

  /** The widest cell of a column, as `max([len(row[column]) for row in ...])` computes it. */
  method MaxWidth(rows: seq<Row>, column: nat) returns (w: nat)
    requires HasColumn(rows, column)
    ensures w == Width(rows, column)
  {
    w := 0;
    for i := 0 to |rows|
      invariant w == Width(rows[..i], column)
    {
      WidthStep(rows, column, i);
      if |rows[i][column]| > w {
        w := |rows[i][column]|;
      }
    }
    assert rows[..|rows|] == rows;
  }

  /** The cells of `column` padded on the left (`right`) or on the right (`!right`) to `width`. */
  function Pad(s: string, width: nat, right: bool): string {
    if right then PadLeft(s, width) else PadRight(s, width)
  }

  /** rjust_column (`right`) and ljust_column (`!right`): every cell of `column` is padded to
      the width of the widest, every other cell and the number of rows stay as they were. */
  method JustColumn(rows: seq<Row>, column: nat, right: bool) returns (r: seq<Row>)
    requires HasColumn(rows, column)
    ensures |r| == |rows|
    ensures forall i :: 0 <= i < |rows| ==> |r[i]| == |rows[i]|
    ensures forall i, j :: 0 <= i < |rows| && 0 <= j < |rows[i]| && j != column ==> r[i][j] == rows[i][j]
    ensures forall i :: 0 <= i < |rows| ==> r[i][column] == Pad(rows[i][column], Width(rows, column), right)
  {
    if |rows| == 0 {
      return rows;
    }
    r := rows;
    var maxLen := MaxWidth(r, column);
    for row := 0 to |r|
      invariant |r| == |rows|
      invariant forall i :: 0 <= i < |rows| ==> |r[i]| == |rows[i]|
      invariant forall i, j :: 0 <= i < |rows| && 0 <= j < |rows[i]| && (j != column || i >= row) ==> r[i][j] == rows[i][j]
      invariant forall i :: 0 <= i < row ==> r[i][column] == Pad(rows[i][column], maxLen, right)
    {
      var cell := if right then PadLeft(r[row][column], maxLen) else PadRight(r[row][column], maxLen);
      r := r[row := r[row][column := cell]];
    }
  }

  method RjustColumn(rows: seq<Row>, column: nat) returns (r: seq<Row>)
    requires HasColumn(rows, column)
    ensures |r| == |rows|
    ensures forall i :: 0 <= i < |rows| ==> |r[i]| == |rows[i]|
    ensures forall i, j :: 0 <= i < |rows| && 0 <= j < |rows[i]| && j != column ==> r[i][j] == rows[i][j]
    ensures forall i :: 0 <= i < |rows| ==> r[i][column] == PadLeft(rows[i][column], Width(rows, column))
  {
    r := JustColumn(rows, column, true);
  }

  method LjustColumn(rows: seq<Row>, column: nat) returns (r: seq<Row>)
    requires HasColumn(rows, column)
    ensures |r| == |rows|
    ensures forall i :: 0 <= i < |rows| ==> |r[i]| == |rows[i]|
    ensures forall i, j :: 0 <= i < |rows| && 0 <= j < |rows[i]| && j != column ==> r[i][j] == rows[i][j]
    ensures forall i :: 0 <= i < |rows| ==> r[i][column] == PadRight(rows[i][column], Width(rows, column))
  {
    r := JustColumn(rows, column, false);
  }

  /** After justification every cell of the column has the width of the widest, and still
      holds the original text: at its end when padded on the left, at its start otherwise. */
  lemma JustifiedCells(rows: seq<Row>, column: nat, right: bool, i: nat)
    requires HasColumn(rows, column) && i < |rows|
    ensures |Pad(rows[i][column], Width(rows, column), right)| == Width(rows, column)
    ensures right ==> Pad(rows[i][column], Width(rows, column), right)[Width(rows, column) - |rows[i][column]|..] == rows[i][column]
    ensures !right ==> Pad(rows[i][column], Width(rows, column), right)[..|rows[i][column]|] == rows[i][column]
  {
    PadLeftShape(rows[i][column], Width(rows, column));
    PadRightShape(rows[i][column], Width(rows, column));
  }

  /** The justification letter of a column: 'L' or 'R' in either case, anything else none. */
  function Letter(c: char): char {
    UpperChar(c)
  }

  /** Every column the justification letters name with 'L' or 'R' exists in every row. */
  predicate Justifiable(rows: seq<Row>, justification: string) {
    forall j :: 0 <= j < |justification| && Letter(justification[j]) in {'L', 'R'} ==> HasColumn(rows, j)
  }

  /** The cell justify_columns leaves at row `i`, column `j`: padded to the width of the widest
      cell of its column in the input when the column's letter is 'L' or 'R', else as it was. */
  function Justified(rows: seq<Row>, justification: string, i: nat, j: nat): string
    requires Justifiable(rows, justification) && i < |rows| && j < |rows[i]|
  {
    if j < |justification| && Letter(justification[j]) == 'L' then PadRight(rows[i][j], Width(rows, j))
    else if j < |justification| && Letter(justification[j]) == 'R' then PadLeft(rows[i][j], Width(rows, j))
    else rows[i][j]
  }

  /** justify_columns: the columns are justified one at a time, in order of the letters. */
  method JustifyColumns(rows: seq<Row>, justification: string) returns (r: seq<Row>)
    requires Justifiable(rows, justification)
    ensures |r| == |rows|
    ensures forall i :: 0 <= i < |rows| ==> |r[i]| == |rows[i]|
    ensures forall i, j :: 0 <= i < |rows| && 0 <= j < |rows[i]| ==> r[i][j] == Justified(rows, justification, i, j)
  {
    if |rows| == 0 {
      return rows;
    }
    r := rows;
    for column := 0 to |justification|
      invariant |r| == |rows|
      invariant forall i :: 0 <= i < |rows| ==> |r[i]| == |rows[i]|
      invariant forall i, j :: 0 <= i < |rows| && column <= j < |rows[i]| ==> r[i][j] == rows[i][j]
      invariant forall i, j :: 0 <= i < |rows| && 0 <= j < |rows[i]| && j < column ==>
          r[i][j] == Justified(rows, justification, i, j)
    {
      var letter := UpperChar(justification[column]);
      if letter == 'L' || letter == 'R' {
        assert HasColumn(rows, column);
        WidthSameColumn(r, rows, column);
      }
      if letter == 'L' {
        r := LjustColumn(r, column);
      }
      if letter == 'R' {
        r := RjustColumn(r, column);
      }
    }
  }

  // The join and justification assertions of the unit tests.

  /** Two rows of two cells, joined by a space. */
  method JoinColumnsExample() returns (r: seq<string>)
    ensures r == ["a b", "c d"]
  {
    var rows: seq<Row> := [["a", "b"], ["c", "d"]];
    r := JoinColumns(rows, " ");
    assert rows[0][1..] == ["b"] && rows[1][1..] == ["d"];
    assert r[0] == Join(rows[0], " ") == "a b";
    assert r[1] == Join(rows[1], " ") == "c d";
  }

  /** Justifying no rows gives no rows. */
  method JustifyEmptyExample() returns (r: seq<Row>)
    ensures r == []
  {
    r := JustifyColumns([], "RL");
  }

  lemma TestTableWidths()
    ensures HasColumn([["aaaa", "b"], ["c", "ddd"]], 0) && HasColumn([["aaaa", "b"], ["c", "ddd"]], 1)
    ensures Width([["aaaa", "b"], ["c", "ddd"]], 0) == 4
    ensures Width([["aaaa", "b"], ["c", "ddd"]], 1) == 3
  {
    var rows := [["aaaa", "b"], ["c", "ddd"]];
    assert rows[..1] == [["aaaa", "b"]];
    assert rows[..1][..0] == [];
  }

  /** "LR" left-justifies the first column and right-justifies the second. */
  lemma JustifyLeftRightExample()
    ensures Justifiable([["aaaa", "b"], ["c", "ddd"]], "LR")
    ensures var rows := [["aaaa", "b"], ["c", "ddd"]];
      && Justified(rows, "LR", 0, 0) == "aaaa" && Justified(rows, "LR", 0, 1) == "  b"
      && Justified(rows, "LR", 1, 0) == "c   " && Justified(rows, "LR", 1, 1) == "ddd"
  {
    TestTableWidths();
    assert Letter('L') == 'L' && Letter('R') == 'R';
    assert PadLeft("b", 3) == "  b";
    assert PadRight("c", 4) == "c   ";
  }

  /** "RL" right-justifies the first column and left-justifies the second. */
  lemma JustifyRightLeftExample()
    ensures Justifiable([["aaaa", "b"], ["c", "ddd"]], "RL")
    ensures var rows := [["aaaa", "b"], ["c", "ddd"]];
      && Justified(rows, "RL", 0, 0) == "aaaa" && Justified(rows, "RL", 0, 1) == "b  "
      && Justified(rows, "RL", 1, 0) == "   c" && Justified(rows, "RL", 1, 1) == "ddd"
  {
    TestTableWidths();
    assert Letter('L') == 'L' && Letter('R') == 'R';
    assert PadRight("b", 3) == "b  ";
    assert PadLeft("c", 4) == "   c";
  }
}
