/** Laying candidates out under the prompt, from columns in cmd/gzb/repl_term.go: as many
    columns as fit, filled down and then across. */
module Columns {

  function Spaces(n: nat): (s: string)
    ensures |s| == n
  {
    if n == 0 then "" else " " + Spaces(n - 1)
  }

  /** Every item leaves two spaces of a column this wide. */
  predicate Wide(items: seq<string>, w: nat) {
    forall i | 0 <= i < |items| :: |items[i]| + 2 <= w
  }

  /** The widest item and two spaces. */
  function ColWidth(items: seq<string>): (w: nat)
    ensures Wide(items, w)
  {
    if items == [] then 0
    else
      var n := |items| - 1;
      var w := ColWidth(items[..n]);
      assert forall i | 0 <= i < n :: items[..n][i] == items[i];
      if w < |items[n]| + 2 then |items[n]| + 2 else w
  }

  function Cols(items: seq<string>, width: nat): (cols: nat)
    requires items != []
    ensures cols >= 1
  {
    assert |items[0]| + 2 <= ColWidth(items);
    var fit := width / ColWidth(items);
    if fit < 1 then 1 else fit
  }

  function Rows(items: seq<string>, width: nat): nat
    requires items != []
  {
    (|items| + Cols(items, width) - 1) / Cols(items, width)
  }

  /** An item as it stands on its row: padded when another follows. */
  function Cell(items: seq<string>, rows: nat, w: nat, i: nat): (cell: string)
    requires i < |items| && Wide(items, w)
    ensures |cell| == if i + rows < |items| then w else |items[i]|
  {
    if i + rows < |items| then items[i] + Spaces(w - |items[i]|) else items[i]
  }

  /** An item's row up to and including it; its neighbour to the left is a column earlier. */
  function LineTo(items: seq<string>, rows: nat, w: nat, i: nat): string
    requires rows > 0 && i < |items| && Wide(items, w)
  {
    (if i < rows then "  " else LineTo(items, rows, w, i - rows)) + Cell(items, rows, w, i)
  }

  /** The row of an index, counting down each column. */
  function RowOf(i: nat, rows: nat): (r: nat)
    requires rows > 0
    ensures r < rows
  {
    if i < rows then i else RowOf(i - rows, rows)
  }

  /** The column of an index. */
  function ColOf(i: nat, rows: nat): nat
    requires rows > 0
  {
    if i < rows then 0 else ColOf(i - rows, rows) + 1
  }

  /** So far, its row ends with this item. */
  predicate EndsWith(items: seq<string>, rows: nat, w: nat, lines: seq<string>, j: nat)
    requires Wide(items, w) && |lines| == rows > 0 && j < |items|
  {
    lines[RowOf(j, rows)] == LineTo(items, rows, w, j)
  }

  /** The rows hold the first i items: each ends with the last of them that belongs to it. */
  ghost predicate Filled(items: seq<string>, rows: nat, w: nat, i: nat, lines: seq<string>)
    requires Wide(items, w) && rows > 0 && i <= |items| && |lines| == rows
  {
    forall j: nat {:trigger EndsWith(items, rows, w, lines, j)} | j < i <= j + rows ::
      EndsWith(items, rows, w, lines, j)
  }

  // ----- Rows and columns of an index.

  lemma {:induction false} Multiple(n: nat, d: int)
    ensures d >= 1 ==> n * d >= n
    ensures d <= 0 ==> n * d <= 0
  {
  }

  lemma {:induction false} Divided(i: nat, rows: nat, q: nat, r: nat)
    requires r < rows && i == rows * q + r
    ensures i / rows == q && i % rows == r
  {
    var q', r' := i / rows, i % rows;
    assert rows * q' + r' == i;
    assert rows * (q' - q) == r - r' && rows * (q - q') == r' - r;
    Multiple(rows, q' - q);
    Multiple(rows, q - q');
  }

  /** Row and column are remainder and quotient. */
  lemma {:induction false} ByDivision(i: nat, rows: nat)
    requires rows > 0
    ensures RowOf(i, rows) == i % rows && ColOf(i, rows) == i / rows
  {
    if i < rows {
      Divided(i, rows, 0, i);
    } else {
      ByDivision(i - rows, rows);
      var q, r := ColOf(i - rows, rows), RowOf(i - rows, rows);
      assert i == rows * (q + 1) + r by {
        assert rows * (q + 1) == rows * q + rows;
      }
      Divided(i, rows, q + 1, r);
    }
  }

  lemma {:induction false} DifferentRows(i: nat, j: nat, rows: nat)
    requires j < i < j + rows
    ensures RowOf(i, rows) != RowOf(j, rows)
  {
    if j >= rows {
      DifferentRows(i - rows, j - rows, rows);
    }
  }

  lemma {:induction false} Enough(n: nat, cols: nat)
    requires n > 0 && cols > 0
    ensures var rows := (n + cols - 1) / cols; 0 < rows <= n <= rows * cols
  {
    var rows := (n + cols - 1) / cols;
    var r := (n + cols - 1) % cols;
    assert n + cols - 1 == cols * rows + r;
    Multiple(cols, rows);
    assert rows * cols == cols * rows == cols * (rows - n) + cols * n;
    Multiple(cols, rows - n);
    Multiple(n, cols);
    assert cols * n == n * cols;
  }

  // ----- The layout.

  method Position(i: nat, rows: nat) returns (row: nat, col: nat)
    requires rows > 0
    ensures row == RowOf(i, rows) && (col == 0 <==> i < rows)
  {
    ByDivision(i, rows);
    row, col := i % rows, i / rows;
  }

  method Extend(items: seq<string>, rows: nat, w: nat, i: nat, line: string) returns (longer: string)
    requires Wide(items, w) && i < |items|
    ensures longer == line + Cell(items, rows, w, i)
  {
    longer := line + items[i];
    // Pad only when something follows on the row.
    if i + rows < |items| {
      longer := longer + Spaces(w - |items[i]|);
    }
  }

  lemma {:induction false} NeighbourShown(items: seq<string>, rows: nat, w: nat, i: nat, lines: seq<string>)
    requires Wide(items, w) && rows > 0 && i < |items| && |lines| == rows && Filled(items, rows, w, i, lines)
    ensures (if i < rows then "  " else lines[RowOf(i, rows)]) + Cell(items, rows, w, i) == LineTo(items, rows, w, i)
  {
    if i >= rows {
      assert EndsWith(items, rows, w, lines, i - rows);
    }
  }

  lemma {:induction false} StillEnds(items: seq<string>, rows: nat, w: nat, i: nat, lines: seq<string>,
                                     line: string, j: nat)
    requires Wide(items, w) && |lines| == rows > 0 && j <= i < j + rows && i < |items|
    requires j < i ==> EndsWith(items, rows, w, lines, j)
    requires line == LineTo(items, rows, w, i)
    ensures EndsWith(items, rows, w, lines[RowOf(i, rows) := line], j)
  {
    hide LineTo, RowOf, Wide;
    if j < i {
      DifferentRows(i, j, rows);
    }
  }

  lemma {:induction false} FillNext(items: seq<string>, rows: nat, w: nat, i: nat, lines: seq<string>, line: string)
    requires Wide(items, w) && rows > 0 && i < |items| && |lines| == rows && Filled(items, rows, w, i, lines)
    requires line == (if i < rows then "  " else lines[RowOf(i, rows)]) + Cell(items, rows, w, i)
    ensures Filled(items, rows, w, i + 1, lines[RowOf(i, rows) := line])
  {
    NeighbourShown(items, rows, w, i, lines);
    var next := lines[RowOf(i, rows) := line];
    forall j | 0 <= j < i + 1 <= j + rows ensures EndsWith(items, rows, w, next, j) {
      StillEnds(items, rows, w, i, lines, line, j);
    }
  }

  /** The second loop: each item added to its row. */
  method Fill(items: seq<string>, rows: nat, w: nat) returns (lines: seq<string>)
    requires rows > 0 && Wide(items, w)
    ensures |lines| == rows && Filled(items, rows, w, |items|, lines)
  {
    lines := seq(rows, i => "");
    for i := 0 to |items|
      invariant |lines| == rows && Filled(items, rows, w, i, lines)
    {
      var row, col := Position(i, rows);
      var line := Extend(items, rows, w, i, if col == 0 then "  " else lines[row]);
      FillNext(items, rows, w, i, lines, line);
      lines := lines[row := line];
    }
  }

  method Columns(items: seq<string>, width: nat) returns (lines: seq<string>)
    ensures items == [] ==> lines == []
    ensures items != [] ==>
      0 < Rows(items, width) == |lines| <= |items| && Filled(items, |lines|, ColWidth(items), |items|, lines)
  {
    if items == [] {
      return [];
    }
    var colWidth := 0;
    for i := 0 to |items|
      invariant colWidth == ColWidth(items[..i])
    {
      assert items[..i + 1][..i] == items[..i];
      colWidth := if colWidth < |items[i]| + 2 then |items[i]| + 2 else colWidth;
    }
    assert items[..|items|] == items;
    var cols := if width / colWidth < 1 then 1 else width / colWidth;
    var rows := (|items| + cols - 1) / cols;
    Enough(|items|, cols);
    lines := Fill(items, rows, colWidth);
  }

  // ----- What it looks like.

  /** Where an item starts on its row, each a column width after its neighbour. */
  function StartOf(w: nat, i: nat, rows: nat): nat
    requires rows > 0
  {
    if i < rows then 2 else StartOf(w, i - rows, rows) + w
  }

  lemma {:induction false} StartAcross(w: nat, i: nat, rows: nat)
    requires rows > 0
    ensures StartOf(w, i, rows) == 2 + w * ColOf(i, rows)
  {
    if i >= rows {
      StartAcross(w, i - rows, rows);
      var q := ColOf(i - rows, rows);
      assert w * (q + 1) == w * q + w;
    } else {
      assert w * 0 == 0;
    }
  }

  lemma {:induction false} StartByColumn(w: nat, i: nat, rows: nat)
    requires rows > 0
    ensures StartOf(w, i, rows) == 2 + w * (i / rows)
  {
    StartAcross(w, i, rows);
    ByDivision(i, rows);
  }

  lemma {:induction false} LineLength(items: seq<string>, rows: nat, w: nat, i: nat)
    requires Wide(items, w) && rows > 0 && i < |items|
    ensures |LineTo(items, rows, w, i)| == StartOf(w, i, rows) + |Cell(items, rows, w, i)|
    decreases i
  {
    hide Cell, Wide, Spaces;
    if i >= rows {
      LineLength(items, rows, w, i - rows);
    }
  }

  lemma {:induction false} DropSum(a: string, b: string)
    ensures (a + b)[|a + b| - |b|..] == b
  {
  }

  lemma {:induction false} Placed(items: seq<string>, rows: nat, w: nat, i: nat)
    requires Wide(items, w) && rows > 0 && i < |items|
    ensures var at, line := StartOf(w, i, rows), LineTo(items, rows, w, i);
      |line| == at + |Cell(items, rows, w, i)| && line[at..] == Cell(items, rows, w, i)
  {
    LineLength(items, rows, w, i);
    DropSum(if i < rows then "  " else LineTo(items, rows, w, i - rows), Cell(items, rows, w, i));
  }

  /** The last item on the row of i. */
  function Last(items: seq<string>, rows: nat, i: nat): (j: nat)
    requires rows > 0 && i < |items|
    ensures i <= j < |items| <= j + rows
    decreases |items| - i
  {
    if i + rows < |items| then Last(items, rows, i + rows) else i
  }

  lemma {:induction false} SameRow(items: seq<string>, rows: nat, i: nat)
    requires rows > 0 && i < |items|
    ensures RowOf(Last(items, rows, i), rows) == RowOf(i, rows)
    decreases |items| - i
  {
    if i + rows < |items| {
      SameRow(items, rows, i + rows);
    }
  }

  predicate Begins(line: string, a: string) {
    |a| <= |line| && line[..|a|] == a
  }

  lemma {:induction false} BeginsWithSum(line: string, a: string, b: string)
    requires Begins(line, a + b)
    ensures Begins(line, a)
  {
  }

  lemma {:induction false} NextLine(items: seq<string>, rows: nat, w: nat, i: nat, line: string)
    requires Wide(items, w) && rows > 0 && i + rows < |items| && Begins(line, LineTo(items, rows, w, i + rows))
    ensures Begins(line, LineTo(items, rows, w, i))
  {
    assert LineTo(items, rows, w, i + rows) == LineTo(items, rows, w, i) + Cell(items, rows, w, i + rows);
    BeginsWithSum(line, LineTo(items, rows, w, i), Cell(items, rows, w, i + rows));
  }

  /** Its row begins with this item and those to its left. */
  predicate BeginsWith(items: seq<string>, rows: nat, w: nat, lines: seq<string>, i: nat)
    requires Wide(items, w) && |lines| == rows > 0 && i < |items|
  {
    Begins(lines[RowOf(i, rows)], LineTo(items, rows, w, i))
  }

  lemma {:induction false} BeginsEarlier(items: seq<string>, rows: nat, w: nat, lines: seq<string>, i: nat)
    requires Wide(items, w) && |lines| == rows > 0 && i + rows < |items|
    requires BeginsWith(items, rows, w, lines, i + rows)
    ensures BeginsWith(items, rows, w, lines, i)
  {
    NextLine(items, rows, w, i, lines[RowOf(i + rows, rows)]);
  }

  lemma {:induction false} EndsBegins(items: seq<string>, rows: nat, w: nat, lines: seq<string>, i: nat)
    requires Wide(items, w) && |lines| == rows > 0 && i < |items| && EndsWith(items, rows, w, lines, i)
    ensures BeginsWith(items, rows, w, lines, i)
  {
  }

  lemma {:induction false} RowBegins(items: seq<string>, rows: nat, w: nat, lines: seq<string>, i: nat)
    requires Wide(items, w) && i < |items| && 0 < |lines| == rows && Filled(items, rows, w, |items|, lines)
    ensures BeginsWith(items, rows, w, lines, i)
    decreases |items| - i
  {
    hide LineTo, Cell, BeginsWith, EndsWith, RowOf, Wide, Spaces;
    if i + rows < |items| {
      RowBegins(items, rows, w, lines, i + rows);
      BeginsEarlier(items, rows, w, lines, i);
    } else {
      EndsBegins(items, rows, w, lines, i);
    }
  }

  lemma {:induction false} SliceOfPrefix(a: string, b: string, at: nat, n: nat)
    requires Begins(b, a) && at + n <= |a|
    ensures b[at..at + n] == a[at..][..n]
  {
  }

  lemma {:induction false} ItemShown(items: seq<string>, rows: nat, w: nat, lines: seq<string>, i: nat)
    requires Wide(items, w) && i < |items| && 0 < |lines| == rows && Filled(items, rows, w, |items|, lines)
    ensures var line, at := lines[RowOf(i, rows)], StartOf(w, i, rows);
      at + |items[i]| <= |line| && line[at..at + |items[i]|] == items[i]
  {
    Placed(items, rows, w, i);
    RowBegins(items, rows, w, lines, i);
    assert items[i] == Cell(items, rows, w, i)[..|items[i]|];
    SliceOfPrefix(LineTo(items, rows, w, i), lines[RowOf(i, rows)], StartOf(w, i, rows), |items[i]|);
  }

  /** Every item is shown whole, at its row and column. */
  lemma {:induction false} EveryItemShown(items: seq<string>, lines: seq<string>, i: nat)
    requires i < |items| && 0 < |lines| && Filled(items, |lines|, ColWidth(items), |items|, lines)
    ensures 0 <= i % |lines| < |lines|
    ensures var line, at := lines[i % |lines|], 2 + ColWidth(items) * (i / |lines|);
      0 <= at && at + |items[i]| <= |line| && line[at..at + |items[i]|] == items[i]
  {
    ByDivision(i, |lines|);
    StartByColumn(ColWidth(items), i, |lines|);
    ItemShown(items, |lines|, ColWidth(items), lines, i);
  }

  lemma {:induction false} WithinColumns(j: nat, rows: nat, cols: nat)
    requires rows > 0 && j < rows * cols
    ensures j / rows < cols
  {
  }

  lemma {:induction false} Across(w: nat, col: nat, cols: nat, width: nat)
    requires 0 < w <= width && col < cols && cols == (if width / w < 1 then 1 else width / w)
    ensures w * col + w <= width
  {
    var fit := width / w;
    assert width == w * fit + width % w;
    Multiple(w, fit);
    assert w * fit == w * col + w * (fit - col);
    Multiple(w, fit - col);
  }

  lemma {:induction false} StartFits(items: seq<string>, width: nat, j: nat)
    requires j < |items| && ColWidth(items) <= width && Rows(items, width) > 0
    ensures StartOf(ColWidth(items), j, Rows(items, width)) + ColWidth(items) <= width + 2
  {
    var w, rows, cols := ColWidth(items), Rows(items, width), Cols(items, width);
    Enough(|items|, cols);
    WithinColumns(j, rows, cols);
    StartByColumn(w, j, rows);
    assert |items[0]| + 2 <= w;
    Across(w, j / rows, cols, width);
  }

  /** No row is wider than the terminal, if a column fits it at all, and none ends in padding. */
  lemma {:induction false} RowsFit(items: seq<string>, width: nat, lines: seq<string>, r: nat)
    requires items != [] && r < Rows(items, width) == |lines| <= |items|
    requires Filled(items, |lines|, ColWidth(items), |items|, lines)
    ensures ColWidth(items) <= width ==> |lines[r]| <= width
    ensures var last := items[Last(items, |lines|, r)];
      |last| <= |lines[r]| && lines[r][|lines[r]| - |last|..] == last
  {
    var j := Last(items, |lines|, r);
    SameRow(items, |lines|, r);
    assert EndsWith(items, |lines|, ColWidth(items), lines, j);
    Placed(items, |lines|, ColWidth(items), j);
    if ColWidth(items) <= width {
      StartFits(items, width, j);
    }
  }

  lemma {:induction false} WidestItem(items: seq<string>)
    requires items != []
    ensures exists i | 0 <= i < |items| :: |items[i]| + 2 == ColWidth(items)
  {
    var n := |items| - 1;
    if n > 0 {
      WidestItem(items[..n]);
      var i :| 0 <= i < n && |items[..n][i]| + 2 == ColWidth(items[..n]);
      assert items[..n][i] == items[i];
    }
    assert |items[n]| + 2 <= ColWidth(items);
  }

  lemma {:induction false} Scaled(w: nat, a: int, b: int)
    requires a <= b
    ensures w * a <= w * b
  {
    assert w * b - w * a == w * (b - a);
  }

  lemma {:induction false} AtLeast(a: nat, b: nat, w: nat)
    requires w > 0
    ensures w * a <= b <==> a <= b / w
  {
    var q := b / w;
    assert w * q <= b < w * (q + 1);
    if a <= q {
      Scaled(w, a, q);
    } else {
      Scaled(w, q + 1, a);
    }
  }

  lemma {:induction false} AtMost(n: nat, a: nat, b: nat)
    requires n > 0 && a > 0 && b > 0
    ensures (n + a - 1) / a <= b <==> n <= a * b
  {
    var q := (n + a - 1) / a;
    assert a * (q - 1) < n <= a * q by {
      assert a * q <= n + a - 1 < a * (q + 1);
      assert a * (q - 1) == a * q - a && a * (q + 1) == a * q + a;
    }
    if q <= b {
      Scaled(a, q, b);
    } else {
      Scaled(a, b, q - 1);
    }
  }

  /** No layout of equal columns takes fewer rows: given any number of rows, the columns needed fit
      the width exactly if there are at least as many rows as here. */
  lemma {:induction false} FewestRows(items: seq<string>, width: nat, rows: nat)
    requires items != [] && rows > 0 && ColWidth(items) <= width
    ensures ColWidth(items) * ((|items| + rows - 1) / rows) <= width <==> Rows(items, width) <= rows
  {
    var w, cols := ColWidth(items), Cols(items, width);
    assert |items[0]| + 2 <= w;
    AtLeast(1, width, w);
    AtLeast((|items| + rows - 1) / rows, width, w);
    AtMost(|items|, rows, cols);
    AtMost(|items|, cols, rows);
  }
}
