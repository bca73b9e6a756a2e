/** The map grid: `cell_id` of the GSI processor (and `GetGridID` of the replay parser, the same formula) encodes a
    position into a square number, and `cell_center` of the inference worker decodes a square into a position. */
module Grid {
  import opened Numbers

  /** The map's bounds and the number of cells per side. */
  datatype Box = Box(xmin: real, xmax: real, ymin: real, ymax: real, cells: nat)

  predicate Proper(b: Box) {
    b.xmin < b.xmax && b.ymin < b.ymax && b.cells > 0
  }

  /** The coordinate of a position along one side, as a cell number. */
  function Axis(v: real, lo: real, hi: real, cells: nat): int
    requires lo < hi
  {
    Trunc((v - lo) / (hi - lo) * cells as real)
  }

  /** `cell_id`. */
  function CellId(b: Box, x: real, y: real): int
    requires Proper(b)
  {
    Axis(y, b.ymin, b.ymax, b.cells) * b.cells + Axis(x, b.xmin, b.xmax, b.cells)
  }

  /** The middle of cell `c` along one side. */
  function Middle(c: int, lo: real, hi: real, cells: nat): real
    requires cells > 0
  {
    lo + (c as real + 0.5) * ((hi - lo) / cells as real)
  }

  /** `cell_center` of the square's column and row. */
  function CellCenter(b: Box, square: nat): (real, real)
    requires Proper(b)
  {
    (Middle(square % b.cells, b.xmin, b.xmax, b.cells), Middle(square / b.cells, b.ymin, b.ymax, b.cells))
  }

  /** Where cell `c` begins along one side; it ends where the next one begins. */
  function Edge(c: int, lo: real, hi: real, cells: nat): real
    requires cells > 0
  {
    lo + c as real * ((hi - lo) / cells as real)
  }

  /** `v` lies in cell `c` of one side. */
  predicate InCell(v: real, c: int, lo: real, hi: real, cells: nat)
    requires cells > 0
  {
    Edge(c, lo, hi, cells) <= v < Edge(c + 1, lo, hi, cells)
  }

  // ---------- one side ----------

  /** The scaled coordinate passes the integer `c` exactly where the position passes the edge of cell `c`. */
  lemma ScaleAtEdge(v: real, c: int, lo: real, hi: real, cells: nat)
    requires lo < hi && cells > 0
    ensures c as real <= (v - lo) / (hi - lo) * cells as real <==> Edge(c, lo, hi, cells) <= v
  {}

  /** From the lower bound on, truncation puts a position into the one cell that contains it. */
  lemma AxisFindsCell(v: real, lo: real, hi: real, cells: nat, c: int)
    requires lo < hi && cells > 0 && lo <= v
    ensures Axis(v, lo, hi, cells) == c <==> InCell(v, c, lo, hi, cells)
  {
    ScaleAtEdge(v, 0, lo, hi, cells);
    ScaleAtEdge(v, c, lo, hi, cells);
    ScaleAtEdge(v, c + 1, lo, hi, cells);
  }

  lemma OuterEdges(lo: real, hi: real, cells: nat)
    requires cells > 0
    ensures Edge(0, lo, hi, cells) == lo && Edge(cells, lo, hi, cells) == hi
  {}

  /** Along one side the cell of a position lies in the grid and contains the position exactly when the position
      lies between the bounds, the upper bound excluded. */
  lemma AxisExact(v: real, lo: real, hi: real, cells: nat)
    requires lo < hi && cells > 0
    ensures var c := Axis(v, lo, hi, cells);
            0 <= c < cells && InCell(v, c, lo, hi, cells) <==> lo <= v < hi
  {
    var c := Axis(v, lo, hi, cells);
    if lo <= v < hi {
      InsideIsInCell(v, lo, hi, cells);
    }
    if 0 <= c < cells && InCell(v, c, lo, hi, cells) {
      CellWithinBounds(v, c, lo, hi, cells);
    }
  }

  lemma InsideIsInCell(v: real, lo: real, hi: real, cells: nat)
    requires lo <= v < hi && cells > 0
    ensures 0 <= Axis(v, lo, hi, cells) < cells && InCell(v, Axis(v, lo, hi, cells), lo, hi, cells)
  {
    OuterEdges(lo, hi, cells);
    AxisFindsCell(v, lo, hi, cells, Axis(v, lo, hi, cells));
    ScaleAtEdge(v, 0, lo, hi, cells);
    ScaleAtEdge(v, cells, lo, hi, cells);
  }

  // ---------- squares ----------

  predicate InBox(b: Box, x: real, y: real) {
    b.xmin <= x < b.xmax && b.ymin <= y < b.ymax
  }

  /** The position lies in the square, numbered row by row from the lower left corner. */
  predicate InSquare(b: Box, square: int, x: real, y: real)
    requires Proper(b)
  {
    && 0 <= square < b.cells * b.cells
    && InCell(x, square % b.cells, b.xmin, b.xmax, b.cells)
    && InCell(y, square / b.cells, b.ymin, b.ymax, b.cells)
  }

  /** Row and column determine the square and the other way round. */
  lemma RowAndColumn(row: nat, col: nat, cells: nat)
    requires row < cells && col < cells
    ensures var s := row * cells + col; 0 <= s < cells * cells && s / cells == row && s % cells == col
  {
    MulLe(row, cells - 1, cells);
    DivModUnique(row * cells + col, row, col, cells);
  }

  lemma MulLe(a: int, b: int, m: nat)
    requires a <= b
    ensures a * m <= b * m
  {}

  lemma DivModUnique(s: int, q: int, r: nat, m: nat)
    requires r < m && s == q * m + r
    ensures s / m == q && s % m == r
  {
    var quotient := s / m;
    assert quotient * m <= s < quotient * m + m;
    if q > quotient {
      MulLe(quotient + 1, q, m);
    } else if q < quotient {
      MulLe(q + 1, quotient, m);
    }
  }

  lemma SquareInRange(square: nat, cells: nat)
    requires square < cells * cells
    ensures cells > 0 && square / cells < cells && square % cells < cells
  {}

  /** The only square that can contain a position is the one `cell_id` computes. */
  lemma AtMostOneSquare(b: Box, square: int, x: real, y: real)
    requires Proper(b) && InSquare(b, square, x, y)
    ensures square == CellId(b, x, y) && InBox(b, x, y)
  {
    SquareInRange(square, b.cells);
    SquareSplits(square, b.cells);
    EncodesRowAndColumn(b, square / b.cells, square % b.cells, x, y);
  }

  lemma SquareSplits(square: nat, cells: nat)
    requires cells > 0
    ensures square == (square / cells) * cells + square % cells
  {}

  lemma EncodesRowAndColumn(b: Box, row: nat, col: nat, x: real, y: real)
    requires Proper(b) && row < b.cells && col < b.cells
    requires InCell(x, col, b.xmin, b.xmax, b.cells) && InCell(y, row, b.ymin, b.ymax, b.cells)
    ensures CellId(b, x, y) == row * b.cells + col && InBox(b, x, y)
  {
    CellWithinBounds(x, col, b.xmin, b.xmax, b.cells);
    CellWithinBounds(y, row, b.ymin, b.ymax, b.cells);
    AxisFindsCell(x, b.xmin, b.xmax, b.cells, col);
    AxisFindsCell(y, b.ymin, b.ymax, b.cells, row);
  }

  lemma CellWithinBounds(v: real, c: nat, lo: real, hi: real, cells: nat)
    requires lo < hi && c < cells && InCell(v, c, lo, hi, cells)
    ensures lo <= v < hi
  {}

  /** `cell_id` returns the number of a square of the grid that contains the position exactly for the positions
      inside the box; no other square contains the position. */
  lemma CellIdExact(b: Box, x: real, y: real)
    requires Proper(b)
    ensures InSquare(b, CellId(b, x, y), x, y) <==> InBox(b, x, y)
    ensures forall s :: InSquare(b, s, x, y) ==> s == CellId(b, x, y)
  {
    forall s | InSquare(b, s, x, y)
      ensures s == CellId(b, x, y) && InBox(b, x, y)
    {
      AtMostOneSquare(b, s, x, y);
    }
    if InBox(b, x, y) {
      AxisExact(x, b.xmin, b.xmax, b.cells);
      AxisExact(y, b.ymin, b.ymax, b.cells);
      RowAndColumn(Axis(y, b.ymin, b.ymax, b.cells), Axis(x, b.xmin, b.xmax, b.cells), b.cells);
    }
  }

  /** The `n`-fold distance of the position from the lower bound lies between `c` and `c + 1` sides, for `n` cells. */
  predicate InSlice(v: real, c: int, lo: real, hi: real, cells: nat) {
    c as real * (hi - lo) <= (v - lo) * cells as real < (c + 1) as real * (hi - lo)
  }

  lemma EdgeByProduct(v: real, c: int, lo: real, hi: real, cells: nat)
    requires lo < hi && cells > 0
    ensures Edge(c, lo, hi, cells) <= v <==> c as real * (hi - lo) <= (v - lo) * cells as real
  {
    var n := cells as real;
    var w := (hi - lo) / n;
    DivTimes(hi - lo, n);
    assert c as real * (hi - lo) == c as real * w * n;
    LeTimes(c as real * w, v - lo, n);
  }

  lemma LeTimes(a: real, b: real, m: real)
    requires m > 0.0
    ensures a <= b <==> a * m <= b * m
  {
    if a <= b {
      MulNonNegative(b - a, m);
    } else {
      MulPositive(a - b, m);
    }
  }

  lemma CellByProducts(v: real, c: int, lo: real, hi: real, cells: nat)
    requires lo < hi && cells > 0
    ensures InCell(v, c, lo, hi, cells) <==> InSlice(v, c, lo, hi, cells)
  {
    EdgeByProduct(v, c, lo, hi, cells);
    EdgeByProduct(v, c + 1, lo, hi, cells);
  }

  lemma SquareByProducts(b: Box, square: nat, x: real, y: real)
    requires Proper(b) && square < b.cells * b.cells
    ensures InSquare(b, square, x, y) <==>
              && InSlice(x, square % b.cells, b.xmin, b.xmax, b.cells)
              && InSlice(y, square / b.cells, b.ymin, b.ymax, b.cells)
  {
    CellByProducts(x, square % b.cells, b.xmin, b.xmax, b.cells);
    CellByProducts(y, square / b.cells, b.ymin, b.ymax, b.cells);
  }

  /** Without quotients: inside the box `cell_id` gives `row * n + col` exactly for the row and column whose slices the
      position lies in. */
  lemma CellIdByProducts(b: Box, row: nat, col: nat, x: real, y: real)
    requires Proper(b) && row < b.cells && col < b.cells && InBox(b, x, y)
    ensures CellId(b, x, y) == row * b.cells + col <==>
              InSlice(x, col, b.xmin, b.xmax, b.cells) && InSlice(y, row, b.ymin, b.ymax, b.cells)
  {
    RowAndColumn(row, col, b.cells);
    CellIdExact(b, x, y);
    SquareByProducts(b, row * b.cells + col, x, y);
  }

  /** The centre lies half a cell behind the corner of its square. */
  lemma CenterByProducts(b: Box, row: nat, col: nat)
    requires Proper(b) && row < b.cells && col < b.cells
    ensures var (x, y) := CellCenter(b, row * b.cells + col);
            && 2.0 * (x - b.xmin) * b.cells as real == (2 * col + 1) as real * (b.xmax - b.xmin)
            && 2.0 * (y - b.ymin) * b.cells as real == (2 * row + 1) as real * (b.ymax - b.ymin)
  {
    RowAndColumn(row, col, b.cells);
    MiddleByProduct(col, b.xmin, b.xmax, b.cells);
    MiddleByProduct(row, b.ymin, b.ymax, b.cells);
  }

  lemma MiddleByProduct(c: int, lo: real, hi: real, cells: nat)
    requires cells > 0
    ensures 2.0 * (Middle(c, lo, hi, cells) - lo) * cells as real == (2 * c + 1) as real * (hi - lo)
  {
    DivTimes(hi - lo, cells as real);
  }

  // ---------- decoding and encoding again ----------

  /** Dropping the fraction moves the middle of the cell by no more than half the cell's width; moving up, by less. */
  predicate MiddleStays(c: int, lo: real, hi: real, cells: nat)
    requires cells > 0
  {
    var (m, w) := (Middle(c, lo, hi, cells), (hi - lo) / cells as real);
    var t := Trunc(m) as real;
    if m >= 0.0 then m - t <= 0.5 * w else t - m < 0.5 * w
  }

  /** The truncated middle of a cell lies in the cell exactly then. */
  lemma MiddleStaysExactly(c: int, lo: real, hi: real, cells: nat)
    requires lo < hi && cells > 0
    ensures InCell(Trunc(Middle(c, lo, hi, cells)) as real, c, lo, hi, cells) <==> MiddleStays(c, lo, hi, cells)
  {}

  /** The truncated centre of a square. */
  function WholeCenter(b: Box, square: nat): (real, real)
    requires Proper(b)
  {
    var (cx, cy) := CellCenter(b, square);
    (Trunc(cx) as real, Trunc(cy) as real)
  }

  /** The truncated centre of a square lies in the square if and only if both sides meet the condition. */
  lemma CenterStaysExactly(b: Box, square: nat)
    requires Proper(b) && square < b.cells * b.cells
    ensures InSquare(b, square, WholeCenter(b, square).0, WholeCenter(b, square).1) <==>
            MiddleStays(square % b.cells, b.xmin, b.xmax, b.cells) &&
            MiddleStays(square / b.cells, b.ymin, b.ymax, b.cells)
  {
    MiddleStaysExactly(square % b.cells, b.xmin, b.xmax, b.cells);
    MiddleStaysExactly(square / b.cells, b.ymin, b.ymax, b.cells);
  }

  /** In a cell at least 2 wide the middle stays in the cell when its fraction is dropped. */
  lemma TruncatedMiddle(c: int, lo: real, hi: real, cells: nat)
    requires lo < hi && cells > 0 && hi - lo >= 2.0 * cells as real
    ensures InCell(Trunc(Middle(c, lo, hi, cells)) as real, c, lo, hi, cells)
  {
    CellWidth(hi - lo, cells as real);
    MiddleStaysExactly(c, lo, hi, cells);
  }

  lemma CellWidth(side: real, n: real)
    requires n > 0.0 && side >= 2.0 * n
    ensures side / n >= 2.0
  {}

  /** For any box with sides of at least twice the number of cells: the whole-number centre of a square,
      as the inference worker hands it on, is encoded as that square again. */
  lemma CenterRoundTrip(b: Box, square: nat)
    requires Proper(b) && square < b.cells * b.cells
    requires b.xmax - b.xmin >= 2.0 * b.cells as real && b.ymax - b.ymin >= 2.0 * b.cells as real
    ensures var (cx, cy) := CellCenter(b, square);
            CellId(b, Trunc(cx) as real, Trunc(cy) as real) == square
  {
    SquareInRange(square, b.cells);
    var (cx, cy) := CellCenter(b, square);
    TruncatedMiddle(square % b.cells, b.xmin, b.xmax, b.cells);
    TruncatedMiddle(square / b.cells, b.ymin, b.ymax, b.cells);
    AtMostOneSquare(b, square, Trunc(cx) as real, Trunc(cy) as real);
  }

  // ---------- exactly when the round trip succeeds ----------

  /** The truncated middle is encoded as the cell it came from: it stays in the cell, or it falls below the first cell
      by less than a cell's width, where truncation toward zero still gives 0. */
  predicate MiddleReturns(c: int, lo: real, hi: real, cells: nat)
    requires cells > 0
  {
    var (m, w) := (Middle(c, lo, hi, cells), (hi - lo) / cells as real);
    MiddleStays(c, lo, hi, cells) || (c == 0 && m >= 0.0 && m - Trunc(m) as real < 1.5 * w)
  }

  lemma ScaleAboveEdge(v: real, c: int, lo: real, hi: real, cells: nat)
    requires lo < hi && cells > 0
    ensures c as real < (v - lo) / (hi - lo) * cells as real <==> Edge(c, lo, hi, cells) < v
  {}

  /** Which positions are encoded as cell `c` of one side; below the lower bound only the first cell is met. */
  lemma AxisIs(v: real, c: nat, lo: real, hi: real, cells: nat)
    requires lo < hi && cells > 0
    ensures Axis(v, lo, hi, cells) == c <==>
            InCell(v, c, lo, hi, cells) || (c == 0 && Edge(-1, lo, hi, cells) < v < Edge(0, lo, hi, cells))
  {
    ScaleAtEdge(v, 0, lo, hi, cells);
    ScaleAtEdge(v, c, lo, hi, cells);
    ScaleAtEdge(v, c + 1, lo, hi, cells);
    ScaleAboveEdge(v, -1, lo, hi, cells);
    OuterEdges(lo, hi, cells);
  }

  lemma MiddleReturnsExactly(c: nat, lo: real, hi: real, cells: nat)
    requires lo < hi && cells > 0
    ensures Axis(Trunc(Middle(c, lo, hi, cells)) as real, lo, hi, cells) == c <==> MiddleReturns(c, lo, hi, cells)
  {
    var w := (hi - lo) / cells as real;
    MiddleStaysExactly(c, lo, hi, cells);
    AxisIs(Trunc(Middle(c, lo, hi, cells)) as real, c, lo, hi, cells);
    assert Middle(0, lo, hi, cells) == Edge(-1, lo, hi, cells) + 1.5 * w;
    assert Middle(0, lo, hi, cells) == Edge(0, lo, hi, cells) + 0.5 * w;
  }

  /** On a side of length 2 or more the encoded cell is less than a whole side away. */
  lemma MiddleNotFar(c: nat, lo: real, hi: real, cells: nat)
    requires c < cells && hi - lo >= 2.0
    ensures c - cells < Axis(Trunc(Middle(c, lo, hi, cells)) as real, lo, hi, cells) < c + cells
  {
    var (w, v) := ((hi - lo) / cells as real, Trunc(Middle(c, lo, hi, cells)) as real);
    assert Middle(c, lo, hi, cells) == Edge(c, lo, hi, cells) + 0.5 * w;
    WholeSide(c, lo, hi, cells);
    ScaleAboveEdge(v, c - cells, lo, hi, cells);
    ScaleAtEdge(v, c + cells, lo, hi, cells);
  }

  lemma WholeSide(c: int, lo: real, hi: real, cells: nat)
    requires lo < hi && cells > 0
    ensures Edge(c + cells, lo, hi, cells) == Edge(c, lo, hi, cells) + (hi - lo)
    ensures Edge(c - cells, lo, hi, cells) == Edge(c, lo, hi, cells) - (hi - lo)
    ensures 0.0 < (hi - lo) / cells as real <= hi - lo
  {
    CellNoWiderThanSide(hi - lo, cells as real);
  }

  lemma CellNoWiderThanSide(side: real, n: real)
    requires side > 0.0 && n >= 1.0
    ensures 0.0 < side / n <= side
  {
    DivTimes(side, n);
    MulNonNegative(side / n, n - 1.0);
    assert side / n * (n - 1.0) == side / n * n - side / n;
  }

  /** For every box with sides of length 2 or more: encoding the truncated centre of a square gives the square back if
      and only if both sides return their cell. */
  lemma RoundTripExactly(b: Box, square: nat)
    requires Proper(b) && square < b.cells * b.cells && b.xmax - b.xmin >= 2.0 && b.ymax - b.ymin >= 2.0
    ensures CellId(b, WholeCenter(b, square).0, WholeCenter(b, square).1) == square <==>
            MiddleReturns(square % b.cells, b.xmin, b.xmax, b.cells) &&
            MiddleReturns(square / b.cells, b.ymin, b.ymax, b.cells)
  {
    SquareInRange(square, b.cells);
    SquareSplits(square, b.cells);
    RowAndColumnReturn(b, square / b.cells, square % b.cells);
  }

  lemma RowAndColumnReturn(b: Box, row: nat, col: nat)
    requires Proper(b) && row < b.cells && col < b.cells && b.xmax - b.xmin >= 2.0 && b.ymax - b.ymin >= 2.0
    ensures (var (x, y) := (Middle(col, b.xmin, b.xmax, b.cells), Middle(row, b.ymin, b.ymax, b.cells));
             CellId(b, Trunc(x) as real, Trunc(y) as real) == row * b.cells + col <==>
             MiddleReturns(col, b.xmin, b.xmax, b.cells) && MiddleReturns(row, b.ymin, b.ymax, b.cells))
  {
    var (x, y) := (Middle(col, b.xmin, b.xmax, b.cells), Middle(row, b.ymin, b.ymax, b.cells));
    MiddleReturnsExactly(col, b.xmin, b.xmax, b.cells);
    MiddleReturnsExactly(row, b.ymin, b.ymax, b.cells);
    MiddleNotFar(col, b.xmin, b.xmax, b.cells);
    NoCarry(Axis(Trunc(y) as real, b.ymin, b.ymax, b.cells), Axis(Trunc(x) as real, b.xmin, b.xmax, b.cells),
            row, col, b.cells);
  }

  lemma NoCarry(r: int, c: int, row: int, col: int, cells: nat)
    requires col - cells < c < col + cells
    ensures r * cells + c == row * cells + col <==> r == row && c == col
  {
    if r < row {
      MulLe(r + 1, row, cells);
    } else if r > row {
      MulLe(row + 1, r, cells);
    }
  }

  /** The bounds the inference worker falls back to. */
  function WorkerBox(cells: nat): Box {
    Box(-9400.0, 8000.0, -8500.0, 8500.0, cells)
  }

  /** With these bounds and up to 8500 cells a side every square returns. */
  lemma WorkerBoxRoundTrip(cells: nat, square: nat)
    requires square < cells * cells && cells <= 8500
    ensures (var (x, y) := WholeCenter(WorkerBox(cells), square); CellId(WorkerBox(cells), x, y) == square)
  {
    SquareInRange(square, cells);
    CenterRoundTrip(WorkerBox(cells), square);
  }

  /** With 20000 cells a side square 0 does not return. */
  lemma NarrowCellsDoNotRoundTrip()
    ensures CellId(WorkerBox(20000), WholeCenter(WorkerBox(20000), 0).0, WholeCenter(WorkerBox(20000), 0).1) == 20001
  {
    assert Middle(0, -9400.0, 8000.0, 20000) == -9399.565;
    assert Middle(0, -8500.0, 8500.0, 20000) == -8499.575;
    AxisIs(-9399.0, 1, -9400.0, 8000.0, 20000);
    AxisIs(-8499.0, 1, -8500.0, 8500.0, 20000);
  }

  // ---------- positions off the map ----------

  /** Off the map the id can be one of the promised range all the same: a point on the right edge is encoded as the
      first square of the next row, and a point just below the corner as square 0; neither square contains its point.
      */
  lemma OffTheMap()
    ensures CellId(WorkerBox(32), 8000.0, -8500.0) == 32 && !InSquare(WorkerBox(32), 32, 8000.0, -8500.0)
    ensures CellId(WorkerBox(32), -9401.0, -8501.0) == 0 && !InSquare(WorkerBox(32), 0, -9401.0, -8501.0)
    ensures CellId(WorkerBox(32), 8000.0, 8500.0) == 1056
  {
    AxisIs(8000.0, 32, -9400.0, 8000.0, 32);
    AxisIs(-9401.0, 0, -9400.0, 8000.0, 32);
    AxisIs(-8500.0, 0, -8500.0, 8500.0, 32);
    AxisIs(-8501.0, 0, -8500.0, 8500.0, 32);
    AxisIs(8500.0, 32, -8500.0, 8500.0, 32);
    CellIdExact(WorkerBox(32), 8000.0, -8500.0);
    CellIdExact(WorkerBox(32), -9401.0, -8501.0);
  }
}
