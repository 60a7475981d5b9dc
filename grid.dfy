/**
 The board: a 640 x 480 pixel screen cut into 20-pixel cells, the cells that
 exist on it, the four headings and the wrap-around step of the snake's head.
 */
module Grid {

  const ScreenWidth: int := 640
  const ScreenHeight: int := 480
  const GridSize: int := 20
  const GridWidth: int := ScreenWidth / GridSize    // 32 columns
  const GridHeight: int := ScreenHeight / GridSize  // 24 rows

  /** A cell, identified by the pixel coordinates of its top-left corner. */
  datatype Cell = Cell(x: int, y: int)

  /** The start cell of the snake: the middle of the screen. */
  const ScreenCenter: Cell := Cell(ScreenWidth / 2, ScreenHeight / 2)

  /** The four headings. */
  datatype Dir = Up | Down | Left | Right

  /** The unit vector of a heading; y grows downwards on the screen. */
  function DX(d: Dir): int
  {
    match d
    case Up => 0
    case Down => 0
    case Left => -1
    case Right => 1
  }

  function DY(d: Dir): int
  {
    match d
    case Up => -1
    case Down => 1
    case Left => 0
    case Right => 0
  }

  /** The heading whose vector is the negation of d's. */
  function Opposite(d: Dir): (r: Dir)
    ensures DX(r) == -DX(d) && DY(r) == -DY(d)
    ensures r != d
  {
    match d
    case Up => Down
    case Down => Up
    case Left => Right
    case Right => Left
  }

  /** The cells (i * GridSize, j * GridSize) for column i < w and row j < h. */
  function CellsOf(w: int, h: int): set<Cell>
  {
    set i, j | 0 <= i < w && 0 <= j < h :: Cell(i * GridSize, j * GridSize)
  }

  /** Every cell of the board. */
  function AllCells(): set<Cell>
  {
    CellsOf(GridWidth, GridHeight)
  }

  /** A cell that lies on the board: grid-aligned and inside the screen. */
  predicate OnGrid(c: Cell)
  {
    && c.x % GridSize == 0 && c.y % GridSize == 0
    && 0 <= c.x < ScreenWidth && 0 <= c.y < ScreenHeight
  }

  /** The board holds exactly the grid-aligned cells inside the screen. */
  lemma AllCellsExactly(c: Cell)
    ensures c in AllCells() <==> OnGrid(c)
  {
    if OnGrid(c) {
      var i, j := c.x / GridSize, c.y / GridSize;
      assert c == Cell(i * GridSize, j * GridSize);
      assert 0 <= i < GridWidth && 0 <= j < GridHeight;
    }
  }

  /** The cells of column i. */
  function Column(i: int, h: int): set<Cell>
  {
    set j | 0 <= j < h :: Cell(i * GridSize, j * GridSize)
  }

  lemma {:induction false} ColumnSize(i: int, h: nat)
    ensures |Column(i, h)| == h
  {
    if h > 0 {
      ColumnSize(i, h - 1);
      var last := Cell(i * GridSize, (h - 1) * GridSize);
      assert Column(i, h) == Column(i, h - 1) + {last};
      assert last !in Column(i, h - 1);
    }
  }

  lemma {:induction false} CellsOfSize(w: nat, h: nat)
    ensures |CellsOf(w, h)| == w * h
  {
    if w > 0 {
      var prev, col := CellsOf(w - 1, h), Column(w - 1, h);
      CellsOfSize(w - 1, h);
      ColumnSize(w - 1, h);
      forall c | c in CellsOf(w, h) ensures c in prev + col {
        var i, j :| 0 <= i < w && 0 <= j < h && c == Cell(i * GridSize, j * GridSize);
        if i < w - 1 {
          assert c in prev;
        } else {
          assert c in col;
        }
      }
      assert CellsOf(w, h) == prev + col;
      forall c | c in prev ensures c.x < (w - 1) * GridSize {
      }
      forall c | c in col ensures c.x == (w - 1) * GridSize {
      }
      assert prev * col == {};
      SizeStep(w, h);
    }
  }

  lemma SizeStep(w: int, h: int)
    ensures w * h == (w - 1) * h + h
  {
  }

  /** The board has 32 * 24 cells, each of them once, and the start cell is one of them. */
  lemma AllCellsSize()
    ensures |AllCells()| == GridWidth * GridHeight == 768
    ensures ScreenCenter in AllCells()
  {
    assert GridWidth == 32 && GridHeight == 24;
    CellsOfSize(32, 24);
    AllCellsExactly(ScreenCenter);
  }

  /**
   The head one step further in heading d, wrapping around the screen's edges.
   Dafny's % with a positive divisor is never negative, like Python's.
   */
  function Step(c: Cell, d: Dir): (r: Cell)
    ensures 0 <= r.x < ScreenWidth && 0 <= r.y < ScreenHeight
  {
    Cell((c.x + DX(d) * GridSize) % ScreenWidth, (c.y + DY(d) * GridSize) % ScreenHeight)
  }

  /** A step from a cell of the board lands on a cell of the board. */
  lemma StepOnGrid(c: Cell, d: Dir)
    requires OnGrid(c)
    ensures OnGrid(Step(c, d))
  {
    var r := Step(c, d);
    var nx, ny := c.x + DX(d) * GridSize, c.y + DY(d) * GridSize;
    assert r.x == nx || r.x == nx - ScreenWidth || r.x == nx + ScreenWidth;
    assert r.y == ny || r.y == ny - ScreenHeight || r.y == ny + ScreenHeight;
  }

  /** A step is undone by a step in the opposite heading. */
  lemma StepInverse(c: Cell, d: Dir)
    requires OnGrid(c)
    ensures Step(Step(c, d), Opposite(d)) == c
  {
  }

  /** The head always moves: a step never stays on the same cell. */
  lemma StepMoves(c: Cell, d: Dir)
    requires OnGrid(c)
    ensures Step(c, d) != c
  {
  }

  /** Two different headings from the same cell lead to different cells. */
  lemma StepInjective(c: Cell, d1: Dir, d2: Dir)
    requires OnGrid(c)
    ensures Step(c, d1) == Step(c, d2) <==> d1 == d2
  {
  }

  /** The right edge wraps to the left column, and the top row to the bottom one. */
  lemma WrapExamples(x: int, y: int)
    requires 0 <= x < ScreenWidth && 0 <= y < ScreenHeight
    ensures Step(Cell(620, y), Right) == Cell(0, y)
    ensures Step(Cell(0, y), Left) == Cell(620, y)
    ensures Step(Cell(x, 0), Up) == Cell(x, 460)
    ensures Step(Cell(x, 460), Down) == Cell(x, 0)
  {
  }

  /** The head after n steps in the same heading. */
  function Steps(c: Cell, d: Dir, n: nat): Cell
  {
    if n == 0 then c else Step(Steps(c, d, n - 1), d)
  }

  lemma MulAtLeast(m: int, e: int)
    requires m > 0 && e >= 1
    ensures m * e >= m
  {
  }

  /** The Euclidean remainder is the one remainder in [0, m). */
  lemma ModUnique(x: int, k: int, r: int, m: int)
    requires m > 0 && x == m * k + r && 0 <= r < m
    ensures x % m == r
  {
    var q, s := x / m, x % m;
    assert x == m * q + s && 0 <= s < m;
    var e := q - k;
    assert m * e == m * q - m * k;
    assert m * e == r - s;
    if e >= 1 {
      MulAtLeast(m, e);
    } else if e <= -1 {
      MulAtLeast(m, -e);
    }
  }

  /** Reducing modulo m before an addition does not change the sum's residue. */
  lemma ModAdd(a: int, b: int, m: int)
    requires m > 0
    ensures (a % m + b) % m == (a + b) % m
  {
    var y := a % m + b;
    assert a == m * (a / m) + a % m;
    assert y == m * (y / m) + y % m;
    assert a + b == m * (a / m + y / m) + y % m;
    ModUnique(a + b, a / m + y / m, y % m, m);
  }

  /** n steps in one heading add n cells to the coordinate, modulo the screen size. */
  lemma {:induction false} StepsWrap(c: Cell, d: Dir, n: nat)
    requires OnGrid(c)
    ensures Steps(c, d, n) == Cell((c.x + n * DX(d) * GridSize) % ScreenWidth,
                                   (c.y + n * DY(d) * GridSize) % ScreenHeight)
  {
    if n > 0 {
      StepsWrap(c, d, n - 1);
      ModAdd(c.x + (n - 1) * DX(d) * GridSize, DX(d) * GridSize, ScreenWidth);
      ModAdd(c.y + (n - 1) * DY(d) * GridSize, DY(d) * GridSize, ScreenHeight);
      assert (n - 1) * DX(d) * GridSize + DX(d) * GridSize == n * DX(d) * GridSize;
      assert (n - 1) * DY(d) * GridSize + DY(d) * GridSize == n * DY(d) * GridSize;
    } else {
      assert c.x % ScreenWidth == c.x && c.y % ScreenHeight == c.y;
    }
  }

  /** From the start cell, n steps right put the head at ((320 + 20 n) mod 640, 240). */
  lemma StepsRightFromCenter(n: nat)
    ensures Steps(ScreenCenter, Right, n) == Cell((320 + n * 20) % 640, 240)
  {
    StepsWrap(ScreenCenter, Right, n);
  }
}
