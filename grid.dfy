/** The two-dimensional grid of the helper library: immutable cells that know
    their row and column, and a grid of rows of such cells. */
module Grids {
  import opened Wrappers
  import opened Seqs

  /** A grid cell; `row` and `column` are fixed when the grid is built. */
  datatype Cell<T> = Cell(value: T, row: int, column: int)
  {
    /** Row and column each differ by at most one (the cell itself included). */
    function IsNeighbour8Direction(other: Cell<T>): (r: bool)
      ensures r <==> Abs(other.row - row) <= 1 && Abs(other.column - column) <= 1
    {
      row - 1 <= other.row <= row + 1 && column - 1 <= other.column <= column + 1
    }

    /** Exactly the cells at distance one along the grid lines. */
    function IsNeighbour4Direction(other: Cell<T>): (r: bool)
      ensures r <==> Abs(other.row - row) + Abs(other.column - column) == 1
    {
      IsNeighbourX(other) || IsNeighbourY(other)
    }

    /** Same row, adjacent column. */
    function IsNeighbourX(other: Cell<T>): (r: bool)
      ensures r <==> other.row == row && (other.column == column - 1 || other.column == column + 1)
    {
      other.row == row && Abs(other.column - column) == 1
    }

    /** Same column, adjacent row. */
    function IsNeighbourY(other: Cell<T>): (r: bool)
      ensures r <==> other.column == column && (other.row == row - 1 || other.row == row + 1)
    {
      other.column == column && Abs(other.row - row) == 1
    }
  }

  function Abs(n: int): nat { if n < 0 then -n else n }

  /** The adjacency relations are symmetric. */
  lemma NeighbourSymmetric<T>(a: Cell<T>, b: Cell<T>)
    ensures a.IsNeighbourX(b) <==> b.IsNeighbourX(a)
    ensures a.IsNeighbourY(b) <==> b.IsNeighbourY(a)
    ensures a.IsNeighbour4Direction(b) <==> b.IsNeighbour4Direction(a)
    ensures a.IsNeighbour8Direction(b) <==> b.IsNeighbour8Direction(a)
  {
  }

  /** A cell is not its own 4-neighbour, and neither is a diagonal cell. */
  lemma Neighbour4NotSelfNorDiagonal<T>(a: Cell<T>, b: Cell<T>)
    requires (b.row == a.row && b.column == a.column) || (Abs(b.row - a.row) == 1 && Abs(b.column - a.column) == 1)
    ensures !a.IsNeighbourX(b) && !a.IsNeighbourY(b) && !a.IsNeighbour4Direction(b)
  {
  }

  /** Every 4-neighbour is an 8-neighbour, and a cell is its own 8-neighbour. */
  lemma Neighbour4Implies8<T>(a: Cell<T>, b: Cell<T>)
    ensures a.IsNeighbour4Direction(b) ==> a.IsNeighbour8Direction(b)
    ensures a.IsNeighbour8Direction(a)
  {
  }

  /** The 8-direction fixtures: around (2, 2), the cells (1, 1), (1, 3) and
      (3, 3) are neighbours, (0, 0) and (4, 4) are not. */
  lemma Neighbour8Fixtures(v: char)
    ensures Cell(v, 2, 2).IsNeighbour8Direction(Cell(v, 1, 1))
    ensures Cell(v, 2, 2).IsNeighbour8Direction(Cell(v, 1, 3))
    ensures Cell(v, 2, 2).IsNeighbour8Direction(Cell(v, 3, 3))
    ensures !Cell(v, 2, 2).IsNeighbour8Direction(Cell(v, 0, 0))
    ensures !Cell(v, 2, 2).IsNeighbour8Direction(Cell(v, 4, 4))
  {
  }

  /** Cells stored row by row. */
  datatype Grid<T(==,!new)> = Grid(cells: seq<seq<Cell<T>>>)
  {
    /** Every stored cell knows its own position; the constructor establishes it. */
    ghost predicate Valid()
    {
      forall r, c :: 0 <= r < |cells| && 0 <= c < |cells[r]| ==>
        cells[r][c].row == r && cells[r][c].column == c
    }

    /** All rows as long as the first; the library never checks it. */
    ghost predicate Rectangular()
    {
      forall r :: 0 <= r < |cells| ==> |cells[r]| == |cells[0]|
    }

    predicate InBounds(row: int, column: int)
    {
      0 <= row < |cells| && 0 <= column < |cells[row]|
    }

    /** All cells, row after row (Cells()). */
    function Cells(): (r: seq<Cell<T>>)
      ensures |r| == TotalCount(cells)
    {
      CellsCount(cells);
      Flatten(cells)
    }

    /** The value at `column`, `row` (column first); None where the index is out of range. */
    function Get(column: int, row: int): (r: Option<T>)
      ensures r.Some? <==> InBounds(row, column)
    {
      if InBounds(row, column) then Some(cells[row][column].value) else None
    }

    /** One row, in column order; None when `row` is out of range. */
    function GetRow(row: int): (r: Option<seq<Cell<T>>>)
      ensures r.Some? <==> 0 <= row < |cells|
      ensures r.Some? && Valid() ==>
        |r.value| == |cells[row]| &&
        forall c :: 0 <= c < |r.value| ==> r.value[c].row == row && r.value[c].column == c
    {
      if 0 <= row < |cells| then Some(cells[row]) else None
    }

    /** Every row is long enough to hold `column`. */
    predicate ColumnInRange(column: int)
    {
      0 <= column && forall k :: 0 <= k < |cells| ==> column < |cells[k]|
    }

    /** One column, in row order; None when some row is too short for `column`. */
    function GetColumn(column: int): (r: Option<seq<Cell<T>>>)
      ensures r.Some? <==> ColumnInRange(column)
      ensures r.Some? && Valid() ==>
        |r.value| == |cells| &&
        forall k :: 0 <= k < |r.value| ==> r.value[k].column == column && r.value[k].row == k
    {
      if ColumnInRange(column) then
        Some(ColumnOf(cells, column))
      else None
    }

    /** The 4-neighbours of `cell` inside the grid: east and west when `x`, then
        south and north when `y`. `diag` is accepted and adds nothing. */
    function GetNeighbours(cell: Cell<T>, x: bool, y: bool, diag: bool): (r: seq<Cell<T>>)
      requires Valid() && Rectangular()
      requires InBounds(cell.row, cell.column)
      ensures |r| <= 4
      ensures forall n :: n in r <==>
        n in Cells() && ((x && cell.IsNeighbourX(n)) || (y && cell.IsNeighbourY(n)))
      ensures forall i, j :: 0 <= i < j < |r| ==> Direction(cell, r[i]) < Direction(cell, r[j])
    {
      var width := |cells[0]|;
      var east := if x && cell.column < width - 1 then [cells[cell.row][cell.column + 1]] else [];
      var west := if x && cell.column > 0 then [cells[cell.row][cell.column - 1]] else [];
      var south := if y && cell.row < |cells| - 1 then [cells[cell.row + 1][cell.column]] else [];
      var north := if y && cell.row > 0 then [cells[cell.row - 1][cell.column]] else [];
      var r := east + west + south + north;
      forall n ensures n in r <==> n in Cells() && ((x && cell.IsNeighbourX(n)) || (y && cell.IsNeighbourY(n))) {
        NeighboursMember(this, cell, x, y, n, east, west, south, north);
      }
      r
    }
  }

  /** The entry at `column` of every row, in row order. */
  function ColumnOf<T>(rows: seq<seq<T>>, column: int): (r: seq<T>)
    requires 0 <= column
    requires forall k :: 0 <= k < |rows| ==> column < |rows[k]|
    ensures |r| == |rows| && forall k :: 0 <= k < |rows| ==> r[k] == rows[k][column]
  {
    if rows == [] then [] else [rows[0][column]] + ColumnOf(rows[1..], column)
  }

  /** Rank of `n` in the order east, west, south, north around `c`. */
  function Direction<T>(c: Cell<T>, n: Cell<T>): int
  {
    if n.row == c.row && n.column == c.column + 1 then 0
    else if n.row == c.row && n.column == c.column - 1 then 1
    else if n.row == c.row + 1 then 2
    else 3
  }

  /** Sum of the row lengths. */
  function TotalCount<T>(rows: seq<seq<T>>): nat
  {
    if rows == [] then 0 else |rows[0]| + TotalCount(rows[1..])
  }

  lemma {:induction false} CellsCount<T>(rows: seq<seq<T>>)
    ensures |Flatten(rows)| == TotalCount(rows)
  {
    if rows != [] {
      CellsCount(rows[1..]);
    }
  }

  /** Index of the first cell of `row` in the row-major enumeration. */
  function RowOffset<T>(rows: seq<seq<T>>, row: nat): nat
    requires row <= |rows|
  {
    if row == 0 then 0 else |rows[0]| + RowOffset(rows[1..], row - 1)
  }

  /** Cells() puts cell (r, c) at position RowOffset(r) + c. */
  lemma {:induction false} CellsIndex<T>(rows: seq<seq<T>>, r: nat, c: nat)
    requires r < |rows| && c < |rows[r]|
    ensures RowOffset(rows, r) + c < |Flatten(rows)|
    ensures Flatten(rows)[RowOffset(rows, r) + c] == rows[r][c]
  {
    if r > 0 {
      CellsIndex(rows[1..], r - 1, c);
    }
  }

  /** Every position of the enumeration is some cell (r, c). */
  lemma {:induction false} CellsPosition<T>(rows: seq<seq<T>>, k: nat) returns (r: nat, c: nat)
    requires k < |Flatten(rows)|
    ensures r < |rows| && c < |rows[r]| && k == RowOffset(rows, r) + c
  {
    if k < |rows[0]| {
      r, c := 0, k;
    } else {
      var r', c' := CellsPosition(rows[1..], k - |rows[0]|);
      r, c := r' + 1, c';
      assert rows[r] == rows[1..][r'];
    }
  }

  /** A cell is among the neighbours GetNeighbours collects exactly when it is
      a stored cell next to `cell` in an allowed direction. */
  lemma NeighboursMember<T(!new)>(g: Grid<T>, cell: Cell<T>, x: bool, y: bool, n: Cell<T>,
                                  east: seq<Cell<T>>, west: seq<Cell<T>>, south: seq<Cell<T>>, north: seq<Cell<T>>)
    requires g.Valid() && g.Rectangular() && g.InBounds(cell.row, cell.column)
    requires east == (if x && cell.column < |g.cells[0]| - 1 then [g.cells[cell.row][cell.column + 1]] else [])
    requires west == (if x && cell.column > 0 then [g.cells[cell.row][cell.column - 1]] else [])
    requires south == (if y && cell.row < |g.cells| - 1 then [g.cells[cell.row + 1][cell.column]] else [])
    requires north == (if y && cell.row > 0 then [g.cells[cell.row - 1][cell.column]] else [])
    ensures n in east + west + south + north <==>
      n in g.Cells() && ((x && cell.IsNeighbourX(n)) || (y && cell.IsNeighbourY(n)))
  {
    CellsMember(g, n);
    if n in east + west + south + north {
      NeighbourStored(g, cell, x, y, n, east, west, south, north);
    }
    if n in g.Cells() && ((x && cell.IsNeighbourX(n)) || (y && cell.IsNeighbourY(n))) {
      var r, c :| g.InBounds(r, c) && g.cells[r][c] == n;
      NeighbourCollected(g, cell, x, y, r, c, east, west, south, north);
    }
  }

  /** Each collected neighbour is a stored cell next to `cell`. */
  lemma NeighbourStored<T(!new)>(g: Grid<T>, cell: Cell<T>, x: bool, y: bool, n: Cell<T>,
                                 east: seq<Cell<T>>, west: seq<Cell<T>>, south: seq<Cell<T>>, north: seq<Cell<T>>)
    requires g.Valid() && g.Rectangular() && g.InBounds(cell.row, cell.column)
    requires east == (if x && cell.column < |g.cells[0]| - 1 then [g.cells[cell.row][cell.column + 1]] else [])
    requires west == (if x && cell.column > 0 then [g.cells[cell.row][cell.column - 1]] else [])
    requires south == (if y && cell.row < |g.cells| - 1 then [g.cells[cell.row + 1][cell.column]] else [])
    requires north == (if y && cell.row > 0 then [g.cells[cell.row - 1][cell.column]] else [])
    requires n in east + west + south + north
    ensures exists r, c :: g.InBounds(r, c) && g.cells[r][c] == n
    ensures (x && cell.IsNeighbourX(n)) || (y && cell.IsNeighbourY(n))
  {
    var r, c := cell.row, cell.column;
    if n in east {
      assert g.InBounds(r, c + 1) && g.cells[r][c + 1] == n;
    } else if n in west {
      assert g.InBounds(r, c - 1) && g.cells[r][c - 1] == n;
    } else if n in south {
      assert |g.cells[r + 1]| == |g.cells[0]|;
      assert g.InBounds(r + 1, c) && g.cells[r + 1][c] == n;
    } else {
      assert n in north;
      assert |g.cells[r - 1]| == |g.cells[0]|;
      assert g.InBounds(r - 1, c) && g.cells[r - 1][c] == n;
    }
  }

  /** Each stored cell next to `cell` in an allowed direction is collected. */
  lemma NeighbourCollected<T(!new)>(g: Grid<T>, cell: Cell<T>, x: bool, y: bool, r: int, c: int,
                                    east: seq<Cell<T>>, west: seq<Cell<T>>, south: seq<Cell<T>>, north: seq<Cell<T>>)
    requires g.Valid() && g.Rectangular() && g.InBounds(cell.row, cell.column) && g.InBounds(r, c)
    requires east == (if x && cell.column < |g.cells[0]| - 1 then [g.cells[cell.row][cell.column + 1]] else [])
    requires west == (if x && cell.column > 0 then [g.cells[cell.row][cell.column - 1]] else [])
    requires south == (if y && cell.row < |g.cells| - 1 then [g.cells[cell.row + 1][cell.column]] else [])
    requires north == (if y && cell.row > 0 then [g.cells[cell.row - 1][cell.column]] else [])
    requires (x && cell.IsNeighbourX(g.cells[r][c])) || (y && cell.IsNeighbourY(g.cells[r][c]))
    ensures g.cells[r][c] in east + west + south + north
  {
    var n := g.cells[r][c];
    assert n.row == r && n.column == c;
    assert |g.cells[r]| == |g.cells[0]| && |g.cells[cell.row]| == |g.cells[0]|;
    if x && cell.IsNeighbourX(n) {
      if c == cell.column + 1 {
        assert n in east;
      } else {
        assert n in west;
      }
    } else {
      if r == cell.row + 1 {
        assert n in south;
      } else {
        assert n in north;
      }
    }
  }

  lemma CellsMember<T(!new)>(g: Grid<T>, n: Cell<T>)
    ensures n in g.Cells() <==> exists r, c :: g.InBounds(r, c) && g.cells[r][c] == n
  {
    if n in g.Cells() {
      var k :| 0 <= k < |g.Cells()| && g.Cells()[k] == n;
      var r, c := CellsPosition(g.cells, k);
      CellsIndex(g.cells, r, c);
    }
    if exists r, c :: g.InBounds(r, c) && g.cells[r][c] == n {
      var r, c :| g.InBounds(r, c) && g.cells[r][c] == n;
      CellsIndex(g.cells, r, c);
    }
  }

  lemma {:induction false} RowOffsetMonotone<T>(rows: seq<seq<T>>, r1: nat, r2: nat)
    requires r1 < r2 <= |rows|
    ensures RowOffset(rows, r1) + |rows[r1]| <= RowOffset(rows, r2)
  {
    if r1 > 0 {
      RowOffsetMonotone(rows[1..], r1 - 1, r2 - 1);
    } else if r2 > 1 {
      RowOffsetMonotone(rows[1..], 0, r2 - 1);
    }
  }

  /** Cells() is in strict row-major order, so it lists every cell exactly once. */
  lemma CellsRowMajor<T(!new)>(g: Grid<T>, i: int, j: int)
    requires g.Valid()
    requires 0 <= i < j < |g.Cells()|
    ensures g.Cells()[i].row < g.Cells()[j].row ||
      (g.Cells()[i].row == g.Cells()[j].row && g.Cells()[i].column < g.Cells()[j].column)
  {
    var ri, ci := CellsPosition(g.cells, i);
    var rj, cj := CellsPosition(g.cells, j);
    CellsIndex(g.cells, ri, ci);
    CellsIndex(g.cells, rj, cj);
    if rj < ri {
      RowOffsetMonotone(g.cells, rj, ri);
    } else if ri < rj {
      RowOffsetMonotone(g.cells, ri, rj);
    }
  }

  /** The grid constructor: element (r, c) becomes the cell with value
      elements[r][c], row r and column c. Ragged input gives ragged rows. */
  function Construct<T(==,!new)>(elements: seq<seq<T>>): (g: Grid<T>)
    ensures g.Valid()
    ensures |g.cells| == |elements|
    ensures forall r :: 0 <= r < |elements| ==> |g.cells[r]| == |elements[r]|
    ensures forall r, c :: 0 <= r < |elements| && 0 <= c < |elements[r]| ==>
      g.cells[r][c].value == elements[r][c]
  {
    Grid(seq(|elements|, r requires 0 <= r < |elements| =>
      seq(|elements[r]|, c requires 0 <= c < |elements[r]| => Cell(elements[r][c], r, c))))
  }

  /** Get on a constructed grid reads the element at (row, column), and nothing outside it. */
  lemma GetConstruct<T(!new)>(elements: seq<seq<T>>, column: int, row: int)
    ensures Construct(elements).Get(column, row) ==
      if 0 <= row < |elements| && 0 <= column < |elements[row]| then Some(elements[row][column]) else None
  {
  }

  /** GetNeighbours ignores `diag`; an interior cell has four neighbours and a corner two. */
  lemma NeighbourCounts<T(!new)>(g: Grid<T>, cell: Cell<T>, diag: bool)
    requires g.Valid() && g.Rectangular()
    requires g.InBounds(cell.row, cell.column)
    ensures g.GetNeighbours(cell, true, true, diag) == g.GetNeighbours(cell, true, true, false)
    ensures 0 < cell.row < |g.cells| - 1 && 0 < cell.column < |g.cells[0]| - 1 ==>
      |g.GetNeighbours(cell, true, true, diag)| == 4
    ensures ((cell.row == 0 || cell.row == |g.cells| - 1) && (cell.column == 0 || cell.column == |g.cells[0]| - 1)
      && |g.cells| > 1 && |g.cells[0]| > 1) ==>
      |g.GetNeighbours(cell, true, true, diag)| == 2
  {
  }
}
