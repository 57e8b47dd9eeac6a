/** 2022 day 12: the hill-climbing walk, found by an A* search over the
    height map with caller-supplied heuristic and edge-weight functions. */
module Y2022D12 {
  import opened Wrappers
  import opened Seqs
  import InputHelpers

  /** A cell of the height map; X is the column, Y the row. */
  datatype Cell = Cell(value: char, x: int, y: int)

  function Abs(n: int): nat { if n < 0 then -n else n }

  /** Same row and adjacent column, or same column and adjacent row. */
  predicate Adjacent(a: Cell, b: Cell)
  {
    (b.y == a.y && Abs(a.x - b.x) == 1) || (b.x == a.x && Abs(a.y - b.y) == 1)
  }

  // ---------------------------------------------------------------------------
  // Graph construction
  // ---------------------------------------------------------------------------

  /** The cells of one row, left to right. */
  function RowCells(line: seq<char>, row: int): (r: seq<Cell>)
    ensures |r| == |line|
    ensures forall c :: 0 <= c < |line| ==> r[c] == Cell(line[c], c, row)
  {
    seq(|line|, c requires 0 <= c < |line| => Cell(line[c], c, row))
  }

  /** All cells of the grid, row after row. */
  function GraphCells(grid: seq<seq<char>>): seq<Cell>
  {
    if grid == [] then []
    else GraphCells(grid[..|grid| - 1]) + RowCells(grid[|grid| - 1], |grid| - 1)
  }

  /** The cells are exactly the grid positions with their characters, and they
      are listed in row-major order (X = column, Y = row). */
  lemma {:induction false} GraphCellsRowMajor(grid: seq<seq<char>>)
    ensures forall c: Cell :: c in GraphCells(grid) <==>
      0 <= c.y < |grid| && 0 <= c.x < |grid[c.y]| && c.value == grid[c.y][c.x]
    ensures forall i, j :: 0 <= i < j < |GraphCells(grid)| ==>
      GraphCells(grid)[i].y < GraphCells(grid)[j].y ||
      (GraphCells(grid)[i].y == GraphCells(grid)[j].y && GraphCells(grid)[i].x < GraphCells(grid)[j].x)
  {
    if grid != [] {
      var init := grid[..|grid| - 1];
      var last := |grid| - 1;
      GraphCellsRowMajor(init);
      var prev := GraphCells(init);
      var row := RowCells(grid[last], last);
      assert GraphCells(grid) == prev + row;
      forall c: Cell ensures c in prev + row <==>
        0 <= c.y < |grid| && 0 <= c.x < |grid[c.y]| && c.value == grid[c.y][c.x]
      {
        if c in row {
          var k :| 0 <= k < |row| && row[k] == c;
        }
        if 0 <= c.y < |grid| && 0 <= c.x < |grid[c.y]| && c.value == grid[c.y][c.x] && c.y == last {
          assert row[c.x] == c;
        }
        if 0 <= c.y < last {
          assert init[c.y] == grid[c.y];
        }
      }
      forall i, j | 0 <= i < j < |prev + row|
        ensures (prev + row)[i].y < (prev + row)[j].y ||
          ((prev + row)[i].y == (prev + row)[j].y && (prev + row)[i].x < (prev + row)[j].x)
      {
        if j >= |prev| && i < |prev| {
          assert prev[i] in prev;
        }
      }
    }
  }

  /** The positions of `path` are graph cells reached one step at a time along
      edges that have a weight. */
  ghost predicate Walk(cells: seq<Cell>, path: seq<Cell>, from: Cell, to: Cell,
                       edgeWeight: (Cell, Cell) -> Option<int>)
  {
    |path| >= 1 && path[0] == from && path[|path| - 1] == to &&
    forall i :: 0 <= i < |path| - 1 ==> Step(cells, path[i], path[i + 1], edgeWeight)
  }

  /** `b` is a graph cell next to `a` and the edge from `a` to `b` has a weight. */
  ghost predicate Step(cells: seq<Cell>, a: Cell, b: Cell, edgeWeight: (Cell, Cell) -> Option<int>)
  {
    b in cells && Adjacent(a, b) && edgeWeight(a, b).Some?
  }

  ghost predicate Reachable(cells: seq<Cell>, from: Cell, to: Cell, edgeWeight: (Cell, Cell) -> Option<int>)
  {
    exists path :: Walk(cells, path, from, to, edgeWeight)
  }

  /** A set that holds `from` and is closed under steps holds every walk from `from`. */
  lemma {:induction false} ClosedSetHoldsWalks(cells: seq<Cell>, closed: set<Cell>, path: seq<Cell>,
                                               from: Cell, to: Cell, edgeWeight: (Cell, Cell) -> Option<int>)
    requires from in closed
    requires forall a, b :: a in closed && Step(cells, a, b, edgeWeight) ==> b in closed
    requires Walk(cells, path, from, to, edgeWeight)
    ensures to in closed
    decreases |path|
  {
    if |path| > 1 {
      var init := path[..|path| - 1];
      assert Walk(cells, init, from, init[|init| - 1], edgeWeight) by {
        forall i | 0 <= i < |init| - 1 ensures Step(cells, init[i], init[i + 1], edgeWeight) {
          assert Step(cells, path[i], path[i + 1], edgeWeight);
        }
      }
      ClosedSetHoldsWalks(cells, closed, init, from, init[|init| - 1], edgeWeight);
      assert Step(cells, path[|path| - 2], path[|path| - 1], edgeWeight);
    }
  }

  /** The cells of `cells` adjacent to `cell`, in list order. */
  function Neighbours(cells: seq<Cell>, cell: Cell): (r: seq<Cell>)
    ensures |r| <= |cells|
    ensures forall n :: n in r <==> n in cells && Adjacent(cell, n)
  {
    if cells == [] then []
    else
      var rest := Neighbours(cells[..|cells| - 1], cell);
      var last := cells[|cells| - 1];
      assert forall n :: n in cells <==> n in cells[..|cells| - 1] || n == last by {
        assert cells == cells[..|cells| - 1] + [last];
      }
      if Adjacent(cell, last) then rest + [last] else rest
  }

  // ---------------------------------------------------------------------------
  // The search
  // ---------------------------------------------------------------------------

  /** Edge weights are never negative. */
  ghost predicate NonNegative(edgeWeight: (Cell, Cell) -> Option<int>)
  {
    forall a, b :: edgeWeight(a, b).Some? ==> edgeWeight(a, b).value >= 0
  }

  /** The priority queue holds an entry for `c`. */
  predicate Queued(open: seq<(Cell, int)>, c: Cell)
  {
    exists j :: 0 <= j < |open| && open[j].0 == c
  }

  /** Index of the first entry with the smallest priority. */
  function MinIndex(open: seq<(Cell, int)>): (m: nat)
    requires |open| > 0
    ensures m < |open|
    ensures forall j :: 0 <= j < |open| ==> open[m].1 <= open[j].1
  {
    if |open| == 1 then 0
    else
      var m := MinIndex(open[..|open| - 1]);
      if open[|open| - 1].1 < open[m].1 then |open| - 1 else m
  }

  /** g-value of `c`, 0 for an unrecorded cell. */
  function ValueAt(g: map<Cell, int>, c: Cell): int
  {
    if c in g then g[c] else 0
  }

  /** Sum of the recorded g-values over `u`; it bounds how often they can still drop. */
  function SumOver(u: seq<Cell>, g: map<Cell, int>): int
  {
    if u == [] then 0 else ValueAt(g, u[0]) + SumOver(u[1..], g)
  }

  lemma {:induction false} SumOverNonNegative(u: seq<Cell>, g: map<Cell, int>)
    requires forall c :: c in g ==> g[c] >= 0
    ensures SumOver(u, g) >= 0
  {
    if u != [] {
      SumOverNonNegative(u[1..], g);
    }
  }

  /** Lowering g-values pointwise lowers the sum, strictly if one of them at `k` drops. */
  lemma {:induction false} SumOverDecreases(u: seq<Cell>, g: map<Cell, int>, g2: map<Cell, int>, k: Cell)
    requires forall c :: c in u ==> ValueAt(g2, c) <= ValueAt(g, c)
    requires k in u && ValueAt(g2, k) < ValueAt(g, k)
    ensures SumOver(u, g2) < SumOver(u, g)
  {
    SumOverMonotone(u[1..], g, g2);
    if u[0] != k {
      SumOverDecreases(u[1..], g, g2, k);
    }
  }

  lemma {:induction false} SumOverMonotone(u: seq<Cell>, g: map<Cell, int>, g2: map<Cell, int>)
    requires forall c :: c in u ==> ValueAt(g2, c) <= ValueAt(g, c)
    ensures SumOver(u, g2) <= SumOver(u, g)
  {
    if u != [] {
      SumOverMonotone(u[1..], g, g2);
    }
  }

  lemma SubsetSmallerRest(universe: set<Cell>, a: set<Cell>, b: set<Cell>)
    requires a < b <= universe
    ensures |universe - b| < |universe - a|
  {
    var x :| x in b && x !in a;
    assert universe - a == (universe - b) + (b - a);
    assert (universe - b) * (b - a) == {};
    assert x in b - a;
  }

  /** The predecessor links: every linked cell is a step away from its
      predecessor, and following links strictly lowers (g, stamp). */
  ghost predicate Links(cells: seq<Cell>, cameFrom: map<Cell, Cell>, g: map<Cell, int>,
                        stamp: map<Cell, nat>, edgeWeight: (Cell, Cell) -> Option<int>)
  {
    stamp.Keys == g.Keys &&
    forall k :: k in cameFrom ==>
      k in g && cameFrom[k] in g && Step(cells, cameFrom[k], k, edgeWeight) &&
      (g[cameFrom[k]] < g[k] || (g[cameFrom[k]] == g[k] && stamp[cameFrom[k]] < stamp[k]))
  }

  /** The recorded cells are the linked ones plus `start`, whose g-value is 0;
      no g-value is negative. */
  ghost predicate Scores(start: Cell, cameFrom: map<Cell, Cell>, g: map<Cell, int>)
  {
    g.Keys == cameFrom.Keys + {start} && start !in cameFrom && g[start] == 0 &&
    forall c :: c in g ==> g[c] >= 0
  }

  /** A recorded cell that has no queue entry (other than `except`) has all its
      step-neighbours recorded. */
  ghost predicate Closed(cells: seq<Cell>, open: seq<(Cell, int)>, g: map<Cell, int>,
                         edgeWeight: (Cell, Cell) -> Option<int>, except: Option<Cell>)
  {
    forall a, b :: a in g && Step(cells, a, b, edgeWeight) && !Queued(open, a) && except != Some(a) ==> b in g
  }

  lemma QueuedAfterRemoval(open: seq<(Cell, int)>, m: nat, c: Cell)
    requires m < |open| && Queued(open, c) && open[m].0 != c
    ensures Queued(open[..m] + open[m + 1..], c)
  {
    var j :| 0 <= j < |open| && open[j].0 == c;
    if j < m {
      assert (open[..m] + open[m + 1..])[j] == open[j];
    } else {
      assert (open[..m] + open[m + 1..])[j - 1] == open[j];
    }
  }

  lemma QueuedAfterAppend(open: seq<(Cell, int)>, e: (Cell, int), c: Cell)
    ensures Queued(open, c) ==> Queued(open + [e], c)
    ensures Queued(open + [e], e.0)
  {
    if Queued(open, c) {
      var j :| 0 <= j < |open| && open[j].0 == c;
      assert (open + [e])[j] == open[j];
    }
    assert (open + [e])[|open|] == e;
  }

  /** `parent` is the recorded predecessor of `child`. */
  predicate ParentOf(cameFrom: map<Cell, Cell>, child: Cell, parent: Cell)
  {
    child in cameFrom && cameFrom[child] == parent
  }

  class Graph {
    /** The cells of the height map, row after row. */
    const cells: seq<Cell>

    /** Lists the grid's cells row by row, left to right. */
    constructor(grid: seq<seq<char>>)
      ensures cells == GraphCells(grid)
    {
      var acc: seq<Cell> := [];
      var row := 0;
      while row < |grid|
        invariant 0 <= row <= |grid|
        invariant acc == GraphCells(grid[..row])
      {
        var col := 0;
        while col < |grid[row]|
          invariant 0 <= col <= |grid[row]|
          invariant acc == GraphCells(grid[..row]) + RowCells(grid[row], row)[..col]
        {
          acc := acc + [Cell(grid[row][col], col, row)];
          col := col + 1;
        }
        assert grid[..row + 1][..row] == grid[..row];
        row := row + 1;
      }
      assert grid[..|grid|] == grid;
      cells := acc;
    }

    /** The graph cells next to `cell`, in row-major order. */
    function GetNeighbors(cell: Cell): (r: seq<Cell>)
      ensures forall n :: n in r <==> n in cells && Adjacent(cell, n)
    {
      Neighbours(cells, cell)
    }

    /** Follows the predecessor links back from `current` and reverses the
        chain, so the result runs from an unlinked cell to `current`. */
    method ReconstructPath(cameFrom: map<Cell, Cell>, current: Cell,
                           ghost g: map<Cell, int>, ghost stamp: map<Cell, nat>,
                           ghost edgeWeight: (Cell, Cell) -> Option<int>)
      returns (path: seq<Cell>)
      requires current in g && Links(cells, cameFrom, g, stamp, edgeWeight)
      requires forall c :: c in g ==> g[c] >= 0
      ensures |path| >= 1 && path[|path| - 1] == current
      ensures path[0] in g && path[0] !in cameFrom
      ensures forall i :: 0 <= i < |path| - 1 ==> ParentOf(cameFrom, path[i + 1], path[i])
      ensures current !in cameFrom ==> path == [current]
    {
      var cur := current;
      var chain := [current];
      while cur in cameFrom
        invariant cur in g
        invariant |chain| >= 1 && chain[0] == current && chain[|chain| - 1] == cur
        invariant forall j :: 0 <= j < |chain| - 1 ==> chain[j] in cameFrom && cameFrom[chain[j]] == chain[j + 1]
        decreases g[cur], stamp[cur]
      {
        cur := cameFrom[cur];
        chain := chain + [cur];
      }
      path := Reverse(chain);
    }

    /** The bookkeeping of the search: scores, links, stamps below `clock`,
        queued cells recorded, `end` queued once recorded, and every recorded
        cell without a queue entry (other than `except`) closed. */
    ghost predicate Search(start: Cell, end: Cell, open: seq<(Cell, int)>, cameFrom: map<Cell, Cell>,
                           g: map<Cell, int>, stamp: map<Cell, nat>, clock: nat, universe: set<Cell>,
                           edgeWeight: (Cell, Cell) -> Option<int>, except: Option<Cell>)
    {
      Scores(start, cameFrom, g) && Links(cells, cameFrom, g, stamp, edgeWeight) &&
      (forall c :: c in stamp ==> stamp[c] < clock) &&
      g.Keys <= universe &&
      (forall j :: 0 <= j < |open| ==> open[j].0 in g) &&
      (end in g ==> Queued(open, end)) &&
      Closed(cells, open, g, edgeWeight, except)
    }

    /** One iteration of the neighbour loop: when the edge has a weight and the
        tentative score beats the recorded one, `neighbor` is linked to
        `current`, rescored and queued. */
    method Relax(start: Cell, end: Cell, current: Cell, neighbor: Cell,
                 heuristic: (Cell, Cell) -> int, edgeWeight: (Cell, Cell) -> Option<int>,
                 open: seq<(Cell, int)>, cameFrom: map<Cell, Cell>, gScore: map<Cell, int>, fScore: map<Cell, int>,
                 ghost stamp: map<Cell, nat>, ghost clock: nat, ghost universe: set<Cell>)
      returns (open': seq<(Cell, int)>, cameFrom': map<Cell, Cell>, gScore': map<Cell, int>, fScore': map<Cell, int>,
               ghost stamp': map<Cell, nat>, ghost clock': nat)
      requires NonNegative(edgeWeight)
      requires Search(start, end, open, cameFrom, gScore, stamp, clock, universe, edgeWeight, Some(current))
      requires current in gScore && neighbor in cells && Adjacent(current, neighbor)
      requires (set c | c in cells) <= universe
      ensures Search(start, end, open', cameFrom', gScore', stamp', clock', universe, edgeWeight, Some(current))
      ensures Step(cells, current, neighbor, edgeWeight) ==> neighbor in gScore'
      ensures gScore.Keys <= gScore'.Keys
      ensures forall c :: c in gScore ==> gScore'[c] <= gScore[c]
      ensures gScore'[current] == gScore[current]
      ensures (gScore' == gScore && open' == open) || gScore.Keys < gScore'.Keys ||
        (neighbor in gScore && gScore'[neighbor] < gScore[neighbor])
    {
      open', cameFrom', gScore', fScore', stamp', clock' := open, cameFrom, gScore, fScore, stamp, clock;
      var weight := edgeWeight(current, neighbor);
      if weight.Some? {
        var tentative := gScore[current] + weight.value;
        if neighbor !in gScore || tentative < gScore[neighbor] {
          cameFrom' := cameFrom[neighbor := current];
          gScore' := gScore[neighbor := tentative];
          fScore' := fScore[neighbor := tentative + heuristic(neighbor, end)];
          open' := open + [(neighbor, fScore'[neighbor])];
          stamp' := stamp[neighbor := clock];
          clock' := clock + 1;
          forall c | Queued(open, c) ensures Queued(open', c) {
            QueuedAfterAppend(open, (neighbor, fScore'[neighbor]), c);
          }
          QueuedAfterAppend(open, (neighbor, fScore'[neighbor]), neighbor);
          assert neighbor != start;
          assert Links(cells, cameFrom', gScore', stamp', edgeWeight) by {
            forall k | k in cameFrom'
              ensures k in gScore' && cameFrom'[k] in gScore' && Step(cells, cameFrom'[k], k, edgeWeight)
              ensures gScore'[cameFrom'[k]] < gScore'[k] ||
                (gScore'[cameFrom'[k]] == gScore'[k] && stamp'[cameFrom'[k]] < stamp'[k])
            {
              if k != neighbor && cameFrom[k] == neighbor {
                assert neighbor in gScore;
              }
            }
          }
          assert neighbor in universe;
        }
      }
    }

    /** Removing the entry of `current` from the queue keeps the bookkeeping,
        with `current` as the one cell that may be neither queued nor closed. */
    lemma DequeueKeeps(start: Cell, end: Cell, open0: seq<(Cell, int)>, m: nat, cameFrom: map<Cell, Cell>,
                       g: map<Cell, int>, stamp: map<Cell, nat>, clock: nat, universe: set<Cell>,
                       edgeWeight: (Cell, Cell) -> Option<int>)
      requires m < |open0| && open0[m].0 != end
      requires Search(start, end, open0, cameFrom, g, stamp, clock, universe, edgeWeight, None)
      ensures Search(start, end, open0[..m] + open0[m + 1..], cameFrom, g, stamp, clock, universe, edgeWeight, Some(open0[m].0))
    {
      var open := open0[..m] + open0[m + 1..];
      forall c | Queued(open0, c) && c != open0[m].0 ensures Queued(open, c) {
        QueuedAfterRemoval(open0, m, c);
      }
      forall j | 0 <= j < |open| ensures open[j].0 in g {
        if j < m {
          assert open[j] == open0[j];
        } else {
          assert open[j] == open0[j + 1];
        }
      }
    }

    /** The neighbour loop of one expansion: relaxes every neighbour of
        `current`, after which `current` is closed. */
    method Expand(start: Cell, end: Cell, current: Cell,
                  heuristic: (Cell, Cell) -> int, edgeWeight: (Cell, Cell) -> Option<int>,
                  open: seq<(Cell, int)>, cameFrom: map<Cell, Cell>, gScore: map<Cell, int>, fScore: map<Cell, int>,
                  ghost stamp: map<Cell, nat>, ghost clock: nat, ghost universe: set<Cell>)
      returns (open': seq<(Cell, int)>, cameFrom': map<Cell, Cell>, gScore': map<Cell, int>, fScore': map<Cell, int>,
               ghost stamp': map<Cell, nat>, ghost clock': nat, ghost lowered: Option<Cell>)
      requires NonNegative(edgeWeight)
      requires Search(start, end, open, cameFrom, gScore, stamp, clock, universe, edgeWeight, Some(current))
      requires current in gScore
      requires (set c | c in cells) <= universe
      ensures Search(start, end, open', cameFrom', gScore', stamp', clock', universe, edgeWeight, None)
      ensures gScore.Keys <= gScore'.Keys
      ensures forall c :: c in gScore ==> gScore'[c] <= gScore[c]
      ensures (gScore' == gScore && open' == open) || gScore.Keys < gScore'.Keys ||
        (lowered.Some? && lowered.value in gScore && gScore'[lowered.value] < gScore[lowered.value])
    {
      open', cameFrom', gScore', fScore', stamp', clock' := open, cameFrom, gScore, fScore, stamp, clock;
      lowered := None;
      var neighbours := GetNeighbors(current);
      var i := 0;
      while i < |neighbours|
        invariant 0 <= i <= |neighbours|
        invariant current in gScore' && gScore'[current] == gScore[current]
        invariant Search(start, end, open', cameFrom', gScore', stamp', clock', universe, edgeWeight, Some(current))
        invariant forall j :: 0 <= j < i && Step(cells, current, neighbours[j], edgeWeight) ==> neighbours[j] in gScore'
        invariant gScore.Keys <= gScore'.Keys
        invariant forall c :: c in gScore ==> gScore'[c] <= gScore[c]
        invariant (gScore' == gScore && open' == open) || gScore.Keys < gScore'.Keys ||
          (lowered.Some? && lowered.value in gScore && gScore'[lowered.value] < gScore[lowered.value])
      {
        ghost var gBefore := gScore';
        ghost var openBefore := open';
        open', cameFrom', gScore', fScore', stamp', clock' :=
          Relax(start, end, current, neighbours[i], heuristic, edgeWeight,
                open', cameFrom', gScore', fScore', stamp', clock', universe);
        if !(gScore' == gBefore && open' == openBefore) && !(gScore.Keys < gScore'.Keys) && !(gBefore.Keys < gScore'.Keys) {
          lowered := Some(neighbours[i]);
        }
        CoveredGrows(neighbours, i, current, gBefore, gScore', edgeWeight);
        i := i + 1;
      }
      assert Closed(cells, open', gScore', edgeWeight, None) by {
        forall a, b | a in gScore' && Step(cells, a, b, edgeWeight) && !Queued(open', a)
          ensures b in gScore'
        {
          if a == current {
            assert b in neighbours;
          }
        }
      }
    }

    /** The neighbours relaxed so far stay recorded once the next one is relaxed. */
    lemma CoveredGrows(neighbours: seq<Cell>, i: nat, current: Cell, g0: map<Cell, int>, g: map<Cell, int>,
                       edgeWeight: (Cell, Cell) -> Option<int>)
      requires i < |neighbours|
      requires g0.Keys <= g.Keys
      requires forall j :: 0 <= j < i && Step(cells, current, neighbours[j], edgeWeight) ==> neighbours[j] in g0
      requires Step(cells, current, neighbours[i], edgeWeight) ==> neighbours[i] in g
      ensures forall j :: 0 <= j < i + 1 && Step(cells, current, neighbours[j], edgeWeight) ==> neighbours[j] in g
    {
    }

    /** A* from `start` to `end`. The open set is a priority queue of
        (cell, priority) entries; the first entry of smallest priority is taken. */
    method AStar(start: Cell, end: Cell, heuristic: (Cell, Cell) -> int,
                 edgeWeight: (Cell, Cell) -> Option<int>)
      returns (path: seq<Cell>)
      requires NonNegative(edgeWeight)
      ensures path != [] ==> Walk(cells, path, start, end, edgeWeight)
      ensures path == [] <==> !Reachable(cells, start, end, edgeWeight)
      ensures start == end ==> path == [start]
    {
      var open: seq<(Cell, int)> := [(start, 0)];
      var cameFrom: map<Cell, Cell> := map[];
      var gScore: map<Cell, int> := map[start := 0];
      var fScore: map<Cell, int> := map[start := heuristic(start, end)];
      ghost var stamp: map<Cell, nat> := map[start := 0];
      ghost var clock: nat := 1;
      ghost var u := cells + [start];
      ghost var universe := set c | c in u;
      SearchStarts(start, end, universe, edgeWeight);

      while |open| > 0
        invariant Search(start, end, open, cameFrom, gScore, stamp, clock, universe, edgeWeight, None)
        invariant start == end ==> |open| == 1 && open[0].0 == start && cameFrom == map[]
        decreases |universe - gScore.Keys|, SumOver(u, gScore), |open|
      {
        ghost var g0 := gScore;
        ghost var open0 := open;
        var m := MinIndex(open);
        var current := open[m].0;
        open := open[..m] + open[m + 1..];
        if current == end {
          assert start == end ==> m == 0 && current == start && start !in cameFrom;
          path := ReconstructPath(cameFrom, current, gScore, stamp, edgeWeight);
          WalkFromLinks(start, end, path, cameFrom, gScore, stamp, edgeWeight);
          return;
        }
        DequeueKeeps(start, end, open0, m, cameFrom, gScore, stamp, clock, universe, edgeWeight);
        ghost var lowered;
        open, cameFrom, gScore, fScore, stamp, clock, lowered :=
          Expand(start, end, current, heuristic, edgeWeight, open, cameFrom, gScore, fScore, stamp, clock, universe);
        Progress(universe, u, g0, gScore, lowered);
      }

      path := [];
      ExhaustedUnreachable(start, end, cameFrom, gScore, stamp, clock, universe, edgeWeight);
    }

    /** The bookkeeping holds when only `start` is recorded and queued. */
    lemma SearchStarts(start: Cell, end: Cell, universe: set<Cell>, edgeWeight: (Cell, Cell) -> Option<int>)
      requires start in universe
      ensures Search(start, end, [(start, 0)], map[], map[start := 0], map[start := 0], 1, universe, edgeWeight, None)
    {
      assert [(start, 0)][0].0 == start;
    }

    /** With the queue empty the recorded cells are closed under steps, so a
        cell that was never recorded cannot be reached. */
    lemma ExhaustedUnreachable(start: Cell, end: Cell, cameFrom: map<Cell, Cell>, g: map<Cell, int>,
                               stamp: map<Cell, nat>, clock: nat, universe: set<Cell>,
                               edgeWeight: (Cell, Cell) -> Option<int>)
      requires Search(start, end, [], cameFrom, g, stamp, clock, universe, edgeWeight, None)
      ensures !Reachable(cells, start, end, edgeWeight)
    {
      forall p | Walk(cells, p, start, end, edgeWeight) ensures false {
        ClosedSetHoldsWalks(cells, g.Keys, p, start, end, edgeWeight);
      }
    }

    /** A reconstructed chain of links that ends at `end` is a walk from `start`. */
    lemma WalkFromLinks(start: Cell, end: Cell, path: seq<Cell>, cameFrom: map<Cell, Cell>,
                        g: map<Cell, int>, stamp: map<Cell, nat>, edgeWeight: (Cell, Cell) -> Option<int>)
      requires Scores(start, cameFrom, g) && Links(cells, cameFrom, g, stamp, edgeWeight)
      requires |path| >= 1 && path[|path| - 1] == end && path[0] in g && path[0] !in cameFrom
      requires forall i :: 0 <= i < |path| - 1 ==> ParentOf(cameFrom, path[i + 1], path[i])
      ensures Walk(cells, path, start, end, edgeWeight)
    {
      forall i | 0 <= i < |path| - 1 ensures Step(cells, path[i], path[i + 1], edgeWeight) {
        assert ParentOf(cameFrom, path[i + 1], path[i]);
      }
    }
  }

  /** After an expansion either the recorded cells grew, or some g-value fell
      (so the sum fell), or nothing changed. */
  lemma Progress(universe: set<Cell>, u: seq<Cell>, g0: map<Cell, int>, g: map<Cell, int>, lowered: Option<Cell>)
    requires universe == set c | c in u
    requires g0.Keys <= g.Keys <= universe
    requires forall c :: c in g0 ==> g[c] <= g0[c]
    requires forall c :: c in g ==> g[c] >= 0
    requires g == g0 || g0.Keys < g.Keys || (lowered.Some? && lowered.value in g0 && g[lowered.value] < g0[lowered.value])
    ensures |universe - g.Keys| <= |universe - g0.Keys|
    ensures g != g0 ==> |universe - g.Keys| < |universe - g0.Keys| || 0 <= SumOver(u, g) < SumOver(u, g0)
  {
    if g0.Keys < g.Keys {
      SubsetSmallerRest(universe, g0.Keys, g.Keys);
    } else if g != g0 {
      assert g0.Keys == g.Keys;
      assert forall c :: c in u ==> ValueAt(g, c) <= ValueAt(g0, c);
      SumOverDecreases(u, g0, g, lowered.value);
      SumOverNonNegative(u, g);
    }
  }

  // ---------------------------------------------------------------------------
  // The puzzle
  // ---------------------------------------------------------------------------

  /** 'S' stands at height 'a' and 'E' at height 'z'. */
  function EffectiveValue(c: char): (h: int)
    ensures c == 'S' ==> h == 'a' as int
    ensures c == 'E' ==> h == 'z' as int
    ensures c != 'S' && c != 'E' ==> h == c as int
  {
    match c
    case 'S' => 'a' as int
    case 'E' => 'z' as int
    case _ => c as int
  }

  /** A step may climb at most one level; its weight is the height lost plus one. */
  function ClimbWeight(curr: Cell, neighbor: Cell): (r: Option<int>)
    ensures r.None? <==> EffectiveValue(neighbor.value) > EffectiveValue(curr.value) + 1
    ensures r.Some? ==> r.value >= 0
    ensures r == Some(0) <==> EffectiveValue(neighbor.value) == EffectiveValue(curr.value) + 1
  {
    var nEff := EffectiveValue(neighbor.value);
    var cEff := EffectiveValue(curr.value);
    if nEff > cEff + 1 then None else Some(cEff - nEff + 1)
  }

  /** No edge exactly when the neighbour is more than one level higher, and every
      weight is at least 0 (descending far costs more, never less than 0). */
  lemma ClimbWeightNonNegative()
    ensures NonNegative(ClimbWeight)
    ensures forall a, b :: ClimbWeight(a, b).None? <==> EffectiveValue(b.value) > EffectiveValue(a.value) + 1
  {
  }

  /** Manhattan distance. */
  function Manhattan(curr: Cell, end: Cell): nat
  {
    Abs(curr.x - end.x) + Abs(curr.y - end.y)
  }

  /** How many cells hold `v`. */
  function CountValue(cells: seq<Cell>, v: char): nat
  {
    if cells == [] then 0 else CountValue(cells[..|cells| - 1], v) + (if cells[|cells| - 1].value == v then 1 else 0)
  }

  /** The only cell holding `v` (LINQ Single); Fail when there is none or more than one. */
  function Single(cells: seq<Cell>, v: char): (r: Result<Cell>)
    ensures r.Ok? <==> CountValue(cells, v) == 1
    ensures r.Ok? ==> r.value in cells && r.value.value == v
  {
    if cells == [] then Fail("Sequence contains no matching element")
    else
      var init := cells[..|cells| - 1];
      var last := cells[|cells| - 1];
      var r := Single(init, v);
      if last.value != v then r
      else if CountValue(init, v) == 0 then Ok(last)
      else Fail("Sequence contains more than one matching element")
  }

  /** Part one: the number of steps of the path found from 'S' to 'E'
      (-1 when there is none). */
  method SolvePartOne(input: string) returns (r: Result<int>)
    ensures var cells := GraphCells(InputHelpers.AsCharGrid(input));
      r.Ok? <==> Single(cells, 'S').Ok? && Single(cells, 'E').Ok?
    ensures var cells := GraphCells(InputHelpers.AsCharGrid(input));
      r.Ok? ==>
        (r.value >= 0 <==> Reachable(cells, Single(cells, 'S').value, Single(cells, 'E').value, ClimbWeight)) &&
        (r.value >= 0 ==> exists p :: (|p| == r.value + 1 &&
          Walk(cells, p, Single(cells, 'S').value, Single(cells, 'E').value, ClimbWeight)))
  {
    var grid := InputHelpers.AsCharGrid(input);
    var graph := new Graph(grid);
    var s := Single(graph.cells, 'S');
    var e := Single(graph.cells, 'E');
    if s.Fail? || e.Fail? {
      return Fail("Sequence does not contain exactly one matching element");
    }
    ClimbWeightNonNegative();
    var path := graph.AStar(s.value, e.value, Manhattan, ClimbWeight);
    r := Ok(|path| - 1);
  }

  /** The 'a' cells with a 'b' among their neighbours. */
  function PossibleStarts(cells: seq<Cell>): (r: seq<Cell>)
    ensures forall c :: c in r <==>
      c in cells && c.value == 'a' && exists n :: n in Neighbours(cells, c) && n.value == 'b'
  {
    Filter(cells, (c: Cell) => c.value == 'a' && exists n :: n in Neighbours(cells, c) && n.value == 'b')
  }

  /** LINQ Where. */
  function Filter(s: seq<Cell>, keep: Cell -> bool): (r: seq<Cell>)
    ensures forall c :: c in r <==> c in s && keep(c)
  {
    if s == [] then []
    else
      var rest := Filter(s[..|s| - 1], keep);
      assert s == s[..|s| - 1] + [s[|s| - 1]];
      if keep(s[|s| - 1]) then rest + [s[|s| - 1]] else rest
  }

  /** The first path of smallest length (LINQ MinBy); None for no paths. */
  function ShortestPath(paths: seq<seq<Cell>>): (r: Option<seq<Cell>>)
    ensures r.None? <==> paths == []
    ensures r.Some? ==> r.value in paths && forall p :: p in paths ==> |r.value| <= |p|
  {
    if paths == [] then None
    else
      var best := ShortestPath(paths[1..]);
      assert forall p :: p in paths ==> p == paths[0] || p in paths[1..];
      if best.None? || |paths[0]| <= |best.value| then Some(paths[0]) else best
  }

  /** No cell of `starts` reaches `end`. */
  ghost predicate NoneReaches(cells: seq<Cell>, starts: seq<Cell>, end: Cell)
  {
    starts == [] ||
    (NoneReaches(cells, starts[..|starts| - 1], end) && !Reachable(cells, starts[|starts| - 1], end, ClimbWeight))
  }

  lemma {:induction false} NoneReachesAll(cells: seq<Cell>, starts: seq<Cell>, end: Cell)
    ensures NoneReaches(cells, starts, end) <==> forall s :: s in starts ==> !Reachable(cells, s, end, ClimbWeight)
  {
    if starts != [] {
      var init := starts[..|starts| - 1];
      NoneReachesAll(cells, init, end);
      assert starts == init + [starts[|starts| - 1]];
    }
  }

  /** The non-empty A* paths from each of `starts` to `end`, in order. */
  method PathsFrom(graph: Graph, starts: seq<Cell>, end: Cell) returns (found: seq<seq<Cell>>)
    ensures forall p :: p in found ==> |p| >= 1 && p[0] in starts && Walk(graph.cells, p, p[0], end, ClimbWeight)
    ensures found == [] <==> NoneReaches(graph.cells, starts, end)
    ensures forall s :: s in starts && Reachable(graph.cells, s, end, ClimbWeight) ==> exists p :: p in found && p[0] == s
  {
    ClimbWeightNonNegative();
    found := [];
    var k := 0;
    while k < |starts|
      invariant 0 <= k <= |starts|
      invariant forall p :: p in found ==> |p| >= 1 && p[0] in starts && Walk(graph.cells, p, p[0], end, ClimbWeight)
      invariant found == [] <==> NoneReaches(graph.cells, starts[..k], end)
      invariant forall s :: s in starts[..k] && Reachable(graph.cells, s, end, ClimbWeight) ==> exists p :: p in found && p[0] == s
    {
      var path := graph.AStar(starts[k], end, Manhattan, ClimbWeight);
      assert starts[..k + 1][..k] == starts[..k];
      assert forall s :: s in starts[..k + 1] ==> s in starts[..k] || s == starts[k];
      if |path| > 0 {
        found := found + [path];
        assert path in found && path[0] == starts[k];
      }
      k := k + 1;
    }
    assert starts[..k] == starts;
  }

  /** Part two: A* from every possible start to 'E'; the non-empty paths are
      kept and the answer is the step count of the shortest one. Fail when 'E'
      is not unique or no start reaches it (MinBy yields null). */
  method SolvePartTwo(input: string) returns (r: Result<int>, ghost paths: seq<seq<Cell>>)
    ensures var cells := GraphCells(InputHelpers.AsCharGrid(input));
      Single(cells, 'E').Fail? ==> r.Fail?
    ensures var cells := GraphCells(InputHelpers.AsCharGrid(input));
      Single(cells, 'E').Ok? ==>
        (forall p :: p in paths ==> |p| >= 1 && p[0] in PossibleStarts(cells) && Walk(cells, p, p[0], Single(cells, 'E').value, ClimbWeight)) &&
        (r.Fail? <==> forall s :: s in PossibleStarts(cells) ==> !Reachable(cells, s, Single(cells, 'E').value, ClimbWeight)) &&
        (forall s :: s in PossibleStarts(cells) && Reachable(cells, s, Single(cells, 'E').value, ClimbWeight) ==>
          exists p :: p in paths && p[0] == s) &&
        (r.Ok? ==> exists p :: p in paths && |p| == r.value + 1) &&
        (r.Ok? ==> forall p :: p in paths ==> r.value + 1 <= |p|)
  {
    var grid := InputHelpers.AsCharGrid(input);
    var graph := new Graph(grid);
    paths := [];
    var e := Single(graph.cells, 'E');
    if e.Fail? {
      return Fail("Sequence does not contain exactly one matching element"), paths;
    }
    var hikeEnd := e.value;
    var starts := PossibleStarts(graph.cells);
    ClimbWeightNonNegative();
    var found := PathsFrom(graph, starts, hikeEnd);
    NoneReachesAll(graph.cells, starts, hikeEnd);
    paths := found;
    var shortest := ShortestPath(found);
    if shortest.None? {
      r := Fail("Value cannot be null");
    } else {
      r := Ok(|shortest.value| - 1);
    }
  }
}
