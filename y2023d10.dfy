/** Pipe maze: every grid cell holds a pipe piece whose ends point to some of
    the four compass directions. Starting at the animal's cell 'S', the walk
    follows connecting pipes until it is back next to the start; the farthest
    point of the loop is half its length. */
module Y2023D10 {
  import opened Wrappers
  import opened Seqs
  import opened Grids
  import InputHelpers

  /** The flags of a pipe; `NoFlag` is a bit of its own (it is not zero). */
  datatype Direction = NoFlag | North | South | East | West

  /** A pipe piece: its symbol and the set of flags it carries. */
  datatype Pipe = Pipe(symbol: char, connection: set<Direction>)

  /** All four compass flags, the connection of the start. */
  function All(): set<Direction>
  {
    {North, South, East, West}
  }

  /** The symbols a pipe constructor accepts. */
  function Symbols(): string
  {
    "|-LJ7F.S"
  }

  /** The flags each symbol stands for; unknown symbols get none (they never
      reach a grid, see ParsePipe). */
  function ConnectionOf(symbol: char): (r: set<Direction>)
    ensures symbol in "|-LJ7F" ==> |r| == 2 && NoFlag !in r
    ensures NoFlag in r <==> symbol == '.'
    ensures symbol !in Symbols() ==> r == {}
  {
    match symbol
    case '|' => {North, South}
    case '-' => {East, West}
    case 'L' => {North, East}
    case 'J' => {North, West}
    case '7' => {South, West}
    case 'F' => {South, East}
    case '.' => {NoFlag}
    case 'S' => All()
    case _ => {}
  }

  /** The piece a symbol makes: only the start joins every direction. */
  function PipeOf(symbol: char): (r: Pipe)
    ensures r.symbol == symbol
    ensures r.connection == All() <==> symbol == 'S'
  {
    if symbol in Symbols() then OnlyStartIsAll(symbol); Pipe(symbol, ConnectionOf(symbol))
    else Pipe(symbol, ConnectionOf(symbol))
  }

  /** The Pipe constructor; None for a symbol it rejects. */
  function ParsePipe(symbol: char): (r: Option<Pipe>)
    ensures r.Some? <==> symbol in Symbols()
    ensures r.Some? ==> r.value.symbol == symbol
    ensures symbol == '|' ==> r == Some(Pipe('|', {North, South}))
    ensures symbol == '-' ==> r == Some(Pipe('-', {East, West}))
    ensures symbol == 'L' ==> r == Some(Pipe('L', {North, East}))
    ensures symbol == 'J' ==> r == Some(Pipe('J', {North, West}))
    ensures symbol == '7' ==> r == Some(Pipe('7', {South, West}))
    ensures symbol == 'F' ==> r == Some(Pipe('F', {South, East}))
    ensures symbol == '.' ==> r == Some(Pipe('.', {NoFlag}))
    ensures symbol == 'S' ==> r == Some(Pipe('S', {North, South, East, West}))
  {
    if symbol in Symbols() then Some(PipeOf(symbol)) else None
  }

  /** Only the start symbol carries every compass flag. */
  lemma OnlyStartIsAll(symbol: char)
    requires symbol in Symbols()
    ensures ConnectionOf(symbol) == All() <==> symbol == 'S'
  {
    if symbol != 'S' {
      assert ConnectionOf(symbol) != All() by {
        assert symbol in "|-LJ7F.";
        if symbol == '|' || symbol == 'L' || symbol == 'J' {
          assert South !in ConnectionOf(symbol) || East !in ConnectionOf(symbol);
        } else if symbol == '.' {
          assert North !in ConnectionOf(symbol);
        } else {
          assert North !in ConnectionOf(symbol);
        }
      }
    }
  }

  /** The flag pointing back. */
  function Opposite(d: Direction): Direction
  {
    match d
    case North => South
    case South => North
    case East => West
    case West => East
    case NoFlag => NoFlag
  }

  /** `b` lies one step from `a` in direction `d`, judged on that direction's
      axis only (the other coordinate is not compared). */
  predicate Toward(a: Cell<Pipe>, b: Cell<Pipe>, d: Direction)
  {
    match d
    case South => b.row == a.row + 1
    case North => b.row == a.row - 1
    case East => b.column == a.column + 1
    case West => b.column == a.column - 1
    case NoFlag => false
  }

  /** DoPipeCellsConnect: the four flag tests of the source, one per compass
      direction of `a`. */
  function DoPipeCellsConnect(a: Cell<Pipe>, b: Cell<Pipe>): (r: bool)
    ensures r <==> exists d :: d in a.value.connection && Toward(a, b, d) && Opposite(d) in b.value.connection
  {
    var connects := false;
    var connects := connects || (South in a.value.connection && b.row == a.row + 1 && North in b.value.connection);
    var connects := connects || (North in a.value.connection && b.row == a.row - 1 && South in b.value.connection);
    var connects := connects || (East in a.value.connection && b.column == a.column + 1 && West in b.value.connection);
    var connects := connects || (West in a.value.connection && b.column == a.column - 1 && East in b.value.connection);
    assert connects ==> exists d :: d in a.value.connection && Toward(a, b, d) && Opposite(d) in b.value.connection by {
      if South in a.value.connection && b.row == a.row + 1 && North in b.value.connection {
        assert Toward(a, b, South) && Opposite(South) == North;
      } else if North in a.value.connection && b.row == a.row - 1 && South in b.value.connection {
        assert Toward(a, b, North) && Opposite(North) == South;
      } else if East in a.value.connection && b.column == a.column + 1 && West in b.value.connection {
        assert Toward(a, b, East) && Opposite(East) == West;
      } else if West in a.value.connection && b.column == a.column - 1 && East in b.value.connection {
        assert Toward(a, b, West) && Opposite(West) == East;
      }
    }
    connects
  }

  /** Connection does not depend on the order of the two cells. */
  lemma ConnectSymmetric(a: Cell<Pipe>, b: Cell<Pipe>)
    ensures DoPipeCellsConnect(a, b) <==> DoPipeCellsConnect(b, a)
  {
    if DoPipeCellsConnect(a, b) {
      var d :| d in a.value.connection && Toward(a, b, d) && Opposite(d) in b.value.connection;
      assert Toward(b, a, Opposite(d)) && Opposite(Opposite(d)) == d;
    }
    if DoPipeCellsConnect(b, a) {
      var d :| d in b.value.connection && Toward(b, a, d) && Opposite(d) in a.value.connection;
      assert Toward(a, b, Opposite(d)) && Opposite(Opposite(d)) == d;
    }
  }

  /** A cell without compass flags, such as ground '.', connects to nothing. */
  lemma GroundConnectsNothing(a: Cell<Pipe>, b: Cell<Pipe>)
    requires a.value.connection * All() == {}
    ensures !DoPipeCellsConnect(a, b) && !DoPipeCellsConnect(b, a)
  {
    var c := a.value.connection;
    assert North in c * All() <==> North in c;
    assert South in c * All() <==> South in c;
    assert East in c * All() <==> East in c;
    assert West in c * All() <==> West in c;
  }

  // ---------------------------------------------------------------------------
  // The grid and the start
  // ---------------------------------------------------------------------------

  /** AsGrid with the Pipe constructor: None when some character of the
      input is not a pipe symbol. */
  function Build(input: string): (r: Option<Grid<Pipe>>)
    ensures r.Some? ==> r.value.Valid() && r.value == InputHelpers.AsGridWith(input, PipeOf)
    ensures r.Some? <==> forall i, j :: 0 <= i < |InputHelpers.AsLines(input)| && 0 <= j < |InputHelpers.AsLines(input)[i]| ==>
      InputHelpers.AsLines(input)[i][j] in Symbols()
  {
    var lines := InputHelpers.AsLines(input);
    if forall i, j :: 0 <= i < |lines| && 0 <= j < |lines[i]| ==> lines[i][j] in Symbols() then
      Some(InputHelpers.AsGridWith(input, PipeOf))
    else None
  }

  predicate IsStart(c: Cell<Pipe>)
  {
    c.value.connection == All()
  }

  /** A member of Cells() of a valid grid is within its bounds. */
  lemma CellInBounds(g: Grid<Pipe>, n: Cell<Pipe>)
    requires g.Valid() && n in g.Cells()
    ensures g.InBounds(n.row, n.column) && g.cells[n.row][n.column] == n
  {
    CellsMember(g, n);
  }

  // ---------------------------------------------------------------------------
  // Tracing the loop
  // ---------------------------------------------------------------------------

  /** Cells are objects and a grid holds one per position, so two grid
      cells are the same cell exactly when their positions agree. */
  predicate SameCell(a: Cell<Pipe>, b: Cell<Pipe>)
  {
    a.row == b.row && a.column == b.column
  }

  /** The cell the source may append after `cur`: not the cell before it
      (`prev`, None while the list holds only the start), and connected to
      `cur`. */
  predicate Allowed(cur: Cell<Pipe>, prev: Option<Cell<Pipe>>, n: Cell<Pipe>)
  {
    (prev.None? || !SameCell(n, prev.value)) && DoPipeCellsConnect(n, cur)
  }

  function Last<T>(s: seq<T>): T
    requires s != []
  {
    s[|s| - 1]
  }

  /** The next cell of the loop: the first grid neighbour of the last cell
      (east, west, south, north) that is allowed; None where First throws. */
  function Next(g: Grid<Pipe>, cur: Cell<Pipe>, prev: Option<Cell<Pipe>>): (r: Option<Cell<Pipe>>)
    requires g.Valid() && g.Rectangular() && cur in g.Cells()
    ensures r.Some? ==> r.value in g.Cells() && cur.IsNeighbour4Direction(r.value) && Allowed(cur, prev, r.value)
    ensures r.None? <==> forall n :: n in g.Cells() && cur.IsNeighbour4Direction(n) ==> !Allowed(cur, prev, n)
  {
    CellInBounds(g, cur);
    var ns := g.GetNeighbours(cur, true, true, false);
    match FirstIndex(ns, n => Allowed(cur, prev, n))
    case None => None
    case Some(i) => Some(ns[i])
  }

  /** The cell before position `j` of a list of pipes, if any. */
  function PrevOf(p: seq<Cell<Pipe>>, j: nat): (r: Option<Cell<Pipe>>)
    requires j < |p|
    ensures r.Some? <==> j > 0
    ensures r.Some? ==> r.value == p[j - 1]
  {
    if j == 0 then None else Some(p[j - 1])
  }

  /** `p` is what the list of pipes can hold: it begins with the start, all
      its cells are grid cells, and each later cell is Next of the cells
      before it. */
  predicate IsTrace(g: Grid<Pipe>, start: Cell<Pipe>, p: seq<Cell<Pipe>>)
    requires g.Valid() && g.Rectangular()
  {
    |p| >= 1 && p[0] == start && (forall i :: 0 <= i < |p| ==> p[i] in g.Cells()) &&
    forall i :: 1 <= i < |p| ==> StepAt(g, p, i)
  }

  /** Cell `i` of `p` is Next of the two cells before it. */
  predicate StepAt(g: Grid<Pipe>, p: seq<Cell<Pipe>>, i: nat)
    requires g.Valid() && g.Rectangular() && 1 <= i < |p| && p[i - 1] in g.Cells()
  {
    Next(g, p[i - 1], PrevOf(p, i - 1)) == Some(p[i])
  }

  /** Appending Next keeps a trace a trace. */
  lemma TraceExtend(g: Grid<Pipe>, start: Cell<Pipe>, p: seq<Cell<Pipe>>, c: Cell<Pipe>)
    requires g.Valid() && g.Rectangular() && IsTrace(g, start, p)
    requires Next(g, Last(p), PrevOf(p, |p| - 1)) == Some(c)
    ensures IsTrace(g, start, p + [c])
  {
    var q := p + [c];
    assert Last(p) == p[|p| - 1];
    forall i | 1 <= i < |q| ensures StepAt(g, q, i) {
      assert q[i - 1] == p[i - 1];
      assert PrevOf(q, i - 1) == PrevOf(p, i - 1);
      if i < |p| {
        assert StepAt(g, p, i);
      } else {
        assert i == |p|;
      }
    }
  }

  /** Every pipe of a trace is a connecting 4-neighbour of the one before,
      and never the cell two back. */
  lemma TraceShape(g: Grid<Pipe>, start: Cell<Pipe>, p: seq<Cell<Pipe>>)
    requires g.Valid() && g.Rectangular() && IsTrace(g, start, p)
    ensures forall i :: 0 < i < |p| ==>
      p[i - 1].IsNeighbour4Direction(p[i]) && DoPipeCellsConnect(p[i], p[i - 1])
    ensures forall i :: 1 < i < |p| ==> !SameCell(p[i], p[i - 2])
  {
    forall i | 0 < i < |p|
      ensures p[i - 1].IsNeighbour4Direction(p[i]) && DoPipeCellsConnect(p[i], p[i - 1])
      ensures i > 1 ==> !SameCell(p[i], p[i - 2])
    {
      assert StepAt(g, p, i);
      assert Allowed(p[i - 1], PrevOf(p, i - 1), p[i]);
    }
  }

  /** The break test of the loop: more than two pipes, and the last one is a
      connecting 4-neighbour of the start. */
  predicate Closes(start: Cell<Pipe>, pipes: seq<Cell<Pipe>>)
  {
    |pipes| > 2 && Last(pipes).IsNeighbour4Direction(start) && DoPipeCellsConnect(Last(pipes), start)
  }

  /** The loop ends once the list holds the first `j + 1` cells of `p`: the
      break test holds, or the next append finds no cell. */
  predicate EndsAt(g: Grid<Pipe>, start: Cell<Pipe>, p: seq<Cell<Pipe>>, j: nat)
    requires g.Valid() && g.Rectangular() && j < |p| && p[j] in g.Cells()
  {
    Closes(start, p[..j + 1]) || Next(g, p[j], PrevOf(p, j)).None?
  }

  /** `p` is the trace at which the loop ends: a trace that ends at its last
      cell and at none before. */
  predicate FirstEnd(g: Grid<Pipe>, start: Cell<Pipe>, p: seq<Cell<Pipe>>)
    requires g.Valid() && g.Rectangular()
  {
    IsTrace(g, start, p) && EndsAt(g, start, p, |p| - 1) &&
    forall j :: 0 <= j < |p| - 1 ==> !EndsAt(g, start, p, j)
  }

  /** Whether the loop ends at `j` depends only on the cells up to `j`. */
  lemma EndsAtPrefix(g: Grid<Pipe>, start: Cell<Pipe>, p: seq<Cell<Pipe>>, q: seq<Cell<Pipe>>, j: nat)
    requires g.Valid() && g.Rectangular() && j < |p| <= |q| && p == q[..|p|] && p[j] in g.Cells()
    ensures EndsAt(g, start, p, j) == EndsAt(g, start, q, j)
  {
    assert p[..j + 1] == q[..j + 1];
    assert PrevOf(p, j) == PrevOf(q, j);
  }

  /** The loop of part one: the list of pipes grows by Next until it closes.
      The result is half the length of the closed loop, or None when an
      append finds no cell. */
  method TraceLoop(g: Grid<Pipe>, start: Cell<Pipe>) returns (r: Option<nat>)
    requires g.Valid() && g.Rectangular() && start in g.Cells()
    requires exists p :: IsTrace(g, start, p) && EndsAt(g, start, p, |p| - 1)
    ensures r.Some? ==> exists p :: FirstEnd(g, start, p) && Closes(start, p) && r.value == |p| / 2
    ensures r.None? ==> exists p :: FirstEnd(g, start, p) && !Closes(start, p)
    ensures forall p :: FirstEnd(g, start, p) ==> (r.Some? <==> Closes(start, p)) && (r.Some? ==> r.value == |p| / 2)
  {
    ghost var target :| IsTrace(g, start, target) && EndsAt(g, start, target, |target| - 1);
    var pipes := [start];
    while true
      invariant Unended(g, start, target, pipes)
      decreases |target| - |pipes|
    {
      var last := pipes[|pipes| - 1];
      if |pipes| > 2 && last.IsNeighbour4Direction(start) && DoPipeCellsConnect(last, start) {
        Ended(g, start, target, pipes);
        FirstEndsAgree(g, start, pipes);
        return Some(|pipes| / 2);
      }
      var conn := Next(g, last, if |pipes| <= 1 then None else Some(pipes[|pipes| - 2]));
      if conn.None? {
        Ended(g, start, target, pipes);
        FirstEndsAgree(g, start, pipes);
        return None;
      }
      Grow(g, start, target, pipes, conn.value);
      pipes := pipes + [conn.value];
    }
  }

  /** Every first end is the given one. */
  lemma FirstEndsAgree(g: Grid<Pipe>, start: Cell<Pipe>, p: seq<Cell<Pipe>>)
    requires g.Valid() && g.Rectangular() && FirstEnd(g, start, p)
    ensures forall q :: FirstEnd(g, start, q) ==> q == p
  {
    forall q | FirstEnd(g, start, q) ensures q == p {
      FirstEndUnique(g, start, p, q);
    }
  }

  /** The loop is deterministic: there is only one trace at which it ends. */
  lemma FirstEndUnique(g: Grid<Pipe>, start: Cell<Pipe>, p: seq<Cell<Pipe>>, q: seq<Cell<Pipe>>)
    requires g.Valid() && g.Rectangular() && FirstEnd(g, start, p) && FirstEnd(g, start, q)
    ensures p == q
  {
    if |p| <= |q| {
      FirstEndPrefix(g, start, p, q);
    } else {
      FirstEndPrefix(g, start, q, p);
    }
  }

  /** A first end is no proper prefix of another. */
  lemma FirstEndPrefix(g: Grid<Pipe>, start: Cell<Pipe>, p: seq<Cell<Pipe>>, q: seq<Cell<Pipe>>)
    requires g.Valid() && g.Rectangular() && FirstEnd(g, start, p) && FirstEnd(g, start, q)
    requires |p| <= |q|
    ensures p == q
  {
    TracesAgree(g, start, p, q, |p|);
    assert p == q[..|p|];
    EndsAtPrefix(g, start, p, q, |p| - 1);
    FirstEndAt(g, start, q, |p| - 1);
    assert q[..|q|] == q;
  }

  /** A first end ends at its last cell only. */
  lemma FirstEndAt(g: Grid<Pipe>, start: Cell<Pipe>, q: seq<Cell<Pipe>>, j: nat)
    requires g.Valid() && g.Rectangular() && FirstEnd(g, start, q) && j < |q|
    requires EndsAt(g, start, q, j)
    ensures j == |q| - 1
  {
  }

  /** Two traces from the same start agree as far as both go. */
  lemma {:induction false} TracesAgree(g: Grid<Pipe>, start: Cell<Pipe>, p: seq<Cell<Pipe>>, q: seq<Cell<Pipe>>, k: nat)
    requires g.Valid() && g.Rectangular() && IsTrace(g, start, p) && IsTrace(g, start, q)
    requires 1 <= k <= |p| && k <= |q|
    ensures p[..k] == q[..k]
  {
    if k > 1 {
      TracesAgree(g, start, p, q, k - 1);
      var r := p[..k - 1];
      PrefixNext(g, start, p, r);
      PrefixNext(g, start, q, r);
      PrefixGrows(p, r, p[k - 1]);
      PrefixGrows(q, r, q[k - 1]);
    }
  }

  /** Next of a proper prefix of a trace is the trace's next cell. */
  lemma PrefixNext(g: Grid<Pipe>, start: Cell<Pipe>, target: seq<Cell<Pipe>>, p: seq<Cell<Pipe>>)
    requires g.Valid() && g.Rectangular() && IsTrace(g, start, target)
    requires 1 <= |p| < |target| && p == target[..|p|]
    ensures Last(p) in g.Cells()
    ensures Next(g, Last(p), PrevOf(p, |p| - 1)) == Some(target[|p|])
  {
    assert StepAt(g, target, |p|);
    assert target[|p| - 1] == Last(p);
    assert PrevOf(target, |p| - 1) == PrevOf(p, |p| - 1);
  }

  /** The invariant of the loop: the list of pipes is a prefix of the trace
      `target`, at which the loop ends, and the loop has not ended before its
      last cell. */
  predicate Unended(g: Grid<Pipe>, start: Cell<Pipe>, target: seq<Cell<Pipe>>, p: seq<Cell<Pipe>>)
    requires g.Valid() && g.Rectangular()
  {
    IsTrace(g, start, target) && EndsAt(g, start, target, |target| - 1) &&
    IsTrace(g, start, p) && |p| <= |target| && p == target[..|p|] &&
    forall j :: 0 <= j < |p| - 1 ==> !EndsAt(g, start, p, j)
  }

  /** When the loop ends, the list of pipes is the first end. */
  lemma Ended(g: Grid<Pipe>, start: Cell<Pipe>, target: seq<Cell<Pipe>>, p: seq<Cell<Pipe>>)
    requires g.Valid() && g.Rectangular() && Unended(g, start, target, p)
    requires Closes(start, p) || Next(g, Last(p), PrevOf(p, |p| - 1)).None?
    ensures FirstEnd(g, start, p)
  {
    var j := |p| - 1;
    assert p[..j + 1] == p;
    assert Last(p) == p[j];
  }

  /** One round of the loop keeps its invariant. */
  lemma Grow(g: Grid<Pipe>, start: Cell<Pipe>, target: seq<Cell<Pipe>>, p: seq<Cell<Pipe>>, c: Cell<Pipe>)
    requires g.Valid() && g.Rectangular() && Unended(g, start, target, p)
    requires !Closes(start, p) && Next(g, Last(p), PrevOf(p, |p| - 1)) == Some(c)
    ensures Unended(g, start, target, p + [c]) && |p| < |target|
  {
    assert p[..|p|] == p;
    assert !EndsAt(g, start, p, |p| - 1);
    TargetLonger(g, start, target, p);
    PrefixNext(g, start, target, p);
    TraceExtend(g, start, p, c);
    PrefixGrows(target, p, c);
    NoEndExtends(g, start, p, c);
  }

  lemma PrefixGrows(target: seq<Cell<Pipe>>, p: seq<Cell<Pipe>>, c: Cell<Pipe>)
    requires |p| < |target| && p == target[..|p|] && c == target[|p|]
    ensures p + [c] == target[..|p| + 1]
  {
  }

  /** A prefix of the target at which the loop does not end is shorter than
      the target. */
  lemma TargetLonger(g: Grid<Pipe>, start: Cell<Pipe>, target: seq<Cell<Pipe>>, p: seq<Cell<Pipe>>)
    requires g.Valid() && g.Rectangular() && 1 <= |p| <= |target| && p == target[..|p|]
    requires Last(target) in g.Cells() && EndsAt(g, start, target, |target| - 1)
    requires Last(p) in g.Cells() && !EndsAt(g, start, p, |p| - 1)
    ensures |p| < |target|
  {
    assert |p| == |target| ==> p == target;
  }

  /** Appending a cell does not change where the loop could have ended. */
  lemma NoEndExtends(g: Grid<Pipe>, start: Cell<Pipe>, p: seq<Cell<Pipe>>, c: Cell<Pipe>)
    requires g.Valid() && g.Rectangular() && IsTrace(g, start, p) && IsTrace(g, start, p + [c])
    requires forall j :: 0 <= j < |p| - 1 ==> !EndsAt(g, start, p, j)
    requires !EndsAt(g, start, p, |p| - 1)
    ensures forall j :: 0 <= j < |p| ==> !EndsAt(g, start, p + [c], j)
  {
    var q := p + [c];
    assert p == q[..|p|];
    forall j | 0 <= j < |p| ensures !EndsAt(g, start, q, j) {
      EndsAtPrefix(g, start, p, q, j);
    }
  }

  /** The inputs on which part one finishes: a rejected symbol, no start, or
      a rectangular grid on which the trace closes or gets stuck. Ragged
      grids are not modelled. */
  ghost predicate Traceable(input: string)
  {
    match Build(input)
    case None => true
    case Some(g) =>
      g.Rectangular() &&
      match FirstIndex(g.Cells(), IsStart)
      case None => true
      case Some(s) =>
        var start := g.Cells()[s];
        exists p :: IsTrace(g, start, p) && EndsAt(g, start, p, |p| - 1)
  }

  /** Part one: the farthest distance along the loop through the first start
      cell in row-major order; None when a symbol is rejected, there is no
      start, or the trace gets stuck. */
  method SolvePartOne(input: string) returns (r: Option<nat>)
    requires Traceable(input)
    ensures Build(input).None? ==> r.None?
    ensures Build(input).Some? && FirstIndex(Build(input).value.Cells(), IsStart).None? ==> r.None?
    ensures r.Some? ==> (Build(input).Some? && FirstIndex(Build(input).value.Cells(), IsStart).Some? &&
      var g := Build(input).value;
      var start := g.Cells()[FirstIndex(g.Cells(), IsStart).value];
      exists p :: FirstEnd(g, start, p) && Closes(start, p) && r.value == |p| / 2)
    ensures Build(input).Some? && FirstIndex(Build(input).value.Cells(), IsStart).Some? ==> (
      var g := Build(input).value;
      var start := g.Cells()[FirstIndex(g.Cells(), IsStart).value];
      forall p :: FirstEnd(g, start, p) && Closes(start, p) ==> r == Some(|p| / 2))
  {
    var built := Build(input);
    if built.None? {
      return None;
    }
    var g := built.value;
    var s := FirstIndex(g.Cells(), IsStart);
    if s.None? {
      return None;
    }
    r := TraceLoop(g, g.Cells()[s.value]);
  }

  /** A closed loop returns to the start: it has at least three pipes, its
      last pipe is a connecting 4-neighbour of the start, and each pipe
      connects to the one before in both directions. */
  lemma ClosedLoopConnects(g: Grid<Pipe>, start: Cell<Pipe>, p: seq<Cell<Pipe>>)
    requires g.Valid() && g.Rectangular()
    requires IsTrace(g, start, p) && Closes(start, p)
    ensures |p| >= 3 && p[0] == start && Last(p).IsNeighbour4Direction(start)
    ensures DoPipeCellsConnect(start, Last(p)) && DoPipeCellsConnect(Last(p), start)
    ensures forall i :: 0 < i < |p| ==> DoPipeCellsConnect(p[i - 1], p[i]) && DoPipeCellsConnect(p[i], p[i - 1])
  {
    TraceShape(g, start, p);
    ConnectSymmetric(Last(p), start);
    forall i | 0 < i < |p| ensures DoPipeCellsConnect(p[i - 1], p[i]) {
      ConnectSymmetric(p[i], p[i - 1]);
    }
  }
}
