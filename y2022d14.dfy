/** 2022 day 14: sand pours from (500, 0) into a cave of rock walls. Each
    grain falls down, down-left or down-right until it can move no more. Part
    one counts the grains that settle before the first one falls past the
    lowest wall; part two adds a floor two below the lowest wall and counts
    the grains until the source itself is covered. */
module Y2022D14 {
  import opened Wrappers
  import opened Strings
  import InputHelpers
  import Extensions

  datatype Point = Point(x: int, y: int)

  /** Point + Point, componentwise. */
  function Plus(a: Point, b: Point): Point
  {
    Point(a.x + b.x, a.y + b.y)
  }

  /** Point - Point, componentwise: it undoes Plus in either argument. */
  function Minus(a: Point, b: Point): (r: Point)
    ensures Plus(r, b) == a && Plus(b, r) == a
  {
    Point(a.x - b.x, a.y - b.y)
  }

  const Start: Point := Point(500, 0)

  /** The moves a grain tries, in order: down, down-left, down-right. */
  const Moves: seq<Point> := [Point(0, 1), Point(-1, 1), Point(1, 1)]

  // ---------------------------------------------------------------------------
  // Parsing
  // ---------------------------------------------------------------------------

  /** "x,y": every comma-separated piece must parse, and there must be at
      least two of them (an IndexOutOfRangeException otherwise). */
  function ParsePoint(xy: string): (r: Option<Point>)
    ensures r.Some? ==> (|Split(xy, ',')| >= 2 &&
      ParseInt(Split(xy, ',')[0]) == Some(r.value.x) &&
      ParseInt(Split(xy, ',')[1]) == Some(r.value.y))
  {
    match Extensions.ParseAs(Split(xy, ','), ParseInt)
    case None => None
    case Some(ns) => if |ns| < 2 then None else Some(Point(ns[0], ns[1]))
  }

  /** One wall per line, its corners separated by " -> ". */
  function ParseWalls(input: string): (r: Option<seq<seq<Point>>>)
    ensures r.Some? ==> |r.value| == |InputHelpers.AsLines(input)|
  {
    Extensions.ParseAs(InputHelpers.AsLines(input),
      (line: string) => Extensions.ParseAs(SplitOn(line, " -> "), ParsePoint))
  }

  // ---------------------------------------------------------------------------
  // Wall points
  // ---------------------------------------------------------------------------

  function Min(a: int, b: int): int { if a <= b then a else b }
  function Max(a: int, b: int): int { if a <= b then b else a }

  /** Each pair of consecutive corners is a horizontal or vertical segment. */
  predicate AxisAligned(walls: seq<seq<Point>>)
  {
    forall w, i :: 0 <= w < |walls| && 0 <= i < |walls[w]| - 1 ==>
      walls[w][i].x == walls[w][i + 1].x || walls[w][i].y == walls[w][i + 1].y
  }

  /** The lattice points of the box spanned by `a` and `b`; for an axis-aligned
      pair, the segment between them. */
  function Segment(a: Point, b: Point): (r: set<Point>)
    ensures a in r && b in r
    ensures a.x == b.x ==> forall p :: p in r ==> p.x == a.x
    ensures a.y == b.y ==> forall p :: p in r ==> p.y == a.y
  {
    set x: int, y: int | Min(a.x, b.x) <= x <= Max(a.x, b.x) && Min(a.y, b.y) <= y <= Max(a.y, b.y) :: Point(x, y)
  }

  /** The points of the segments of one wall. */
  function WallOf(wall: seq<Point>): set<Point>
  {
    if |wall| < 2 then {}
    else WallOf(wall[..|wall| - 1]) + Segment(wall[|wall| - 2], wall[|wall| - 1])
  }

  /** The points of every wall. */
  function WallsOf(walls: seq<seq<Point>>): set<Point>
  {
    if walls == [] then {} else WallsOf(walls[..|walls| - 1]) + WallOf(walls[|walls| - 1])
  }

  /** `p` lies on the segment from corner `i` to corner `i + 1` of wall `w`. */
  predicate OnWall(walls: seq<seq<Point>>, w: int, i: int, p: Point)
  {
    0 <= w < |walls| && 0 <= i < |walls[w]| - 1 && p in Segment(walls[w][i], walls[w][i + 1])
  }

  /** `p` lies on some segment of some wall. */
  ghost predicate OnSomeWall(walls: seq<seq<Point>>, p: Point)
  {
    exists w, i :: OnWall(walls, w, i, p)
  }

  /** A point is a wall point exactly when it lies on one of the segments; a
      wall with a single corner contributes nothing. */
  lemma {:induction false} WallsOfSegments(walls: seq<seq<Point>>, p: Point)
    ensures p in WallsOf(walls) <==> OnSomeWall(walls, p)
    decreases |walls|
  {
    if walls != [] {
      var n := |walls| - 1;
      var init := walls[..n];
      WallsOfSegments(init, p);
      WallOfSegments(walls[n], p);
      if p in WallsOf(init) {
        var w, i :| OnWall(init, w, i, p);
        assert init[w] == walls[w];
        assert OnWall(walls, w, i, p);
      } else if p in WallOf(walls[n]) {
        var i :| 0 <= i < |walls[n]| - 1 && p in Segment(walls[n][i], walls[n][i + 1]);
        assert OnWall(walls, n, i, p);
      }
      if OnSomeWall(walls, p) {
        var w, i :| OnWall(walls, w, i, p);
        if w < n {
          assert init[w] == walls[w];
          assert OnWall(init, w, i, p);
        }
      }
    }
  }

  lemma {:induction false} WallOfSegments(wall: seq<Point>, p: Point)
    ensures p in WallOf(wall) <==> exists i :: 0 <= i < |wall| - 1 && p in Segment(wall[i], wall[i + 1])
    decreases |wall|
  {
    if |wall| >= 2 {
      var n := |wall| - 1;
      var init := wall[..n];
      WallOfSegments(init, p);
      if p in WallOf(init) {
        var i :| 0 <= i < n - 1 && p in Segment(init[i], init[i + 1]);
        assert p in Segment(wall[i], wall[i + 1]);
      }
      if exists i :: 0 <= i < n && p in Segment(wall[i], wall[i + 1]) {
        var i :| 0 <= i < n && p in Segment(wall[i], wall[i + 1]);
        if i < n - 1 {
          assert p in Segment(init[i], init[i + 1]);
        }
      }
    }
  }

  function Sign(d: int): int
  {
    if d > 0 then 1 else if d < 0 then -1 else 0
  }

  /** One step from `a` toward `b` on the segment from `a0`. */
  lemma SegmentStep(a0: Point, a: Point, b: Point, next: Point)
    requires a0.x == b.x || a0.y == b.y
    requires a in Segment(a0, b) && a != b
    requires a0.x == b.x ==> next == Point(a.x, a.y + Sign(b.y - a0.y))
    requires a0.x != b.x ==> next == Point(a.x + Sign(b.x - a0.x), a.y)
    ensures next in Segment(a0, b)
    ensures Segment(a0, next) == Segment(a0, a) + {next}
  {
  }

  /** GetWallPoints: every lattice point of every segment, both corners
      included. A segment that is neither horizontal nor vertical makes the
      walk toward its far corner run forever, so the walls must be axis-aligned. */
  method GetWallPoints(walls: seq<seq<Point>>) returns (r: set<Point>)
    requires AxisAligned(walls)
    ensures r == WallsOf(walls)
  {
    r := {};
    for w := 0 to |walls|
      invariant r == WallsOf(walls[..w])
    {
      assert walls[..w + 1][..w] == walls[..w];
      r := AddWall(r, walls[w]);
    }
    assert walls[..|walls|] == walls;
  }

  /** GetWallPoints' inner loop: the segments of one wall, corner by corner. */
  method AddWall(points: set<Point>, wall: seq<Point>) returns (r: set<Point>)
    requires forall i :: 0 <= i < |wall| - 1 ==> wall[i].x == wall[i + 1].x || wall[i].y == wall[i + 1].y
    ensures r == points + WallOf(wall)
  {
    r := points;
    var i := 0;
    while i < |wall| - 1
      invariant wall == [] ==> i == 0 && r == points
      invariant wall != [] ==> i < |wall| && r == points + WallOf(wall[..i + 1])
    {
      WallOfStep(wall, i);
      r := AddSegment(r, wall[i], wall[i + 1]);
      i := i + 1;
    }
    assert wall != [] ==> wall[..i + 1] == wall;
  }

  lemma WallOfStep(wall: seq<Point>, i: nat)
    requires i + 1 < |wall|
    ensures WallOf(wall[..i + 2]) == WallOf(wall[..i + 1]) + Segment(wall[i], wall[i + 1])
  {
    assert wall[..i + 2][..i + 1] == wall[..i + 1];
  }

  /** The body of GetWallPoints' inner loop: add `a`, then walk one step at a
      time toward `b`, adding each point reached. */
  method AddSegment(points: set<Point>, a: Point, b: Point) returns (r: set<Point>)
    requires a.x == b.x || a.y == b.y
    ensures r == points + Segment(a, b)
  {
    var dx := b.x - a.x;
    var dy := b.y - a.y;
    var c := a;
    r := points + {c};
    assert Segment(a, a) == {a};
    while c != b
      invariant c in Segment(a, b)
      invariant r == points + Segment(a, c)
      decreases (if c.x <= b.x then b.x - c.x else c.x - b.x) + (if c.y <= b.y then b.y - c.y else c.y - b.y)
    {
      var next := if dx == 0 then Point(c.x, c.y + Sign(dy)) else Point(c.x + Sign(dx), c.y);
      SegmentStep(a, c, b, next);
      c := next;
      r := r + {c};
    }
  }

  // ---------------------------------------------------------------------------
  // Pouring sand
  // ---------------------------------------------------------------------------

  /** The points a grain at `p` tries, in order; they are exactly the three
      points of the row below that touch `p`. */
  function Candidates(p: Point): (r: seq<Point>)
    ensures |r| == 3
    ensures forall k :: 0 <= k < 3 ==> IsMove(p, r[k])
    ensures forall q :: IsMove(p, q) ==> q in r
  {
    [Plus(p, Moves[0]), Plus(p, Moves[1]), Plus(p, Moves[2])]
  }

  /** `q` is one row below `p` and at most one column away. */
  predicate IsMove(p: Point, q: Point)
  {
    q.y == p.y + 1 && p.x - 1 <= q.x <= p.x + 1
  }

  /** A point a grain may move into: no sand, no wall, and not at or below the
      floor when there is one. */
  predicate Open(sands: set<Point>, walls: set<Point>, hasFloor: bool, floor: int, p: Point)
  {
    p !in sands && p !in walls && !(hasFloor && p.y >= floor)
  }

  /** A grain at `p` cannot move. */
  predicate Blocked(sands: set<Point>, walls: set<Point>, hasFloor: bool, floor: int, p: Point)
  {
    forall q :: q in Candidates(p) ==> !Open(sands, walls, hasFloor, floor, q)
  }

  /** Every grain of sand rests: none of them could move. */
  predicate Stable(sands: set<Point>, walls: set<Point>, hasFloor: bool, floor: int)
    ensures Stable(sands, walls, hasFloor, floor) <==>
      (forall s, q :: s in sands && IsMove(s, q) ==> !Open(sands, walls, hasFloor, floor, q))
  {
    forall s :: s in sands ==> Blocked(sands, walls, hasFloor, floor, s)
  }

  /** The FirstOrDefault over the candidates: the first open one, or nothing
      when the grain is blocked. */
  function NextPoint(sands: set<Point>, walls: set<Point>, hasFloor: bool, floor: int, p: Point): (r: Option<Point>)
    ensures r.None? <==> Blocked(sands, walls, hasFloor, floor, p)
    ensures r.Some? ==> (Open(sands, walls, hasFloor, floor, r.value) &&
      exists k :: 0 <= k < 3 && r.value == Candidates(p)[k] &&
        forall j :: 0 <= j < k ==> !Open(sands, walls, hasFloor, floor, Candidates(p)[j]))
  {
    var c := Candidates(p);
    if Open(sands, walls, hasFloor, floor, c[0]) then Some(c[0])
    else if Open(sands, walls, hasFloor, floor, c[1]) then Some(c[1])
    else if Open(sands, walls, hasFloor, floor, c[2]) then Some(c[2])
    else None
  }

  /** Step `i` of a fall: a move into a point that is no wall and above the
      floor. */
  predicate Step(walls: set<Point>, hasFloor: bool, floor: int, c: seq<Point>, i: int)
    requires 1 <= i < |c|
  {
    IsMove(c[i - 1], c[i]) && c[i] !in walls && !(hasFloor && c[i].y >= floor)
  }

  /** A fall from the source through the walls, ignoring sand. */
  predicate IsPath(walls: set<Point>, hasFloor: bool, floor: int, c: seq<Point>)
  {
    |c| >= 1 && c[0] == Start && forall i :: 1 <= i < |c| ==> Step(walls, hasFloor, floor, c, i)
  }

  /** Some fall from the source ends at `p`. */
  ghost predicate Reachable(walls: set<Point>, hasFloor: bool, floor: int, p: Point)
  {
    exists c: seq<Point> :: IsPath(walls, hasFloor, floor, c) && c[|c| - 1] == p
  }

  /** `c` is the way a grain actually falls onto `sands`: from the source,
      each point is the first open candidate below the one before. */
  predicate IsFall(sands: set<Point>, walls: set<Point>, hasFloor: bool, floor: int, c: seq<Point>)
  {
    |c| >= 1 && c[0] == Start &&
    forall i :: 1 <= i < |c| ==> NextPoint(sands, walls, hasFloor, floor, c[i - 1]) == Some(c[i])
  }

  /** Where a grain ends up. */
  datatype Outcome = Rests(at: Point) | Escaped

  /** The grain-by-grain reference: a grain at `p` moves to the first open
      candidate until it is blocked, where it rests, or until it is about to
      move to `limit` or below, where it escapes. Every move goes down one
      row, so the fall ends. */
  function Drop(sands: set<Point>, walls: set<Point>, hasFloor: bool, floor: int, limit: int, p: Point): Outcome
    decreases limit - p.y
  {
    match NextPoint(sands, walls, hasFloor, floor, p)
    case None => Rests(p)
    case Some(q) =>
      assert q in Candidates(p);
      if q.y >= limit then Escaped else Drop(sands, walls, hasFloor, floor, limit, q)
  }

  /** The grains, as a set. */
  function Elems(grains: seq<Point>): set<Point>
  {
    set p | p in grains
  }

  /** `grains` are the grains of a whole pour in the order they come to rest:
      each one dropped from the source onto the ones before it rests where it
      is listed, none but the last covers the source, and the pour ends with
      the source covered or, without a floor, with the next grain escaping. */
  predicate PourOrder(walls: set<Point>, hasFloor: bool, floor: int, limit: int, grains: seq<Point>)
  {
    InOrder(walls, hasFloor, floor, limit, grains) &&
    ((|grains| > 0 && grains[|grains| - 1] == Start) ||
     (!hasFloor && Drop(Elems(grains), walls, hasFloor, floor, limit, Start) == Escaped))
  }

  /** Each grain, dropped from the source onto the ones before it, rests
      where it is listed, and none but the last covers the source. */
  predicate InOrder(walls: set<Point>, hasFloor: bool, floor: int, limit: int, grains: seq<Point>)
    decreases |grains|
  {
    if grains == [] then true
    else
      var init := grains[..|grains| - 1];
      InOrder(walls, hasFloor, floor, limit, init) &&
      (init != [] ==> init[|init| - 1] != Start) &&
      Drop(Elems(init), walls, hasFloor, floor, limit, Start) == Rests(grains[|grains| - 1])
  }

  /** Along a fall that stays above `limit`, a grain ends up where a grain
      dropped from the source does. */
  lemma {:induction false} FallDrop(sands: set<Point>, walls: set<Point>, hasFloor: bool, floor: int, limit: int,
                                    c: seq<Point>)
    requires IsFall(sands, walls, hasFloor, floor, c)
    requires forall i :: 1 <= i < |c| ==> c[i].y < limit
    ensures Drop(sands, walls, hasFloor, floor, limit, Start) == Drop(sands, walls, hasFloor, floor, limit, c[|c| - 1])
    decreases |c|
  {
    if |c| > 1 {
      var init := c[..|c| - 1];
      FallDrop(sands, walls, hasFloor, floor, limit, init);
      assert NextPoint(sands, walls, hasFloor, floor, c[|c| - 2]) == Some(c[|c| - 1]);
    }
  }

  /** The pour is determined: two grain orders that both describe a whole
      pour are the same, so the number of settled grains is fixed. */
  lemma PourOrderUnique(walls: set<Point>, hasFloor: bool, floor: int, limit: int, g: seq<Point>, h: seq<Point>)
    requires PourOrder(walls, hasFloor, floor, limit, g)
    requires PourOrder(walls, hasFloor, floor, limit, h)
    ensures g == h
  {
    if |g| <= |h| {
      InOrderUnique(walls, hasFloor, floor, limit, g, h);
      PourLonger(walls, hasFloor, floor, limit, g, h);
    } else {
      InOrderUnique(walls, hasFloor, floor, limit, h, g);
      PourLonger(walls, hasFloor, floor, limit, h, g);
    }
  }

  /** A prefix of a grain order is a grain order. */
  lemma {:induction false} InOrderPrefix(walls: set<Point>, hasFloor: bool, floor: int, limit: int,
                                         g: seq<Point>, k: nat)
    requires InOrder(walls, hasFloor, floor, limit, g) && k <= |g|
    ensures InOrder(walls, hasFloor, floor, limit, g[..k])
    decreases |g|
  {
    if k < |g| {
      InOrderPrefix(walls, hasFloor, floor, limit, g[..|g| - 1], k);
      assert g[..|g| - 1][..k] == g[..k];
    } else {
      assert g[..k] == g;
    }
  }

  /** Every prefix of a grain order is a grain order. */
  lemma InOrderPrefixes(walls: set<Point>, hasFloor: bool, floor: int, limit: int, g: seq<Point>)
    requires InOrder(walls, hasFloor, floor, limit, g)
    ensures forall k :: 0 <= k <= |g| ==> InOrder(walls, hasFloor, floor, limit, g[..k])
  {
    forall k | 0 <= k <= |g| ensures InOrder(walls, hasFloor, floor, limit, g[..k]) {
      InOrderPrefix(walls, hasFloor, floor, limit, g, k);
    }
  }

  /** Of two grain orders, the shorter is a prefix of the longer: each grain
      is fixed by the ones before it. */
  lemma {:induction false} InOrderUnique(walls: set<Point>, hasFloor: bool, floor: int, limit: int,
                                         g: seq<Point>, h: seq<Point>)
    requires InOrder(walls, hasFloor, floor, limit, g) && InOrder(walls, hasFloor, floor, limit, h)
    requires |g| <= |h|
    ensures g == h[..|g|]
    decreases |g|
  {
    if g != [] {
      var n := |g| - 1;
      InOrderPrefix(walls, hasFloor, floor, limit, h, |g|);
      InOrderPrefix(walls, hasFloor, floor, limit, h, n);
      InOrderUnique(walls, hasFloor, floor, limit, g[..n], h[..n]);
      LastAgrees(walls, hasFloor, floor, limit, g, h[..|g|]);
    }
  }

  /** Two grain orders of the same length that agree but for their last
      grain agree on that too. */
  lemma LastAgrees(walls: set<Point>, hasFloor: bool, floor: int, limit: int, g: seq<Point>, h: seq<Point>)
    requires InOrder(walls, hasFloor, floor, limit, g) && InOrder(walls, hasFloor, floor, limit, h)
    requires |g| == |h| > 0 && g[..|g| - 1] == h[..|h| - 1]
    ensures g == h
  {
    var n := |g| - 1;
    assert Drop(Elems(g[..n]), walls, hasFloor, floor, limit, Start) == Rests(g[n]);
    assert Drop(Elems(h[..n]), walls, hasFloor, floor, limit, Start) == Rests(h[n]);
    forall i | 0 <= i < n ensures g[i] == h[i] {
      assert g[..n][i] == h[..n][i];
    }
  }

  /** A whole pour is never a proper prefix of another. */
  lemma PourLonger(walls: set<Point>, hasFloor: bool, floor: int, limit: int, g: seq<Point>, h: seq<Point>)
    requires PourOrder(walls, hasFloor, floor, limit, g)
    requires InOrder(walls, hasFloor, floor, limit, h)
    requires |g| <= |h| && g == h[..|g|]
    ensures |g| == |h|
  {
    InOrderPrefixes(walls, hasFloor, floor, limit, h);
    assert |g| < |h| ==> InOrder(walls, hasFloor, floor, limit, h[..|g| + 1]);
  }

  /** The triangle below the source, `depth` rows deep: every fall stays in it. */
  function Region(depth: nat): set<Point>
  {
    set y: int, x: int | 0 <= y <= depth && 500 - y <= x <= 500 + y :: Point(x, y)
  }

  /** Adding a blocked grain keeps the sand stable: more sand only blocks more. */
  lemma StableAdd(sands: set<Point>, walls: set<Point>, hasFloor: bool, floor: int, p: Point)
    requires Stable(sands, walls, hasFloor, floor)
    requires Blocked(sands, walls, hasFloor, floor, p)
    ensures Stable(sands + {p}, walls, hasFloor, floor)
  {
    forall s | s in sands + {p}
      ensures Blocked(sands + {p}, walls, hasFloor, floor, s)
    {
      assert Blocked(sands, walls, hasFloor, floor, s);
    }
  }

  /** With a floor, stable sand that covers the source covers every point a
      fall can reach. */
  lemma {:induction false} ReachableSettled(sands: set<Point>, walls: set<Point>, floor: int, c: seq<Point>)
    requires Stable(sands, walls, true, floor) && Start in sands
    requires IsPath(walls, true, floor, c)
    ensures c[|c| - 1] in sands
    decreases |c|
  {
    if |c| > 1 {
      var init := c[..|c| - 1];
      assert forall i :: 1 <= i < |init| ==> Step(walls, true, floor, init, i) by {
        forall i | 1 <= i < |init| ensures Step(walls, true, floor, init, i) {
          assert Step(walls, true, floor, c, i);
        }
      }
      ReachableSettled(sands, walls, floor, init);
      var p := c[|c| - 2];
      assert Step(walls, true, floor, c, |c| - 1);
      assert Blocked(sands, walls, true, floor, p);
      assert c[|c| - 1] in Candidates(p);
    }
  }

  /** The settling loop of GetSettledCount. Grains start at the source; a
      grain moves to the first open candidate, remembering where it came from,
      and settles when it is blocked; the next grain starts from the point the
      last one came from. Without a floor the pour stops when a grain would
      move to `maxY` or below. With one, the floor lies at `maxY + 2` and the
      pour stops when the source itself is covered. */
  method Pour(walls: set<Point>, hasFloor: bool, maxY: int) returns (sands: set<Point>, ghost grains: seq<Point>)
    ensures Stable(sands, walls, hasFloor, maxY + 2)
    ensures forall s :: s in sands ==> Reachable(walls, hasFloor, maxY + 2, s)
    ensures forall s :: s in sands ==> s == Start || (s !in walls && s.y < Limit(hasFloor, maxY))
    ensures hasFloor ==> Start in sands
    ensures PourOrder(walls, hasFloor, maxY + 2, Limit(hasFloor, maxY), grains)
    ensures sands == Elems(grains) && |sands| == |grains|
  {
    var floor := maxY + 2;
    ghost var limit := Limit(hasFloor, maxY);
    ghost var depth: nat := Depth(limit);
    sands := {};
    var complete := false;
    var path: seq<Point> := [];
    var current := Start;
    path := path + [current];
    ghost var chain := [Start];
    ghost var dup := [Start];
    grains := [];
    while !complete
      invariant !complete ==> Trail(walls, hasFloor, floor, limit, depth, sands, path, current, chain, dup)
      invariant Settled(walls, hasFloor, floor, limit, depth, sands)
      invariant Laid(walls, hasFloor, floor, limit, sands, grains, chain, dup)
      invariant complete ==> Ended(walls, hasFloor, floor, limit, sands, grains)
      decreases |Region(depth) - sands|, if complete then 0 else 1
    {
      sands, path, current, complete, chain, dup, grains :=
        Fall(walls, hasFloor, maxY, limit, depth, sands, path, current, chain, dup, grains);
    }
  }

  /** The inner loop of the pour: the falling grain moves to the first open
      candidate, pushing where it came from, until it is blocked and settles
      (the next grain then resumes from the point popped off the path) or,
      without a floor, until it would move to `maxY` or below. The pour is
      complete when the grain escapes or the path was already empty. */
  method Fall(walls: set<Point>, hasFloor: bool, maxY: int, ghost limit: int, ghost depth: nat,
              sands0: set<Point>, path0: seq<Point>, current0: Point,
              ghost chain0: seq<Point>, ghost dup0: seq<Point>, ghost grains0: seq<Point>)
    returns (sands: set<Point>, path: seq<Point>, current: Point, complete: bool,
             ghost chain: seq<Point>, ghost dup: seq<Point>, ghost grains: seq<Point>)
    requires limit == Limit(hasFloor, maxY) && depth == Depth(limit)
    requires Trail(walls, hasFloor, maxY + 2, limit, depth, sands0, path0, current0, chain0, dup0)
    requires Settled(walls, hasFloor, maxY + 2, limit, depth, sands0)
    requires Laid(walls, hasFloor, maxY + 2, limit, sands0, grains0, chain0, dup0)
    ensures Settled(walls, hasFloor, maxY + 2, limit, depth, sands)
    ensures Laid(walls, hasFloor, maxY + 2, limit, sands, grains, chain, dup)
    ensures complete ==> Ended(walls, hasFloor, maxY + 2, limit, sands, grains) && sands == sands0
    ensures !complete ==> (Trail(walls, hasFloor, maxY + 2, limit, depth, sands, path, current, chain, dup) &&
      |Region(depth) - sands| < |Region(depth) - sands0|)
  {
    var floor := maxY + 2;
    sands, path, current, chain, dup, grains := sands0, path0, current0, chain0, dup0, grains0;
    complete := false;
    while true
      invariant Trail(walls, hasFloor, floor, limit, depth, sands, path, current, chain, dup)
      invariant Settled(walls, hasFloor, floor, limit, depth, sands)
      invariant Laid(walls, hasFloor, floor, limit, sands, grains, chain, dup)
      invariant sands == sands0
      decreases depth + 1 - |chain|
    {
      var next := NextPoint(sands, walls, hasFloor, floor, current);
      if next.None? {
        SettleStep(walls, hasFloor, floor, limit, depth, sands, path, current, chain, dup);
        LaidSettle(walls, hasFloor, floor, limit, depth, sands, path, current, chain, dup, grains);
        grains := Landed(sands, grains, current);
        sands := sands + {current};
        if |path| == 0 {
          complete := true;
          return;
        }
        current := path[|path| - 1];
        path := path[..|path| - 1];
        if |chain| > 1 {
          chain := chain[..|chain| - 1];
        } else {
          dup := [];
        }
        return;
      }
      if !hasFloor && next.value.y >= maxY {
        OverflowStep(walls, floor, limit, depth, sands, path, current, chain, dup, next.value, grains);
        complete := true;
        return;
      }
      PushStep(walls, hasFloor, floor, limit, depth, sands, path, current, chain, dup, next.value);
      LaidPush(walls, hasFloor, floor, limit, depth, sands, path, current, chain, dup, grains, next.value);
      path := path + [current];
      current := next.value;
      chain := chain + [current];
    }
  }

  /** The lowest row a grain may move into, plus one. */
  function Limit(hasFloor: bool, maxY: int): int
  {
    if hasFloor then maxY + 2 else maxY
  }

  /** The state of the falling grain: `path` is the stack of points it came
      through and `current` where it is, which is the fall `chain` with the
      source pushed once more underneath (`dup`) until the source settles. */
  ghost predicate Trail(walls: set<Point>, hasFloor: bool, floor: int, limit: int, depth: nat,
                        sands: set<Point>, path: seq<Point>, current: Point, chain: seq<Point>, dup: seq<Point>)
  {
    (dup == [] || dup == [Start]) &&
    path + [current] == dup + chain &&
    IsPath(walls, hasFloor, floor, chain) &&
    |chain| <= depth + 1 &&
    (forall i :: 0 <= i < |chain| ==> chain[i].y == i && 500 - i <= chain[i].x <= 500 + i) &&
    (forall i :: 1 <= i < |chain| ==> chain[i] !in sands && chain[i].y < limit) &&
    (dup == [Start] ==> Start !in sands) &&
    (dup == [] ==> Start in sands)
  }

  /** What holds of the settled sand throughout the pour. */
  ghost predicate Settled(walls: set<Point>, hasFloor: bool, floor: int, limit: int, depth: nat, sands: set<Point>)
  {
    (forall s :: s in sands ==> s in Region(depth)) &&
    (forall s :: s in sands ==> s == Start || (s !in walls && s.y < limit)) &&
    Stable(sands, walls, hasFloor, floor) &&
    (forall s :: s in sands ==> Reachable(walls, hasFloor, floor, s))
  }

  /** The grains laid so far, in the order they came to rest, make up the
      sand; the falling grain follows its own fall; once the source is covered
      it is the last grain and nothing falls any more. */
  ghost predicate Laid(walls: set<Point>, hasFloor: bool, floor: int, limit: int,
                       sands: set<Point>, grains: seq<Point>, chain: seq<Point>, dup: seq<Point>)
  {
    IsFall(sands, walls, hasFloor, floor, chain) &&
    sands == Elems(grains) && |sands| == |grains| &&
    (forall i :: 1 <= i < |chain| ==> chain[i].y < limit) &&
    InOrder(walls, hasFloor, floor, limit, grains) &&
    (dup == [] ==> chain == [Start] && |grains| > 0 && grains[|grains| - 1] == Start)
  }

  /** Why the pour stopped: the source is covered by the last grain, or,
      without a floor, the next grain escapes. */
  ghost predicate Ended(walls: set<Point>, hasFloor: bool, floor: int, limit: int,
                        sands: set<Point>, grains: seq<Point>)
  {
    (|grains| > 0 && grains[|grains| - 1] == Start && Start in sands) ||
    (!hasFloor && Drop(sands, walls, hasFloor, floor, limit, Start) == Escaped)
  }

  /** The grains after one settles at `current`: a new grain unless the spot
      is already sand (the covered source, settling once more). */
  ghost function Landed(sands: set<Point>, grains: seq<Point>, current: Point): seq<Point>
  {
    if current in sands then grains else grains + [current]
  }

  /** More sand elsewhere does not change where a grain goes next. */
  lemma NextPointKept(sands: set<Point>, walls: set<Point>, hasFloor: bool, floor: int, p: Point, q: Point, x: Point)
    requires NextPoint(sands, walls, hasFloor, floor, p) == Some(q) && q != x
    ensures NextPoint(sands + {x}, walls, hasFloor, floor, p) == Some(q)
  {
  }

  /** A grain that settles is the next one laid, and the falling grain that
      resumes above it still follows its own fall on the new sand. */
  lemma LaidSettle(walls: set<Point>, hasFloor: bool, floor: int, limit: int, depth: nat,
                   sands: set<Point>, path: seq<Point>, current: Point, chain: seq<Point>, dup: seq<Point>,
                   grains: seq<Point>)
    requires Trail(walls, hasFloor, floor, limit, depth, sands, path, current, chain, dup)
    requires Laid(walls, hasFloor, floor, limit, sands, grains, chain, dup)
    requires NextPoint(sands, walls, hasFloor, floor, current).None?
    ensures path == [] ==> Ended(walls, hasFloor, floor, limit, sands + {current}, Landed(sands, grains, current))
    ensures path != [] ==> Laid(walls, hasFloor, floor, limit, sands + {current}, Landed(sands, grains, current),
      if |chain| > 1 then chain[..|chain| - 1] else chain, if |chain| > 1 then dup else [])
  {
    Unpush(path, current, dup, chain);
    if path != [] {
      assert dup == [Start] && Start !in sands;
      assert current !in sands by {
        if |chain| > 1 {
          assert current == chain[|chain| - 1];
        }
      }
      var g := grains + [current];
      assert Landed(sands, grains, current) == g;
      FallDrop(sands, walls, hasFloor, floor, limit, chain);
      InOrderSnoc(walls, hasFloor, floor, limit, grains, current);
      if |chain| > 1 {
        FallKept(sands, walls, hasFloor, floor, chain, current);
        SettledLaid(walls, hasFloor, floor, limit, sands + {current}, g, chain[..|chain| - 1], dup);
      } else {
        SettledLaid(walls, hasFloor, floor, limit, sands + {current}, g, chain, []);
      }
    }
  }

  /** Laid, assembled from its parts. */
  lemma SettledLaid(walls: set<Point>, hasFloor: bool, floor: int, limit: int,
                    sands: set<Point>, grains: seq<Point>, chain: seq<Point>, dup: seq<Point>)
    requires IsFall(sands, walls, hasFloor, floor, chain)
    requires sands == Elems(grains) && |sands| == |grains|
    requires forall i :: 1 <= i < |chain| ==> chain[i].y < limit
    requires InOrder(walls, hasFloor, floor, limit, grains)
    requires dup == [] ==> chain == [Start] && |grains| > 0 && grains[|grains| - 1] == Start
    ensures Laid(walls, hasFloor, floor, limit, sands, grains, chain, dup)
  {
  }

  /** A grain that rests where the next drop rests extends the order. */
  lemma InOrderSnoc(walls: set<Point>, hasFloor: bool, floor: int, limit: int, grains: seq<Point>, p: Point)
    requires InOrder(walls, hasFloor, floor, limit, grains)
    requires Drop(Elems(grains), walls, hasFloor, floor, limit, Start) == Rests(p)
    requires Start !in Elems(grains)
    ensures InOrder(walls, hasFloor, floor, limit, grains + [p])
    ensures Elems(grains + [p]) == Elems(grains) + {p}
  {
    assert (grains + [p])[..|grains|] == grains;
    if grains != [] {
      assert grains[|grains| - 1] in Elems(grains);
    }
  }

  /** The fall above a grain that settles at its end is still the fall once
      that grain is sand: it never passes through the grain's point. */
  lemma FallKept(sands: set<Point>, walls: set<Point>, hasFloor: bool, floor: int, chain: seq<Point>, current: Point)
    requires IsFall(sands, walls, hasFloor, floor, chain) && |chain| > 1 && current == chain[|chain| - 1]
    requires forall i :: 0 <= i < |chain| ==> chain[i].y == i
    ensures IsFall(sands + {current}, walls, hasFloor, floor, chain[..|chain| - 1])
  {
    var c := chain[..|chain| - 1];
    forall i | 1 <= i < |c|
      ensures NextPoint(sands + {current}, walls, hasFloor, floor, c[i - 1]) == Some(c[i])
    {
      assert NextPoint(sands, walls, hasFloor, floor, chain[i - 1]) == Some(chain[i]);
      NextPointKept(sands, walls, hasFloor, floor, chain[i - 1], chain[i], current);
    }
  }

  /** A grain that moves on keeps following its own fall. */
  lemma LaidPush(walls: set<Point>, hasFloor: bool, floor: int, limit: int, depth: nat,
                 sands: set<Point>, path: seq<Point>, current: Point, chain: seq<Point>, dup: seq<Point>,
                 grains: seq<Point>, next: Point)
    requires Trail(walls, hasFloor, floor, limit, depth, sands, path, current, chain, dup)
    requires Settled(walls, hasFloor, floor, limit, depth, sands)
    requires Laid(walls, hasFloor, floor, limit, sands, grains, chain, dup)
    requires NextPoint(sands, walls, hasFloor, floor, current) == Some(next) && next.y < limit
    ensures Laid(walls, hasFloor, floor, limit, sands, grains, chain + [next], dup)
  {
    Unpush(path, current, dup, chain);
    MovingUncovered(walls, hasFloor, floor, sands, current);
    FallExtend(sands, walls, hasFloor, floor, limit, chain, next);
    SettledLaid(walls, hasFloor, floor, limit, sands, grains, chain + [next], dup);
  }

  /** A grain that can still move is not on settled sand. */
  lemma MovingUncovered(walls: set<Point>, hasFloor: bool, floor: int, sands: set<Point>, p: Point)
    requires Stable(sands, walls, hasFloor, floor)
    requires NextPoint(sands, walls, hasFloor, floor, p).Some?
    ensures p !in sands
  {
  }

  /** A fall extended by the grain's next point is still its fall. */
  lemma FallExtend(sands: set<Point>, walls: set<Point>, hasFloor: bool, floor: int, limit: int,
                   chain: seq<Point>, next: Point)
    requires IsFall(sands, walls, hasFloor, floor, chain) && (forall i :: 1 <= i < |chain| ==> chain[i].y < limit)
    requires NextPoint(sands, walls, hasFloor, floor, chain[|chain| - 1]) == Some(next) && next.y < limit
    ensures IsFall(sands, walls, hasFloor, floor, chain + [next])
    ensures forall i :: 1 <= i < |chain + [next]| ==> (chain + [next])[i].y < limit
  {
    var c := chain + [next];
    assert forall i :: 0 <= i < |chain| ==> c[i] == chain[i];
  }

  /** Splitting the stack back into the path and the current point. */
  lemma Unpush(path: seq<Point>, current: Point, dup: seq<Point>, chain: seq<Point>)
    requires path + [current] == dup + chain && |chain| >= 1
    ensures current == chain[|chain| - 1] && path == dup + chain[..|chain| - 1]
  {
    var n := |chain| - 1;
    assert (path + [current])[|path|] == current;
    assert (dup + chain)[|dup| + n] == chain[n];
    assert (path + [current])[..|path|] == path;
    assert (dup + chain)[..|dup| + n] == dup + chain[..n];
  }

  /** A blocked grain settles: the settled sand keeps its properties, and the
      grain resumes from the point it came from. */
  lemma SettleStep(walls: set<Point>, hasFloor: bool, floor: int, limit: int, depth: nat,
                   sands: set<Point>, path: seq<Point>, current: Point, chain: seq<Point>, dup: seq<Point>)
    requires Trail(walls, hasFloor, floor, limit, depth, sands, path, current, chain, dup)
    requires Settled(walls, hasFloor, floor, limit, depth, sands)
    requires Blocked(sands, walls, hasFloor, floor, current)
    ensures Settled(walls, hasFloor, floor, limit, depth, sands + {current})
    ensures path == [] ==> sands + {current} == sands
    ensures path != [] ==> |Region(depth) - (sands + {current})| < |Region(depth) - sands|
    ensures path != [] ==> Trail(walls, hasFloor, floor, limit, depth, sands + {current},
      path[..|path| - 1], path[|path| - 1],
      if |chain| > 1 then chain[..|chain| - 1] else chain, if |chain| > 1 then dup else [])
  {
    SettleSand(walls, hasFloor, floor, limit, depth, sands, path, current, chain, dup);
    if path != [] {
      SettleTrail(walls, hasFloor, floor, limit, depth, sands, path, current, chain, dup);
    }
  }

  /** The settled grain joins the sand: it lies in the region, off the walls,
      at the end of a fall, and blocked. */
  lemma SettleSand(walls: set<Point>, hasFloor: bool, floor: int, limit: int, depth: nat,
                   sands: set<Point>, path: seq<Point>, current: Point, chain: seq<Point>, dup: seq<Point>)
    requires Trail(walls, hasFloor, floor, limit, depth, sands, path, current, chain, dup)
    requires Settled(walls, hasFloor, floor, limit, depth, sands)
    requires Blocked(sands, walls, hasFloor, floor, current)
    ensures Settled(walls, hasFloor, floor, limit, depth, sands + {current})
    ensures path == [] ==> sands + {current} == sands
    ensures path != [] ==> |Region(depth) - (sands + {current})| < |Region(depth) - sands|
  {
    var n := |chain| - 1;
    Unpush(path, current, dup, chain);
    if n > 0 {
      assert Step(walls, hasFloor, floor, chain, n);
    }
    assert current.y == n && 500 - n <= current.x <= 500 + n;
    assert current in Region(depth);
    assert Reachable(walls, hasFloor, floor, current);
    StableAdd(sands, walls, hasFloor, floor, current);
    if path != [] {
      assert current !in sands;
      var R := Region(depth);
      assert R - (sands + {current}) == (R - sands) - {current};
    }
  }

  /** The next grain resumes from the point the settled one came from. */
  lemma SettleTrail(walls: set<Point>, hasFloor: bool, floor: int, limit: int, depth: nat,
                    sands: set<Point>, path: seq<Point>, current: Point, chain: seq<Point>, dup: seq<Point>)
    requires Trail(walls, hasFloor, floor, limit, depth, sands, path, current, chain, dup)
    requires path != []
    ensures Trail(walls, hasFloor, floor, limit, depth, sands + {current},
      path[..|path| - 1], path[|path| - 1],
      if |chain| > 1 then chain[..|chain| - 1] else chain, if |chain| > 1 then dup else [])
  {
    var n := |chain| - 1;
    Unpush(path, current, dup, chain);
    if n > 0 {
      var c' := chain[..n];
      assert forall i :: 1 <= i < |c'| ==> Step(walls, hasFloor, floor, c', i) by {
        forall i | 1 <= i < |c'| ensures Step(walls, hasFloor, floor, c', i) {
          assert Step(walls, hasFloor, floor, chain, i);
        }
      }
      Unpush(path[..|path| - 1], path[|path| - 1], dup, c');
    }
  }

  /** Without a floor, a grain about to move to `maxY` or below escapes: the
      pour has ended. */
  lemma OverflowStep(walls: set<Point>, floor: int, limit: int, depth: nat,
                     sands: set<Point>, path: seq<Point>, current: Point, chain: seq<Point>, dup: seq<Point>,
                     next: Point, grains: seq<Point>)
    requires Trail(walls, false, floor, limit, depth, sands, path, current, chain, dup)
    requires Laid(walls, false, floor, limit, sands, grains, chain, dup)
    requires NextPoint(sands, walls, false, floor, current) == Some(next) && next.y >= limit
    ensures Ended(walls, false, floor, limit, sands, grains)
  {
    Unpush(path, current, dup, chain);
    FallDrop(sands, walls, false, floor, limit, chain);
    assert Drop(sands, walls, false, floor, limit, current) == Escaped;
  }

  /** A grain that moves to an open point below extends the fall. */
  lemma PushStep(walls: set<Point>, hasFloor: bool, floor: int, limit: int, depth: nat,
                 sands: set<Point>, path: seq<Point>, current: Point, chain: seq<Point>, dup: seq<Point>, next: Point)
    requires Trail(walls, hasFloor, floor, limit, depth, sands, path, current, chain, dup)
    requires Open(sands, walls, hasFloor, floor, next) && IsMove(current, next) && next.y < limit
    requires depth == Depth(limit)
    ensures Trail(walls, hasFloor, floor, limit, depth, sands, path + [current], next, chain + [next], dup)
  {
    var c' := chain + [next];
    Unpush(path, current, dup, chain);
    forall i | 1 <= i < |c'| ensures Step(walls, hasFloor, floor, c', i) {
      if i < |chain| {
        assert Step(walls, hasFloor, floor, chain, i);
      }
    }
  }

  /** The number of rows of the triangle below the source that a fall can
      enter when it must stay above `limit`. */
  function Depth(limit: int): nat
  {
    if limit >= 1 then limit - 1 else 0
  }

  /** A fall drops one row per step and drifts at most one column per step. */
  lemma {:induction false} PathShape(walls: set<Point>, hasFloor: bool, floor: int, c: seq<Point>)
    requires IsPath(walls, hasFloor, floor, c)
    ensures forall i :: 0 <= i < |c| ==> c[i].y == i && 500 - i <= c[i].x <= 500 + i
    decreases |c|
  {
    if |c| > 1 {
      var init := c[..|c| - 1];
      forall i | 1 <= i < |init| ensures Step(walls, hasFloor, floor, init, i) {
        assert Step(walls, hasFloor, floor, c, i);
      }
      PathShape(walls, hasFloor, floor, init);
      assert Step(walls, hasFloor, floor, c, |c| - 1);
      assert forall i :: 0 <= i < |init| ==> c[i] == init[i];
    }
  }

  /** Part two's answer: the points a fall can reach above the floor. */
  ghost function Reach(walls: set<Point>, floor: int): set<Point>
  {
    set p | p in Region(Depth(floor)) && Reachable(walls, true, floor, p)
  }

  /** Every point a fall can reach lies in the triangle, so Reach holds all
      of them. */
  lemma ReachAll(walls: set<Point>, floor: int, p: Point)
    ensures p in Reach(walls, floor) <==> Reachable(walls, true, floor, p)
  {
    if Reachable(walls, true, floor, p) {
      var c: seq<Point> :| IsPath(walls, true, floor, c) && c[|c| - 1] == p;
      PathShape(walls, true, floor, c);
      if |c| > 1 {
        assert Step(walls, true, floor, c, |c| - 1);
      }
    }
  }

  /** The number of points a fall can reach above a floor two below the
      lowest wall. */
  ghost function Filled(walls: set<Point>): nat
    requires walls != {}
  {
    |Reach(walls, MaxYOf(walls) + 2)|
  }

  /** With a floor, the sand fills exactly the points a fall can reach: the
      pour ends only once the source is covered, and stable sand that covers
      the source covers everything reachable. */
  lemma FloorFills(sands: set<Point>, walls: set<Point>, floor: int)
    requires Stable(sands, walls, true, floor) && Start in sands
    requires forall s :: s in sands ==> Reachable(walls, true, floor, s)
    ensures sands == Reach(walls, floor)
  {
    forall p ensures p in sands <==> p in Reach(walls, floor) {
      ReachAll(walls, floor, p);
      if Reachable(walls, true, floor, p) {
        var c: seq<Point> :| IsPath(walls, true, floor, c) && c[|c| - 1] == p;
        ReachableSettled(sands, walls, floor, c);
      }
    }
  }

  /** `m` is the largest Y of the walls. */
  ghost predicate IsMaxY(walls: set<Point>, m: int)
  {
    (exists p :: p in walls && p.y == m) && forall p :: p in walls ==> p.y <= m
  }

  /** walls.Max(p => p.Y), which throws on an empty set. */
  ghost function MaxYOf(walls: set<Point>): (m: int)
    requires walls != {}
    ensures IsMaxY(walls, m)
    decreases |walls|
  {
    var p :| p in walls;
    if walls == {p} then p.y
    else
      var m := MaxYOf(walls - {p});
      var q :| q in walls - {p} && q.y == m;
      if p.y <= m then m else p.y
  }

  /** The imperative reading of walls.Max(p => p.Y). */
  method MaxY(walls: set<Point>) returns (m: int)
    requires walls != {}
    ensures m == MaxYOf(walls)
  {
    var p :| p in walls;
    m := p.y;
    var rest := walls - {p};
    while rest != {}
      invariant rest <= walls
      invariant exists q :: q in walls && q.y == m
      invariant forall q :: q in walls && q !in rest ==> q.y <= m
      decreases |rest|
    {
      var q :| q in rest;
      if q.y > m {
        m := q.y;
      }
      rest := rest - {q};
    }
    ghost var q :| q in walls && q.y == MaxYOf(walls);
    assert q.y <= m;
  }

  /** GetSettledCount: the number of grains that settle. There is no lowest
      wall, and so an InvalidOperationException, when there are no walls. */
  method GetSettledCount(walls: set<Point>, hasFloor: bool) returns (r: Option<int>)
    ensures r.None? <==> walls == {}
    ensures r.Some? && hasFloor ==> r.value == Filled(walls)
    ensures r.Some? ==> SettledCount(walls, hasFloor, r.value)
  {
    if walls == {} {
      return None;
    }
    var maxY := MaxY(walls);
    var sands, grains := Pour(walls, hasFloor, maxY);
    if hasFloor {
      FloorFills(sands, walls, maxY + 2);
    }
    assert PourOrder(walls, hasFloor, maxY + 2, Limit(hasFloor, maxY), grains);
    r := Some(|sands|);
  }

  /** `n` grains settle in the pour onto `walls`: the length of a grain order
      describing the whole pour. */
  ghost predicate SettledCount(walls: set<Point>, hasFloor: bool, n: int)
    requires walls != {}
  {
    exists grains :: PourOrder(walls, hasFloor, MaxYOf(walls) + 2, Limit(hasFloor, MaxYOf(walls)), grains) && n == |grains|
  }

  /** The settled count is determined by the walls. */
  lemma SettledCountUnique(walls: set<Point>, hasFloor: bool, n: int, m: int)
    requires walls != {}
    requires SettledCount(walls, hasFloor, n) && SettledCount(walls, hasFloor, m)
    ensures n == m
  {
    var floor, limit := MaxYOf(walls) + 2, Limit(hasFloor, MaxYOf(walls));
    var g :| PourOrder(walls, hasFloor, floor, limit, g) && n == |g|;
    var h :| PourOrder(walls, hasFloor, floor, limit, h) && m == |h|;
    PourOrderUnique(walls, hasFloor, floor, limit, g, h);
  }

  /** The walls of the input, when it parses. */
  function WallsIn(input: string): Option<set<Point>>
  {
    match ParseWalls(input)
    case None => None
    case Some(walls) => Some(WallsOf(walls))
  }

  /** Part one: the grains that settle before one falls past the lowest wall. */
  method SolvePartOne(input: string) returns (r: Option<int>)
    requires ParseWalls(input).Some? ==> AxisAligned(ParseWalls(input).value)
    ensures r.None? <==> WallsIn(input) == None || WallsIn(input) == Some({})
    ensures r.Some? ==> SettledCount(WallsIn(input).value, false, r.value)
  {
    var walls := ParseWalls(input);
    if walls.None? {
      return None;
    }
    var points := GetWallPoints(walls.value);
    assert WallsIn(input) == Some(points);
    r := GetSettledCount(points, false);
  }

  /** Part two: the grains that settle, over a floor two below the lowest
      wall, until the source is covered; that is every point a fall can reach. */
  method SolvePartTwo(input: string) returns (r: Option<int>)
    requires ParseWalls(input).Some? ==> AxisAligned(ParseWalls(input).value)
    ensures r.None? <==> WallsIn(input) == None || WallsIn(input) == Some({})
    ensures r.Some? ==> r.value == Filled(WallsIn(input).value)
  {
    var walls := ParseWalls(input);
    if walls.None? {
      return None;
    }
    var points := GetWallPoints(walls.value);
    assert WallsIn(input) == Some(points);
    r := GetSettledCount(points, true);
  }
}
