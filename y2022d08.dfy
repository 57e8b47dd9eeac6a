/** 2022 day 8: a forest of digit-height trees, flattened row by row into one
    sequence of width `gw`. Part one counts the trees visible from outside the
    forest, part two finds the best scenic score (the product of the viewing
    distances in the four directions). Both parts scan outwards from each tree
    one radius at a time over the four directions, remembering which
    directions are already blocked. */
module Y2022D08 {
  import opened Wrappers
  import opened Strings
  import opened InputHelpers

  /** The [Flags] enum of the source; a set of directions is a flags value. */
  datatype Dir = Left | Right | Top | Bottom

  /** The directions in the order the scan visits them. */
  function Dirs(): (r: seq<Dir>)
    ensures |r| == 4
  {
    [Left, Right, Top, Bottom]
  }

  /** Direction.All. */
  function AllDirs(): set<Dir>
  {
    {Left, Right, Top, Bottom}
  }

  function Index(d: Dir): (k: nat)
    ensures k < 4 && Dirs()[k] == d
  {
    match d
    case Left => 0
    case Right => 1
    case Top => 2
    case Bottom => 3
  }

  // ---------------------------------------------------------------------------
  // Parsing
  // ---------------------------------------------------------------------------

  /** int.Parse(c.ToString()): a digit's value, anything else a FormatException. */
  function TreeHeight(c: char): (r: Option<int>)
    ensures r.Some? <==> IsDigit(c)
    ensures r.Some? ==> r.value == DigitValue(c)
  {
    var s := [c];
    assert s[..|s| - 1] == [] && s[|s| - 1] == c;
    assert IsDigit(c) ==> DigitsValue(s) == 10 * DigitsValue([]) + DigitValue(c);
    ParseInt(s)
  }

  predicate Digits(trees: seq<int>)
  {
    forall k :: 0 <= k < |trees| ==> 0 <= trees[k] <= 9
  }

  /** The heights of one line. */
  function LineTrees(line: string): (r: Option<seq<int>>)
    ensures r.Some? <==> AllDigits(line)
    ensures r.Some? ==> |r.value| == |line| && Digits(r.value)
    ensures r.Some? ==> forall k :: 0 <= k < |line| ==> r.value[k] == DigitValue(line[k])
  {
    if line == [] then Some([])
    else
      var rest := LineTrees(line[1..]);
      var h := TreeHeight(line[0]);
      if h.None? || rest.None? then
        assert !AllDigits(line) by {
          if h.Some? {
            var k :| 0 <= k < |line[1..]| && !IsDigit(line[1..][k]);
            assert !IsDigit(line[k + 1]);
          }
        }
        None
      else Some([h.value] + rest.value)
  }

  /** The lines' heights, concatenated (SelectMany). */
  function ForestTrees(lines: seq<string>): (r: Option<seq<int>>)
    ensures r.Some? <==> forall k :: 0 <= k < |lines| ==> AllDigits(lines[k])
    ensures r.Some? ==> Digits(r.value)
  {
    if lines == [] then Some([])
    else
      var first := LineTrees(lines[0]);
      var rest := ForestTrees(lines[1..]);
      if first.None? || rest.None? then
        assert exists k :: 0 <= k < |lines| && !AllDigits(lines[k]) by {
          if first.Some? {
            var k :| 0 <= k < |lines[1..]| && !AllDigits(lines[1..][k]);
            assert !AllDigits(lines[k + 1]);
          }
        }
        None
      else
        var r := first.value + rest.value;
        assert forall k :: 0 <= k < |r| ==> 0 <= r[k] <= 9 by {
          forall k | 0 <= k < |r| ensures 0 <= r[k] <= 9 {
            if k >= |first.value| { assert r[k] == rest.value[k - |first.value|]; }
          }
        }
        Some(r)
  }

  /** The flattened trees of the input. */
  function Trees(input: string): Option<seq<int>>
  {
    ForestTrees(AsLines(input))
  }

  /** Grid width: the length of the first line. */
  function Width(input: string): nat
  {
    |AsLines(input)[0]|
  }

  // ---------------------------------------------------------------------------
  // Geometry of the flattened grid
  // ---------------------------------------------------------------------------

  /** The trees fill whole rows of width gw. */
  predicate Fits(trees: seq<int>, gw: int)
  {
    gw > 0 && |trees| % gw == 0
  }

  /** What the solutions need of their input: every character a digit, and
      the trees filling whole rows as wide as the first line. */
  predicate Forest(input: string)
  {
    match Trees(input)
    case None => true
    case Some(t) => t == [] || Fits(t, Width(input))
  }

  /** The number of rows. */
  function Depth(trees: seq<int>, gw: int): nat
    requires Fits(trees, gw)
  {
    |trees| / gw
  }

  lemma MulLe(a: int, b: int, c: int)
    requires a <= b && 0 <= c
    ensures a * c <= b * c
  {
    assert b * c - a * c == (b - a) * c;
  }

  lemma DivOf(a: int, q: int, m: int, gw: int)
    requires gw > 0 && a == q * gw + m && 0 <= m < gw
    ensures a / gw == q
  {
    var q' := a / gw;
    assert a == q' * gw + a % gw;
    if q' < q {
      MulLe(q' + 1, q, gw);
    } else if q' > q {
      MulLe(q + 1, q', gw);
    }
  }

  /** Row i / gw and column i % gw of position i. */
  lemma Coordinates(trees: seq<int>, gw: int, i: int)
    requires Fits(trees, gw) && 0 <= i < |trees|
    ensures i == (i / gw) * gw + i % gw && 0 <= i % gw < gw
    ensures |trees| == Depth(trees, gw) * gw
    ensures 0 <= i / gw < Depth(trees, gw)
  {
    var n := Depth(trees, gw);
    assert |trees| == n * gw + |trees| % gw;
    if i / gw >= n {
      MulLe(n, i / gw, gw);
    }
  }

  /** How many trees lie between tree i and the edge in direction d. */
  function Reach(trees: seq<int>, gw: int, i: int, d: Dir): nat
    requires Fits(trees, gw) && 0 <= i < |trees|
  {
    Coordinates(trees, gw, i);
    match d
    case Left => i % gw
    case Right => gw - 1 - i % gw
    case Top => i / gw
    case Bottom => Depth(trees, gw) - 1 - i / gw
  }

  /** The position k steps from i in direction d. */
  function Pos(gw: int, i: int, d: Dir, k: int): int
  {
    match d
    case Left => i - k
    case Right => i + k
    case Top => i - k * gw
    case Bottom => i + k * gw
  }

  lemma PosInside(trees: seq<int>, gw: int, i: int, d: Dir, k: int)
    requires Fits(trees, gw) && 0 <= i < |trees| && 1 <= k <= Reach(trees, gw, i, d)
    ensures 0 <= Pos(gw, i, d, k) < |trees|
  {
    Coordinates(trees, gw, i);
    var q, m, n := i / gw, i % gw, Depth(trees, gw);
    match d
    case Left =>
      LeftInside(q, m, gw, k);
    case Right =>
      RightInside(q, m, n, gw, k);
    case Top =>
      TopInside(q, m, gw, k);
    case Bottom =>
      BottomInside(q, m, n, gw, k);
  }

  lemma LeftInside(q: int, m: int, gw: int, k: int)
    requires 0 <= q && 0 <= m < gw && 1 <= k <= m
    ensures 0 <= q * gw + m - k
  {
    MulLe(0, q, gw);
  }

  lemma RightInside(q: int, m: int, n: int, gw: int, k: int)
    requires 0 <= q < n && 0 <= m < gw && 0 <= k <= gw - 1 - m
    ensures q * gw + m + k < n * gw
  {
    MulLe(q + 1, n, gw);
  }

  lemma TopInside(q: int, m: int, gw: int, k: int)
    requires 0 <= m < gw && 0 <= k <= q
    ensures 0 <= q * gw + m - k * gw <= q * gw + m
  {
    MulLe(k, q, gw);
    MulLe(0, k, gw);
  }

  lemma BottomInside(q: int, m: int, n: int, gw: int, k: int)
    requires 0 <= q && 0 <= m < gw && 0 <= k <= n - 1 - q
    ensures q * gw + m <= q * gw + m + k * gw < n * gw
  {
    MulLe(q + k + 1, n, gw);
    MulLe(0, k, gw);
    assert (q + k + 1) * gw == q * gw + k * gw + gw;
  }

  /** The height seen k steps from tree i in direction d, or -1 past the edge. */
  function Sight(trees: seq<int>, gw: int, i: int, d: Dir, k: int): int
    requires Fits(trees, gw) && 0 <= i < |trees| && k >= 1
  {
    if k <= Reach(trees, gw, i, d) then
      PosInside(trees, gw, i, d, k);
      trees[Pos(gw, i, d, k)]
    else -1
  }

  /** The first distance from k on where the view from tree i in direction d
      ends: at a tree at least as tall, or one step past the edge. */
  function ViewFrom(trees: seq<int>, gw: int, i: int, d: Dir, k: nat): (v: nat)
    requires Fits(trees, gw) && 0 <= i < |trees| && 1 <= k <= Reach(trees, gw, i, d) + 1
    ensures k <= v <= Reach(trees, gw, i, d) + 1
    ensures v <= Reach(trees, gw, i, d) ==> Sight(trees, gw, i, d, v) >= trees[i]
    ensures forall m :: k <= m < v ==> Sight(trees, gw, i, d, m) < trees[i]
    decreases Reach(trees, gw, i, d) + 1 - k
  {
    if k == Reach(trees, gw, i, d) + 1 || Sight(trees, gw, i, d, k) >= trees[i] then k
    else ViewFrom(trees, gw, i, d, k + 1)
  }

  function View(trees: seq<int>, gw: int, i: int, d: Dir): nat
    requires Fits(trees, gw) && 0 <= i < |trees|
  {
    ViewFrom(trees, gw, i, d, 1)
  }

  /** Every tree between tree i and the edge in direction d is strictly shorter. */
  predicate Clear(trees: seq<int>, gw: int, i: int, d: Dir)
    requires Fits(trees, gw) && 0 <= i < |trees|
  {
    forall k :: 1 <= k <= Reach(trees, gw, i, d) ==> Sight(trees, gw, i, d, k) < trees[i]
  }

  /** A tree is visible from outside when some direction is clear. */
  predicate VisibleFromEdge(trees: seq<int>, gw: int, i: int)
    requires Fits(trees, gw) && 0 <= i < |trees|
  {
    exists d :: Clear(trees, gw, i, d)
  }

  lemma ClearIffViewPastEdge(trees: seq<int>, gw: int, i: int, d: Dir)
    requires Fits(trees, gw) && 0 <= i < |trees|
    ensures Clear(trees, gw, i, d) <==> View(trees, gw, i, d) == Reach(trees, gw, i, d) + 1
  {
    var v := View(trees, gw, i, d);
    if v <= Reach(trees, gw, i, d) {
      assert Sight(trees, gw, i, d, v) >= trees[i];
    }
  }

  /** The viewing distance in direction d: the trees seen up to and including
      the first one at least as tall, stopping at the edge. */
  function Distance(trees: seq<int>, gw: int, i: int, d: Dir): (n: nat)
    requires Fits(trees, gw) && 0 <= i < |trees|
    ensures n <= Reach(trees, gw, i, d)
    ensures forall k :: 1 <= k < n ==> Sight(trees, gw, i, d, k) < trees[i]
    ensures n < Reach(trees, gw, i, d) ==> 1 <= n && Sight(trees, gw, i, d, n) >= trees[i]
  {
    var v := View(trees, gw, i, d);
    if v <= Reach(trees, gw, i, d) then v else Reach(trees, gw, i, d)
  }

  /** The scenic score: the product of the four viewing distances. */
  function Score(trees: seq<int>, gw: int, i: int): int
    requires Fits(trees, gw) && 0 <= i < |trees|
  {
    Distance(trees, gw, i, Left) * Distance(trees, gw, i, Right)
      * Distance(trees, gw, i, Top) * Distance(trees, gw, i, Bottom)
  }

  lemma ScoreNonNegative(trees: seq<int>, gw: int, i: int)
    requires Fits(trees, gw) && 0 <= i < |trees|
    ensures Score(trees, gw, i) >= 0
  {
    var a, b := Distance(trees, gw, i, Left), Distance(trees, gw, i, Right);
    var c, e := Distance(trees, gw, i, Top), Distance(trees, gw, i, Bottom);
    MulLe(0, a, b);
    MulLe(0, a * b, c);
    MulLe(0, a * b * c, e);
  }

  /** On the perimeter: some direction has no trees before the edge. */
  predicate OnBorder(trees: seq<int>, gw: int, i: int)
    requires Fits(trees, gw) && 0 <= i < |trees|
  {
    exists d :: Reach(trees, gw, i, d) == 0
  }

  /** Every perimeter tree is visible and scores 0. */
  lemma BorderVisibleScoresZero(trees: seq<int>, gw: int, i: int)
    requires Fits(trees, gw) && 0 <= i < |trees| && OnBorder(trees, gw, i)
    ensures VisibleFromEdge(trees, gw, i) && Score(trees, gw, i) == 0
  {
    var d :| Reach(trees, gw, i, d) == 0;
    assert Clear(trees, gw, i, d);
    assert Distance(trees, gw, i, d) == 0;
    ZeroFactor(Distance(trees, gw, i, Left), Distance(trees, gw, i, Right),
      Distance(trees, gw, i, Top), Distance(trees, gw, i, Bottom));
  }

  lemma ZeroFactor(a: int, b: int, c: int, e: int)
    requires a == 0 || b == 0 || c == 0 || e == 0
    ensures a * b * c * e == 0
  {
    if a == 0 {
    } else if b == 0 {
    } else if c == 0 {
      assert a * b * c == 0;
    } else {
    }
  }

  /** The perimeter is the first and last column and the first and last row. */
  lemma BorderIsPerimeter(trees: seq<int>, gw: int, i: int)
    requires Fits(trees, gw) && 0 <= i < |trees|
    ensures OnBorder(trees, gw, i) <==>
      (i % gw == 0 || i < gw || i % gw == gw - 1 || i / gw == Depth(trees, gw) - 1)
  {
    Coordinates(trees, gw, i);
    if i < gw {
      DivOf(i, 0, i, gw);
      assert Reach(trees, gw, i, Top) == 0;
    }
    if i % gw == 0 {
      assert Reach(trees, gw, i, Left) == 0;
    }
    if i % gw == gw - 1 {
      assert Reach(trees, gw, i, Right) == 0;
    }
    if i / gw == Depth(trees, gw) - 1 {
      assert Reach(trees, gw, i, Bottom) == 0;
    }
  }

  /** Everything the scans learn at radius r in a direction not yet blocked:
      past the edge the direction is clear, a tree at least as tall ends the
      view there, a shorter tree lets the view go on. */
  lemma ViewStep(trees: seq<int>, gw: int, i: int, d: Dir, r: nat)
    requires Fits(trees, gw) && Digits(trees) && 0 <= i < |trees|
    requires 1 <= r <= View(trees, gw, i, d)
    ensures r <= Reach(trees, gw, i, d) + 1
    ensures Sight(trees, gw, i, d, r) == -1 ==>
      View(trees, gw, i, d) == r && Clear(trees, gw, i, d) && Distance(trees, gw, i, d) == r - 1
    ensures Sight(trees, gw, i, d, r) != -1 && Sight(trees, gw, i, d, r) >= trees[i] ==>
      View(trees, gw, i, d) == r && r <= Reach(trees, gw, i, d) && Distance(trees, gw, i, d) == r
    ensures Sight(trees, gw, i, d, r) != -1 && Sight(trees, gw, i, d, r) < trees[i] ==>
      View(trees, gw, i, d) > r
  {
    ClearIffViewPastEdge(trees, gw, i, d);
    if r <= Reach(trees, gw, i, d) {
      PosInside(trees, gw, i, d, r);
      assert Sight(trees, gw, i, d, r) == trees[Pos(gw, i, d, r)] >= 0;
    }
  }

  /** The largest of the four views; no scan goes beyond this radius. */
  function MaxView(trees: seq<int>, gw: int, i: int): (m: nat)
    requires Fits(trees, gw) && 0 <= i < |trees|
    ensures forall d :: View(trees, gw, i, d) <= m
  {
    var a, b := View(trees, gw, i, Left), View(trees, gw, i, Right);
    var c, e := View(trees, gw, i, Top), View(trees, gw, i, Bottom);
    var ab := if a < b then b else a;
    var ce := if c < e then e else c;
    if ab < ce then ce else ab
  }

  // ---------------------------------------------------------------------------
  // The source's index tests
  // ---------------------------------------------------------------------------

  /** C# integer division, which truncates toward zero. */
  function CDiv(a: int, b: int): int
    requires b > 0
  {
    if a >= 0 then a / b else -((-a) / b)
  }

  lemma LeftEdge(gw: int, i: int, r: int)
    requires gw > 0 && 0 <= i && 1 <= r <= i % gw + 1 && i - r >= 0
    ensures (i - r) / gw == i / gw <==> r <= i % gw
  {
    var q, m := i / gw, i % gw;
    assert i == q * gw + m;
    if r <= m {
      DivOf(i - r, q, m - r, gw);
    } else {
      DivOf(i - r, q - 1, gw - 1, gw);
    }
  }

  lemma LeftEdgeOrStart(gw: int, i: int, r: int)
    requires gw > 0 && 0 <= i && 1 <= r <= i % gw + 1
    ensures (i - r < 0 || (i - r) / gw != i / gw) <==> r > i % gw
  {
    var q, m := i / gw, i % gw;
    assert i == q * gw + m;
    if i - r >= 0 {
      LeftEdge(gw, i, r);
    } else if q > 0 {
      MulLe(1, q, gw);
    }
  }

  lemma RightEdge(gw: int, i: int, r: int)
    requires gw > 0 && 0 <= i && 1 <= r <= gw - i % gw
    ensures (i + r) / gw == i / gw <==> r < gw - i % gw
  {
    var q, m := i / gw, i % gw;
    assert i == q * gw + m;
    if r < gw - m {
      DivOf(i + r, q, m + r, gw);
    } else {
      DivOf(i + r, q + 1, 0, gw);
    }
  }

  lemma TopEdge(gw: int, i: int, r: int)
    requires gw > 0 && 0 <= i && 1 <= r <= i / gw + 1
    ensures i - r * gw < 0 <==> r > i / gw
  {
    var q, m := i / gw, i % gw;
    assert i == q * gw + m;
    if r <= q {
      MulLe(r, q, gw);
    } else {
      assert r * gw == q * gw + gw;
    }
  }

  lemma BottomEdge(trees: seq<int>, gw: int, i: int, r: int)
    requires Fits(trees, gw) && 0 <= i < |trees| && 1 <= r <= Reach(trees, gw, i, Bottom) + 1
    ensures i + r * gw > |trees| - 1 <==> r > Reach(trees, gw, i, Bottom)
    ensures i % gw > 0 ==> (i + r * gw > |trees| <==> r > Reach(trees, gw, i, Bottom))
  {
    Coordinates(trees, gw, i);
    var q, m, n := i / gw, i % gw, Depth(trees, gw);
    if r <= Reach(trees, gw, i, Bottom) {
      MulLe(q + r + 1, n, gw);
      assert (q + r + 1) * gw == q * gw + r * gw + gw;
    } else {
      assert (q + r) * gw == q * gw + r * gw;
    }
  }

  /** The border test of part one. The last-row test only matches the last
      row when the grid is square. */
  predicate BorderAsWritten(gw: int, i: int)
    requires gw > 0
  {
    i % gw == 0 || i < gw || i % gw == gw - 1 || i > (gw - 1) * gw
  }

  /** Part one's height lookup, which it only makes for trees that are not
      on its border: its tests are exactly the grid's edges. */
  function HeightOne(trees: seq<int>, gw: int, i: int, d: Dir, r: int): (h: int)
    requires Fits(trees, gw) && 0 <= i < |trees| && !BorderAsWritten(gw, i)
    requires 1 <= r <= Reach(trees, gw, i, d) + 1
    ensures h == Sight(trees, gw, i, d, r)
  {
    Coordinates(trees, gw, i);
    match d
    case Left =>
      LeftEdge(gw, i, r);
      if CDiv(i, gw) != CDiv(i - r, gw) then -1 else PosInside(trees, gw, i, d, r); trees[i - r]
    case Right =>
      RightEdge(gw, i, r);
      if CDiv(i, gw) != CDiv(i + r, gw) then -1 else PosInside(trees, gw, i, d, r); trees[i + r]
    case Top =>
      TopEdge(gw, i, r);
      if i - r * gw < 0 then -1 else PosInside(trees, gw, i, d, r); trees[i - r * gw]
    case Bottom =>
      BottomEdge(trees, gw, i, r);
      if i + r * gw > |trees| then -1 else PosInside(trees, gw, i, d, r); trees[i + r * gw]
  }

  /** Part two's height lookup: its tests are exactly the grid's edges too. */
  function HeightTwo(trees: seq<int>, gw: int, i: int, d: Dir, r: int): (h: int)
    requires Fits(trees, gw) && 0 <= i < |trees|
    requires 1 <= r <= Reach(trees, gw, i, d) + 1
    ensures h == Sight(trees, gw, i, d, r)
  {
    Coordinates(trees, gw, i);
    match d
    case Left =>
      LeftEdgeOrStart(gw, i, r);
      if i - r < 0 || CDiv(i, gw) != CDiv(i - r, gw) then -1 else PosInside(trees, gw, i, d, r); trees[i - r]
    case Right =>
      RightEdge(gw, i, r);
      if i + r < 0 || CDiv(i, gw) != CDiv(i + r, gw) then -1 else PosInside(trees, gw, i, d, r); trees[i + r]
    case Top =>
      TopEdge(gw, i, r);
      if i - r * gw > |trees| - 1 || i - r * gw < 0 then -1 else PosInside(trees, gw, i, d, r); trees[i - r * gw]
    case Bottom =>
      BottomEdge(trees, gw, i, r);
      if i + r * gw > |trees| - 1 || i + r * gw > |trees| then -1 else PosInside(trees, gw, i, d, r); trees[i + r * gw]
  }

  // ---------------------------------------------------------------------------
  // The scans
  // ---------------------------------------------------------------------------

  /** The radius up to which direction d has been scanned after visiting the
      first j directions of radius r. */
  function Done(d: Dir, r: int, j: int): int
  {
    if Index(d) < j then r else r - 1
  }

  /** Some direction is still open while not all are blocked. */
  lemma SomeOpen(blocked: set<Dir>) returns (d: Dir)
    requires blocked != AllDirs()
    ensures d !in blocked
  {
    if Left !in blocked {
      d := Left;
    } else if Right !in blocked {
      d := Right;
    } else if Top !in blocked {
      d := Top;
    } else {
      forall e: Dir ensures e in AllDirs() {
        match e
        case Left =>
        case Right =>
        case Top =>
        case Bottom =>
      }
      d := Bottom;
    }
  }

  /** Part one's knowledge of direction d after the first j directions of
      radius r: d is blocked iff its view ended within the radii done, and
      such a view ended at a tree. */
  predicate SeenOne(trees: seq<int>, gw: int, i: int, blocked: set<Dir>, d: Dir, r: int, j: int)
    requires Fits(trees, gw) && 0 <= i < |trees|
  {
    var m := Done(d, r, j);
    (d in blocked <==> View(trees, gw, i, d) <= m)
    && (View(trees, gw, i, d) <= m ==> View(trees, gw, i, d) <= Reach(trees, gw, i, d))
  }

  lemma NoneClear(trees: seq<int>, gw: int, i: int)
    requires Fits(trees, gw) && 0 <= i < |trees|
    requires forall d :: View(trees, gw, i, d) <= Reach(trees, gw, i, d)
    ensures !VisibleFromEdge(trees, gw, i)
  {
    forall d ensures !Clear(trees, gw, i, d) {
      ClearIffViewPastEdge(trees, gw, i, d);
    }
  }

  /** Moving on to the next direction of the round keeps every other
      direction's knowledge. */
  lemma SeenNext(trees: seq<int>, gw: int, i: int, b: set<Dir>, b': set<Dir>, r: int, j: int, k: int)
    requires Fits(trees, gw) && 0 <= i < |trees| && 0 <= j < 4 && k == j + 1
    requires forall e :: SeenOne(trees, gw, i, b, e, r, j)
    requires SeenOne(trees, gw, i, b', Dirs()[j], r, k)
    requires b' - {Dirs()[j]} == b - {Dirs()[j]}
    ensures forall e :: SeenOne(trees, gw, i, b', e, r, k)
  {
    forall e ensures SeenOne(trees, gw, i, b', e, r, k) {
      if e != Dirs()[j] {
        assert SeenOne(trees, gw, i, b, e, r, j);
        assert e in b' - {Dirs()[j]} <==> e in b - {Dirs()[j]};
      }
    }
  }

  /** After the four directions of radius r, the next round starts. */
  lemma SeenRound(trees: seq<int>, gw: int, i: int, b: set<Dir>, r: int, r': int)
    requires Fits(trees, gw) && 0 <= i < |trees| && r' == r + 1
    requires forall e :: SeenOne(trees, gw, i, b, e, r, 4)
    ensures forall e :: SeenOne(trees, gw, i, b, e, r', 0)
  {
    forall e ensures SeenOne(trees, gw, i, b, e, r', 0) {
      assert SeenOne(trees, gw, i, b, e, r, 4);
    }
  }

  /** With every direction blocked at a tree, no direction is clear. */
  lemma SeenAllBlocked(trees: seq<int>, gw: int, i: int, b: set<Dir>, r: int, j: int)
    requires Fits(trees, gw) && 0 <= i < |trees| && b == AllDirs()
    requires forall e :: SeenOne(trees, gw, i, b, e, r, j)
    ensures !VisibleFromEdge(trees, gw, i)
  {
    forall e ensures View(trees, gw, i, e) <= Reach(trees, gw, i, e) {
      assert SeenOne(trees, gw, i, b, e, r, j);
      assert e in b;
    }
    NoneClear(trees, gw, i);
  }

  /** One round of part one's scan: each direction not yet blocked looks
      one tree further; the round stops early at a clear view to the edge
      or once all four directions are blocked. */
  method VisibleRound(trees: seq<int>, gw: int, i: int, blocked0: set<Dir>, r: int)
    returns (blocked: set<Dir>, visible: bool, done: bool)
    requires Fits(trees, gw) && Digits(trees) && 0 <= i < |trees| && !BorderAsWritten(gw, i) && r >= 1
    requires blocked0 != AllDirs()
    requires forall e :: SeenOne(trees, gw, i, blocked0, e, r, 0)
    ensures done ==> (visible <==> VisibleFromEdge(trees, gw, i))
    ensures !done ==> !visible && blocked != AllDirs()
    ensures !done ==> forall e :: SeenOne(trees, gw, i, blocked, e, r, 4)
  {
    ghost var goal := VisibleFromEdge(trees, gw, i);
    blocked, visible, done := blocked0, false, false;
    var j := 0;
    while j < 4
      invariant 0 <= j <= 4
      invariant done ==> (visible <==> goal)
      invariant !done ==> !visible && blocked != AllDirs()
      invariant !done ==> forall e :: SeenOne(trees, gw, i, blocked, e, r, j)
    {
      var d := Dirs()[j];
      ghost var b0 := blocked;
      assert SeenOne(trees, gw, i, blocked, d, r, j);
      if d !in blocked {
        ViewStep(trees, gw, i, d, r);
        var height := HeightOne(trees, gw, i, d, r);
        // `directionsBlocked &= dir` in the source's test: d is open, so
        // the intersection is empty and the test always passes.
        var edge := false;
        if height == -1 {
          blocked := blocked * {d};
          edge := blocked != {d};
        }
        if edge {
          assert Clear(trees, gw, i, d);
          visible := true;
          done := true;
          break;
        }
        if height >= trees[i] {
          blocked := blocked + {d};
        }
        assert SeenOne(trees, gw, i, blocked, d, r, j + 1);
        SeenNext(trees, gw, i, b0, blocked, r, j, j + 1);
        if blocked == AllDirs() {
          SeenAllBlocked(trees, gw, i, blocked, r, j + 1);
          done := true;
          break;
        }
      } else {
        assert SeenOne(trees, gw, i, blocked, d, r, j + 1);
        SeenNext(trees, gw, i, b0, blocked, r, j, j + 1);
      }
      j := j + 1;
    }
  }

  /** Part one's scan of a tree off its border: true iff the tree is visible
      from outside. */
  method ScanVisible(trees: seq<int>, gw: int, i: int) returns (visible: bool)
    requires Fits(trees, gw) && Digits(trees) && 0 <= i < |trees| && !BorderAsWritten(gw, i)
    ensures visible == VisibleFromEdge(trees, gw, i)
  {
    ghost var goal := VisibleFromEdge(trees, gw, i);
    var blocked: set<Dir> := {};
    var r := 1;
    var done := false;
    visible := false;
    forall e ensures SeenOne(trees, gw, i, blocked, e, r, 0) {
      assert View(trees, gw, i, e) >= 1;
    }
    while !done
      invariant 1 <= r <= MaxView(trees, gw, i) + 1
      invariant done ==> (visible <==> goal)
      invariant !done ==> !visible && blocked != AllDirs()
      invariant !done ==> forall e :: SeenOne(trees, gw, i, blocked, e, r, 0)
      decreases MaxView(trees, gw, i) + 1 - r
    {
      ghost var open := SomeOpen(blocked);
      assert SeenOne(trees, gw, i, blocked, open, r, 0);
      blocked, visible, done := VisibleRound(trees, gw, i, blocked, r);
      if !done {
        SeenRound(trees, gw, i, blocked, r, r + 1);
      }
      r := r + 1;
    }
  }

  /** How many of the first n trees part one counts: those on its border
      test, and the others when visible from outside. */
  function CountOne(trees: seq<int>, gw: int, n: nat): nat
    requires Fits(trees, gw) && n <= |trees|
  {
    if n == 0 then 0
    else
      CountOne(trees, gw, n - 1)
        + (if BorderAsWritten(gw, n - 1) || VisibleFromEdge(trees, gw, n - 1) then 1 else 0)
  }

  /** How many of the first n trees are visible from outside. */
  function CountVisible(trees: seq<int>, gw: int, n: nat): nat
    requires Fits(trees, gw) && n <= |trees|
  {
    if n == 0 then 0
    else CountVisible(trees, gw, n - 1) + (if VisibleFromEdge(trees, gw, n - 1) then 1 else 0)
  }

  /** On a square grid part one's border test is exactly the perimeter. */
  lemma SquareBorder(trees: seq<int>, gw: int, i: int)
    requires Fits(trees, gw) && 0 <= i < |trees| && Depth(trees, gw) == gw
    ensures BorderAsWritten(gw, i) <==> OnBorder(trees, gw, i)
  {
    BorderIsPerimeter(trees, gw, i);
    Coordinates(trees, gw, i);
    var q, m := i / gw, i % gw;
    if q <= gw - 2 {
      MulLe(q + 1, gw - 1, gw);
      assert (q + 1) * gw == q * gw + gw;
    } else {
      assert q == gw - 1;
    }
  }

  /** On a square grid part one counts exactly the trees visible from outside. */
  lemma {:induction false} CountOneSquare(trees: seq<int>, gw: int, n: nat)
    requires Fits(trees, gw) && n <= |trees| && Depth(trees, gw) == gw
    ensures CountOne(trees, gw, n) == CountVisible(trees, gw, n)
  {
    if n > 0 {
      CountOneSquare(trees, gw, n - 1);
      SquareBorder(trees, gw, n - 1);
      if OnBorder(trees, gw, n - 1) {
        BorderVisibleScoresZero(trees, gw, n - 1);
      }
    }
  }

  /** A grid taller than it is wide: 3 columns, 4 rows, a tree of height 1
      in row 2 hidden by the 9s around it (and by the 1 above it). */
  function TallGrid(): seq<int>
  {
    [9, 9, 9,
     9, 1, 9,
     9, 1, 9,
     9, 9, 9]
  }

  /** Part one's last-row test `i > (gw - 1) * gw` takes row gw - 1 of a
      taller grid for the last row: tree 7 of TallGrid is counted although it
      is neither on the perimeter nor visible. */
  lemma TallGridMiscount()
    ensures Fits(TallGrid(), 3)
    ensures BorderAsWritten(3, 7)
    ensures !OnBorder(TallGrid(), 3, 7) && !VisibleFromEdge(TallGrid(), 3, 7)
  {
    var t := TallGrid();
    assert Fits(t, 3);
    Coordinates(t, 3, 7);
    assert 7 / 3 == 2 && 7 % 3 == 1;
    assert Depth(t, 3) == 4;
    BorderIsPerimeter(t, 3, 7);
    assert Sight(t, 3, 7, Left, 1) == t[6] == 9;
    assert Sight(t, 3, 7, Right, 1) == t[8] == 9;
    assert Sight(t, 3, 7, Top, 1) == t[4] == 1;
    assert Sight(t, 3, 7, Bottom, 1) == t[10] == 9;
    forall d ensures !Clear(t, 3, 7, d) {
      assert Sight(t, 3, 7, d, 1) >= t[7];
    }
  }

  /** The intended count: perimeter trees without a scan, the others when
      visible. It counts exactly the visible trees on every grid. */
  function CountIntended(trees: seq<int>, gw: int, n: nat): (c: nat)
    requires Fits(trees, gw) && n <= |trees|
    ensures c == CountVisible(trees, gw, n)
  {
    if n == 0 then 0
    else
      var border := OnBorder(trees, gw, n - 1);
      if border then
        BorderVisibleScoresZero(trees, gw, n - 1);
        CountIntended(trees, gw, n - 1) + 1
      else
        CountIntended(trees, gw, n - 1) + (if VisibleFromEdge(trees, gw, n - 1) then 1 else 0)
  }

  /** Part one's answer, or None when a character is not a digit. */
  function PartOne(input: string): Option<int>
    requires Forest(input)
  {
    match Trees(input)
    case None => None
    case Some(t) => if t == [] then Some(0) else Some(CountOne(t, Width(input), |t|))
  }

  method SolvePartOne(input: string) returns (r: Option<int>)
    requires Forest(input)
    ensures r == PartOne(input)
  {
    var parsed := Trees(input);
    if parsed.None? {
      return None;
    }
    var trees := parsed.value;
    var gw := Width(input);
    if trees == [] {
      return Some(0);
    }
    var visible := 0;
    for i := 0 to |trees|
      invariant visible == CountOne(trees, gw, i)
    {
      if BorderAsWritten(gw, i) {
        visible := visible + 1;
        continue;
      }
      var v := ScanVisible(trees, gw, i);
      if v {
        visible := visible + 1;
      }
    }
    return Some(visible);
  }

  /** Part two's count for direction d after m radii: every radius before the
      view ended, then the viewing distance. */
  function Seen(trees: seq<int>, gw: int, i: int, d: Dir, m: int): int
    requires Fits(trees, gw) && 0 <= i < |trees|
  {
    if m < View(trees, gw, i, d) then m else Distance(trees, gw, i, d)
  }

  /** Part two's state for direction d after the first j directions of
      radius r. */
  predicate Tally(trees: seq<int>, gw: int, i: int, blocked: set<Dir>, scores: map<Dir, int>, d: Dir, r: int, j: int)
    requires Fits(trees, gw) && 0 <= i < |trees|
  {
    var m := Done(d, r, j);
    (d in blocked <==> View(trees, gw, i, d) <= m)
    && d in scores && scores[d] == Seen(trees, gw, i, d, m)
  }

  /** Moving on to the next direction of the round keeps every other
      direction's count. */
  lemma TallyNext(trees: seq<int>, gw: int, i: int, b: set<Dir>, s: map<Dir, int>,
                  b': set<Dir>, s': map<Dir, int>, r: int, j: int, k: int)
    requires Fits(trees, gw) && 0 <= i < |trees| && 0 <= j < 4 && k == j + 1
    requires forall e :: Tally(trees, gw, i, b, s, e, r, j)
    requires Tally(trees, gw, i, b', s', Dirs()[j], r, k)
    requires b' - {Dirs()[j]} == b - {Dirs()[j]}
    requires forall e :: e in s ==> e in s' && (e != Dirs()[j] ==> s'[e] == s[e])
    ensures forall e :: Tally(trees, gw, i, b', s', e, r, k)
  {
    forall e ensures Tally(trees, gw, i, b', s', e, r, k) {
      if e != Dirs()[j] {
        assert Tally(trees, gw, i, b, s, e, r, j);
        assert e in b' - {Dirs()[j]} <==> e in b - {Dirs()[j]};
      }
    }
  }

  /** After the four directions of radius r, the next round starts. */
  lemma TallyRound(trees: seq<int>, gw: int, i: int, b: set<Dir>, s: map<Dir, int>, r: int, r': int)
    requires Fits(trees, gw) && 0 <= i < |trees| && r' == r + 1
    requires forall e :: Tally(trees, gw, i, b, s, e, r, 4)
    ensures forall e :: Tally(trees, gw, i, b, s, e, r', 0)
  {
    forall e ensures Tally(trees, gw, i, b, s, e, r', 0) {
      assert Tally(trees, gw, i, b, s, e, r, 4);
    }
  }

  /** Once every direction is blocked, the directions not yet visited this
      round have nothing left to count. */
  lemma TallyAllBlocked(trees: seq<int>, gw: int, i: int, b: set<Dir>, s: map<Dir, int>, r: int, j: int)
    requires Fits(trees, gw) && 0 <= i < |trees| && b == AllDirs()
    requires forall e :: Tally(trees, gw, i, b, s, e, r, j)
    ensures forall e :: Tally(trees, gw, i, b, s, e, r, 4)
  {
    forall e ensures Tally(trees, gw, i, b, s, e, r, 4) {
      assert Tally(trees, gw, i, b, s, e, r, j);
      assert e in b;
    }
  }

  /** With every direction blocked, each count is the viewing distance. */
  lemma TallyFinal(trees: seq<int>, gw: int, i: int, b: set<Dir>, s: map<Dir, int>, r: int)
    requires Fits(trees, gw) && 0 <= i < |trees| && b == AllDirs()
    requires forall e :: Tally(trees, gw, i, b, s, e, r, 0)
    ensures forall e :: e in s && s[e] == Distance(trees, gw, i, e)
  {
    forall e ensures e in s && s[e] == Distance(trees, gw, i, e) {
      assert Tally(trees, gw, i, b, s, e, r, 0);
      assert e in b;
    }
  }

  /** The counts before the first round. */
  lemma TallyStart(trees: seq<int>, gw: int, i: int)
    requires Fits(trees, gw) && 0 <= i < |trees|
    ensures forall e :: Tally(trees, gw, i, {}, map[Left := 0, Right := 0, Top := 0, Bottom := 0], e, 1, 0)
  {
    forall e ensures Tally(trees, gw, i, {}, map[Left := 0, Right := 0, Top := 0, Bottom := 0], e, 1, 0) {
      assert View(trees, gw, i, e) >= 1;
      match e
      case Left =>
      case Right =>
      case Top =>
      case Bottom =>
    }
  }

  /** One round of part two's scan: each direction not yet blocked looks
      one tree further; the round stops early once all four are blocked. */
  method ScanRound(trees: seq<int>, gw: int, i: int, blocked0: set<Dir>, scores0: map<Dir, int>, r: int)
    returns (blocked: set<Dir>, scores: map<Dir, int>, done: bool)
    requires Fits(trees, gw) && Digits(trees) && 0 <= i < |trees| && r >= 1
    requires blocked0 != AllDirs()
    requires forall e :: Tally(trees, gw, i, blocked0, scores0, e, r, 0)
    ensures done <==> blocked == AllDirs()
    ensures forall e :: Tally(trees, gw, i, blocked, scores, e, r, 4)
  {
    blocked, scores, done := blocked0, scores0, false;
    var j := 0;
    ghost var upto := 0;
    while j < 4
      invariant 0 <= j <= 4 && upto == (if done then 4 else j)
      invariant done <==> blocked == AllDirs()
      invariant forall e :: Tally(trees, gw, i, blocked, scores, e, r, upto)
    {
      var d := Dirs()[j];
      ghost var b0, s0 := blocked, scores;
      assert Tally(trees, gw, i, blocked, scores, d, r, j);
      if d !in blocked {
        ViewStep(trees, gw, i, d, r);
        var height := HeightTwo(trees, gw, i, d, r);
        if height == -1 {
          blocked := blocked + {d};
        } else if height >= trees[i] {
          scores := scores[d := scores[d] + 1];
          blocked := blocked + {d};
        } else {
          scores := scores[d := scores[d] + 1];
        }
        assert Tally(trees, gw, i, blocked, scores, d, r, j + 1);
        TallyNext(trees, gw, i, b0, s0, blocked, scores, r, j, j + 1);
        if blocked == AllDirs() {
          TallyAllBlocked(trees, gw, i, blocked, scores, r, j + 1);
          done := true;
          upto := 4;
          break;
        }
      } else {
        assert Tally(trees, gw, i, blocked, scores, d, r, j + 1);
        TallyNext(trees, gw, i, b0, s0, blocked, scores, r, j, j + 1);
      }
      j := j + 1;
      upto := j;
    }
  }

  /** Part two's scan of one tree: its scenic score. */
  method ScanScore(trees: seq<int>, gw: int, i: int) returns (score: int)
    requires Fits(trees, gw) && Digits(trees) && 0 <= i < |trees|
    ensures score == Score(trees, gw, i)
  {
    var blocked: set<Dir> := {};
    var scores := map[Left := 0, Right := 0, Top := 0, Bottom := 0];
    var r := 1;
    var done := false;
    TallyStart(trees, gw, i);
    while !done
      invariant 1 <= r <= MaxView(trees, gw, i) + 1
      invariant done <==> blocked == AllDirs()
      invariant forall e :: Tally(trees, gw, i, blocked, scores, e, r, 0)
      decreases MaxView(trees, gw, i) + 1 - r
    {
      ghost var open := SomeOpen(blocked);
      assert Tally(trees, gw, i, blocked, scores, open, r, 0);
      blocked, scores, done := ScanRound(trees, gw, i, blocked, scores, r);
      TallyRound(trees, gw, i, blocked, scores, r, r + 1);
      r := r + 1;
    }
    TallyFinal(trees, gw, i, blocked, scores, r);
    score := scores[Left] * scores[Right] * scores[Top] * scores[Bottom];
  }

  /** The best score among the first n trees, starting from 0. */
  function Best(trees: seq<int>, gw: int, n: nat): (b: int)
    requires Fits(trees, gw) && n <= |trees|
    ensures b >= 0
    ensures forall k :: 0 <= k < n ==> Score(trees, gw, k) <= b
    ensures b == 0 || exists k :: 0 <= k < n && Score(trees, gw, k) == b
  {
    if n == 0 then 0
    else
      var b := Best(trees, gw, n - 1);
      var s := Score(trees, gw, n - 1);
      if s > b then s else b
  }

  /** Part two's answer, or None when a character is not a digit. */
  function PartTwo(input: string): Option<int>
    requires Forest(input)
  {
    match Trees(input)
    case None => None
    case Some(t) => if t == [] then Some(0) else Some(Best(t, Width(input), |t|))
  }

  method SolvePartTwo(input: string) returns (r: Option<int>)
    requires Forest(input)
    ensures r == PartTwo(input)
  {
    var parsed := Trees(input);
    if parsed.None? {
      return None;
    }
    var trees := parsed.value;
    var gw := Width(input);
    if trees == [] {
      return Some(0);
    }
    var bestScore := 0;
    for i := 0 to |trees|
      invariant bestScore == Best(trees, gw, i)
    {
      var score := ScanScore(trees, gw, i);
      if score > bestScore {
        bestScore := score;
      }
    }
    return Some(bestScore);
  }
}
