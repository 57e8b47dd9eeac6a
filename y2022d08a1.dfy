/** 2022 day 8, alternative solution: one scan per tree computes both whether
    it is visible from outside and its scenic score. Part one keeps the
    per-tree results in a field, and part two reads the best score back from
    that field. */
module Y2022D08A1 {
  import opened Wrappers
  import opened Strings
  import opened Seqs
  import D08 = Y2022D08

  /** Grid width: the position of the first newline (-1 when there is none). */
  function Width(input: string): int
  {
    IndexOf(input, '\n')
  }

  /** What the solution needs of its input: every character a digit, and the
      trees filling whole rows as wide as the first line, which ends in a
      newline. */
  predicate Forest(input: string)
  {
    match D08.Trees(input)
    case None => true
    case Some(t) => t == [] || D08.Fits(t, Width(input))
  }

  /** The first line is as long as the text before the first newline, so both
      solutions see the same width. */
  lemma {:induction false} WidthIsFirstLine(s: string)
    requires '\n' in s
    ensures Width(s) == |Split(s, '\n')[0]|
    decreases |s|
  {
    if s[0] == '\n' {
      assert s[..|"\n"|] == "\n";
    } else {
      assert s[..|"\n"|] != "\n";
      assert '\n' in s[1..] by {
        var k :| 0 <= k < |s| && s[k] == '\n';
        assert s[1..][k - 1] == '\n';
      }
      WidthIsFirstLine(s[1..]);
      assert Split(s, '\n')[0] == [s[0]] + Split(s[1..], '\n')[0];
    }
  }

  lemma SameWidth(input: string)
    requires D08.Trees(input).Some? && D08.Trees(input).value != [] && Forest(input)
    ensures D08.Forest(input) && Width(input) == D08.Width(input)
  {
    WidthIsFirstLine(input);
  }

  /** The height lookup: Left and Right are out of bounds when the index goes
      negative or leaves the row, Top and Bottom when it leaves the array.
      These are exactly the grid's edges. */
  function Height(trees: seq<int>, gw: int, i: int, d: D08.Dir, r: int): (h: int)
    requires D08.Fits(trees, gw) && 0 <= i < |trees|
    requires 1 <= r <= D08.Reach(trees, gw, i, d) + 1
    ensures h == D08.Sight(trees, gw, i, d, r)
  {
    D08.Coordinates(trees, gw, i);
    match d
    case Left =>
      D08.LeftEdgeOrStart(gw, i, r);
      if i - r < 0 || D08.CDiv(i, gw) != D08.CDiv(i - r, gw) then -1
      else D08.PosInside(trees, gw, i, d, r); trees[i - r]
    case Right =>
      D08.RightEdge(gw, i, r);
      if i + r < 0 || D08.CDiv(i, gw) != D08.CDiv(i + r, gw) then -1
      else D08.PosInside(trees, gw, i, d, r); trees[i + r]
    case Top =>
      D08.TopEdge(gw, i, r);
      if i - r * gw < 0 then -1
      else D08.PosInside(trees, gw, i, d, r); trees[i - r * gw]
    case Bottom =>
      D08.BottomEdge(trees, gw, i, r);
      if i + r * gw > |trees| - 1 then -1
      else D08.PosInside(trees, gw, i, d, r); trees[i + r * gw]
  }

  /** Direction e has reached the edge within the radii done after visiting
      the first j directions of radius r. */
  predicate EdgeSeen(trees: seq<int>, gw: int, i: int, e: D08.Dir, r: int, j: int)
    requires D08.Fits(trees, gw) && 0 <= i < |trees|
  {
    D08.View(trees, gw, i, e) <= D08.Done(e, r, j)
    && D08.View(trees, gw, i, e) == D08.Reach(trees, gw, i, e) + 1
  }

  /** Some direction has reached the edge. */
  predicate Reached(trees: seq<int>, gw: int, i: int, r: int, j: int)
    requires D08.Fits(trees, gw) && 0 <= i < |trees|
  {
    exists e :: EdgeSeen(trees, gw, i, e, r, j)
  }

  /** Visiting direction j of the round can only add that direction to the
      ones that have reached the edge. */
  lemma EdgeSeenNext(trees: seq<int>, gw: int, i: int, r: int, j: int, k: int)
    requires D08.Fits(trees, gw) && 0 <= i < |trees| && 0 <= j < 4 && k == j + 1
    ensures Reached(trees, gw, i, r, k)
      <==> Reached(trees, gw, i, r, j) || EdgeSeen(trees, gw, i, D08.Dirs()[j], r, k)
  {
    if e :| EdgeSeen(trees, gw, i, e, r, j) {
      assert EdgeSeen(trees, gw, i, e, r, k);
    }
    if e :| EdgeSeen(trees, gw, i, e, r, k) {
      if e != D08.Dirs()[j] {
        assert EdgeSeen(trees, gw, i, e, r, j);
      }
    }
  }

  lemma EdgeSeenRound(trees: seq<int>, gw: int, i: int, r: int, r': int)
    requires D08.Fits(trees, gw) && 0 <= i < |trees| && r' == r + 1
    ensures Reached(trees, gw, i, r', 0) <==> Reached(trees, gw, i, r, 4)
  {
    if e :| EdgeSeen(trees, gw, i, e, r', 0) {
      assert EdgeSeen(trees, gw, i, e, r, 4);
    }
    if e :| EdgeSeen(trees, gw, i, e, r, 4) {
      assert EdgeSeen(trees, gw, i, e, r', 0);
    }
  }

  /** Once every direction is blocked, the directions not yet visited this
      round have nothing left to reach. */
  lemma EdgeSeenAllBlocked(trees: seq<int>, gw: int, i: int, b: set<D08.Dir>, s: map<D08.Dir, int>, r: int, j: int)
    requires D08.Fits(trees, gw) && 0 <= i < |trees| && b == D08.AllDirs() && 0 <= j <= 4
    requires forall e :: D08.Tally(trees, gw, i, b, s, e, r, j)
    ensures Reached(trees, gw, i, r, 4) <==> Reached(trees, gw, i, r, j)
  {
    if e :| EdgeSeen(trees, gw, i, e, r, 4) {
      assert D08.Tally(trees, gw, i, b, s, e, r, j);
      assert e in b;
      assert EdgeSeen(trees, gw, i, e, r, j);
    }
    if e :| EdgeSeen(trees, gw, i, e, r, j) {
      assert EdgeSeen(trees, gw, i, e, r, 4);
    }
  }

  /** With every direction blocked, a direction has reached the edge iff it
      is clear. */
  lemma EdgeSeenFinal(trees: seq<int>, gw: int, i: int, b: set<D08.Dir>, s: map<D08.Dir, int>, r: int)
    requires D08.Fits(trees, gw) && 0 <= i < |trees| && b == D08.AllDirs()
    requires forall e :: D08.Tally(trees, gw, i, b, s, e, r, 0)
    ensures Reached(trees, gw, i, r, 0) <==> D08.VisibleFromEdge(trees, gw, i)
  {
    if e :| EdgeSeen(trees, gw, i, e, r, 0) {
      D08.ClearIffViewPastEdge(trees, gw, i, e);
    }
    if e :| D08.Clear(trees, gw, i, e) {
      D08.ClearIffViewPastEdge(trees, gw, i, e);
      assert D08.Tally(trees, gw, i, b, s, e, r, 0);
      assert e in b;
      assert EdgeSeen(trees, gw, i, e, r, 0);
    }
  }

  /** What visiting open direction j at radius r does to the counts and to
      `visible`, for each of the three outcomes of the height lookup. */
  lemma Visited(trees: seq<int>, gw: int, i: int, r: int, j: int, k: int,
                b0: set<D08.Dir>, s0: map<D08.Dir, int>, v0: bool, height: int,
                b1: set<D08.Dir>, s1: map<D08.Dir, int>, v1: bool)
    requires D08.Fits(trees, gw) && D08.Digits(trees) && 0 <= i < |trees|
    requires 0 <= j < 4 && k == j + 1 && r >= 1
    requires forall e :: D08.Tally(trees, gw, i, b0, s0, e, r, j)
    requires v0 <==> Reached(trees, gw, i, r, j)
    requires D08.Dirs()[j] !in b0 && D08.Dirs()[j] in s0
    requires r <= D08.View(trees, gw, i, D08.Dirs()[j])
    requires height == D08.Sight(trees, gw, i, D08.Dirs()[j], r)
    requires height == -1 ==> b1 == b0 + {D08.Dirs()[j]} && s1 == s0 && v1
    requires height != -1 && height >= trees[i] ==>
      b1 == b0 + {D08.Dirs()[j]} && s1 == s0[D08.Dirs()[j] := s0[D08.Dirs()[j]] + 1] && v1 == v0
    requires height != -1 && height < trees[i] ==>
      b1 == b0 && s1 == s0[D08.Dirs()[j] := s0[D08.Dirs()[j]] + 1] && v1 == v0
    ensures forall e :: D08.Tally(trees, gw, i, b1, s1, e, r, k)
    ensures v1 <==> Reached(trees, gw, i, r, k)
  {
    var d := D08.Dirs()[j];
    assert D08.Tally(trees, gw, i, b0, s0, d, r, j);
    D08.ViewStep(trees, gw, i, d, r);
    EdgeSeenNext(trees, gw, i, r, j, k);
    if height == -1 {
      assert EdgeSeen(trees, gw, i, d, r, k);
    } else {
      assert !EdgeSeen(trees, gw, i, d, r, k);
    }
    assert D08.Tally(trees, gw, i, b1, s1, d, r, k);
    D08.TallyNext(trees, gw, i, b0, s0, b1, s1, r, j, k);
  }

  /** Passing over a direction already blocked changes nothing. */
  lemma Skipped(trees: seq<int>, gw: int, i: int, r: int, j: int, k: int,
                b: set<D08.Dir>, s: map<D08.Dir, int>, v: bool)
    requires D08.Fits(trees, gw) && 0 <= i < |trees| && 0 <= j < 4 && k == j + 1
    requires forall e :: D08.Tally(trees, gw, i, b, s, e, r, j)
    requires v <==> Reached(trees, gw, i, r, j)
    requires D08.Dirs()[j] in b
    ensures forall e :: D08.Tally(trees, gw, i, b, s, e, r, k)
    ensures v <==> Reached(trees, gw, i, r, k)
  {
    var d := D08.Dirs()[j];
    assert D08.Tally(trees, gw, i, b, s, d, r, j);
    EdgeSeenNext(trees, gw, i, r, j, k);
    assert EdgeSeen(trees, gw, i, d, r, k) ==> EdgeSeen(trees, gw, i, d, r, j);
    assert D08.Tally(trees, gw, i, b, s, d, r, k);
    D08.TallyNext(trees, gw, i, b, s, b, s, r, j, k);
  }

  /** One tree's scan: visible from outside, and its scenic score. The loop
      ends exactly when all four directions are blocked. */
  method GetTreeStats(trees: seq<int>, i: int, gw: int) returns (visible: bool, score: int)
    requires D08.Fits(trees, gw) && D08.Digits(trees) && 0 <= i < |trees|
    ensures visible == D08.VisibleFromEdge(trees, gw, i)
    ensures score == D08.Score(trees, gw, i)
  {
    visible := false;
    var scores := map[D08.Left := 0, D08.Right := 0, D08.Top := 0, D08.Bottom := 0];
    var done := false;
    var r := 1;
    var blocked: set<D08.Dir> := {};
    D08.TallyStart(trees, gw, i);
    assert !Reached(trees, gw, i, r, 0);
    while !done
      invariant 1 <= r <= D08.MaxView(trees, gw, i) + 1
      invariant done <==> blocked == D08.AllDirs()
      invariant forall e :: D08.Tally(trees, gw, i, blocked, scores, e, r, 0)
      invariant visible <==> Reached(trees, gw, i, r, 0)
      decreases D08.MaxView(trees, gw, i) + 1 - r
    {
      ghost var open := D08.SomeOpen(blocked);
      assert D08.Tally(trees, gw, i, blocked, scores, open, r, 0);
      var j := 0;
      ghost var at := 0;
      while j < 4
        invariant 0 <= j <= 4 && at == (if done then 4 else j)
        invariant done <==> blocked == D08.AllDirs()
        invariant forall e :: D08.Tally(trees, gw, i, blocked, scores, e, r, at)
        invariant visible <==> Reached(trees, gw, i, r, at)
      {
        var d := D08.Dirs()[j];
        ghost var b0, s0, v0 := blocked, scores, visible;
        assert D08.Tally(trees, gw, i, blocked, scores, d, r, j);
        if d !in blocked {
          D08.ViewStep(trees, gw, i, d, r);
          var height := Height(trees, gw, i, d, r);
          if height == -1 {
            visible := visible || d !in blocked || r == 1;
            blocked := blocked + {d};
          } else if height >= trees[i] {
            scores := scores[d := scores[d] + 1];
            blocked := blocked + {d};
          } else {
            scores := scores[d := scores[d] + 1];
          }
          Visited(trees, gw, i, r, j, j + 1, b0, s0, v0, height, blocked, scores, visible);
          if blocked == D08.AllDirs() {
            D08.TallyAllBlocked(trees, gw, i, blocked, scores, r, j + 1);
            EdgeSeenAllBlocked(trees, gw, i, blocked, scores, r, j + 1);
            done := true;
            at := 4;
            break;
          }
        } else {
          Skipped(trees, gw, i, r, j, j + 1, blocked, scores, visible);
        }
        j := j + 1;
        at := j;
      }
      D08.TallyRound(trees, gw, i, blocked, scores, r, r + 1);
      EdgeSeenRound(trees, gw, i, r, r + 1);
      r := r + 1;
    }
    D08.TallyFinal(trees, gw, i, blocked, scores, r);
    EdgeSeenFinal(trees, gw, i, blocked, scores, r);
    score := scores[D08.Left] * scores[D08.Right] * scores[D08.Top] * scores[D08.Bottom];
  }

  /** The (visible, score) pairs of the first n trees. */
  function StatsUpTo(trees: seq<int>, gw: int, n: nat): (s: seq<(bool, int)>)
    requires D08.Fits(trees, gw) && n <= |trees|
    ensures |s| == n
    ensures forall k :: 0 <= k < n ==> s[k] == (D08.VisibleFromEdge(trees, gw, k), D08.Score(trees, gw, k))
  {
    if n == 0 then []
    else StatsUpTo(trees, gw, n - 1) + [(D08.VisibleFromEdge(trees, gw, n - 1), D08.Score(trees, gw, n - 1))]
  }

  /** _stats.Count(s => s.visibleFromEdge). */
  function Visibles(stats: seq<(bool, int)>): nat
  {
    if stats == [] then 0
    else Visibles(stats[..|stats| - 1]) + (if stats[|stats| - 1].0 then 1 else 0)
  }

  /** The scores of the pairs. */
  function Scores(stats: seq<(bool, int)>): (r: seq<int>)
    ensures |r| == |stats| && forall k :: 0 <= k < |stats| ==> r[k] == stats[k].1
  {
    seq(|stats|, k requires 0 <= k < |stats| => stats[k].1)
  }

  /** Counting the visible pairs counts the visible trees. */
  lemma {:induction false} VisiblesCount(trees: seq<int>, gw: int, n: nat)
    requires D08.Fits(trees, gw) && n <= |trees|
    ensures Visibles(StatsUpTo(trees, gw, n)) == D08.CountVisible(trees, gw, n)
  {
    if n > 0 {
      VisiblesCount(trees, gw, n - 1);
      var prev := StatsUpTo(trees, gw, n - 1);
      var last := (D08.VisibleFromEdge(trees, gw, n - 1), D08.Score(trees, gw, n - 1));
      var s := StatsUpTo(trees, gw, n);
      assert s == prev + [last];
      assert s[..|s| - 1] == prev;
      assert s[|s| - 1] == last;
    }
  }

  class Solver {
    /** The per-tree (visible, score) pairs left by the last part one. */
    var stats: seq<(bool, int)>

    constructor()
      ensures stats == []
    {
      stats := [];
    }

    /** Scans every tree, keeps the results, and counts the visible trees. A
        character that is not a digit fails before `stats` is replaced. */
    method SolvePartOne(input: string) returns (r: Option<int>)
      requires Forest(input)
      modifies this
      ensures D08.Trees(input).None? ==> r.None? && stats == old(stats)
      ensures D08.Trees(input).Some? && D08.Trees(input).value == [] ==> r == Some(0) && stats == []
      ensures D08.Trees(input).Some? && D08.Trees(input).value != [] ==>
        var trees := D08.Trees(input).value;
        stats == StatsUpTo(trees, Width(input), |trees|)
        && r == Some(D08.CountVisible(trees, Width(input), |trees|))
    {
      var gw := Width(input);
      var parsed := D08.Trees(input);
      if parsed.None? {
        return None;
      }
      var trees := parsed.value;
      if trees == [] {
        stats := [];
        return Some(0);
      }
      var collected: seq<(bool, int)> := [];
      for i := 0 to |trees|
        invariant collected == StatsUpTo(trees, gw, i)
      {
        var visible, score := GetTreeStats(trees, i, gw);
        collected := collected + [(visible, score)];
      }
      stats := collected;
      VisiblesCount(trees, gw, |trees|);
      return Some(Visibles(stats));
    }

    /** The best score among the kept results; None (an
        InvalidOperationException) when there are none. */
    method SolvePartTwo() returns (r: Option<int>)
      ensures r.None? <==> stats == []
      ensures r.Some? ==> r.value in Scores(stats)
      ensures r.Some? ==> forall k :: 0 <= k < |stats| ==> stats[k].1 <= r.value
    {
      r := Max(Scores(stats));
    }
  }

  lemma ScoresOfStats(trees: seq<int>, gw: int, n: nat)
    requires D08.Fits(trees, gw) && n <= |trees|
    ensures |Scores(StatsUpTo(trees, gw, n))| == n
    ensures forall k :: 0 <= k < n ==> Scores(StatsUpTo(trees, gw, n))[k] == D08.Score(trees, gw, k)
  {
  }

  /** The largest kept score is the best score, which starts from 0. */
  lemma BestOfScores(trees: seq<int>, gw: int)
    requires D08.Fits(trees, gw) && trees != []
    ensures Max(Scores(StatsUpTo(trees, gw, |trees|))) == Some(D08.Best(trees, gw, |trees|))
  {
    var scores := Scores(StatsUpTo(trees, gw, |trees|));
    ScoresOfStats(trees, gw, |trees|);
    BestIsMax(trees, gw, scores);
  }

  lemma BestIsMax(trees: seq<int>, gw: int, scores: seq<int>)
    requires D08.Fits(trees, gw) && trees != [] && |scores| == |trees|
    requires forall k :: 0 <= k < |trees| ==> scores[k] == D08.Score(trees, gw, k)
    ensures Max(scores) == Some(D08.Best(trees, gw, |trees|))
  {
    var b := D08.Best(trees, gw, |trees|);
    forall k | 0 <= k < |scores| ensures 0 <= scores[k] <= b {
      D08.ScoreNonNegative(trees, gw, k);
    }
    if b != 0 {
      var k :| 0 <= k < |trees| && D08.Score(trees, gw, k) == b;
      assert scores[k] == b;
    }
    MaxOfBounded(scores, b);
  }

  /** A bound that is reached, or 0 above non-negative values, is the maximum. */
  lemma MaxOfBounded(scores: seq<int>, b: int)
    requires scores != []
    requires forall k :: 0 <= k < |scores| ==> 0 <= scores[k] <= b
    requires b == 0 || b in scores
    ensures Max(scores) == Some(b)
  {
    var m := Max(scores);
    if b == 0 {
      assert 0 <= scores[0] <= m.value;
    }
  }

  /** On a non-empty forest, part two after part one gives the best score,
      which is also the answer of the first solution. */
  lemma BestOfStats(input: string)
    requires Forest(input) && D08.Trees(input).Some? && D08.Trees(input).value != []
    ensures D08.Forest(input)
    ensures
      var trees := D08.Trees(input).value;
      Max(Scores(StatsUpTo(trees, Width(input), |trees|))) == D08.PartTwo(input)
  {
    SameWidth(input);
    BestOfScores(D08.Trees(input).value, Width(input));
  }

  /** On a non-empty square forest both solutions count the same trees. */
  lemma SameCountOnSquare(input: string)
    requires Forest(input) && D08.Trees(input).Some? && D08.Trees(input).value != []
    requires D08.Depth(D08.Trees(input).value, Width(input)) == Width(input)
    ensures D08.Forest(input)
    ensures
      var trees := D08.Trees(input).value;
      Some(D08.CountVisible(trees, Width(input), |trees|)) == D08.PartOne(input)
  {
    SameWidth(input);
    var trees := D08.Trees(input).value;
    D08.CountOneSquare(trees, Width(input), |trees|);
  }
}
