/** Rope bridge: a rope of knots whose head follows the movements and whose
    other knots each follow the knot before them; the answer is the number
    of distinct positions one knot visits. */
module Y2022D09 {
  import opened Wrappers
  import opened Strings
  import InputHelpers

  datatype Pos = Pos(x: int, y: int)

  function Add(a: Pos, b: Pos): Pos
  {
    Pos(a.x + b.x, a.y + b.y)
  }

  function Sub(a: Pos, b: Pos): Pos
  {
    Pos(a.x - b.x, a.y - b.y)
  }

  function Abs(n: int): nat
  {
    if n < 0 then -n else n
  }

  /** The two knots are on the same or adjacent cells (diagonals included). */
  predicate Touching(a: Pos, b: Pos)
  {
    Abs(a.x - b.x) <= 1 && Abs(a.y - b.y) <= 1
  }

  /** One head step: L, R, D and U move one unit; any other letter is
      missing from the switch (it throws). */
  function Offset(dir: string): (r: Option<Pos>)
    ensures r.Some? <==> dir in {"L", "R", "D", "U"}
    ensures r.Some? ==> Abs(r.value.x) + Abs(r.value.y) == 1
  {
    if dir == "L" then Some(Pos(-1, 0))
    else if dir == "R" then Some(Pos(1, 0))
    else if dir == "D" then Some(Pos(0, -1))
    else if dir == "U" then Some(Pos(0, 1))
    else None
  }

  /** On neither axis is `r` farther from `h` than `t` is. */
  predicate NoFarther(h: Pos, t: Pos, r: Pos)
  {
    Abs(h.x - r.x) <= Abs(h.x - t.x) && Abs(h.y - r.y) <= Abs(h.y - t.y)
  }

  /** Where knot `t` goes when the knot before it is at `h`. A gap of more
      than one on both axes closes to one on both; a gap of more than one on
      one axis closes to one there and to zero on the other; otherwise the
      knot stays. On neither axis does the knot get farther from the knot
      before it. */
  function Follow(h: Pos, t: Pos): (r: Pos)
    ensures NoFarther(h, t, r)
  {
    var d := Sub(h, t);
    var move :=
      if d.x > 1 && d.y > 1 then Add(d, Pos(-1, -1))
      else if d.x < -1 && d.y < -1 then Add(d, Pos(1, 1))
      else if d.x < -1 && d.y > 1 then Add(d, Pos(1, -1))
      else if d.x > 1 && d.y < -1 then Add(d, Pos(-1, 1))
      else if d.x > 1 then d.(x := 1)
      else if d.x < -1 then d.(x := -1)
      else if d.y > 1 then d.(y := 1)
      else if d.y < -1 then d.(y := -1)
      else Pos(0, 0);
    Add(t, move)
  }

  /** A knot that already touches the knot before it stays put. */
  lemma FollowTouching(h: Pos, t: Pos)
    requires Touching(h, t)
    ensures Follow(h, t) == t
  {
  }

  /** A knot at most two away on each axis ends up touching the knot before
      it, having moved at most one unit on each axis. */
  lemma FollowNear(h: Pos, t: Pos)
    requires Abs(h.x - t.x) <= 2 && Abs(h.y - t.y) <= 2
    ensures Touching(h, Follow(h, t))
    ensures Touching(t, Follow(h, t))
  {
  }

  // ---------------------------------------------------------------------------
  // The rope, step by step.
  // ---------------------------------------------------------------------------

  /** The first `n` knots after one head step by `off`: the head moves, then
      each knot follows the already moved knot before it. */
  function StepPrefix(rope: seq<Pos>, off: Pos, n: nat): (r: seq<Pos>)
    requires 1 <= n <= |rope|
    ensures |r| == n
    ensures r[0] == Add(rope[0], off)
    ensures n >= 2 ==> r[n - 1] == Follow(r[n - 2], rope[n - 1])
  {
    if n == 1 then [Add(rope[0], off)]
    else
      var p := StepPrefix(rope, off, n - 1);
      p + [Follow(p[n - 2], rope[n - 1])]
  }

  /** The whole rope after one head step. */
  function Step(rope: seq<Pos>, off: Pos): (r: seq<Pos>)
    requires |rope| >= 1
    ensures |r| == |rope|
  {
    StepPrefix(rope, off, |rope|)
  }

  /** Longer prefixes extend shorter ones. */
  lemma {:induction false} StepPrefixExtends(rope: seq<Pos>, off: Pos, m: nat, n: nat)
    requires 1 <= m <= n <= |rope|
    ensures StepPrefix(rope, off, n)[..m] == StepPrefix(rope, off, m)
    decreases n - m
  {
    if m < n {
      StepPrefixExtends(rope, off, m, n - 1);
      assert StepPrefix(rope, off, n)[..n - 1] == StepPrefix(rope, off, n - 1);
    }
  }

  /** Every pair of neighbouring knots touches. */
  predicate Taut(rope: seq<Pos>)
  {
    forall i :: 1 <= i < |rope| ==> Touching(rope[i - 1], rope[i])
  }

  /** One unit on one axis. */
  predicate Unit(off: Pos)
  {
    Abs(off.x) + Abs(off.y) == 1
  }

  /** A taut rope stays taut after a unit head step, and every knot moves at
      most one unit on each axis. */
  lemma {:induction false} StepPrefixTaut(rope: seq<Pos>, off: Pos, n: nat)
    requires Taut(rope) && Unit(off) && 1 <= n <= |rope|
    ensures Taut(StepPrefix(rope, off, n))
    ensures forall i :: 0 <= i < n ==> Touching(rope[i], StepPrefix(rope, off, n)[i])
  {
    var r := StepPrefix(rope, off, n);
    if n >= 2 {
      var p := StepPrefix(rope, off, n - 1);
      StepPrefixTaut(rope, off, n - 1);
      assert r == p + [r[n - 1]];
      assert Touching(rope[n - 2], p[n - 2]) && Touching(rope[n - 2], rope[n - 1]);
      FollowNear(p[n - 2], rope[n - 1]);
      forall i | 1 <= i < n ensures Touching(r[i - 1], r[i]) {
        if i < n - 1 {
          assert r[i - 1] == p[i - 1] && r[i] == p[i];
        }
      }
      forall i | 0 <= i < n ensures Touching(rope[i], r[i]) {
        if i < n - 1 {
          assert r[i] == p[i];
        }
      }
    }
  }

  lemma StepTaut(rope: seq<Pos>, off: Pos)
    requires Taut(rope) && Unit(off) && |rope| >= 1
    ensures Taut(Step(rope, off))
    ensures forall i :: 0 <= i < |rope| ==> Touching(rope[i], Step(rope, off)[i])
  {
    StepPrefixTaut(rope, off, |rope|);
  }

  /** The rope after a sequence of head steps. */
  function Run(rope: seq<Pos>, offs: seq<Pos>): (r: seq<Pos>)
    requires |rope| >= 1
    ensures |r| == |rope|
  {
    if offs == [] then rope else Step(Run(rope, offs[..|offs| - 1]), offs[|offs| - 1])
  }

  /** The positions the tracked knot takes after each head step. */
  function Visited(rope: seq<Pos>, offs: seq<Pos>, track: nat): (r: set<Pos>)
    requires track < |rope|
    ensures offs != [] ==> Run(rope, offs)[track] in r
  {
    if offs == [] then {} else Visited(rope, offs[..|offs| - 1], track) + {Run(rope, offs)[track]}
  }

  /** At most one new position per head step. */
  lemma {:induction false} VisitedBound(rope: seq<Pos>, offs: seq<Pos>, track: nat)
    requires track < |rope|
    ensures |Visited(rope, offs, track)| <= |offs|
  {
    if offs != [] {
      VisitedBound(rope, offs[..|offs| - 1], track);
    }
  }

  /** All knots start at the origin. */
  function Start(n: nat): (r: seq<Pos>)
    ensures |r| == n && Taut(r)
  {
    seq(n, _ => Pos(0, 0))
  }

  /** From a taut rope, unit head steps keep it taut: every knot touches the
      knot before it after every step. */
  lemma {:induction false} RunTaut(rope: seq<Pos>, offs: seq<Pos>)
    requires |rope| >= 1 && Taut(rope)
    requires forall i :: 0 <= i < |offs| ==> Unit(offs[i])
    ensures Taut(Run(rope, offs))
  {
    if offs != [] {
      RunTaut(rope, offs[..|offs| - 1]);
      StepTaut(Run(rope, offs[..|offs| - 1]), offs[|offs| - 1]);
    }
  }

  // ---------------------------------------------------------------------------
  // Movements.
  // ---------------------------------------------------------------------------

  /** `n` copies of a step. */
  function Repeat(off: Pos, n: nat): (r: seq<Pos>)
    ensures |r| == n && forall i :: 0 <= i < n ==> r[i] == off
  {
    seq(n, _ => off)
  }

  /** The head steps of one movement: `dist` copies of its offset, none
      when `dist` is not positive; None when a step is due and the direction
      is unknown. */
  function MoveSteps(dir: string, dist: int): (r: Option<seq<Pos>>)
    ensures r.Some? ==> forall i :: 0 <= i < |r.value| ==> Unit(r.value[i])
    ensures r.None? <==> dist > 0 && Offset(dir).None?
    ensures r.Some? ==> |r.value| == if dist <= 0 then 0 else dist
  {
    if dist <= 0 then Some([])
    else
      match Offset(dir)
      case None => None
      case Some(off) => Some(Repeat(off, dist))
  }

  /** The head steps of all movements, in order; None when one movement
      fails. */
  function HeadSteps(moves: seq<(string, int)>): (r: Option<seq<Pos>>)
    ensures r.Some? ==> forall i :: 0 <= i < |r.value| ==> Unit(r.value[i])
  {
    if moves == [] then Some([])
    else
      match (HeadSteps(moves[..|moves| - 1]), MoveSteps(moves[|moves| - 1].0, moves[|moves| - 1].1))
      case (Some(steps), Some(more)) => Some(steps + more)
      case (_, _) => None
  }

  /** A movement that fails makes every longer list of movements fail. */
  lemma {:induction false} HeadStepsFailsLater(moves: seq<(string, int)>, m: nat)
    requires m <= |moves| && HeadSteps(moves[..m]).None?
    ensures HeadSteps(moves).None?
    decreases |moves| - m
  {
    if m < |moves| {
      assert moves[..m + 1][..m] == moves[..m];
      HeadStepsFailsLater(moves, m + 1);
    } else {
      assert moves[..m] == moves;
    }
  }

  /** One head step of the simulation: the head moves by `off`, each later
      knot follows the one before it, and the tracked knot's new position
      is recorded. */
  method MoveRope(points: array<Pos>, off: Pos, trackPointIdx: nat, uniquePos: set<Pos>)
    returns (unique': set<Pos>)
    requires 1 <= trackPointIdx < points.Length
    modifies points
    ensures points[..] == Step(old(points[..]), off)
    ensures unique' == uniquePos + {points[trackPointIdx]}
  {
    ghost var rope := points[..];
    unique' := uniquePos;
    points[0] := Add(points[0], off);
    for pi := 1 to points.Length
      invariant points[..pi] == StepPrefix(rope, off, pi)
      invariant points[pi..] == rope[pi..]
      invariant unique' == if pi > trackPointIdx then uniquePos + {points[trackPointIdx]} else uniquePos
    {
      var h := points[pi - 1];
      var t := points[pi];
      ghost var before := points[..];
      ghost var prefix := StepPrefix(rope, off, pi);
      assert t == before[pi..][0] == rope[pi];
      assert h == prefix[pi - 1];
      points[pi] := Follow(h, t);
      assert points[..pi + 1] == before[..pi] + [points[pi]];
      assert points[pi + 1..] == before[pi + 1..];
      assert StepPrefix(rope, off, pi + 1) == prefix + [Follow(prefix[pi - 1], rope[pi])];
      if pi == trackPointIdx {
        unique' := unique' + {points[pi]};
      }
    }
  }

  /** One movement of the simulation: `dist` head steps, each moving the
      rope and recording the tracked knot; false where the direction switch
      throws. `start` and `done` name the steps taken so far. */
  method ApplyMovement(points: array<Pos>, dir: string, dist: int, trackPointIdx: nat, uniquePos: set<Pos>,
                       ghost start: seq<Pos>, ghost done: seq<Pos>)
    returns (ok: bool, unique': set<Pos>)
    requires 1 <= trackPointIdx < points.Length == |start|
    requires points[..] == Run(start, done) && uniquePos == Visited(start, done, trackPointIdx)
    modifies points
    ensures ok <==> MoveSteps(dir, dist).Some?
    ensures ok ==> points[..] == Run(start, done + MoveSteps(dir, dist).value)
    ensures ok ==> unique' == Visited(start, done + MoveSteps(dir, dist).value, trackPointIdx)
  {
    unique' := uniquePos;
    var step := 0;
    ghost var taken: seq<Pos> := [];
    assert done + taken == done;
    while step < dist
      invariant 0 <= step && (dist > 0 ==> step <= dist) && (dist <= 0 ==> step == 0)
      invariant step > 0 ==> Offset(dir).Some? && taken == Repeat(Offset(dir).value, step)
      invariant step == 0 ==> taken == []
      invariant points[..] == Run(start, done + taken)
      invariant unique' == Visited(start, done + taken, trackPointIdx)
    {
      var off := Offset(dir);
      if off.None? {
        return false, unique';
      }
      ghost var rope := points[..];
      unique' := MoveRope(points, off.value, trackPointIdx, unique');
      assert (done + (taken + [off.value]))[..|done + taken|] == done + taken;
      taken := taken + [off.value];
      assert done + taken == (done + taken[..|taken| - 1]) + [off.value];
      step := step + 1;
    }
    if dist > 0 {
      assert step == dist;
    }
    return true, unique';
  }

  /** The simulation of the source: `numPoints` knots at the origin, the
      knot `trackPointIdx` recorded after every head step; the number of
      distinct recorded positions, or None when a direction is unknown. */
  method GetUniquePositions(headMovements: seq<(string, int)>, numPoints: nat, trackPointIdx: nat)
    returns (r: Option<nat>)
    requires 1 <= trackPointIdx < numPoints
    ensures r.None? <==> HeadSteps(headMovements).None?
    ensures r.Some? ==> r.value == |Visited(Start(numPoints), HeadSteps(headMovements).value, trackPointIdx)|
  {
    var uniquePos: set<Pos> := {};
    var points := new Pos[numPoints](_ => Pos(0, 0));
    assert points[..] == Start(numPoints);
    ghost var done: seq<Pos> := [];
    for m := 0 to |headMovements|
      invariant HeadSteps(headMovements[..m]) == Some(done)
      invariant points[..] == Run(Start(numPoints), done)
      invariant uniquePos == Visited(Start(numPoints), done, trackPointIdx)
    {
      var (dir, dist) := headMovements[m];
      assert headMovements[..m + 1][..m] == headMovements[..m];
      var ok;
      ok, uniquePos := ApplyMovement(points, dir, dist, trackPointIdx, uniquePos, Start(numPoints), done);
      if !ok {
        HeadStepsFailsLater(headMovements, m + 1);
        return None;
      }
      done := done + MoveSteps(dir, dist).value;
    }
    assert headMovements[..|headMovements|] == headMovements;
    return Some(|uniquePos|);
  }

  // ---------------------------------------------------------------------------
  // Parts.
  // ---------------------------------------------------------------------------

  /** A line "<dir> <dist>": the first character and the number from the
      third on; None when the line is shorter than two characters or the
      number does not parse. */
  function ParseMovement(line: string): (r: Option<(string, int)>)
    ensures r.Some? <==> |line| >= 2 && ParseInt(line[2..]).Some?
    ensures r.Some? ==> r.value == (line[..1], ParseInt(line[2..]).value)
  {
    if |line| < 2 then None
    else
      match ParseInt(line[2..])
      case None => None
      case Some(dist) => Some((line[..1], dist))
  }

  function ParseMovements(lines: seq<string>): (r: Option<seq<(string, int)>>)
    ensures r.Some? <==> forall i :: 0 <= i < |lines| ==> ParseMovement(lines[i]).Some?
    ensures r.Some? ==> |r.value| == |lines| && forall i :: 0 <= i < |lines| ==> ParseMovement(lines[i]) == Some(r.value[i])
  {
    if lines == [] then Some([])
    else
      assert forall i :: 1 <= i < |lines| ==> lines[i] == lines[1..][i - 1];
      match (ParseMovement(lines[0]), ParseMovements(lines[1..]))
      case (Some(m), Some(ms)) => Some([m] + ms)
      case (_, _) => None
  }

  function Movements(input: string): Option<seq<(string, int)>>
  {
    ParseMovements(InputHelpers.AsLines(input))
  }

  /** Part one: a rope of two knots, counting the tail's positions. */
  method SolvePartOne(input: string) returns (r: Option<nat>)
    ensures r.Some? <==> Movements(input).Some? && HeadSteps(Movements(input).value).Some?
    ensures r.Some? ==> var steps := HeadSteps(Movements(input).value).value;
      r.value == |Visited(Start(2), steps, 1)| <= |steps|
  {
    var moves := Movements(input);
    if moves.None? {
      return None;
    }
    r := GetUniquePositions(moves.value, 2, 1);
    if r.Some? {
      VisitedBound(Start(2), HeadSteps(moves.value).value, 1);
    }
  }

  /** Part two: a rope of ten knots, counting the last knot's positions. */
  method SolvePartTwo(input: string) returns (r: Option<nat>)
    ensures r.Some? <==> Movements(input).Some? && HeadSteps(Movements(input).value).Some?
    ensures r.Some? ==> var steps := HeadSteps(Movements(input).value).value;
      r.value == |Visited(Start(10), steps, 9)| <= |steps|
  {
    var moves := Movements(input);
    if moves.None? {
      return None;
    }
    r := GetUniquePositions(moves.value, 10, 9);
    if r.Some? {
      VisitedBound(Start(10), HeadSteps(moves.value).value, 9);
    }
  }
}
