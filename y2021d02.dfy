/** Dive: submarine commands moving a horizontal position and a depth, in
    part two through an aim. */
module Y2021D02 {
  import opened Wrappers
  import opened Strings
  import Extensions

  datatype Direction = Forward | Up | Down

  datatype SubCommand = SubCommand(direction: Direction, distance: int)

  /** Enum.Parse on the direction names; any other word throws. */
  function ParseDirection(word: string): (r: Option<Direction>)
    ensures r.Some? <==> word in {"forward", "up", "down"}
  {
    if word == "forward" then Some(Forward)
    else if word == "up" then Some(Up)
    else if word == "down" then Some(Down)
    else None
  }

  /** "<direction> <distance>"; None when a part is missing or malformed. */
  function ParseCommand(line: string): (r: Option<SubCommand>)
    ensures r.Some? <==> (|Split(line, ' ')| >= 2 &&
      ParseDirection(Split(line, ' ')[0]).Some? && ParseInt(Split(line, ' ')[1]).Some?)
  {
    var split := Split(line, ' ');
    if |split| < 2 then None
    else
      match (ParseDirection(split[0]), ParseInt(split[1]))
      case (Some(d), Some(n)) => Some(SubCommand(d, n))
      case (_, _) => None
  }

  function ParseInput(input: string): Option<seq<SubCommand>>
  {
    Extensions.ParseAs(Split(input, '\n'), ParseCommand)
  }

  /** The signed vertical effect of a command: +distance down, -distance up. */
  function VerticalStep(c: SubCommand): int
  {
    match c.direction
    case Down => c.distance
    case Up => -c.distance
    case Forward => 0
  }

  /** The sum of the forward distances; never negative when no distance is. */
  function Horizontal(commands: seq<SubCommand>): (r: int)
    ensures (forall i :: 0 <= i < |commands| ==> commands[i].distance >= 0) ==> r >= 0
  {
    if commands == [] then 0
    else
      var c := commands[|commands| - 1];
      Horizontal(commands[..|commands| - 1]) + (if c.direction == Forward then c.distance else 0)
  }

  /** Sum of the down distances minus the sum of the up distances; never
      negative without up commands and negative distances. */
  function Vertical(commands: seq<SubCommand>): (r: int)
    ensures (forall i :: 0 <= i < |commands| ==> Descends(commands[i])) ==> r >= 0
  {
    if commands == [] then 0
    else Vertical(commands[..|commands| - 1]) + VerticalStep(commands[|commands| - 1])
  }

  /** A command that cannot bring the submarine up. */
  predicate Descends(c: SubCommand)
  {
    c.direction != Up && c.distance >= 0
  }

  /** Running two command lists one after the other adds their forward totals. */
  lemma {:induction false} HorizontalAppend(a: seq<SubCommand>, b: seq<SubCommand>)
    ensures Horizontal(a + b) == Horizontal(a) + Horizontal(b)
    decreases |b|
  {
    if b == [] {
      assert a + b == a;
    } else {
      var init := b[..|b| - 1];
      assert (a + b)[..|a + b| - 1] == a + init;
      HorizontalAppend(a, init);
    }
  }

  /** Running two command lists one after the other adds their vertical offsets. */
  lemma {:induction false} VerticalAppend(a: seq<SubCommand>, b: seq<SubCommand>)
    ensures Vertical(a + b) == Vertical(a) + Vertical(b)
    decreases |b|
  {
    if b == [] {
      assert a + b == a;
    } else {
      var init := b[..|b| - 1];
      assert (a + b)[..|a + b| - 1] == a + init;
      VerticalAppend(a, init);
    }
  }

  /** Part one: horizontal position times depth. */
  function SolvePartOne(commands: seq<SubCommand>): (r: int)
    ensures r == Horizontal(commands) * Vertical(commands)
    ensures (forall i :: 0 <= i < |commands| ==> commands[i].direction == Forward) ==> r == 0
  {
    NoVerticalMoves(commands);
    Horizontal(commands) * Vertical(commands)
  }

  /** Commands that are all forward leave the depth at 0. */
  lemma {:induction false} NoVerticalMoves(commands: seq<SubCommand>)
    ensures (forall i :: 0 <= i < |commands| ==> commands[i].direction == Forward) ==> Vertical(commands) == 0
  {
    if commands != [] {
      NoVerticalMoves(commands[..|commands| - 1]);
    }
  }

  /** The (distance, aim) pairs of the forward commands, in order; the aim is
      the vertical sum of all commands before. */
  function Forwards(commands: seq<SubCommand>): (r: seq<(int, int)>)
    ensures |r| <= |commands|
  {
    if commands == [] then []
    else
      var init := commands[..|commands| - 1];
      var c := commands[|commands| - 1];
      Forwards(init) + (if c.direction == Forward then [(c.distance, Vertical(init))] else [])
  }

  /** The iterator of the source: a running aim moved by up and down, and one
      pair per forward command. */
  method GetNextForward(commands: seq<SubCommand>) returns (pairs: seq<(int, int)>)
    ensures pairs == Forwards(commands)
  {
    var aim := 0;
    pairs := [];
    for i := 0 to |commands|
      invariant aim == Vertical(commands[..i])
      invariant pairs == Forwards(commands[..i])
    {
      var c := commands[i];
      assert commands[..i + 1][..i] == commands[..i];
      if c.direction == Forward {
        pairs := pairs + [(c.distance, aim)];
        continue;
      }
      aim := aim + (if c.direction == Down then 1 else -1) * c.distance;
    }
    assert commands[..|commands|] == commands;
  }

  /** Part two's depth: each forward distance times the aim at that point;
      never negative when no command can bring the submarine up. */
  function Depth(commands: seq<SubCommand>): (r: int)
    ensures (forall i :: 0 <= i < |commands| ==> Descends(commands[i])) ==> r >= 0
  {
    if commands == [] then 0
    else
      var init := commands[..|commands| - 1];
      var c := commands[|commands| - 1];
      assert forall i :: 0 <= i < |init| ==> init[i] == commands[i];
      Depth(init) + (if c.direction == Forward then c.distance * Vertical(init) else 0)
  }

  lemma Distribute(x: int, y: int, z: int)
    ensures x * (y + z) == x * z + x * y && (y + z) * x == y * x + z * x
  {
  }

  /** The second list of commands starts with the aim the first one left:
      each of its forward distances also descends by that aim. */
  lemma {:induction false} DepthAppend(a: seq<SubCommand>, b: seq<SubCommand>)
    ensures Depth(a + b) == Depth(a) + Depth(b) + Horizontal(b) * Vertical(a)
    decreases |b|
  {
    if b == [] {
      assert a + b == a;
    } else {
      var init := b[..|b| - 1];
      var c := b[|b| - 1];
      assert (a + b)[..|a + b| - 1] == a + init;
      DepthAppend(a, init);
      VerticalAppend(a, init);
      if c.direction == Forward {
        var d, va, vi, h := c.distance, Vertical(a), Vertical(init), Horizontal(init);
        assert Depth(a + b) == Depth(a + init) + d * (va + vi);
        assert d * (va + vi) == d * vi + d * va by { Distribute(d, va, vi); }
        assert h * va + d * va == (h + d) * va by { Distribute(va, h, d); }
      }
    }
  }

  function SumFirst(pairs: seq<(int, int)>): int
  {
    if pairs == [] then 0 else SumFirst(pairs[..|pairs| - 1]) + pairs[|pairs| - 1].0
  }

  function SumProducts(pairs: seq<(int, int)>): int
  {
    if pairs == [] then 0 else SumProducts(pairs[..|pairs| - 1]) + pairs[|pairs| - 1].0 * pairs[|pairs| - 1].1
  }

  /** The pairs carry the forward distances and the depth increments. */
  lemma {:induction false} ForwardsSums(commands: seq<SubCommand>)
    ensures SumFirst(Forwards(commands)) == Horizontal(commands)
    ensures SumProducts(Forwards(commands)) == Depth(commands)
  {
    if commands != [] {
      var init := commands[..|commands| - 1];
      ForwardsSums(init);
      var c := commands[|commands| - 1];
      if c.direction == Forward {
        var p := Forwards(commands);
        assert p[..|p| - 1] == Forwards(init);
      } else {
        assert Forwards(commands) == Forwards(init) + [];
        assert Forwards(init) + [] == Forwards(init);
      }
    }
  }

  /** Part two: the loop over the pairs. Its horizontal total is part one's. */
  method SolvePartTwo(commands: seq<SubCommand>) returns (r: int)
    ensures r == Horizontal(commands) * Depth(commands)
  {
    var pairs := GetNextForward(commands);
    var h := 0;
    var v := 0;
    for k := 0 to |pairs|
      invariant h == SumFirst(pairs[..k])
      invariant v == SumProducts(pairs[..k])
    {
      assert pairs[..k + 1][..k] == pairs[..k];
      var (forward, aim) := pairs[k];
      h := h + forward;
      v := v + forward * aim;
    }
    assert pairs[..|pairs|] == pairs;
    ForwardsSums(commands);
    r := h * v;
  }

  /** Without up or down commands the aim stays 0, so part two's depth is 0. */
  lemma {:induction false} LevelAimNoDepth(commands: seq<SubCommand>)
    requires forall i :: 0 <= i < |commands| ==> commands[i].direction == Forward
    ensures Depth(commands) == 0
  {
    if commands != [] {
      LevelAimNoDepth(commands[..|commands| - 1]);
      NoVerticalMoves(commands[..|commands| - 1]);
    }
  }

  /** The whole puzzle on text: None when a line does not parse. */
  method Solve(input: string) returns (partOne: Option<int>, partTwo: Option<int>)
    ensures partOne.None? <==> ParseInput(input).None?
    ensures partTwo.None? <==> ParseInput(input).None?
    ensures partOne.Some? ==> partOne.value == SolvePartOne(ParseInput(input).value)
    ensures partTwo.Some? ==> partTwo.value == Horizontal(ParseInput(input).value) * Depth(ParseInput(input).value)
  {
    var commands := ParseInput(input);
    if commands.None? {
      return None, None;
    }
    var two := SolvePartTwo(commands.value);
    return Some(SolvePartOne(commands.value)), Some(two);
  }
}
