/** Cathode-ray tube: a CPU with one register X running noop (one cycle) and
    addx (two cycles), sampled for a signal strength and drawn on a 40 x 6
    screen. */
module Y2022D10 {
  import opened Wrappers
  import opened Seqs
  import opened Strings
  import InputHelpers
  import Extensions

  datatype Instruction = Noop | Addx(value: int)

  /** "<op> [value]": the value is 0 when absent; None when the value does not
      parse or the operation has no cycle count (the dictionary throws). */
  function ParseInstruction(line: string): (r: Option<Instruction>)
    ensures r.Some? ==> Split(line, ' ')[0] in {"noop", "addx"}
    ensures r == Some(Noop) <==> (Split(line, ' ')[0] == "noop" &&
      (|Split(line, ' ')| > 1 ==> ParseInt(Split(line, ' ')[1]).Some?))
  {
    var s := Split(line, ' ');
    var value := if |s| > 1 then ParseInt(s[1]) else Some(0);
    if value.None? then None
    else if s[0] == "noop" then Some(Noop)
    else if s[0] == "addx" then Some(Addx(value.value))
    else None
  }

  function Instructions(input: string): Option<seq<Instruction>>
  {
    Extensions.ParseAs(InputHelpers.AsLines(input), ParseInstruction)
  }

  /** The cycle table: noop takes 1 cycle, addx 2. */
  function Cycles(ins: Instruction): (r: nat)
    ensures 1 <= r <= 2
  {
    match ins
    case Noop => 1
    case Addx(_) => 2
  }

  /** X after the instructions have completed: 1 plus every addx value. */
  function XAfter(program: seq<Instruction>): int
  {
    if program == [] then 1
    else
      var last := program[|program| - 1];
      XAfter(program[..|program| - 1]) + (if last.Addx? then last.value else 0)
  }

  /** X during each cycle, in order: an instruction's cycles all see the value
      left by the instructions before it, so X changes only once an
      instruction has completed. */
  function Trace(program: seq<Instruction>): (t: seq<int>)
  {
    if program == [] then []
    else
      var init := program[..|program| - 1];
      Trace(init) + seq(Cycles(program[|program| - 1]), _ => XAfter(init))
  }

  /** The trace of a prefix of the program is a prefix of the trace. */
  lemma {:induction false} TracePrefix(program: seq<Instruction>, k: nat)
    requires k <= |program|
    ensures |Trace(program[..k])| <= |Trace(program)|
    ensures Trace(program[..k]) == Trace(program)[..|Trace(program[..k])|]
    decreases |program| - k
  {
    if k < |program| {
      var init := program[..|program| - 1];
      assert program[..k] == init[..k];
      TracePrefix(init, k);
    } else {
      assert program[..k] == program;
    }
  }

  /** A program of noops keeps X at 1 for one cycle each. */
  lemma {:induction false} NoopTrace(program: seq<Instruction>)
    requires forall i :: 0 <= i < |program| ==> program[i] == Noop
    ensures Trace(program) == seq(|program|, _ => 1)
    ensures XAfter(program) == 1
  {
    if program != [] {
      NoopTrace(program[..|program| - 1]);
    }
  }

  /** The small example: noop, addx 3, addx -5 holds X at 1, 1, 1, 4, 4 and
      leaves it at -1. */
  lemma SmallExample()
    ensures Trace([Noop, Addx(3), Addx(-5)]) == [1, 1, 1, 4, 4]
    ensures XAfter([Noop, Addx(3), Addx(-5)]) == -1
  {
    var p := [Noop, Addx(3), Addx(-5)];
    assert p[..2] == [Noop, Addx(3)] && p[..2][..1] == [Noop] && [Noop][..0] == [];
  }

  /** The cycles sampled for the signal strength: 20, 60, 100, ... */
  predicate Sampled(cycle: int)
  {
    cycle == 20 || (cycle - 20) % 40 == 0
  }

  /** Sum of cycle times X over the sampled cycles of a trace. */
  function SignalSum(trace: seq<int>): int
  {
    if trace == [] then 0
    else SignalSum(trace[..|trace| - 1]) + (if Sampled(|trace|) then |trace| * trace[|trace| - 1] else 0)
  }

  /** Cycles before the 20th add nothing to the signal. */
  lemma {:induction false} EarlyCyclesSilent(trace: seq<int>)
    requires |trace| < 20
    ensures SignalSum(trace) == 0
  {
    if trace != [] {
      EarlyCyclesSilent(trace[..|trace| - 1]);
    }
  }

  /** Part one: the loops over the instructions and their cycles, adding
      cycle times X at the sampled cycles. */
  method SignalStrength(program: seq<Instruction>) returns (str: int)
    ensures str == SignalSum(Trace(program))
  {
    var cyclesComplete := 0;
    var x := 1;
    str := 0;
    for k := 0 to |program|
      invariant cyclesComplete == |Trace(program[..k])|
      invariant x == XAfter(program[..k])
      invariant str == SignalSum(Trace(program[..k]))
    {
      var ins := program[k];
      TraceStep(program, k, x);
      cyclesComplete, str := RunCycles(cyclesComplete, x, str, Cycles(ins), Trace(program[..k]));
      XAfterStep(program, k);
      x := x + if ins.Addx? then ins.value else 0;
    }
    assert program[..|program|] == program;
  }

  /** One more instruction adds its cycles, all seeing the X left by the
      instructions before it. */
  lemma TraceStep(program: seq<Instruction>, k: nat, x: int)
    requires k < |program| && x == XAfter(program[..k])
    ensures Trace(program[..k + 1]) == Trace(program[..k]) + seq(Cycles(program[k]), _ => x)
  {
    assert program[..k + 1][..k] == program[..k];
  }

  lemma XAfterStep(program: seq<Instruction>, k: nat)
    requires k < |program|
    ensures XAfter(program[..k + 1]) == XAfter(program[..k]) + if program[k].Addx? then program[k].value else 0
  {
    assert program[..k + 1][..k] == program[..k];
  }

  /** The inner loop of part one: `n` more cycles with X fixed, counting
      them and adding the signal of the sampled ones. */
  method RunCycles(cyclesComplete: int, x: int, str: int, n: nat, ghost before: seq<int>) returns (count: int, sum: int)
    requires cyclesComplete == |before| && str == SignalSum(before)
    ensures count == |before| + n && sum == SignalSum(before + seq(n, _ => x))
  {
    count, sum := cyclesComplete, str;
    assert before + seq(0, _ => x) == before;
    for i := 0 to n
      invariant count == |before| + i
      invariant sum == SignalSum(before + seq(i, _ => x))
    {
      count := count + 1;
      sum := sum + if count == 20 || (count - 20) % 40 == 0 then x * count else 0;
      assert (before + seq(i + 1, _ => x))[..|before| + i] == before + seq(i, _ => x);
    }
  }

  method SolvePartOne(input: string) returns (r: Option<int>)
    ensures r.None? <==> Instructions(input).None?
    ensures r.Some? ==> r.value == SignalSum(Trace(Instructions(input).value))
  {
    var program := Instructions(input);
    if program.None? {
      return None;
    }
    var str := SignalStrength(program.value);
    return Some(str);
  }

  /** The pixel drawn at screen position `pos` while X is `x`: lit when the
      three-wide sprite centred on X covers the column. */
  function Pixel(pos: nat, x: int): char
  {
    if x - 1 <= pos % 40 <= x + 1 then '#' else '.'
  }

  /** The 240 screen positions: drawn ones from the trace, the rest left as
      the default character. */
  function Screen(trace: seq<int>): (r: seq<char>)
    ensures |r| == 240
    ensures forall p :: 0 <= p < 240 ==> r[p] == if p < |trace| then Pixel(p, trace[p]) else '\0'
  {
    seq(240, p requires 0 <= p < 240 => if p < |trace| then Pixel(p, trace[p]) else '\0')
  }

  /** The screen as six rows of 40, joined by '\n'; splitting the text at
      '\n' gives back the rows. */
  function Render(screen: seq<char>): (r: string)
    ensures '\n' !in screen && screen != [] ==> Split(r, '\n') == Chunk(screen, 40)
  {
    RenderRows(screen);
    Join(Chunk(screen, 40), "\n")
  }

  lemma RenderRows(screen: seq<char>)
    ensures '\n' !in screen && screen != [] ==> Split(Join(Chunk(screen, 40), "\n"), '\n') == Chunk(screen, 40)
  {
    if '\n' !in screen && screen != [] {
      var rows := Chunk(screen, 40);
      forall i | 0 <= i < |rows| ensures '\n' !in rows[i] {
        FlattenMember(rows, i, '\n');
      }
      assert "\n" == ['\n'];
      SplitJoin(rows, '\n');
    }
  }

  /** Part two: the same loops drawing one pixel per cycle. The sprite
      position runs one below part one's X; a program of more than 240
      cycles writes past the screen, which throws. */
  method Draw(program: seq<Instruction>) returns (r: Result<string>)
    ensures r.Fail? <==> |Trace(program)| > 240
    ensures r.Ok? ==> r.value == Render(Screen(Trace(program)))
  {
    var crtPos := 0;
    var sprPos := 0;
    var crtImage := new char[240](_ => '\0');
    for k := 0 to |program|
      invariant crtPos == |Trace(program[..k])| <= 240
      invariant sprPos == XAfter(program[..k]) - 1
      invariant forall p :: 0 <= p < crtPos ==> crtImage[p] == Pixel(p, Trace(program[..k])[p])
      invariant forall p :: crtPos <= p < 240 ==> crtImage[p] == '\0'
    {
      var ins := program[k];
      assert program[..k + 1][..k] == program[..k];
      ghost var before := Trace(program[..k]);
      ghost var x := XAfter(program[..k]);
      for i := 0 to Cycles(ins)
        invariant crtPos == |before| + i <= 240
        invariant forall p :: 0 <= p < crtPos ==> crtImage[p] == Pixel(p, (before + seq(i, _ => x))[p])
        invariant forall p :: crtPos <= p < 240 ==> crtImage[p] == '\0'
      {
        if crtPos >= 240 {
          TracePrefix(program, k + 1);
          return Fail("Index was outside the bounds of the array.");
        }
        var crtRowPos := crtPos % 40;
        crtImage[crtPos] := if crtRowPos >= sprPos && crtRowPos <= sprPos + 2 then '#' else '.';
        crtPos := crtPos + 1;
      }
      sprPos := sprPos + if ins.Addx? then ins.value else 0;
    }
    assert program[..|program|] == program;
    assert crtImage[..] == Screen(Trace(program));
    return Ok(Render(crtImage[..]));
  }

  method SolvePartTwo(input: string) returns (r: Result<string>)
    ensures r.Fail? <==> Instructions(input).None? || |Trace(Instructions(input).value)| > 240
    ensures r.Ok? ==> r.value == Render(Screen(Trace(Instructions(input).value)))
  {
    var program := Instructions(input);
    if program.None? {
      return Fail("malformed instruction");
    }
    r := Draw(program.value);
  }
}
