/** Sonar sweep: counting depth increases, directly and over three-element
    sliding windows. */
module Y2021D01 {
  import opened Wrappers
  import opened Seqs
  import opened Strings
  import InputHelpers

  /** Number of positions where the next depth is larger than the current one
      (Zip with Skip(1), then Count). */
  function IncreaseCount(numbers: seq<int>): (r: nat)
    ensures |numbers| <= 1 ==> r == 0
    ensures |numbers| >= 1 ==> r <= |numbers| - 1
  {
    if |numbers| < 2 then 0
    else
      IncreaseCount(numbers[..|numbers| - 1]) +
        (if numbers[|numbers| - 1] > numbers[|numbers| - 2] then 1 else 0)
  }

  /** Position `i` is followed by a larger value. */
  predicate IsIncrease(numbers: seq<int>, i: nat)
  {
    i < |numbers| - 1 && numbers[i + 1] > numbers[i]
  }

  /** The positions whose successor is larger. */
  function Increases(numbers: seq<int>): set<nat>
  {
    set i: nat | i < |numbers| && IsIncrease(numbers, i)
  }

  /** IncreaseCount counts exactly the positions followed by a larger value. */
  lemma {:induction false} IncreaseCountIsIncreases(numbers: seq<int>)
    ensures IncreaseCount(numbers) == |Increases(numbers)|
    decreases |numbers|
  {
    if |numbers| < 2 {
      assert Increases(numbers) == {};
    } else {
      var init := numbers[..|numbers| - 1];
      IncreaseCountIsIncreases(init);
      var last: nat := |numbers| - 2;
      assert forall i: nat :: i < last ==> (IsIncrease(numbers, i) <==> IsIncrease(init, i));
      if numbers[|numbers| - 1] > numbers[|numbers| - 2] {
        assert Increases(numbers) == Increases(init) + {last};
      } else {
        assert Increases(numbers) == Increases(init);
      }
    }
  }

  /** A strictly increasing sequence counts every step. */
  lemma {:induction false} StrictlyIncreasingCount(numbers: seq<int>)
    requires |numbers| >= 1
    requires forall i :: 0 <= i < |numbers| - 1 ==> numbers[i] < numbers[i + 1]
    ensures IncreaseCount(numbers) == |numbers| - 1
  {
    if |numbers| >= 2 {
      StrictlyIncreasingCount(numbers[..|numbers| - 1]);
    }
  }

  /** The window starting at `idx`: up to three elements (Skip(idx).Take(3).Sum()). */
  function Window(numbers: seq<int>, idx: nat): int
    requires idx <= |numbers|
  {
    Sum(numbers[idx..if idx + 3 <= |numbers| then idx + 3 else |numbers|])
  }

  /** One window sum per input position; the last two windows are partial. */
  function WindowSums(numbers: seq<int>): (r: seq<int>)
    ensures |r| == |numbers|
    ensures forall i :: 0 <= i < |numbers| ==> r[i] == Window(numbers, i)
  {
    seq(|numbers|, i requires 0 <= i < |numbers| => Window(numbers, i))
  }

  /** Two full neighbouring windows share two elements, so the later one is
      larger exactly when the element it gains beats the one it loses. */
  lemma WindowIncrease(numbers: seq<int>, i: nat)
    requires i + 3 < |numbers|
    ensures WindowSums(numbers)[i + 1] > WindowSums(numbers)[i] <==> numbers[i + 3] > numbers[i]
  {
    var w0 := numbers[i..i + 3];
    var w1 := numbers[i + 1..i + 4];
    assert w0 == [numbers[i]] + numbers[i + 1..i + 3];
    assert w1 == numbers[i + 1..i + 3] + [numbers[i + 3]];
    SumAppend([numbers[i]], numbers[i + 1..i + 3]);
    SumAppend(numbers[i + 1..i + 3], [numbers[i + 3]]);
    assert [numbers[i]][..0] == [];
    assert [numbers[i + 3]][..0] == [];
  }

  /** The last window holds only the last depth. */
  lemma LastWindowPartial(numbers: seq<int>)
    requires |numbers| >= 1
    ensures WindowSums(numbers)[|numbers| - 1] == numbers[|numbers| - 1]
  {
    var last := numbers[|numbers| - 1..|numbers|];
    assert WindowSums(numbers)[|numbers| - 1] == Window(numbers, |numbers| - 1) == Sum(last);
    assert last == [numbers[|numbers| - 1]];
    assert last[..0] == [];
    assert Sum(last) == Sum(last[..0]) + last[0];
  }

  /** Part one: the increase count of the depths, as text; None when a line
      is not a number. */
  function SolvePartOne(input: string): (r: Option<string>)
    ensures r.None? <==> InputHelpers.AsInts(input).None?
    ensures r.Some? ==> ParseInt(r.value) == Some(|Increases(InputHelpers.AsInts(input).value)|)
  {
    match InputHelpers.AsInts(input)
    case None => None
    case Some(numbers) =>
      IncreaseCountIsIncreases(numbers);
      Some(IntToString(IncreaseCount(numbers)))
  }

  /** Part two: the increase count of the window sums, as text. */
  function SolvePartTwo(input: string): (r: Option<string>)
    ensures r.None? <==> InputHelpers.AsInts(input).None?
    ensures r.Some? ==> ParseInt(r.value) == Some(|Increases(WindowSums(InputHelpers.AsInts(input).value))|)
  {
    match InputHelpers.AsInts(input)
    case None => None
    case Some(numbers) =>
      IncreaseCountIsIncreases(WindowSums(numbers));
      Some(IntToString(IncreaseCount(WindowSums(numbers))))
  }
}
