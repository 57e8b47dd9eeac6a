/** Calorie counting: groups of numbers separated by blank lines. */
module Y2022D01 {
  import opened Wrappers
  import opened Seqs
  import opened Strings
  import Extensions

  /** The sum of the lines of one group; None when a line is not a number. */
  function GroupSum(group: string): (r: Option<int>)
    ensures r.Some? <==> Extensions.ParseAs(Split(group, '\n'), ParseInt).Some?
    ensures r.Some? ==> r.value == Sum(Extensions.ParseAs(Split(group, '\n'), ParseInt).value)
  {
    match Extensions.ParseAs(Split(group, '\n'), ParseInt)
    case None => None
    case Some(values) => Some(Sum(values))
  }

  /** The groups of the input: the pieces between blank lines. */
  function Groups(input: string): (r: seq<string>)
    ensures |r| >= 1
  {
    SplitOn(input, "\n\n")
  }

  /** The groups of the input, each summed; None when some group has a line
      that is not a number. */
  function GroupCalories(input: string): (r: Option<seq<int>>)
    ensures r.Some? <==> forall i :: 0 <= i < |Groups(input)| ==> GroupSum(Groups(input)[i]).Some?
    ensures r.Some? ==> |r.value| == |Groups(input)|
    ensures r.Some? ==> forall i :: 0 <= i < |r.value| ==> GroupSum(Groups(input)[i]) == Some(r.value[i])
  {
    Extensions.ParseAs(Groups(input), GroupSum)
  }

  /** Part one: the largest group sum. */
  function SolvePartOne(input: string): (r: Option<int>)
    ensures r.None? <==> GroupCalories(input).None?
    ensures r.Some? ==> r.value in GroupCalories(input).value
    ensures r.Some? ==> forall x :: x in GroupCalories(input).value ==> x <= r.value
  {
    match GroupCalories(input)
    case None => None
    case Some(sums) => Max(sums)
  }

  /** The sum of the three largest values, or of all when there are fewer. */
  function TopThree(sums: seq<int>): int
  {
    SumTake(SortBy(sums, Descending), 3)
  }

  /** Part two: the sum of the three largest group sums. */
  function SolvePartTwo(input: string): (r: Option<int>)
    ensures r.None? <==> GroupCalories(input).None?
    ensures r.Some? ==> r.value == TopThree(GroupCalories(input).value)
  {
    match GroupCalories(input)
    case None => None
    case Some(sums) => Some(TopThree(sums))
  }

  /** With fewer than three groups every group is counted. */
  lemma TopThreeFew(sums: seq<int>)
    requires |sums| <= 3
    ensures TopThree(sums) == Sum(sums)
  {
    SumPermutation(SortBy(sums, Descending), sums);
  }

  /** With non-negative elements, the first few together are at least the first. */
  lemma TakeAtLeastHead(sorted: seq<int>, n: nat)
    requires sorted != [] && n >= 1
    requires forall i :: 0 <= i < |sorted| ==> sorted[i] >= 0
    ensures SumTake(sorted, n) >= sorted[0]
  {
    var top := if |sorted| <= n then sorted else sorted[..n];
    assert top == [sorted[0]] + top[1..];
    assert forall i :: 0 <= i < |top[1..]| ==> top[1..][i] == sorted[i + 1];
    SumNonNegative(top[1..]);
    SumAppend([sorted[0]], top[1..]);
    assert [sorted[0]][..0] == [];
  }

  /** With non-negative values, the top three are together at least the largest. */
  lemma TopThreeAtLeastMax(sums: seq<int>)
    requires sums != []
    requires forall i :: 0 <= i < |sums| ==> sums[i] >= 0
    ensures TopThree(sums) >= Max(sums).value
  {
    var sorted := SortBy(sums, Descending);
    SortedHeadIsMax(sums);
    forall i | 0 <= i < |sorted| ensures sorted[i] >= 0 {
      assert sorted[i] in multiset(sums);
    }
    TakeAtLeastHead(sorted, 3);
  }

  /** With non-negative group sums, part two is at least part one. */
  lemma PartTwoAtLeastPartOne(input: string)
    requires GroupCalories(input).Some?
    requires forall i :: 0 <= i < |GroupCalories(input).value| ==> GroupCalories(input).value[i] >= 0
    ensures SolvePartTwo(input).value >= SolvePartOne(input).value
  {
    TopThreeAtLeastMax(GroupCalories(input).value);
  }
}
