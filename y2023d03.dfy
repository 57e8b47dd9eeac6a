/** Gear ratios: runs of digit cells on the character grid form numbers;
    part one sums the numbers next to a symbol, part two multiplies the
    numbers around each gear. */
module Y2023D03 {
  import opened Wrappers
  import opened Seqs
  import opened Strings
  import opened Grids
  import InputHelpers

  // ---------------------------------------------------------------------------
  // Number groups.
  // ---------------------------------------------------------------------------

  function Last<T>(s: seq<T>): T
    requires s != []
  {
    s[|s| - 1]
  }

  /** The digit cells cut into runs: a cell joins the current run when it is
      the X-neighbour of the run's last cell, and starts a new run otherwise. */
  function GroupRuns(cells: seq<Cell<char>>): (r: seq<seq<Cell<char>>>)
    ensures (r == []) <==> (cells == [])
    ensures forall i :: 0 <= i < |r| ==> r[i] != []
    ensures forall i, j :: 0 <= i < |r| && 0 <= j < |r[i]| ==> r[i][j] in cells
  {
    if cells == [] then []
    else
      var c := Last(cells);
      var g := GroupRuns(cells[..|cells| - 1]);
      if g != [] && c.IsNeighbourX(Last(Last(g))) then g[..|g| - 1] + [Last(g) + [c]]
      else g + [[c]]
  }

  /** Consecutive cells of a run are X-neighbours. */
  predicate Connected(group: seq<Cell<char>>)
  {
    forall j :: 1 <= j < |group| ==> group[j].IsNeighbourX(group[j - 1])
  }

  /** The runs partition the cells: concatenated, they give the cells back
      in order. */
  lemma {:induction false} GroupRunsFlatten(cells: seq<Cell<char>>)
    ensures Flatten(GroupRuns(cells)) == cells
  {
    if cells != [] {
      var init := cells[..|cells| - 1];
      var c := Last(cells);
      var g: seq<seq<Cell<char>>> := GroupRuns(init);
      GroupRunsFlatten(init);
      assert cells == init + [c];
      if g != [] && c.IsNeighbourX(Last(Last(g))) {
        assert GroupRuns(cells) == g[..|g| - 1] + [Last(g) + [c]];
        FlattenExtendLast(g, c);
      } else {
        assert GroupRuns(cells) == g + [[c]];
        FlattenAppendOne(g, c);
      }
    }
  }

  lemma FlattenExtendLast<T>(g: seq<seq<T>>, c: T)
    requires g != []
    ensures Flatten(g[..|g| - 1] + [Last(g) + [c]]) == Flatten(g) + [c]
  {
    var front := g[..|g| - 1];
    var last := Last(g);
    assert g == front + [last];
    FlattenSnoc(front, last);
    FlattenSnoc(front, last + [c]);
    AppendAssoc(Flatten(front), last, [c]);
  }

  lemma AppendAssoc<T>(a: seq<T>, b: seq<T>, c: seq<T>)
    ensures a + (b + c) == (a + b) + c
  {
  }

  lemma FlattenAppendOne<T>(g: seq<seq<T>>, c: T)
    ensures Flatten(g + [[c]]) == Flatten(g) + [c]
  {
    FlattenSnoc(g, [c]);
  }

  lemma FlattenSnoc<T>(front: seq<seq<T>>, x: seq<T>)
    ensures Flatten(front + [x]) == Flatten(front) + x
  {
    FlattenAppend(front, [x]);
    FlattenOne(x);
  }

  lemma FlattenOne<T>(x: seq<T>)
    ensures Flatten([x]) == x
  {
    assert [x][1..] == [];
  }

  /** Within a run, each cell is the X-neighbour of the one before it. */
  lemma {:induction false} GroupRunsConnected(cells: seq<Cell<char>>)
    ensures forall i :: 0 <= i < |GroupRuns(cells)| ==> Connected(GroupRuns(cells)[i])
  {
    if cells != [] {
      var init := cells[..|cells| - 1];
      var c := Last(cells);
      var g: seq<seq<Cell<char>>> := GroupRuns(init);
      var r: seq<seq<Cell<char>>> := GroupRuns(cells);
      GroupRunsConnected(init);
      if g != [] && c.IsNeighbourX(Last(Last(g))) {
        assert r == g[..|g| - 1] + [Last(g) + [c]];
        ConnectedExtend(g, c);
      } else {
        assert r == g + [[c]];
        ConnectedAppend(g, c);
      }
    }
  }

  lemma ConnectedExtend(g: seq<seq<Cell<char>>>, c: Cell<char>)
    requires g != [] && Last(g) != [] && c.IsNeighbourX(Last(Last(g)))
    requires forall i :: 0 <= i < |g| ==> Connected(g[i])
    ensures var r := g[..|g| - 1] + [Last(g) + [c]];
      forall i :: 0 <= i < |r| ==> Connected(r[i])
  {
    var r := g[..|g| - 1] + [Last(g) + [c]];
    assert forall i :: 0 <= i < |g| - 1 ==> r[i] == g[i];
    assert Connected(Last(g));
  }

  lemma ConnectedAppend(g: seq<seq<Cell<char>>>, c: Cell<char>)
    requires forall i :: 0 <= i < |g| ==> Connected(g[i])
    ensures forall i :: 0 <= i < |g + [[c]]| ==> Connected((g + [[c]])[i])
  {
    assert forall i :: 0 <= i < |g| ==> (g + [[c]])[i] == g[i];
  }

  /** The runs are maximal: the first cell of a run is never the
      X-neighbour of the last cell of the run before it. */
  lemma {:induction false} GroupRunsMaximal(cells: seq<Cell<char>>)
    ensures forall i :: 1 <= i < |GroupRuns(cells)| ==>
      !GroupRuns(cells)[i][0].IsNeighbourX(Last(GroupRuns(cells)[i - 1]))
  {
    if cells != [] {
      var init := cells[..|cells| - 1];
      var c := Last(cells);
      var g: seq<seq<Cell<char>>> := GroupRuns(init);
      var r: seq<seq<Cell<char>>> := GroupRuns(cells);
      GroupRunsMaximal(init);
      if g != [] && c.IsNeighbourX(Last(Last(g))) {
        assert r == g[..|g| - 1] + [Last(g) + [c]];
        forall i | 1 <= i < |r| ensures !r[i][0].IsNeighbourX(Last(r[i - 1])) {
          assert r[i][0] == g[i][0];
          if i < |r| - 1 {
            assert r[i - 1] == g[i - 1];
          }
        }
      } else {
        assert r == g + [[c]];
        forall i | 1 <= i < |r| ensures !r[i][0].IsNeighbourX(Last(r[i - 1])) {
          assert r[i - 1] == g[i - 1];
          if i < |r| - 1 {
            assert r[i] == g[i];
          }
        }
      }
    }
  }

  /** No run spans two rows: X-neighbours share their row. */
  lemma {:induction false} ConnectedOneRow(group: seq<Cell<char>>, j: nat)
    requires Connected(group) && j < |group|
    ensures group[j].row == group[0].row
  {
    if j > 0 {
      ConnectedOneRow(group, j - 1);
    }
  }

  /** Every cell of a run is on the row of the run's first cell. */
  lemma RunOnOneRow(cells: seq<Cell<char>>, i: nat, j: nat)
    requires i < |GroupRuns(cells)| && j < |GroupRuns(cells)[i]|
    ensures GroupRuns(cells)[i][j].row == GroupRuns(cells)[i][0].row
  {
    GroupRunsConnected(cells);
    ConnectedOneRow(GroupRuns(cells)[i], j);
  }

  /** The loop of the source: it builds exactly the runs. */
  method GetNumberCellGroups(digitCells: seq<Cell<char>>) returns (numberCellGroups: seq<seq<Cell<char>>>)
    ensures numberCellGroups == GroupRuns(digitCells)
  {
    numberCellGroups := [];
    var currentGroup: seq<Cell<char>> := [];
    for i := 0 to |digitCells|
      invariant (currentGroup == []) <==> (i == 0)
      invariant (if currentGroup == [] then numberCellGroups else numberCellGroups + [currentGroup]) ==
        GroupRuns(digitCells[..i])
    {
      var currentCell := digitCells[i];
      assert digitCells[..i + 1][..i] == digitCells[..i];
      ghost var g := GroupRuns(digitCells[..i]);
      assert currentGroup != [] ==> g[..|g| - 1] == numberCellGroups && Last(g) == currentGroup;
      assert Last(digitCells[..i + 1]) == currentCell;
      if |currentGroup| == 0 {
        assert digitCells[..i] == [];
        assert GroupRuns(digitCells[..i + 1][..i]) == [];
        assert GroupRuns(digitCells[..i + 1]) == [[currentCell]];
        assert numberCellGroups == [];
        currentGroup := currentGroup + [currentCell];
        assert currentGroup == [currentCell];
        assert numberCellGroups + [currentGroup] == [[currentCell]];
      } else if currentCell.IsNeighbourX(currentGroup[|currentGroup| - 1]) {
        assert GroupRuns(digitCells[..i + 1]) == numberCellGroups + [currentGroup + [currentCell]];
        currentGroup := currentGroup + [currentCell];
      } else {
        assert GroupRuns(digitCells[..i + 1]) == numberCellGroups + [currentGroup] + [[currentCell]];
        numberCellGroups := numberCellGroups + [currentGroup];
        currentGroup := [currentCell];
      }
    }
    assert digitCells[..|digitCells|] == digitCells;
    if |currentGroup| > 0 {
      numberCellGroups := numberCellGroups + [currentGroup];
    }
  }

  // ---------------------------------------------------------------------------
  // Numbers and adjacency.
  // ---------------------------------------------------------------------------

  /** Every cell of every group holds a digit. */
  predicate DigitGroups(groups: seq<seq<Cell<char>>>)
  {
    forall i, j :: 0 <= i < |groups| && 0 <= j < |groups[i]| ==> IsDigit(groups[i][j].value)
  }

  /** The characters of a group. */
  function Text(group: seq<Cell<char>>): (r: string)
    ensures |r| == |group| && forall j :: 0 <= j < |group| ==> r[j] == group[j].value
  {
    seq(|group|, j requires 0 <= j < |group| => group[j].value)
  }

  /** The number a group spells (int.Parse of its characters). */
  function NumberOf(group: seq<Cell<char>>): (r: nat)
    requires forall j :: 0 <= j < |group| ==> IsDigit(group[j].value)
    ensures group != [] ==> ParseInt(Text(group)) == Some(r)
  {
    DigitsValue(Text(group))
  }

  /** Some cell of the group is an 8-neighbour of some cell of `others`. */
  predicate Touches(group: seq<Cell<char>>, others: seq<Cell<char>>)
  {
    exists k, j :: 0 <= k < |others| && 0 <= j < |group| && group[j].IsNeighbour8Direction(others[k])
  }

  /** The digit cells of a grid, row by row. */
  function DigitCells(cells: seq<Cell<char>>): (r: seq<Cell<char>>)
    ensures forall x :: x in r <==> x in cells && IsDigit(x.value)
  {
    Filter(cells, (x: Cell<char>) => IsDigit(x.value))
  }

  /** The runs of digit cells hold only digits. */
  lemma RunsOfDigits(cells: seq<Cell<char>>)
    ensures DigitGroups(GroupRuns(DigitCells(cells)))
  {
  }

  // ---------------------------------------------------------------------------
  // Part one.
  // ---------------------------------------------------------------------------

  /** The characters of the input that are neither digits nor '.', once each. */
  function Symbols(input: string): (r: string)
    ensures forall c :: c in r <==> c in input && !IsDigit(c) && c != '.'
    ensures Unique(r)
  {
    Distinct(Filter(input, (c: char) => !IsDigit(c) && c != '.'))
  }

  /** Each group's number when it touches one of `symbolCells`, 0 otherwise. */
  function PartValues(groups: seq<seq<Cell<char>>>, symbolCells: seq<Cell<char>>): seq<int>
    requires DigitGroups(groups)
  {
    seq(|groups|, i requires 0 <= i < |groups| && DigitGroups(groups) =>
      if Touches(groups[i], symbolCells) then NumberOf(groups[i]) else 0)
  }

  /** The numbers of the groups that touch one of `symbolCells`, summed. */
  function PartNumbers(groups: seq<seq<Cell<char>>>, symbolCells: seq<Cell<char>>): (r: int)
    requires DigitGroups(groups)
    ensures r == Sum(PartValues(groups, symbolCells))
  {
    if groups == [] then 0
    else
      assert PartValues(groups, symbolCells)[..|groups| - 1] == PartValues(groups[..|groups| - 1], symbolCells);
      PartNumbers(groups[..|groups| - 1], symbolCells) +
        (if Touches(Last(groups), symbolCells) then NumberOf(Last(groups)) else 0)
  }

  /** Summing the numbers of all groups. */
  function AllNumbers(groups: seq<seq<Cell<char>>>): (r: int)
    requires DigitGroups(groups)
  {
    if groups == [] then 0 else AllNumbers(groups[..|groups| - 1]) + NumberOf(Last(groups))
  }

  /** Part numbers are a sub-sum of all numbers: nothing without symbols,
      everything when every group touches a symbol. */
  lemma {:induction false} PartNumbersBounds(groups: seq<seq<Cell<char>>>, symbolCells: seq<Cell<char>>)
    requires DigitGroups(groups)
    ensures 0 <= PartNumbers(groups, symbolCells) <= AllNumbers(groups)
    ensures symbolCells == [] ==> PartNumbers(groups, symbolCells) == 0
    ensures (forall i :: 0 <= i < |groups| ==> Touches(groups[i], symbolCells)) ==>
      PartNumbers(groups, symbolCells) == AllNumbers(groups)
  {
    if groups != [] {
      PartNumbersBounds(groups[..|groups| - 1], symbolCells);
    }
  }

  /** The runs of digit cells of the input's grid, row by row. */
  function NumberGroups(input: string): seq<seq<Cell<char>>>
  {
    GroupRuns(DigitCells(InputHelpers.AsGrid(input).Cells()))
  }

  /** The cells of the input's grid that hold a symbol. */
  function SymbolCells(input: string): seq<Cell<char>>
  {
    Filter(InputHelpers.AsGrid(input).Cells(), (x: Cell<char>) => x.value in Symbols(input))
  }

  /** Part one: the numbers next to a symbol cell. */
  function SolvePartOne(input: string): (r: int)
    ensures r >= 0
    ensures DigitGroups(NumberGroups(input))
    ensures r == Sum(PartValues(NumberGroups(input), SymbolCells(input)))
  {
    RunsOfDigits(InputHelpers.AsGrid(input).Cells());
    PartNumbersBounds(NumberGroups(input), SymbolCells(input));
    PartNumbers(NumberGroups(input), SymbolCells(input))
  }

  // ---------------------------------------------------------------------------
  // Part two.
  // ---------------------------------------------------------------------------

  /** The groups an 8-neighbour of `gear`, in order. */
  function AdjacentGroups(groups: seq<seq<Cell<char>>>, gear: Cell<char>): (r: seq<seq<Cell<char>>>)
    ensures |r| <= |groups|
    ensures forall g :: g in r <==> g in groups && Touches(g, [gear])
    ensures DigitGroups(groups) ==> DigitGroups(r)
  {
    var r := Filter(groups, (g: seq<Cell<char>>) => Touches(g, [gear]));
    assert forall i :: 0 <= i < |r| ==> r[i] in groups;
    r
  }

  /** The product of the groups' numbers (Aggregate(1, *)). */
  function NumbersProduct(groups: seq<seq<Cell<char>>>): (r: nat)
    requires DigitGroups(groups)
  {
    if groups == [] then 1 else NumbersProduct(groups[..|groups| - 1]) * NumberOf(Last(groups))
  }

  lemma ProductOfTwo(groups: seq<seq<Cell<char>>>)
    requires |groups| == 2 && DigitGroups(groups)
    ensures NumbersProduct(groups) == NumberOf(groups[0]) * NumberOf(groups[1])
  {
    var first := groups[..1];
    assert first == [groups[0]] && first[..0] == [];
    assert NumbersProduct(first) == NumbersProduct(first[..0]) * NumberOf(groups[0]);
    assert NumbersProduct(first) == NumberOf(groups[0]);
    assert groups[..|groups| - 1] == first;
  }

  /** What one gear adds: the product of the numbers of all adjacent groups
      when there are at least two of them, and nothing otherwise. */
  function GearRatio(groups: seq<seq<Cell<char>>>, gear: Cell<char>): (r: nat)
    requires DigitGroups(groups)
    ensures |AdjacentGroups(groups, gear)| < 2 ==> r == 0
    ensures |AdjacentGroups(groups, gear)| == 2 ==>
      r == NumberOf(AdjacentGroups(groups, gear)[0]) * NumberOf(AdjacentGroups(groups, gear)[1])
  {
    var adjacent := AdjacentGroups(groups, gear);
    if |adjacent| < 2 then 0
    else
      assert |adjacent| == 2 ==> NumbersProduct(adjacent) == NumberOf(adjacent[0]) * NumberOf(adjacent[1]) by {
        if |adjacent| == 2 {
          ProductOfTwo(adjacent);
        }
      }
      NumbersProduct(adjacent)
  }

  /** The ratios of the gears, summed. */
  function GearRatioSum(groups: seq<seq<Cell<char>>>, gears: seq<Cell<char>>): (r: nat)
    requires DigitGroups(groups)
  {
    if gears == [] then 0 else GearRatioSum(groups, gears[..|gears| - 1]) + GearRatio(groups, Last(gears))
  }

  lemma GearRatioSumStep(groups: seq<seq<Cell<char>>>, gears: seq<Cell<char>>, k: nat)
    requires DigitGroups(groups) && k < |gears|
    ensures GearRatioSum(groups, gears[..k + 1]) == GearRatioSum(groups, gears[..k]) + GearRatio(groups, gears[k])
  {
    assert gears[..k + 1][..k] == gears[..k];
  }

  /** Gears with fewer than two numbers around them add nothing. */
  lemma {:induction false} LonelyGears(groups: seq<seq<Cell<char>>>, gears: seq<Cell<char>>)
    requires DigitGroups(groups)
    requires forall k :: 0 <= k < |gears| ==> |AdjacentGroups(groups, gears[k])| < 2
    ensures GearRatioSum(groups, gears) == 0
  {
    if gears != [] {
      LonelyGears(groups, gears[..|gears| - 1]);
    }
  }

  /** Part two: the loop over the '*' cells accumulating the ratios. */
  method SolvePartTwo(input: string) returns (ratioSum: int)
    ensures var cells := InputHelpers.AsGrid(input).Cells();
      DigitGroups(GroupRuns(DigitCells(cells))) &&
      ratioSum == GearRatioSum(GroupRuns(DigitCells(cells)), Filter(cells, (x: Cell<char>) => x.value == '*'))
  {
    var grid := InputHelpers.AsGrid(input);
    var numberCellGroups := GetNumberCellGroups(DigitCells(grid.Cells()));
    RunsOfDigits(grid.Cells());
    var gearCells := Filter(grid.Cells(), (x: Cell<char>) => x.value == '*');
    ratioSum := 0;
    for k := 0 to |gearCells|
      invariant ratioSum == GearRatioSum(numberCellGroups, gearCells[..k])
    {
      GearRatioSumStep(numberCellGroups, gearCells, k);
      var adjacentNumberGroups := AdjacentGroups(numberCellGroups, gearCells[k]);
      if |adjacentNumberGroups| < 2 {
        continue;
      }
      ratioSum := ratioSum + GearRatio(numberCellGroups, gearCells[k]);
    }
    assert gearCells[..|gearCells|] == gearCells;
  }
}
