# AdventOfCode solutions in Dafny

This project models the core of an Advent of Code solutions repository written in C#. It covers four parts:

- The shared grid library: `Cell` with its adjacency tests, and `Grid` with its construction, row-major enumeration, row and column access and neighbour lookup.
- The input helpers that split puzzle text into lines, grids and integers.
- The A* search that solves 2022 day 12.
- The cores of the puzzle solutions for 2021 days 1-2, 2022 days 1-14 and 2023 days 1-5 and 7-10.

Each C# file becomes one Dafny module with the same name, so `Y2022D12.cs` becomes module `Y2022D12`. Most solution modules model the code as it was written:

- stateful code becomes methods with loops or classes;
- LINQ pipelines become functions;
- each method is proved against a specification function;
- lemmas state what the puzzle and the code promise about that function.

Four helper modules model .NET library behaviour that the solutions rely on:

- `Wrappers` gives `Option` and `Result`. `None` and `Fail` stand for the places where the C# code throws.
- `Strings` models `string.Split`, `Join`, `Trim`, `Replace` and `int.Parse`.
- `Seqs` models LINQ `Sum`, `Max`, `Min`, `Distinct`, `Intersect`, `Chunk`, `First` and a stable `OrderBy`.
- `Longs` models the 64-bit `long` type: its range, `long.Parse`, C#'s truncating `/` and `%`, and unchecked wrap-around.

Where a source method and a Dafny member differ in shape, the cited source lines say what is modelled.

## Model

| member | source | states |
|---|---|---|
| Extensions.AsLines | src/AdventOfCode.Lib/Helpers/Extensions.cs:7 | the split on '\n' always yields at least one line |
| Extensions.AsLinesSplitsOnNewline | src/AdventOfCode.Lib/Helpers/Extensions.cs:7 | no line holds '\n', there is one more line than newlines, and joining the lines with '\n' gives back the input |
| Extensions.ParseAs | src/AdventOfCode.Lib/Helpers/Extensions.cs:9 | succeeds exactly when every string parses, and then result i is the parse of input i |
| Grids.NeighbourSymmetric | src/AdventOfCode.Lib/Helpers/Grid.cs:38-41 | each of the X, Y, 4-direction and 8-direction adjacency relations is symmetric |
| Grids.Neighbour4NotSelfNorDiagonal | src/AdventOfCode.Lib/Helpers/Grid.cs:39-41 | neither the cell itself nor a diagonal cell is an X, Y or 4-direction neighbour |
| Grids.Neighbour4Implies8 | src/AdventOfCode.Lib/Helpers/Grid.cs:38-41 | every 4-direction neighbour is an 8-direction neighbour, and a cell is its own 8-direction neighbour |
| Grids.Neighbour8Fixtures | src/AdventOfCode.Lib.Tests/CellTests.cs:7-17 | around (2, 2), the cells (1, 1), (1, 3) and (3, 3) are 8-direction neighbours and (0, 0) and (4, 4) are not |
| Grids.Grid.Cells | src/AdventOfCode.Lib/Helpers/Grid.cs:64-67 | the enumeration has one entry per stored cell |
| Grids.Grid.Get | src/AdventOfCode.Lib/Helpers/Grid.cs:69-72 | a value exists exactly when the row and column index a stored cell (the out-of-range index that throws is None) |
| Grids.Grid.GetRow | src/AdventOfCode.Lib/Helpers/Grid.cs:74-77 | defined exactly for an existing row; the row's cells in column order, each carrying that row and its column |
| Grids.Grid.GetColumn | src/AdventOfCode.Lib/Helpers/Grid.cs:79-82 | defined exactly when every row is long enough; one cell per row, in row order, each carrying that column |
| Grids.Grid.GetNeighbours | src/AdventOfCode.Lib/Helpers/Grid.cs:84-115 | at most four cells; a cell is returned exactly when it is in the grid and is an X neighbour (when `x`) or a Y neighbour (when `y`); east, west, south, north order |
| Grids.ColumnOf | src/AdventOfCode.Lib/Helpers/Grid.cs:81 | entry k is row k's element at the column |
| Grids.CellsCount | src/AdventOfCode.Lib/Helpers/Grid.cs:66 | the flattened rows have as many entries as all rows together |
| Grids.CellsIndex | src/AdventOfCode.Lib/Helpers/Grid.cs:66 | cell (r, c) sits at the offset of row r plus c in the enumeration |
| Grids.CellsPosition | src/AdventOfCode.Lib/Helpers/Grid.cs:66 | every position of the enumeration is some cell (r, c) at the offset of row r plus c |
| Grids.CellsMember | src/AdventOfCode.Lib/Helpers/Grid.cs:64-67 | a cell is enumerated exactly when it is stored at some in-range row and column |
| Grids.RowOffsetMonotone | src/AdventOfCode.Lib/Helpers/Grid.cs:66 | a later row starts after every cell of an earlier row |
| Grids.CellsRowMajor | src/AdventOfCode.Lib/Helpers/Grid.cs:64-67 | the enumeration is strictly row-major, so it lists each cell once |
| Grids.Construct | src/AdventOfCode.Lib/Helpers/Grid.cs:50-62 | the grid has the elements' shape, and cell (r, c) holds element (r, c) and knows its own row and column |
| Grids.GetConstruct | src/AdventOfCode.Lib/Helpers/Grid.cs:50-72 | Get(column, row) on a constructed grid is the element at (row, column), and None outside the elements |
| Grids.NeighbourCounts | src/AdventOfCode.Lib/Helpers/Grid.cs:84-115 | the `diag` flag changes nothing; an interior cell of a rectangular grid has four neighbours and a corner two |
| Grids.Cell.IsNeighbour8Direction | src/AdventOfCode.Lib/Helpers/Grid.cs:38 | true exactly when the rows and the columns each differ by at most one, the cell itself included |
| Grids.Cell.IsNeighbour4Direction | src/AdventOfCode.Lib/Helpers/Grid.cs:39 | true exactly when the row distance and the column distance add up to one |
| Grids.Cell.IsNeighbourX | src/AdventOfCode.Lib/Helpers/Grid.cs:40 | true exactly when the other cell is in the same row, one column to the left or right |
| Grids.Cell.IsNeighbourY | src/AdventOfCode.Lib/Helpers/Grid.cs:41 | true exactly when the other cell is in the same column, one row above or below |
| InputHelpers.AsLines | src/AdventOfCode.Lib/Helpers/InputHelpers.cs:5-6 | the same lines as the string extension's AsLines |
| InputHelpers.AsLinesProperties | src/AdventOfCode.Lib/Helpers/InputHelpers.cs:5-6 | no line holds '\n', one more line than newlines, and the lines join back to the input |
| InputHelpers.AsCharGrid | src/AdventOfCode.Lib/Helpers/InputHelpers.cs:8-11 | one row per line, and the rows joined with '\n' give back the input |
| InputHelpers.AsGrid | src/AdventOfCode.Lib/Helpers/InputHelpers.cs:13-16 | every cell of the character grid knows its own position |
| InputHelpers.AsGridWith | src/AdventOfCode.Lib/Helpers/InputHelpers.cs:18-21 | every cell of the transformed grid knows its own position |
| InputHelpers.AsGridGet | src/AdventOfCode.Lib/Helpers/InputHelpers.cs:13-16 | Get(c, r) is the c-th character of line r, and None off the text |
| InputHelpers.AsGridWithGet | src/AdventOfCode.Lib/Helpers/InputHelpers.cs:18-21 | the transformed grid holds transform(ch) wherever the character grid holds ch |
| InputHelpers.AsInts | src/AdventOfCode.Lib/Helpers/InputHelpers.cs:23-25 | succeeds exactly when every line parses as an integer; value i is line i's number |
| InputHelpers.AsIntsEmptyLine | src/AdventOfCode.Lib/Helpers/InputHelpers.cs:23-25 | an empty line (such as the one after a trailing newline) makes the parse fail |
| Y2021D01.IncreaseCount | src/AdventOfCode/Y2021/D01/Y2021D01.cs:27-29 | zero for fewer than two depths, and at most one less than the number of depths |
| Y2021D01.IncreaseCountIsIncreases | src/AdventOfCode/Y2021/D01/Y2021D01.cs:27-29 | the count is the number of positions followed by a larger value |
| Y2021D01.StrictlyIncreasingCount | src/AdventOfCode/Y2021/D01/Y2021D01.cs:27-29 | a strictly increasing sequence counts every one of its steps |
| Y2021D01.WindowSums | src/AdventOfCode/Y2021/D01/Y2021D01.cs:20-25 | one sum per position, sum i being the (at most) three depths from i on |
| Y2021D01.WindowIncrease | src/AdventOfCode/Y2021/D01/Y2021D01.cs:20-25 | of two full neighbouring windows the later is larger exactly when the depth it gains beats the depth it drops |
| Y2021D01.LastWindowPartial | src/AdventOfCode/Y2021/D01/Y2021D01.cs:23 | the last window is partial and holds only the last depth |
| Y2021D01.SolvePartOne | src/AdventOfCode/Y2021/D01/Y2021D01.cs:8-12 | fails exactly when a line is not a number; otherwise its text parses back to the number of increases |
| Y2021D01.SolvePartTwo | src/AdventOfCode/Y2021/D01/Y2021D01.cs:14-18 | fails exactly when a line is not a number; otherwise its text parses back to the number of increases of the window sums |
| Y2021D02.ParseDirection | src/AdventOfCode/Y2021/D02/Y2021D02.cs:7-12 | succeeds exactly on "forward", "up" and "down" |
| Y2021D02.ParseCommand | src/AdventOfCode/Y2021/D02/Y2021D02.cs:80-84 | succeeds exactly when the line has two words, a direction and a number |
| Y2021D02.SolvePartOne | src/AdventOfCode/Y2021/D02/Y2021D02.cs:26-33 | the product of the forward total and the down-minus-up total, which is 0 when every command is forward |
| Y2021D02.NoVerticalMoves | src/AdventOfCode/Y2021/D02/Y2021D02.cs:65-69 | commands that are all forward give a vertical offset of 0 |
| Y2021D02.Forwards | src/AdventOfCode/Y2021/D02/Y2021D02.cs:50-63 | at most one (distance, aim) pair per command |
| Y2021D02.GetNextForward | src/AdventOfCode/Y2021/D02/Y2021D02.cs:50-63 | the loop with a running aim yields exactly the pairs of Forwards |
| Y2021D02.ForwardsSums | src/AdventOfCode/Y2021/D02/Y2021D02.cs:35-48 | the distances of the pairs add up to part one's horizontal total, and their products to the aimed depth |
| Y2021D02.SolvePartTwo | src/AdventOfCode/Y2021/D02/Y2021D02.cs:35-48 | the horizontal total times the aimed depth |
| Y2021D02.LevelAimNoDepth | src/AdventOfCode/Y2021/D02/Y2021D02.cs:50-63 | without up or down commands the aim stays 0 and the aimed depth is 0 |
| Y2021D02.Solve | src/AdventOfCode/Y2021/D02/Y2021D02.cs:26-48 | both parts fail exactly when a line does not parse; otherwise they are part one's product and the horizontal total times the aimed depth |
| Y2021D02.Horizontal | src/AdventOfCode/Y2021/D02/Y2021D02.cs:71-75 | the forward total is never negative when no distance is |
| Y2021D02.HorizontalAppend | src/AdventOfCode/Y2021/D02/Y2021D02.cs:71-75 | the forward total of two command lists run one after the other is the sum of their totals |
| Y2021D02.Vertical | src/AdventOfCode/Y2021/D02/Y2021D02.cs:65-69 | the vertical offset is never negative when no command goes up and no distance is negative |
| Y2021D02.VerticalAppend | src/AdventOfCode/Y2021/D02/Y2021D02.cs:65-69 | the vertical offset of two command lists run one after the other is the sum of their offsets |
| Y2021D02.Depth | src/AdventOfCode/Y2021/D02/Y2021D02.cs:35-48 | the aimed depth is never negative when no command goes up and no distance is negative |
| Y2021D02.DepthAppend | src/AdventOfCode/Y2021/D02/Y2021D02.cs:50-63 | the aimed depth of two lists run in turn is the sum of their depths plus the second list's forward total times the aim the first one leaves |
| Y2022D01.GroupSum | src/AdventOfCode/Y2022/D01/Y2022D01.cs:22 | defined exactly when every line of the group parses, and then the sum of the parsed lines |
| Y2022D01.Groups | src/AdventOfCode/Y2022/D01/Y2022D01.cs:21 | the split on blank lines always yields at least one group |
| Y2022D01.GroupCalories | src/AdventOfCode/Y2022/D01/Y2022D01.cs:20-22 | defined exactly when every group sums; one total per group, in order |
| Y2022D01.SolvePartOne | src/AdventOfCode/Y2022/D01/Y2022D01.cs:7-10 | fails exactly when the totals do; otherwise a group total that no other total exceeds |
| Y2022D01.SolvePartTwo | src/AdventOfCode/Y2022/D01/Y2022D01.cs:12-18 | fails exactly when the totals do; otherwise the sum of the first three totals in descending order |
| Y2022D01.TopThreeFew | src/AdventOfCode/Y2022/D01/Y2022D01.cs:14-17 | with three groups or fewer, every group is counted |
| Y2022D01.TakeAtLeastHead | src/AdventOfCode/Y2022/D01/Y2022D01.cs:16-17 | with non-negative totals, the first few together are at least the first |
| Y2022D01.TopThreeAtLeastMax | src/AdventOfCode/Y2022/D01/Y2022D01.cs:9-17 | with non-negative totals, the top three together are at least the largest |
| Y2022D01.PartTwoAtLeastPartOne | src/AdventOfCode/Y2022/D01/Y2022D01.cs:7-18 | with non-negative totals, part two's answer is at least part one's |
| Y2022D02.Selection | src/AdventOfCode/Y2022/D02/Y2022D02.cs:18-26 | defined exactly on A, B, C, X, Y and Z |
| Y2022D02.SelectionScore | src/AdventOfCode/Y2022/D02/Y2022D02.cs:11-16 | the shape score is between 1 and 3 |
| Y2022D02.WinConditionIsBeats | src/AdventOfCode/Y2022/D02/Y2022D02.cs:28-33 | the win table names the shape that beats a shape; nothing beats itself; of two different shapes exactly one wins |
| Y2022D02.GameScore | src/AdventOfCode/Y2022/D02/Y2022D02.cs:48-62 | between 1 and 9; above the shape score by 6 exactly on a win, by 3 exactly on a draw, by 0 exactly on a loss |
| Y2022D02.ParseGame | src/AdventOfCode/Y2022/D02/Y2022D02.cs:66-71 | succeeds exactly when the line has two words that are both known letters |
| Y2022D02.TotalScore | src/AdventOfCode/Y2022/D02/Y2022D02.cs:37-38 | between 1 and 9 points per game |
| Y2022D02.AllDrawsScore | src/AdventOfCode/Y2022/D02/Y2022D02.cs:56-59 | when every game is a draw, between 4 and 6 points per game |
| Y2022D02.SolvePartOne | src/AdventOfCode/Y2022/D02/Y2022D02.cs:35-41 | fails exactly when a line does not parse; otherwise the total score of the games, between 1 and 9 per game |
| Y2022D02.WinCondition | src/AdventOfCode/Y2022/D02/Y2022D02.cs:28-33 | the shape it names beats the opponent's shape and is not beaten by it |
| Y2022D03.Halves | src/AdventOfCode/Y2022/D03/Y2022D03.cs:9-14 | the compartments put together are the contents; the first is half the length rounded down and the second at most one longer |
| Y2022D03.Shared | src/AdventOfCode/Y2022/D03/Y2022D03.cs:20-23 | holds an item exactly when both compartments do, each once |
| Y2022D03.Alphabet | src/AdventOfCode/Y2022/D03/Y2022D03.cs:26-30 | 52 letters: 'a'..'z' at positions 0..25, then 'A'..'Z' |
| Y2022D03.AlphabetUnique | src/AdventOfCode/Y2022/D03/Y2022D03.cs:26-30 | no letter appears twice in the list |
| Y2022D03.Priority | src/AdventOfCode/Y2022/D03/Y2022D03.cs:37 | 1..26 for 'a'..'z', 27..52 for 'A'..'Z', and 0 for any other character (IndexOf gives -1) |
| Y2022D03.AlphabetIndex | src/AdventOfCode/Y2022/D03/Y2022D03.cs:37 | the index of each letter in the list, and -1 for any other character |
| Y2022D03.SingleSharedItem | src/AdventOfCode/Y2022/D03/Y2022D03.cs:34-38 | a rucksack whose compartments share exactly one item type adds that item's priority once, however often it occurs |
| Y2022D03.PartOneSingleItems | src/AdventOfCode/Y2022/D03/Y2022D03.cs:32-39 | when each rucksack shares exactly one item, part one is the sum of those items' priorities |
| Y2022D03.CommonOf | src/AdventOfCode/Y2022/D03/Y2022D03.cs:53 | the fold keeps an item exactly when it is in the start string and in every rucksack |
| Y2022D03.AmongAllNoRucksacks | src/AdventOfCode/Y2022/D03/Y2022D03.cs:53 | filtering by no rucksack keeps everything |
| Y2022D03.AmongThenAll | src/AdventOfCode/Y2022/D03/Y2022D03.cs:53 | filtering by the first rucksack, then by the others, is filtering by all of them |
| Y2022D03.CommonOfIsAmongAll | src/AdventOfCode/Y2022/D03/Y2022D03.cs:53 | from a start without repetitions, the fold keeps the items found in every rucksack in their original order |
| Y2022D03.FirstInAll | src/AdventOfCode/Y2022/D03/Y2022D03.cs:54 | the position of the first item found in every rucksack; no earlier item is in all of them |
| Y2022D03.AmongAllEmpty | src/AdventOfCode/Y2022/D03/Y2022D03.cs:53-54 | nothing is kept exactly when no item is in every rucksack |
| Y2022D03.CommonItem | src/AdventOfCode/Y2022/D03/Y2022D03.cs:49-55 | fails exactly when no letter is in every rucksack (First throws); otherwise the earliest letter of the list that is |
| Y2022D03.BadgeSum | src/AdventOfCode/Y2022/D03/Y2022D03.cs:45-46 | defined exactly when every group has a badge, and then the sum over the groups of their badge's priority, never negative |
| Y2022D03.SolvePartTwo | src/AdventOfCode/Y2022/D03/Y2022D03.cs:41-47 | defined exactly when every group of three has a badge, and then the sum of the badges' priorities |
| Y2022D03.SolvePartOne | src/AdventOfCode/Y2022/D03/Y2022D03.cs:32-39 | the sum over the rucksacks of the priorities of the item types both halves share, each type once; when each rucksack shares exactly one item, the sum of those items' priorities |
| Y2022D03.SumPriorities | src/AdventOfCode/Y2022/D03/Y2022D03.cs:37-38 | the sum of the items' priorities, item by item |
| Y2022D03.RucksackPriority | src/AdventOfCode/Y2022/D03/Y2022D03.cs:35-38 | the priorities of the shared item types summed, so 0 when the halves share nothing |
| Y2022D03.SumOfRucksacks | src/AdventOfCode/Y2022/D03/Y2022D03.cs:34-38 | the sum over the rucksacks of what each one's shared items add |
| Y2022D03.PartOneAllSingleItems | src/AdventOfCode/Y2022/D03/Y2022D03.cs:32-39 | the sum over the rucksacks equals the priorities of the single shared items, for any items the halves share exactly |
| Y2022D04.ParseAssignment | src/AdventOfCode/Y2022/D04/Y2022D04.cs:15-26 | succeeds exactly when every field parses and there are at least four; the pair is the first four numbers |
| Y2022D04.TestsSymmetric | src/AdventOfCode/Y2022/D04/Y2022D04.cs:28-29 | containment and overlap do not depend on which elf comes first |
| Y2022D04.ContainsOverlaps | src/AdventOfCode/Y2022/D04/Y2022D04.cs:28-29 | with well-formed ranges, a pair where one range contains the other overlaps |
| Y2022D04.OverlapsShareSection | src/AdventOfCode/Y2022/D04/Y2022D04.cs:51 | with well-formed ranges, the overlap test holds exactly when some section is in both ranges |
| Y2022D04.CountContains | src/AdventOfCode/Y2022/D04/Y2022D04.cs:28-29 | at most one per pair |
| Y2022D04.CountOverlaps | src/AdventOfCode/Y2022/D04/Y2022D04.cs:51 | at most one per pair |
| Y2022D04.ContainsAtMostOverlaps | src/AdventOfCode/Y2022/D04/Y2022D04.cs:10-52 | with well-formed ranges, the containing pairs are no more than the overlapping ones |
| Y2022D04.SolvePartOne | src/AdventOfCode/Y2022/D04/Y2022D04.cs:10-30 | fails exactly when a line does not parse; otherwise the number of containing pairs, at most the number of lines |
| Y2022D04.SolvePartTwo | src/AdventOfCode/Y2022/D04/Y2022D04.cs:33-52 | fails exactly when a line does not parse; otherwise the number of overlapping pairs, at most the number of lines |
| Y2022D04.PartOneAtMostPartTwo | src/AdventOfCode/Y2022/D04/Y2022D04.cs:10-52 | with well-formed ranges, part one's answer is at most part two's |
| Y2022D04.Contains | src/AdventOfCode/Y2022/D04/Y2022D04.cs:28-29 | when it holds, every section of one elf's range lies in the other's range |
| Y2022D04.Overlaps | src/AdventOfCode/Y2022/D04/Y2022D04.cs:51 | when it fails, no section lies in both ranges |
| Y2022D05.TotalUpdate | src/AdventOfCode/Y2022/D05/Y2022D05.cs:14-23 | replacing one stack changes the crate total by the difference in height |
| Y2022D05.Taken | src/AdventOfCode/Y2022/D05/Y2022D05.cs:16-22 | a move takes at most the stack's height and at most the count: all of the stack or exactly the count (none for a non-positive count) |
| Y2022D05.PopPush | src/AdventOfCode/Y2022/D05/Y2022D05.cs:18-21 | one pop and push keeps the number of stacks and of crates |
| Y2022D05.MoveCrates | src/AdventOfCode/Y2022/D05/Y2022D05.cs:16-22 | part one's rounds keep the number of stacks and of crates |
| Y2022D05.MoveCratesStep | src/AdventOfCode/Y2022/D05/Y2022D05.cs:16-22 | one more round adds a pop and push when the source stack is not empty, and changes nothing when it is |
| Y2022D05.ReverseSnoc | src/AdventOfCode/Y2022/D05/Y2022D05.cs:18-20 | a crate pushed after the others comes first in the reversed order |
| Y2022D05.MoveCratesReversed | src/AdventOfCode/Y2022/D05/Y2022D05.cs:14-23 | between two different stacks, the top crates taken from `from` arrive on `to` in reverse order, and every other stack is unchanged |
| Y2022D05.MoveCratesOntoItself | src/AdventOfCode/Y2022/D05/Y2022D05.cs:16-22 | a part-one move from a stack onto itself changes nothing |
| Y2022D05.MoveBlockConserves | src/AdventOfCode/Y2022/D05/Y2022D05.cs:36-52 | a part-two move keeps the number of stacks and of crates, and a move onto the same stack changes nothing |
| Y2022D05.CratesReverseBlock | src/AdventOfCode/Y2022/D05/Y2022D05.cs:14-52 | between two different stacks the two cranes agree everywhere except on the block landing on `to`, which part one delivers reversed |
| Y2022D05.MoveOneByOne | src/AdventOfCode/Y2022/D05/Y2022D05.cs:16-22 | succeeds exactly when the move does not throw, and then leaves the stacks of the crate-by-crate specification |
| Y2022D05.MoveAsBlock | src/AdventOfCode/Y2022/D05/Y2022D05.cs:38-51 | succeeds exactly when the move does not throw, and then leaves the stacks of the block specification |
| Y2022D05.RunMovesConserves | src/AdventOfCode/Y2022/D05/Y2022D05.cs:14-23 | a whole run of moves, with either crane, keeps the number of stacks and of crates |
| Y2022D05.Tops | src/AdventOfCode/Y2022/D05/Y2022D05.cs:25 | defined exactly when no stack is empty (Peek throws on an empty one) |
| Y2022D05.TopsSpellLetters | src/AdventOfCode/Y2022/D05/Y2022D05.cs:25 | when every top crate is drawn "[X]", the answer spells the tops' letters in stack order |
| Y2022D05.RowCrates | src/AdventOfCode/Y2022/D05/Y2022D05.cs:67 | one field per four-character chunk of the row, each trimmed |
| Strings.TrimInfix | src/AdventOfCode/Y2022/D05/Y2022D05.cs:67 | Trim keeps a contiguous part s[a..b] of the string, and every character it drops before a or from b on is one of the trimmed characters |
| Y2022D05.ColumnEmpty | src/AdventOfCode/Y2022/D05/Y2022D05.cs:66-80 | a stack is empty exactly when its whole column is blank |
| Y2022D05.ColumnTop | src/AdventOfCode/Y2022/D05/Y2022D05.cs:66-80 | a non-empty stack has as its top the highest crate drawn above it |
| Y2022D05.Stacked | src/AdventOfCode/Y2022/D05/Y2022D05.cs:66-80 | one stack per column, stack k holding the crates of column k bottom up |
| Y2022D05.StackedStep | src/AdventOfCode/Y2022/D05/Y2022D05.cs:72-80 | one more field pushes it onto stack `index % count`, unless it is blank |
| Y2022D05.BuildStacks | src/AdventOfCode/Y2022/D05/Y2022D05.cs:72-80 | the Aggregate loop succeeds exactly when the stack specification does and builds those stacks in a new list |
| Y2022D05.ParseMoveLine | src/AdventOfCode/Y2022/D05/Y2022D05.cs:83-90 | a printed move line parses back to the move, with 0-based stack numbers |
| Y2022D05.IntToStringNoSpace | src/AdventOfCode/Y2022/D05/Y2022D05.cs:87 | a printed number has no space, so it stays one word |
| Y2022D05.ApplyMoves | src/AdventOfCode/Y2022/D05/Y2022D05.cs:14-52 | running the moves on the list of stacks succeeds exactly when the specification does, and leaves its stacks |
| Y2022D05.SolvePartOne | src/AdventOfCode/Y2022/D05/Y2022D05.cs:9-26 | part one is the specification with the crate-by-crate crane |
| Y2022D05.SolvePartTwo | src/AdventOfCode/Y2022/D05/Y2022D05.cs:29-56 | part two is the specification with the block crane |
| Y2022D05.SolveWith | src/AdventOfCode/Y2022/D05/Y2022D05.cs:9-56 | parse, move and read the tops, as the specification for the chosen crane |
| Y2022D05A1.SliceMove | src/AdventOfCode/Y2022/D05/Y2022D05A1.cs:19-23 | defined exactly when neither slice throws; keeps the number of stacks |
| Y2022D05A1.SliceMoveAgrees | src/AdventOfCode/Y2022/D05/Y2022D05A1.cs:19-39 | on every move that does not throw, the string crane leaves the same stacks as the first solution's crane of the same part |
| Y2022D05A1.EmptyMove | src/AdventOfCode/Y2022/D05/Y2022D05A1.cs:21-22 | a move of no crates changes nothing |
| Y2022D05A1.MoveOntoItself | src/AdventOfCode/Y2022/D05/Y2022D05A1.cs:21-22 | a move from a string onto itself changes nothing |
| Y2022D05A1.ReversedMoveAgrees | src/AdventOfCode/Y2022/D05/Y2022D05A1.cs:21-22 | a reversed slice move between two stacks equals the first solution's part-one rounds |
| Y2022D05A1.BlockMoveAgrees | src/AdventOfCode/Y2022/D05/Y2022D05A1.cs:37-38 | an unreversed slice move between two stacks equals the first solution's block move |
| Y2022D05A1.OverlongMoveOnlyThrowsHere | src/AdventOfCode/Y2022/D05/Y2022D05A1.cs:21-22 | a move of more crates than the stack holds throws here, while the first solution skips the missing pops |
| Y2022D05A1.SliceMoveConserves | src/AdventOfCode/Y2022/D05/Y2022D05A1.cs:21-22 | a slice move keeps the total number of letters |
| Y2022D05A1.MoveLetters | src/AdventOfCode/Y2022/D05/Y2022D05A1.cs:21-22 | the loop body succeeds exactly when the slice move does and leaves its strings |
| Y2022D05A1.RunMovesAgree | src/AdventOfCode/Y2022/D05/Y2022D05A1.cs:19-39 | where the string crane does not throw, a whole run leaves the same stacks as the first solution |
| Y2022D05A1.ApplyMoves | src/AdventOfCode/Y2022/D05/Y2022D05A1.cs:19-23 | the move loop succeeds exactly when the run specification does and leaves its strings |
| Y2022D05A1.StackCount | src/AdventOfCode/Y2022/D05/Y2022D05A1.cs:46 | the stack count is at least one |
| Y2022D05A1.RowLetters | src/AdventOfCode/Y2022/D05/Y2022D05A1.cs:49-50 | letter m is the row's character at 1 + 4m, and every such position is taken |
| Y2022D05A1.NonSpace | src/AdventOfCode/Y2022/D05/Y2022D05A1.cs:54 | no space is kept and nothing is added |
| Y2022D05A1.NonSpaceFirst | src/AdventOfCode/Y2022/D05/Y2022D05A1.cs:54 | the first letter kept is the first character that is not a space |
| Y2022D05A1.NonSpaceOfSpaces | src/AdventOfCode/Y2022/D05/Y2022D05A1.cs:54 | nothing is kept of a run of spaces |
| Y2022D05A1.Stacks | src/AdventOfCode/Y2022/D05/Y2022D05A1.cs:52-54 | one group per key that occurs, so fewer than `count` when there are fewer letters |
| Y2022D05A1.StackTop | src/AdventOfCode/Y2022/D05/Y2022D05A1.cs:53-54 | the top of a stack is the first non-space letter of its group, the highest crate drawn above it |
| Y2022D05A1.StackOfSpaces | src/AdventOfCode/Y2022/D05/Y2022D05A1.cs:54 | a group of spaces gives an empty stack |
| Y2022D05A1.ParseMoveAgrees | src/AdventOfCode/Y2022/D05/Y2022D05A1.cs:57-65 | taking the odd words reads the same move as the first solution's fixed positions 1, 3 and 5 |
| Y2022D05A1.Tops | src/AdventOfCode/Y2022/D05/Y2022D05A1.cs:25 | defined exactly when no stack is empty; letter i is the last letter of stack i |
| Y2022D05A1.SolveWith | src/AdventOfCode/Y2022/D05/Y2022D05A1.cs:14-42 | parse, move and read the last letters, as the specification for the chosen order |
| Y2022D05A1.SolvePartOne | src/AdventOfCode/Y2022/D05/Y2022D05A1.cs:14-26 | part one is the specification with reversed slices |
| Y2022D05A1.SolvePartTwo | src/AdventOfCode/Y2022/D05/Y2022D05A1.cs:29-42 | part two is the specification with slices kept in order |
| Y2022D06.FirstUnique | src/AdventOfCode/Y2022/D06/Y2022D06.cs:27-46 | the first start below the bound of a window without repetitions; None exactly when no start below the bound has one |
| Y2022D06.FirstUniqueStable | src/AdventOfCode/Y2022/D06/Y2022D06.cs:27 | once a window is found, a larger bound finds the same one |
| Y2022D06.LastIndexOf | src/AdventOfCode/Y2022/D06/Y2022D06.cs:33 | -1 exactly when the character is absent; otherwise a position holding it with no later one |
| Y2022D06.UniqueByLastIndex | src/AdventOfCode/Y2022/D06/Y2022D06.cs:31-39 | a slice has no repetition exactly when each character's last position is its own position |
| Y2022D06.SliceIsUnique | src/AdventOfCode/Y2022/D06/Y2022D06.cs:29-39 | the inner loop reports unique exactly when the slice has no repetition |
| Y2022D06.FindStart | src/AdventOfCode/Y2022/D06/Y2022D06.cs:23-49 | the end of the first unique window starting before `length - n`, or 0 when there is none; a nonzero answer lies in n..length-1 |
| Y2022D06.SolvePartOne | src/AdventOfCode/Y2022/D06/Y2022D06.cs:12-15 | a nonzero answer ends a window of four distinct characters with none earlier; 0 means no window starting before `length - 4` has them |
| Y2022D06.SolvePartTwo | src/AdventOfCode/Y2022/D06/Y2022D06.cs:18-21 | the same for windows of fourteen |
| Y2022D06.FinalWindowSkipped | src/AdventOfCode/Y2022/D06/Y2022D06.cs:27 | for "abcd" and n = 4 the only window is unique, yet the scan's bound never tests it |
| Y2022D06.FirstUniqueComplete | src/AdventOfCode/Y2022/D06/Y2022D06.cs:27 | searching up to and including `length - n` finds a window exactly when one exists |
| Y2022D06.FindStartInclusive | src/AdventOfCode/Y2022/D06/Y2022D06.cs:23-49 | the scan with the final window included: for n >= 1 the answer is nonzero exactly when some window is unique |
| Y2022D06A1.FindStart | src/AdventOfCode/Y2022/D06/Y2022D06A1.cs:31-42 | the end of the first unique window; when there is none, Substring throws on a nonempty input with n >= 2 (Fail), otherwise 0 |
| Y2022D06A1.FoundMarker | src/AdventOfCode/Y2022/D06/Y2022D06A1.cs:35-38 | a found marker ends a window of distinct characters, and no earlier window is free of repetitions |
| Y2022D06A1.SameMarkerAsSpanScan | src/AdventOfCode/Y2022/D06/Y2022D06A1.cs:31-42 | whenever the span scan of the first solution finds a window, this one finds the same window |
| Y2022D06A1.SolvePartOne | src/AdventOfCode/Y2022/D06/Y2022D06A1.cs:20-23 | a nonzero answer ends the first window of four distinct characters (no earlier window is free of repeats); when such a window exists the answer is nonzero; 0 comes only from the empty input; the call throws exactly when the input is nonempty and has no such window |
| Y2022D06A1.SolvePartTwo | src/AdventOfCode/Y2022/D06/Y2022D06A1.cs:26-29 | the same for windows of fourteen: a nonzero answer ends the first such window, one exists exactly when the answer is nonzero, 0 only for the empty input, and the call throws exactly on a nonempty input without one |
| Y2022D07.CalcDirSizes | src/AdventOfCode/Y2022/D07/Y2022D07.cs:26-77 | the stack-and-dictionary loop gives the sizes of the line-by-line specification, and fails exactly where it throws |
| Y2022D07.WalkStuck | src/AdventOfCode/Y2022/D07/Y2022D07.cs:35-74 | once a line throws (a pop of an empty stack, a size that does not parse), the whole computation throws |
| Y2022D07.JoinSnoc | src/AdventOfCode/Y2022/D07/Y2022D07.cs:63 | one more name extends a key by "_" and the name |
| Y2022D07.KeyStep | src/AdventOfCode/Y2022/D07/Y2022D07.cs:63 | the key of n names is the key of n - 1 names, "_" and the n-th name |
| Y2022D07.KeyLonger | src/AdventOfCode/Y2022/D07/Y2022D07.cs:61-63 | the keys of the directories on the path grow strictly longer, so the loop never meets a key twice |
| Y2022D07.JoinInjective | src/AdventOfCode/Y2022/D07/Y2022D07.cs:63 | when no name holds "_", a key determines its names |
| Y2022D07.AddFileAt | src/AdventOfCode/Y2022/D07/Y2022D07.cs:61-72 | after a file, the keys of the path's directories hold their old size (or 0) plus the file's, and every other entry is kept |
| Y2022D07.WalkPlain | src/AdventOfCode/Y2022/D07/Y2022D07.cs:37-48 | when no cd names hold "_", no name on the stack does |
| Y2022D07.FileKeys | src/AdventOfCode/Y2022/D07/Y2022D07.cs:57-73 | a file's size goes to a directory exactly when that directory is current or an ancestor of the current one |
| Y2022D07.TotalWithin | src/AdventOfCode/Y2022/D07/Y2022D07.cs:26-77 | a directory has an entry exactly when a file is listed inside it, and the entry is the sum of those files' sizes; for "/" that is every file below the root |
| Y2022D07.WithinDescendant | src/AdventOfCode/Y2022/D07/Y2022D07.cs:57-73 | every file inside a subdirectory is inside the directory, so with non-negative sizes the subdirectory's files sum to no more |
| Y2022D07.AtLeastDescendant | src/AdventOfCode/Y2022/D07/Y2022D07.cs:26-77 | with plain names and non-negative sizes, a directory has an entry whenever a subdirectory does, and its size is at least the subdirectory's |
| Y2022D07.SmallSumRemove | src/AdventOfCode/Y2022/D07/Y2022D07.cs:11-13 | the sum of the sizes below 100000 does not depend on the order of the entries |
| Y2022D07.SmallSumAtLeast | src/AdventOfCode/Y2022/D07/Y2022D07.cs:11-13 | with non-negative sizes, every size below 100000 is part of the sum |
| Y2022D07.SmallSumNonNegative | src/AdventOfCode/Y2022/D07/Y2022D07.cs:11-13 | with non-negative sizes the sum is not negative |
| Y2022D07.SumSmall | src/AdventOfCode/Y2022/D07/Y2022D07.cs:12-13 | the loop over the entries gives the sum of the sizes below 100000 |
| Y2022D07.SolvePartOne | src/AdventOfCode/Y2022/D07/Y2022D07.cs:9-14 | fails exactly when the sizes do; otherwise the sum of the directory sizes below 100000 |
| Y2022D07.FirstAbove | src/AdventOfCode/Y2022/D07/Y2022D07.cs:21-23 | none exactly when no size exceeds the bound (First throws); otherwise the smallest size above the bound |
| Y2022D07.SolvePartTwo | src/AdventOfCode/Y2022/D07/Y2022D07.cs:17-24 | an answer exists exactly when the sizes do and "/" has one; it is the smallest size above 30000000 - (70000000 - size of "/"), and at most the size of "/" |
| Y2022D07A1.AddFileSizes | src/AdventOfCode/Y2022/D07/Y2022D07A1.cs:46-53 | a file line adds its size to every directory on the current path, creating the entries not yet present |
| Y2022D07A1.CalcDirSizes | src/AdventOfCode/Y2022/D07/Y2022D07A1.cs:31-60 | the pattern-dispatch loop gives the sizes of its line-by-line specification, and fails exactly where it throws |
| Y2022D07A1.WalkedWordsStuck | src/AdventOfCode/Y2022/D07/Y2022D07A1.cs:36-57 | once a line throws, the whole computation throws |
| Y2022D07A1.SolvePartOne | src/AdventOfCode/Y2022/D07/Y2022D07A1.cs:14-19 | fails exactly when the sizes do; otherwise the sum of the directory sizes below 100000 |
| Y2022D07A1.SolvePartTwo | src/AdventOfCode/Y2022/D07/Y2022D07A1.cs:22-29 | an answer exists exactly when the sizes do and "/" has one; it is the smallest size above the space to free, and at most the size of "/" |
| Y2022D07A1.SplitWord | src/AdventOfCode/Y2022/D07/Y2022D07A1.cs:39 | a first word without spaces splits off the rest of the line |
| Y2022D07A1.OneWord | src/AdventOfCode/Y2022/D07/Y2022D07A1.cs:39 | a line without spaces is one word |
| Y2022D07A1.SameLine | src/AdventOfCode/Y2022/D07/Y2022D07A1.cs:39-56 | the pattern dispatch reads a well-formed cd, ls, dir or file line exactly as the first solution's prefix tests do |
| Y2022D07A1.SameWalk | src/AdventOfCode/Y2022/D07/Y2022D07A1.cs:36-57 | on a log of well-formed commands both solutions reach the same stack and sizes, and throw alike |
| Y2022D07A1.OneLine | src/AdventOfCode/Y2022/D07/Y2022D07A1.cs:36 | a well-formed command prints on one line |
| Y2022D07A1.SameSizes | src/AdventOfCode/Y2022/D07/Y2022D07A1.cs:31-60 | on the text of a nonempty log of well-formed commands both solutions compute the same directory sizes |
| Y2022D07A1.ReadWords | src/AdventOfCode/Y2022/D07/Y2022D07A1.cs:39-56 | throws only on a pop of the empty stack or a file size that is not an int; the stack grows by at most one directory; only a file line changes the sizes, and it leaves the stack alone |
| Y2022D08.Dirs | src/AdventOfCode/Y2022/D08/Y2022D08.cs:21 | the scan visits four directions |
| Y2022D08.Index | src/AdventOfCode/Y2022/D08/Y2022D08.cs:21 | each direction has its place in the visiting order |
| Y2022D08.TreeHeight | src/AdventOfCode/Y2022/D08/Y2022D08.cs:31 | defined exactly on digits, as the digit's value |
| Y2022D08.LineTrees | src/AdventOfCode/Y2022/D08/Y2022D08.cs:31 | defined exactly when the line is all digits; one height per character, each the digit's value |
| Y2022D08.ForestTrees | src/AdventOfCode/Y2022/D08/Y2022D08.cs:31-32 | defined exactly when every line is all digits; every height is a digit |
| Y2022D08.Coordinates | src/AdventOfCode/Y2022/D08/Y2022D08.cs:39 | position i is row i / gw and column i % gw of a grid of whole rows |
| Y2022D08.PosInside | src/AdventOfCode/Y2022/D08/Y2022D08.cs:54-57 | every position within a direction's reach lies inside the flattened grid |
| Y2022D08.ViewFrom | src/AdventOfCode/Y2022/D08/Y2022D08.cs:48-81 | the first distance where the view ends, at a tree at least as tall or one step past the edge, with only shorter trees before it |
| Y2022D08.ClearIffViewPastEdge | src/AdventOfCode/Y2022/D08/Y2022D08.cs:61-66 | a direction is clear exactly when the view reaches one step past the edge |
| Y2022D08.Distance | src/AdventOfCode/Y2022/D08/Y2022D08.cs:123-135 | the viewing distance stays within reach, passes only shorter trees, and when it stops short of the edge it stops at a tree at least as tall |
| Y2022D08.ScoreNonNegative | src/AdventOfCode/Y2022/D08/Y2022D08.cs:147 | a scenic score is never negative |
| Y2022D08.BorderVisibleScoresZero | src/AdventOfCode/Y2022/D08/Y2022D08.cs:39-43 | every perimeter tree is visible from outside and scores 0 |
| Y2022D08.BorderIsPerimeter | src/AdventOfCode/Y2022/D08/Y2022D08.cs:39 | the perimeter is the first and last column and the first and last row |
| Y2022D08.ViewStep | src/AdventOfCode/Y2022/D08/Y2022D08.cs:52-71 | at a radius not yet blocked: past the edge the direction is clear, a tree at least as tall ends the view there, a shorter tree lets it go on |
| Y2022D08.MaxView | src/AdventOfCode/Y2022/D08/Y2022D08.cs:46-81 | no direction's view goes beyond this radius, so the scan ends |
| Y2022D08.LeftEdge | src/AdventOfCode/Y2022/D08/Y2022D08.cs:54 | the left test leaves the row exactly when the radius passes the column |
| Y2022D08.LeftEdgeOrStart | src/AdventOfCode/Y2022/D08/Y2022D08.cs:116 | part two's left test is past the edge exactly when the radius passes the column |
| Y2022D08.RightEdge | src/AdventOfCode/Y2022/D08/Y2022D08.cs:55 | the right test leaves the row exactly when the radius reaches past the last column |
| Y2022D08.TopEdge | src/AdventOfCode/Y2022/D08/Y2022D08.cs:56 | the top test is negative exactly when the radius passes the row |
| Y2022D08.BottomEdge | src/AdventOfCode/Y2022/D08/Y2022D08.cs:57 | the bottom tests leave the grid exactly when the radius passes the last row (part one's `>` form off the first column) |
| Y2022D08.HeightOne | src/AdventOfCode/Y2022/D08/Y2022D08.cs:52-59 | part one's height lookup, for trees off its border, is the tree seen at that radius, or -1 past the edge |
| Y2022D08.HeightTwo | src/AdventOfCode/Y2022/D08/Y2022D08.cs:114-121 | part two's height lookup is the tree seen at that radius, or -1 past the edge |
| Y2022D08.SomeOpen | src/AdventOfCode/Y2022/D08/Y2022D08.cs:50 | while not all directions are blocked, some direction is still visited |
| Y2022D08.NoneClear | src/AdventOfCode/Y2022/D08/Y2022D08.cs:73-77 | when every view ends within reach, the tree is not visible |
| Y2022D08.SeenNext | src/AdventOfCode/Y2022/D08/Y2022D08.cs:50-78 | moving to the next direction of a round keeps what the other directions have learnt |
| Y2022D08.SeenRound | src/AdventOfCode/Y2022/D08/Y2022D08.cs:80 | after the four directions at one radius, the next radius starts |
| Y2022D08.SeenAllBlocked | src/AdventOfCode/Y2022/D08/Y2022D08.cs:73-77 | with every direction blocked, the tree is not visible |
| Y2022D08.VisibleRound | src/AdventOfCode/Y2022/D08/Y2022D08.cs:50-78 | one round of the scan either settles visibility exactly, or leaves the tree not yet visible with some direction still open and every direction's state advanced by one radius |
| Y2022D08.ScanVisible | src/AdventOfCode/Y2022/D08/Y2022D08.cs:46-83 | the scan of a tree off the border reports it exactly when it is visible from outside |
| Y2022D08.SquareBorder | src/AdventOfCode/Y2022/D08/Y2022D08.cs:39 | on a square grid the border test is exactly the perimeter |
| Y2022D08.CountOneSquare | src/AdventOfCode/Y2022/D08/Y2022D08.cs:37-84 | on a square grid part one counts exactly the trees visible from outside |
| Y2022D08.TallGridMiscount | src/AdventOfCode/Y2022/D08/Y2022D08.cs:39 | on a 3-wide, 4-row grid the test `i > (gw - 1) * gw` counts tree 7, which is neither on the perimeter nor visible |
| Y2022D08.CountIntended | src/AdventOfCode/Y2022/D08/Y2022D08.cs:37-84 | with the last-row test corrected, the count is exactly the visible trees on every grid |
| Y2022D08.SolvePartOne | src/AdventOfCode/Y2022/D08/Y2022D08.cs:24-88 | the part-one loops give the specification's count of the trees part one's tests accept |
| Y2022D08.TallyNext | src/AdventOfCode/Y2022/D08/Y2022D08.cs:112-142 | moving to the next direction of a round keeps the other directions' counts |
| Y2022D08.TallyRound | src/AdventOfCode/Y2022/D08/Y2022D08.cs:144 | after the four directions at one radius, the next radius starts |
| Y2022D08.TallyAllBlocked | src/AdventOfCode/Y2022/D08/Y2022D08.cs:137-141 | once every direction is blocked, the rest of the round has nothing to count |
| Y2022D08.TallyFinal | src/AdventOfCode/Y2022/D08/Y2022D08.cs:137-147 | with every direction blocked, each count is that direction's viewing distance |
| Y2022D08.TallyStart | src/AdventOfCode/Y2022/D08/Y2022D08.cs:103-110 | the counts before the first round are all zero and nothing is blocked |
| Y2022D08.ScanRound | src/AdventOfCode/Y2022/D08/Y2022D08.cs:112-142 | one round of the scan advances every direction's count by one radius, and stops exactly when all four directions are blocked |
| Y2022D08.ScanScore | src/AdventOfCode/Y2022/D08/Y2022D08.cs:108-147 | the scan of one tree gives its scenic score, the product of its four viewing distances |
| Y2022D08.Best | src/AdventOfCode/Y2022/D08/Y2022D08.cs:102-152 | not negative, at least every score so far, and either 0 or one of those scores |
| Y2022D08.SolvePartTwo | src/AdventOfCode/Y2022/D08/Y2022D08.cs:91-160 | the part-two loops give the best scenic score of the specification |
| Y2022D08A1.WidthIsFirstLine | src/AdventOfCode/Y2022/D08/Y2022D08A1.cs:37 | the position of the first newline is the length of the first line |
| Y2022D08A1.SameWidth | src/AdventOfCode/Y2022/D08/Y2022D08A1.cs:37 | on a nonempty forest this solution's width, IndexOf('\n'), is the first solution's, the first line's length |
| Y2022D08A1.Height | src/AdventOfCode/Y2022/D08/Y2022D08A1.cs:70-85 | the height lookup is the tree seen at that radius, or -1 exactly past the grid's edge |
| Y2022D08A1.EdgeSeenNext | src/AdventOfCode/Y2022/D08/Y2022D08A1.cs:87-91 | visiting a direction can only add it to the directions that have reached the edge |
| Y2022D08A1.EdgeSeenRound | src/AdventOfCode/Y2022/D08/Y2022D08A1.cs:109 | moving to the next radius keeps the directions that have reached the edge |
| Y2022D08A1.EdgeSeenAllBlocked | src/AdventOfCode/Y2022/D08/Y2022D08A1.cs:102-106 | once every direction is blocked, the rest of the round reaches no more edges |
| Y2022D08A1.EdgeSeenFinal | src/AdventOfCode/Y2022/D08/Y2022D08A1.cs:102-112 | with every direction blocked, some direction has reached the edge exactly when the tree is visible from outside |
| Y2022D08A1.Visited | src/AdventOfCode/Y2022/D08/Y2022D08A1.cs:87-100 | each of the three outcomes of the height lookup keeps the counts and the visible flag in line with the specification |
| Y2022D08A1.Skipped | src/AdventOfCode/Y2022/D08/Y2022D08A1.cs:65 | passing over a blocked direction changes nothing |
| Y2022D08A1.GetTreeStats | src/AdventOfCode/Y2022/D08/Y2022D08A1.cs:54-113 | one tree's scan gives whether it is visible from outside and its scenic score |
| Y2022D08A1.StatsUpTo | src/AdventOfCode/Y2022/D08/Y2022D08A1.cs:42-43 | one (visible, score) pair per tree, pair k being tree k's |
| Y2022D08A1.Scores | src/AdventOfCode/Y2022/D08/Y2022D08A1.cs:51 | the score of every pair, in order |
| Y2022D08A1.VisiblesCount | src/AdventOfCode/Y2022/D08/Y2022D08A1.cs:45 | counting the visible pairs counts the trees visible from outside |
| Y2022D08A1.Solver.constructor | src/AdventOfCode/Y2022/D08/Y2022D08A1.cs:32 | the kept results start empty |
| Y2022D08A1.Solver.SolvePartOne | src/AdventOfCode/Y2022/D08/Y2022D08A1.cs:35-46 | keeps every tree's pair and returns the number of visible trees; a non-digit fails and keeps the old results |
| Y2022D08A1.Solver.SolvePartTwo | src/AdventOfCode/Y2022/D08/Y2022D08A1.cs:49-52 | fails exactly when nothing is kept (Max of an empty list throws); otherwise the largest kept score |
| Y2022D08A1.ScoresOfStats | src/AdventOfCode/Y2022/D08/Y2022D08A1.cs:42-51 | the kept scores are the trees' scenic scores, in order |
| Y2022D08A1.BestOfScores | src/AdventOfCode/Y2022/D08/Y2022D08A1.cs:51 | the largest kept score is the first solution's best score |
| Y2022D08A1.BestIsMax | src/AdventOfCode/Y2022/D08/Y2022D08A1.cs:51 | the maximum of the trees' scores is the first solution's best score |
| Y2022D08A1.MaxOfBounded | src/AdventOfCode/Y2022/D08/Y2022D08A1.cs:51 | a bound that is reached, or 0 above non-negative values, is the maximum |
| Y2022D08A1.BestOfStats | src/AdventOfCode/Y2022/D08/Y2022D08A1.cs:35-52 | on a nonempty forest, part two after part one gives the first solution's part-two answer |
| Y2022D08A1.SameCountOnSquare | src/AdventOfCode/Y2022/D08/Y2022D08A1.cs:35-46 | on a nonempty square forest both solutions count the same trees |
| Y2022D09.Offset | src/AdventOfCode/Y2022/D09/Y2022D09.cs:48-54 | defined exactly on L, R, D and U, each a unit step |
| Y2022D09.FollowTouching | src/AdventOfCode/Y2022/D09/Y2022D09.cs:61-72 | a knot that already touches the knot before it stays put |
| Y2022D09.FollowNear | src/AdventOfCode/Y2022/D09/Y2022D09.cs:61-72 | a knot at most two away on each axis ends up touching the knot before it, having moved at most one unit on each axis |
| Y2022D09.StepPrefix | src/AdventOfCode/Y2022/D09/Y2022D09.cs:48-78 | the head moves by the step, and each later knot follows the already moved knot before it |
| Y2022D09.Step | src/AdventOfCode/Y2022/D09/Y2022D09.cs:48-78 | one head step keeps the number of knots |
| Y2022D09.StepPrefixExtends | src/AdventOfCode/Y2022/D09/Y2022D09.cs:56-78 | moving more knots extends the moves of fewer knots |
| Y2022D09.StepPrefixTaut | src/AdventOfCode/Y2022/D09/Y2022D09.cs:48-78 | after a unit head step a taut rope stays taut, and every knot moves at most one unit on each axis |
| Y2022D09.StepTaut | src/AdventOfCode/Y2022/D09/Y2022D09.cs:48-78 | the whole rope stays taut after a unit head step, each knot moving at most one unit per axis |
| Y2022D09.Run | src/AdventOfCode/Y2022/D09/Y2022D09.cs:44-80 | a sequence of head steps keeps the number of knots |
| Y2022D09.Visited | src/AdventOfCode/Y2022/D09/Y2022D09.cs:74-77 | the tracked knot's final position is among the recorded ones |
| Y2022D09.VisitedBound | src/AdventOfCode/Y2022/D09/Y2022D09.cs:74-77 | at most one new position per head step |
| Y2022D09.Start | src/AdventOfCode/Y2022/D09/Y2022D09.cs:42 | all knots start together at the origin, so the rope is taut |
| Y2022D09.RunTaut | src/AdventOfCode/Y2022/D09/Y2022D09.cs:44-80 | from a taut rope, unit head steps keep every knot touching the knot before it |
| Y2022D09.Repeat | src/AdventOfCode/Y2022/D09/Y2022D09.cs:46 | n copies of the step |
| Y2022D09.MoveSteps | src/AdventOfCode/Y2022/D09/Y2022D09.cs:46-54 | `dist` unit steps (none when it is not positive); fails exactly when a step is due and the direction is unknown |
| Y2022D09.HeadSteps | src/AdventOfCode/Y2022/D09/Y2022D09.cs:44-54 | every head step is a unit step |
| Y2022D09.HeadStepsFailsLater | src/AdventOfCode/Y2022/D09/Y2022D09.cs:44-54 | a movement that throws makes the whole simulation throw |
| Y2022D09.MoveRope | src/AdventOfCode/Y2022/D09/Y2022D09.cs:48-78 | the array after one head step is the specification's step, and the tracked knot's new position is recorded |
| Y2022D09.ApplyMovement | src/AdventOfCode/Y2022/D09/Y2022D09.cs:46-79 | one movement succeeds exactly when its direction is known, and leaves the rope and the recorded positions of the steps so far |
| Y2022D09.GetUniquePositions | src/AdventOfCode/Y2022/D09/Y2022D09.cs:38-83 | fails exactly when a direction is unknown; otherwise the number of distinct positions of the tracked knot |
| Y2022D09.ParseMovement | src/AdventOfCode/Y2022/D09/Y2022D09.cs:19 | defined exactly when the line has two characters and a number from the third on; the first character and that number |
| Y2022D09.ParseMovements | src/AdventOfCode/Y2022/D09/Y2022D09.cs:18-20 | defined exactly when every line parses; one movement per line |
| Y2022D09.SolvePartOne | src/AdventOfCode/Y2022/D09/Y2022D09.cs:16-23 | fails exactly when a line or a direction is bad; otherwise the number of the tail's positions on a two-knot rope, at most the number of steps |
| Y2022D09.SolvePartTwo | src/AdventOfCode/Y2022/D09/Y2022D09.cs:29-36 | the same on a ten-knot rope, tracking knot 9 |
| Y2022D09.Follow | src/AdventOfCode/Y2022/D09/Y2022D09.cs:58-71 | the moved knot is no farther from the knot ahead, in either coordinate, than it was |
| Y2022D10.ParseInstruction | src/AdventOfCode/Y2022/D10/Y2022D10.cs:18-20 | only noop and addx have cycle counts; a noop line parses exactly when its optional value does |
| Y2022D10.Cycles | src/AdventOfCode/Y2022/D10/Y2022D10.cs:9-13 | one or two cycles per instruction |
| Y2022D10.TracePrefix | src/AdventOfCode/Y2022/D10/Y2022D10.cs:26-35 | the X values of a program prefix are a prefix of the program's |
| Y2022D10.NoopTrace | src/AdventOfCode/Y2022/D10/Y2022D10.cs:26-35 | a program of noops holds X at 1 for one cycle each |
| Y2022D10.SmallExample | src/AdventOfCode/Y2022/D10/Y2022D10.cs:26-35 | noop, addx 3, addx -5 holds X at 1, 1, 1, 4, 4 and leaves it at -1 |
| Y2022D10.EarlyCyclesSilent | src/AdventOfCode/Y2022/D10/Y2022D10.cs:31 | cycles before the 20th add nothing to the signal |
| Y2022D10.RunCycles | src/AdventOfCode/Y2022/D10/Y2022D10.cs:28-32 | the inner loop counts its cycles and adds the signal of the sampled ones to the running sum, as one more instruction in the trace |
| Y2022D10.SignalStrength | src/AdventOfCode/Y2022/D10/Y2022D10.cs:22-37 | the loops give the sum of cycle times X at cycle 20 and every 40th cycle after |
| Y2022D10.SolvePartOne | src/AdventOfCode/Y2022/D10/Y2022D10.cs:16-38 | fails exactly when an instruction does not parse; otherwise the signal sum |
| Y2022D10.Screen | src/AdventOfCode/Y2022/D10/Y2022D10.cs:57-69 | 240 positions: each drawn cycle's pixel, the rest the default character |
| Y2022D10.Draw | src/AdventOfCode/Y2022/D10/Y2022D10.cs:54-71 | fails exactly when the program runs more than 240 cycles (the write past the screen throws); otherwise the rendered screen |
| Y2022D10.SolvePartTwo | src/AdventOfCode/Y2022/D10/Y2022D10.cs:48-72 | fails exactly when parsing fails or the program is too long; otherwise the rendered screen |
| Y2022D10.Render | src/AdventOfCode/Y2022/D10/Y2022D10.cs:71 | for a nonempty screen without newlines, splitting the text at newlines gives back the 40-character rows |
| Y2022D10.RenderRows | src/AdventOfCode/Y2022/D10/Y2022D10.cs:71 | joining the rows of such a screen with newlines and splitting again gives the rows back |
| Y2022D11.Throw | src/AdventOfCode/Y2022/D11/Y2022D11.cs:33-43 | defined exactly when the new worry and its remainders do not throw; the target is the true target exactly when the new worry is divisible by the test divisor; under SuperMod the forwarded worry is a long congruent to the new worry, without it the new worry itself |
| Y2022D11.Inspection | src/AdventOfCode/Y2022/D11/Y2022D11.cs:26-46 | succeeds exactly when the count stays within a long and every item's throw succeeds; then one throw per item, in queue order |
| Y2022D11.Sent | src/AdventOfCode/Y2022/D11/Y2022D11.cs:56-59 | no more worries reach a monkey than were thrown |
| Y2022D11.Deliver | src/AdventOfCode/Y2022/D11/Y2022D11.cs:56-59 | succeeds exactly when every target is a monkey index; counts unchanged, one queue per monkey |
| Y2022D11.DeliverQueues | src/AdventOfCode/Y2022/D11/Y2022D11.cs:56-59 | each queue gains exactly the worries thrown to it, appended in throwing order |
| Y2022D11.Turn | src/AdventOfCode/Y2022/D11/Y2022D11.cs:56-59 | the monkey's count grows by the number of items it held; the troop keeps its shape |
| Y2022D11.TurnsUpTo | src/AdventOfCode/Y2022/D11/Y2022D11.cs:56-59 | the turns of the first j monkeys keep the troop's shape |
| Y2022D11.Round | src/AdventOfCode/Y2022/D11/Y2022D11.cs:56-59 | a round keeps the troop's shape |
| Y2022D11.Rounds | src/AdventOfCode/Y2022/D11/Y2022D11.cs:54-60 | n rounds keep the troop's shape |
| Y2022D11.Lengths | src/AdventOfCode/Y2022/D11/Y2022D11.cs:56 | one queue length per monkey |
| Y2022D11.TotalUpdate | src/AdventOfCode/Y2022/D11/Y2022D11.cs:56-59 | replacing one queue changes the number of held items by the difference of lengths |
| Y2022D11.DeliverTotal | src/AdventOfCode/Y2022/D11/Y2022D11.cs:56-59 | delivering adds exactly the thrown items to the troop |
| Y2022D11.InspectionTargets | src/AdventOfCode/Y2022/D11/Y2022D11.cs:43 | every target a monkey throws to is one of its two targets |
| Y2022D11.SentNone | src/AdventOfCode/Y2022/D11/Y2022D11.cs:56-59 | a monkey no item is thrown to receives nothing |
| Y2022D11.TurnMovesItems | src/AdventOfCode/Y2022/D11/Y2022D11.cs:26-46 | with no self-throws a turn empties the monkey's queue, only grows the others, conserves the number of items and adds the items held to the total count |
| Y2022D11.TurnsConserve | src/AdventOfCode/Y2022/D11/Y2022D11.cs:56-59 | the turns of a round conserve the number of items |
| Y2022D11.TurnsInOrder | src/AdventOfCode/Y2022/D11/Y2022D11.cs:56-59 | before monkey j's turn its queue has only grown and its count is untouched; after it, its count grows by everything it held at that moment |
| Y2022D11.RoundCounts | src/AdventOfCode/Y2022/D11/Y2022D11.cs:56-59 | in a round a monkey inspects its starting items plus what earlier monkeys threw to it in that round |
| Y2022D11.RoundsConserve | src/AdventOfCode/Y2022/D11/Y2022D11.cs:54-60 | rounds conserve the number of items |
| Y2022D11.WorryCongruent | src/AdventOfCode/Y2022/D11/Y2022D11.cs:35-36 | with relief 1, the '*' and '+' operations respect congruence modulo m |
| Y2022D11.ThrowCongruent | src/AdventOfCode/Y2022/D11/Y2022D11.cs:40-43 | when the test divisor divides m, congruent worries go to the same monkey with congruent forwarded worries |
| Y2022D11.InspectionCongruent | src/AdventOfCode/Y2022/D11/Y2022D11.cs:26-46 | a whole turn of congruent items throws to the same targets with congruent worries |
| Y2022D11.DeliverSimilar | src/AdventOfCode/Y2022/D11/Y2022D11.cs:56-59 | delivering matching throws keeps two troops equal up to congruence of worries |
| Y2022D11.TurnSimilar | src/AdventOfCode/Y2022/D11/Y2022D11.cs:56-59 | a turn keeps two troops equal up to congruence |
| Y2022D11.TurnsSimilar | src/AdventOfCode/Y2022/D11/Y2022D11.cs:56-59 | several turns keep two troops equal up to congruence |
| Y2022D11.ReductionSound | src/AdventOfCode/Y2022/D11/Y2022D11.cs:40-43 | when every divisor divides m and relief is 1, rounds reduced modulo m succeed only if the unbounded rounds do, with the same counts and congruent worries |
| Y2022D11.DividesProduct | src/AdventOfCode/Y2022/D11/Y2022D11.cs:73 | every test divisor divides the product SuperMod |
| Y2022D11.ProductNonZero | src/AdventOfCode/Y2022/D11/Y2022D11.cs:73 | the product of non-zero divisors is non-zero |
| Y2022D11.TopTwo | src/AdventOfCode/Y2022/D11/Y2022D11.cs:62-63 | two counts, or all of them when there are fewer |
| Y2022D11.TopTwoLargest | src/AdventOfCode/Y2022/D11/Y2022D11.cs:62-64 | the kept counts come from the counts, and every count left out is at most each one kept |
| Y2022D11.DescendingSplit | src/AdventOfCode/Y2022/D11/Y2022D11.cs:62-63 | in a descending order nothing after a cut exceeds anything before it |
| Y2022D11.ParseMonkey | src/AdventOfCode/Y2022/D11/Y2022D11.cs:89-100 | the parsed rule carries the given relief and every starting item is a long |
| Y2022D11.Parse | src/AdventOfCode/Y2022/D11/Y2022D11.cs:89-101 | every parsed monkey carries the given relief |
| Y2022D11.RulesOf | src/AdventOfCode/Y2022/D11/Y2022D11.cs:89-101 | one rule per parsed monkey |
| Y2022D11.Start | src/AdventOfCode/Y2022/D11/Y2022D11.cs:89-101 | the parsed troop holds each monkey's starting items and no inspections |
| Y2022D11.Divisors | src/AdventOfCode/Y2022/D11/Y2022D11.cs:73 | one test divisor per monkey |
| Y2022D11.PartTwoIsUnbounded | src/AdventOfCode/Y2022/D11/Y2022D11.cs:67-87 | when the divisors are non-zero and their product fits a long, part two's answer is the answer computed with unbounded worry |
| Y2022D11.PrependNothing | src/AdventOfCode/Y2022/D11/Y2022D11.cs:26-46 | prepending nothing leaves the inspection result |
| Y2022D11.InspectionStep | src/AdventOfCode/Y2022/D11/Y2022D11.cs:28-44 | the turn throws when the count is at the long limit or the front item's throw fails, and otherwise goes on with the rest of the queue |
| Y2022D11.Monkey.constructor | src/AdventOfCode/Y2022/D11/Y2022D11.cs:20-24 | a new monkey holds its rule and items and has inspected nothing |
| Y2022D11.Monkey.InspectItems | src/AdventOfCode/Y2022/D11/Y2022D11.cs:26-46 | the returned throws are the inspection's; on success the queue is empty and the count grew by the items held; on failure the queue lost its front items |
| Y2022D11.Rules | src/AdventOfCode/Y2022/D11/Y2022D11.cs:89-101 | the rules of the monkey array |
| Y2022D11.Snapshot | src/AdventOfCode/Y2022/D11/Y2022D11.cs:20-24 | the queues and counts the monkeys hold |
| Y2022D11.MirrorsSnapshot | src/AdventOfCode/Y2022/D11/Y2022D11.cs:20-24 | a troop the monkeys mirror is their snapshot |
| Y2022D11.TurnsFail | src/AdventOfCode/Y2022/D11/Y2022D11.cs:56-59 | a failed turn fails the rest of the round |
| Y2022D11.RoundsFail | src/AdventOfCode/Y2022/D11/Y2022D11.cs:54-60 | a failed round fails every later round |
| Y2022D11.Build | src/AdventOfCode/Y2022/D11/Y2022D11.cs:89-101 | distinct fresh monkeys with the parsed rules, starting items and zero counts |
| Y2022D11.Solution.constructor | src/AdventOfCode/Y2022/D11/Y2022D11.cs:8 | SuperMod starts at the largest long |
| Y2022D11.PlayRound | src/AdventOfCode/Y2022/D11/Y2022D11.cs:56-59 | succeeds exactly when the round does, and leaves the monkeys holding the round's queues and counts |
| Y2022D11.PlayTurns | src/AdventOfCode/Y2022/D11/Y2022D11.cs:56-59 | succeeds exactly when every monkey's turn in index order does, and leaves the monkeys mirroring the last turn's result |
| Y2022D11.Advance | src/AdventOfCode/Y2022/D11/Y2022D11.cs:56-59 | after monkey k's turn the monkeys mirror the first k + 1 turns; a failed turn fails the whole round |
| Y2022D11.TurnStep | src/AdventOfCode/Y2022/D11/Y2022D11.cs:56-59 | the first k + 1 turns are the first k followed by monkey k's; a failed turn fails the round |
| Y2022D11.TakeTurn | src/AdventOfCode/Y2022/D11/Y2022D11.cs:56-59 | succeeds exactly when the monkey's turn does, and leaves the monkeys mirroring the turn's result |
| Y2022D11.Inspect | src/AdventOfCode/Y2022/D11/Y2022D11.cs:56 | the monkey's throws are its inspection; its queue is then empty and its count grown |
| Y2022D11.Enqueue | src/AdventOfCode/Y2022/D11/Y2022D11.cs:58 | succeeds exactly when every target exists, and leaves the monkeys mirroring the delivery |
| Y2022D11.PlayRounds | src/AdventOfCode/Y2022/D11/Y2022D11.cs:54-60 | succeeds exactly when n rounds do, and leaves the monkeys holding their result |
| Y2022D11.NextRound | src/AdventOfCode/Y2022/D11/Y2022D11.cs:54-60 | from the result of i rounds, succeeds exactly when i + 1 rounds do and leaves the monkeys holding that result |
| Y2022D11.Monkey.InspectFront | src/AdventOfCode/Y2022/D11/Y2022D11.cs:28-44 | dequeues the front item; fails exactly when the inspection fails at it, and otherwise counts it and yields its throw, the rest of the inspection unchanged |
| Y2022D11.Solution.SolvePartOne | src/AdventOfCode/Y2022/D11/Y2022D11.cs:50-65 | relief 3, 20 rounds, product of the two largest counts under the current SuperMod |
| Y2022D11.Solution.SolvePartTwo | src/AdventOfCode/Y2022/D11/Y2022D11.cs:69-87 | relief 1, SuperMod set to the product of the divisors, 10000 rounds, the same product |
| Y2022D11.Solution.Simulate | src/AdventOfCode/Y2022/D11/Y2022D11.cs:54-64 | the outcome of n rounds on the parsed monkeys |
| Y2022D11.PartOne | src/AdventOfCode/Y2022/D11/Y2022D11.cs:50-65 | an answer exists exactly when the notes parse and twenty rounds with relief 3 run without throwing |
| Y2022D11.PartTwo | src/AdventOfCode/Y2022/D11/Y2022D11.cs:69-87 | an answer exists exactly when the notes parse and 10000 rounds with relief 1, modulo the product of the divisors, run without throwing |
| Y2022D12.RowCells | src/AdventOfCode/Y2022/D12/Y2022D12.cs:34-37 | one cell per column of the row, holding its character, column and row |
| Y2022D12.GraphCellsRowMajor | src/AdventOfCode/Y2022/D12/Y2022D12.cs:30-39 | the graph's cells are exactly the grid positions with their characters, listed in row-major order |
| Y2022D12.ClosedSetHoldsWalks | src/AdventOfCode/Y2022/D12/Y2022D12.cs:99-115 | a set holding the start and closed under weighted steps holds every walk's end |
| Y2022D12.Neighbours | src/AdventOfCode/Y2022/D12/Y2022D12.cs:67-71 | exactly the listed cells at distance one horizontally or vertically, in list order |
| Y2022D12.MinIndex | src/AdventOfCode/Y2022/D12/Y2022D12.cs:93 | the dequeued entry has the smallest priority in the queue |
| Y2022D12.SumOverNonNegative | src/AdventOfCode/Y2022/D12/Y2022D12.cs:107-111 | non-negative g-scores sum to a non-negative total |
| Y2022D12.SumOverDecreases | src/AdventOfCode/Y2022/D12/Y2022D12.cs:108-111 | lowering g-scores pointwise, one strictly, lowers their sum strictly |
| Y2022D12.SumOverMonotone | src/AdventOfCode/Y2022/D12/Y2022D12.cs:108-111 | lowering g-scores pointwise does not raise their sum |
| Y2022D12.SubsetSmallerRest | src/AdventOfCode/Y2022/D12/Y2022D12.cs:108-111 | recording a new cell shrinks the set of unrecorded cells |
| Y2022D12.QueuedAfterRemoval | src/AdventOfCode/Y2022/D12/Y2022D12.cs:93 | dequeuing one entry keeps every other cell queued |
| Y2022D12.QueuedAfterAppend | src/AdventOfCode/Y2022/D12/Y2022D12.cs:113 | enqueuing keeps queued cells queued and queues the new one |
| Y2022D12.Graph.constructor | src/AdventOfCode/Y2022/D12/Y2022D12.cs:30-39 | the graph holds the grid's cells row by row, left to right |
| Y2022D12.Graph.GetNeighbors | src/AdventOfCode/Y2022/D12/Y2022D12.cs:67-71 | exactly the graph cells adjacent to the cell |
| Y2022D12.Graph.ReconstructPath | src/AdventOfCode/Y2022/D12/Y2022D12.cs:121-132 | the path ends at the current cell, starts at a cell with no predecessor, and each cell's predecessor link is the cell before it |
| Y2022D12.Graph.Relax | src/AdventOfCode/Y2022/D12/Y2022D12.cs:101-114 | one neighbour: a weighted step records the neighbour; scores only fall; either nothing changes, a new cell is recorded or the neighbour's score falls; the search bookkeeping holds |
| Y2022D12.Graph.DequeueKeeps | src/AdventOfCode/Y2022/D12/Y2022D12.cs:93-97 | removing the current cell's entry keeps the search bookkeeping, with the current cell in hand |
| Y2022D12.Graph.Expand | src/AdventOfCode/Y2022/D12/Y2022D12.cs:99-115 | relaxing all neighbours closes the current cell; scores only fall and the search makes progress or stands still |
| Y2022D12.Graph.CoveredGrows | src/AdventOfCode/Y2022/D12/Y2022D12.cs:99-115 | neighbours relaxed so far stay recorded |
| Y2022D12.Graph.AStar | src/AdventOfCode/Y2022/D12/Y2022D12.cs:73-119 | with non-negative weights, a non-empty result is a walk from start to end, an empty one exactly when end is unreachable, and [start] when start is end |
| Y2022D12.Graph.SearchStarts | src/AdventOfCode/Y2022/D12/Y2022D12.cs:76-89 | the bookkeeping holds with only start queued at score 0 |
| Y2022D12.Graph.ExhaustedUnreachable | src/AdventOfCode/Y2022/D12/Y2022D12.cs:91-118 | with the queue empty the end, never reached, is unreachable |
| Y2022D12.Graph.WalkFromLinks | src/AdventOfCode/Y2022/D12/Y2022D12.cs:121-132 | a chain of predecessor links ending at end is a walk from start |
| Y2022D12.Progress | src/AdventOfCode/Y2022/D12/Y2022D12.cs:91-116 | each expansion records a new cell, lowers the score sum, or changes nothing, so the loop terminates |
| Y2022D12.EffectiveValue | src/AdventOfCode/Y2022/D12/Y2022D12.cs:135-140 | 'S' is height 'a', 'E' height 'z', every other character its own code |
| Y2022D12.ClimbWeightNonNegative | src/AdventOfCode/Y2022/D12/Y2022D12.cs:150-160 | no edge exactly when the neighbour is more than one level higher; every weight is non-negative |
| Y2022D12.Single | src/AdventOfCode/Y2022/D12/Y2022D12.cs:147-148 | succeeds exactly when one cell holds the character, and returns that cell |
| Y2022D12.SolvePartOne | src/AdventOfCode/Y2022/D12/Y2022D12.cs:143-164 | fails exactly when 'S' or 'E' is not unique; the result is non-negative exactly when 'E' is reachable from 'S', and then it is the step count of a walk between them |
| Y2022D12.PossibleStarts | src/AdventOfCode/Y2022/D12/Y2022D12.cs:173-176 | exactly the 'a' cells with a 'b' neighbour |
| Y2022D12.Filter | src/AdventOfCode/Y2022/D12/Y2022D12.cs:174-175 | exactly the kept cells |
| Y2022D12.ShortestPath | src/AdventOfCode/Y2022/D12/Y2022D12.cs:206 | none exactly when there are no paths; otherwise one of the paths no longer than any other |
| Y2022D12.NoneReachesAll | src/AdventOfCode/Y2022/D12/Y2022D12.cs:181-204 | no path is found exactly when no start reaches the end |
| Y2022D12.PathsFrom | src/AdventOfCode/Y2022/D12/Y2022D12.cs:180-204 | every kept path is a walk from one of the starts to the end; every start that reaches the end has a kept path beginning at it; none are kept exactly when no start reaches the end |
| Y2022D12.SolvePartTwo | src/AdventOfCode/Y2022/D12/Y2022D12.cs:167-210 | fails when 'E' is not unique or no possible start reaches it; otherwise the step count of the shortest path found, where each kept path is a walk from a possible start and every possible start that reaches 'E' has a kept path |
| Y2022D12.ClimbWeight | src/AdventOfCode/Y2022/D12/Y2022D12.cs:150-160 | no edge exactly when the neighbour is more than one level higher; otherwise a non-negative weight, 0 exactly for a climb of one level |
| Y2022D13.CompareInts | src/AdventOfCode/Y2022/D13/Y2022D13.cs:123 | zero exactly on equal integers, negative exactly when the first is smaller |
| Y2022D13.Compare | src/AdventOfCode/Y2022/D13/Y2022D13.cs:113-150 | the comparison is -1, 0 or 1 |
| Y2022D13.SizeOne | src/AdventOfCode/Y2022/D13/Y2022D13.cs:148-149 | wrapping a packet in a list does not shrink the comparison's measure below the packet's own |
| Y2022D13.CompareAll | src/AdventOfCode/Y2022/D13/Y2022D13.cs:127-144 | the element-wise list comparison is -1, 0 or 1 |
| Y2022D13.CompareTo | src/AdventOfCode/Y2022/D13/Y2022D13.cs:115-118 | comparing with null gives -1 |
| Y2022D13.WrapInt | src/AdventOfCode/Y2022/D13/Y2022D13.cs:146-149 | an integer compared with a list, on either side, compares as the one-element list holding it |
| Y2022D13.CompareFlip | src/AdventOfCode/Y2022/D13/Y2022D13.cs:113-150 | swapping the operands negates the comparison |
| Y2022D13.CompareAllFlip | src/AdventOfCode/Y2022/D13/Y2022D13.cs:127-144 | swapping two lists negates their element-wise comparison |
| Y2022D13.CompareSelf | src/AdventOfCode/Y2022/D13/Y2022D13.cs:113-150 | every packet compares equal to itself |
| Y2022D13.CompareAllSelf | src/AdventOfCode/Y2022/D13/Y2022D13.cs:127-144 | every list compares equal to itself element-wise |
| Y2022D13.Shows | src/AdventOfCode/Y2022/D13/Y2022D13.cs:110 | one text per part |
| Y2022D13.Add | src/AdventOfCode/Y2022/D13/Y2022D13.cs:71-95 | adding a finished part keeps the stack height |
| Y2022D13.DigitRun | src/AdventOfCode/Y2022/D13/Y2022D13.cs:86 | the longest run of digits from the index: all digits, followed by the end or a non-digit |
| Y2022D13.StepAt | src/AdventOfCode/Y2022/D13/Y2022D13.cs:63-99 | a successful turn moves the index forward, within the line |
| Y2022D13.NewPacket | src/AdventOfCode/Y2022/D13/Y2022D13.cs:55-101 | the loop's packet is the specified parse; None where the constructor throws |
| Y2022D13.Turn | src/AdventOfCode/Y2022/D13/Y2022D13.cs:65-99 | fails exactly where the switch throws; otherwise the stack, parts and next index of the specified turn |
| Y2022D13.OpenStep | src/AdventOfCode/Y2022/D13/Y2022D13.cs:68-70 | '[' pushes an empty list |
| Y2022D13.CloseStep | src/AdventOfCode/Y2022/D13/Y2022D13.cs:71-82 | ']' with no open list throws; otherwise the innermost list is closed and added to the enclosing one or to the packet |
| Y2022D13.CommaStep | src/AdventOfCode/Y2022/D13/Y2022D13.cs:83-84 | a comma is skipped |
| Y2022D13.RunStep | src/AdventOfCode/Y2022/D13/Y2022D13.cs:63-100 | the loop continues from each turn's state and index |
| Y2022D13.ReadPart | src/AdventOfCode/Y2022/D13/Y2022D13.cs:63-100 | reading a part's text adds that part |
| Y2022D13.ReadDigits | src/AdventOfCode/Y2022/D13/Y2022D13.cs:85-98 | a whole run of digits is read as one integer part when it fits in 32 bits |
| Y2022D13.ReadInt | src/AdventOfCode/Y2022/D13/Y2022D13.cs:85-98 | the decimal text of an integer is read as that integer |
| Y2022D13.ReadList | src/AdventOfCode/Y2022/D13/Y2022D13.cs:63-100 | a list's text is read as that list |
| Y2022D13.ReadBracketed | src/AdventOfCode/Y2022/D13/Y2022D13.cs:68-82 | text between brackets is read as the list of its parts |
| Y2022D13.OccursBrackets | src/AdventOfCode/Y2022/D13/Y2022D13.cs:68-82 | a bracketed text is '[', the body and ']' |
| Y2022D13.DigitRunOf | src/AdventOfCode/Y2022/D13/Y2022D13.cs:86 | a maximal run of digits is the run the constructor takes |
| Y2022D13.AddAllOpen | src/AdventOfCode/Y2022/D13/Y2022D13.cs:72-91 | adding parts with a list open appends them to it |
| Y2022D13.AddAllClosed | src/AdventOfCode/Y2022/D13/Y2022D13.cs:77-95 | adding parts with no list open appends them to the packet |
| Y2022D13.ReadParts | src/AdventOfCode/Y2022/D13/Y2022D13.cs:63-100 | reading comma-separated parts adds each of them in order |
| Y2022D13.JoinOne | src/AdventOfCode/Y2022/D13/Y2022D13.cs:110 | the text of one part is that part's text |
| Y2022D13.ReadSeparated | src/AdventOfCode/Y2022/D13/Y2022D13.cs:83-84 | the first part, a comma, then the rest |
| Y2022D13.JoinShows | src/AdventOfCode/Y2022/D13/Y2022D13.cs:110 | the text of several parts is the first, a comma and the rest |
| Y2022D13.OccursComma | src/AdventOfCode/Y2022/D13/Y2022D13.cs:83-84 | a text followed by a comma and more text |
| Y2022D13.ParseShow | src/AdventOfCode/Y2022/D13/Y2022D13.cs:55-111 | parsing the text of a packet (integers below 2^31) gives the packet back |
| Y2022D13.Score | src/AdventOfCode/Y2022/D13/Y2022D13.cs:17-18 | the score lies between 0 and the sum of all 1-based indices |
| Y2022D13.Swapped | src/AdventOfCode/Y2022/D13/Y2022D13.cs:15 | each pair with its packets swapped |
| Y2022D13.ScoreAllInOrder | src/AdventOfCode/Y2022/D13/Y2022D13.cs:9-19 | the score is the sum of all indices exactly when every pair is in order |
| Y2022D13.ScoreSwapped | src/AdventOfCode/Y2022/D13/Y2022D13.cs:9-19 | the scores of the pairs and of the swapped pairs add up to all indices plus the ties |
| Y2022D13.PacketLines | src/AdventOfCode/Y2022/D13/Y2022D13.cs:24-27 | the non-empty lines, ending with the two divider lines |
| Y2022D13.Dividers | src/AdventOfCode/Y2022/D13/Y2022D13.cs:26-31 | the divider lines parse to the dividers, which show as those lines, and [[2]] comes before [[6]] |
| Y2022D13.DividerShow | src/AdventOfCode/Y2022/D13/Y2022D13.cs:26-31 | a one-digit divider-shaped line parses to its packet and shows as itself |
| Y2022D13.PartTwoSorted | src/AdventOfCode/Y2022/D13/Y2022D13.cs:22-33 | part two sorts a permutation of the packets holding both dividers, in non-decreasing order |
| Y2022D13.KeyNone | src/AdventOfCode/Y2022/D13/Y2022D13.cs:30-32 | with no divider the key is 1 |
| Y2022D13.KeyOne | src/AdventOfCode/Y2022/D13/Y2022D13.cs:30-32 | with one divider the key is its 1-based position |
| Y2022D13.KeyTwo | src/AdventOfCode/Y2022/D13/Y2022D13.cs:30-32 | with exactly two dividers the key is the product of their 1-based positions |
| Y2022D13.Show | src/AdventOfCode/Y2022/D13/Y2022D13.cs:103-111 | a list prints between an opening and a closing bracket |
| Y2022D13.Parsed | src/AdventOfCode/Y2022/D13/Y2022D13.cs:55-58 | a line shorter than two characters fails, as the slice throws; a parsed line is a list |
| Y2022D13.Blocks | src/AdventOfCode/Y2022/D13/Y2022D13.cs:11 | splitting at blank lines gives at least one block |
| Y2022D13.PartOne | src/AdventOfCode/Y2022/D13/Y2022D13.cs:9-19 | an answer exists exactly when every block holds a pair of packets; it lies between 0 and the sum of the blocks' 1-based indices |
| Y2022D13.DecoderKey | src/AdventOfCode/Y2022/D13/Y2022D13.cs:30-32 | the product of the 1-based positions of the dividers is at least 1 |
| Y2022D13.PartTwo | src/AdventOfCode/Y2022/D13/Y2022D13.cs:22-33 | an answer exists exactly when every nonempty line parses; it is at least 1 |
| Y2022D14.Minus | src/AdventOfCode/Y2022/D14/Y2022D14.cs:10-11 | subtraction undoes addition of points in either argument |
| Y2022D14.ParsePoint | src/AdventOfCode/Y2022/D14/Y2022D14.cs:27-30 | a parsed point has at least two comma-separated pieces, its coordinates being the first two |
| Y2022D14.ParseWalls | src/AdventOfCode/Y2022/D14/Y2022D14.cs:23-33 | one wall per input line |
| Y2022D14.Segment | src/AdventOfCode/Y2022/D14/Y2022D14.cs:110-123 | both corners are in the segment; a vertical pair keeps the column, a horizontal pair the row |
| Y2022D14.WallsOfSegments | src/AdventOfCode/Y2022/D14/Y2022D14.cs:105-127 | a point is a wall point exactly when it lies on one of the walls' segments |
| Y2022D14.WallOfSegments | src/AdventOfCode/Y2022/D14/Y2022D14.cs:110-123 | a wall's points are exactly the points of its consecutive segments |
| Y2022D14.SegmentStep | src/AdventOfCode/Y2022/D14/Y2022D14.cs:118-122 | a step toward the far corner stays on the segment and extends the walked part by the new point |
| Y2022D14.GetWallPoints | src/AdventOfCode/Y2022/D14/Y2022D14.cs:105-127 | for axis-aligned walls, exactly the points of every segment |
| Y2022D14.AddWall | src/AdventOfCode/Y2022/D14/Y2022D14.cs:110-123 | for a wall whose consecutive corners are axis-aligned, adds exactly the points of its segments |
| Y2022D14.AddSegment | src/AdventOfCode/Y2022/D14/Y2022D14.cs:112-122 | the walk from a to b adds exactly the segment's points |
| Y2022D14.Candidates | src/AdventOfCode/Y2022/D14/Y2022D14.cs:74-77 | three candidates, exactly the points below, below-left and below-right |
| Y2022D14.NextPoint | src/AdventOfCode/Y2022/D14/Y2022D14.cs:74-77 | none exactly when all three candidates are taken; otherwise the first open candidate |
| Y2022D14.StableAdd | src/AdventOfCode/Y2022/D14/Y2022D14.cs:79-81 | adding a blocked grain keeps the sand stable |
| Y2022D14.ReachableSettled | src/AdventOfCode/Y2022/D14/Y2022D14.cs:58-103 | with a floor, stable sand covering the source covers every point a fall can reach |
| Y2022D14.Pour | src/AdventOfCode/Y2022/D14/Y2022D14.cs:62-100 | the settled sand is stable and reachable, off the walls above the limit; with a floor the source is covered; the settled grains, in the order they settle, are exactly the grain-by-grain pour (`PourOrder`) |
| Y2022D14.Drop | src/AdventOfCode/Y2022/D14/Y2022D14.cs:72-98 | a grain dropped at a point rests where it is blocked, or escapes when its next move reaches the limit; a grain's moves follow the first open candidate |
| Y2022D14.FallDrop | src/AdventOfCode/Y2022/D14/Y2022D14.cs:72-98 | a grain dropped from the source ends up where a grain dropped anywhere along its fall does |
| Y2022D14.PourOrderUnique | src/AdventOfCode/Y2022/D14/Y2022D14.cs:58-103 | two grain orders that both describe a whole pour are equal, so the pour is determined by the walls |
| Y2022D14.InOrderPrefix | src/AdventOfCode/Y2022/D14/Y2022D14.cs:62-100 | every prefix of a grain order is itself a grain order |
| Y2022D14.InOrderUnique | src/AdventOfCode/Y2022/D14/Y2022D14.cs:72-98 | of two grain orders the shorter is a prefix of the longer: each grain is fixed by the ones before it |
| Y2022D14.LastAgrees | src/AdventOfCode/Y2022/D14/Y2022D14.cs:72-98 | grain orders that agree but for their last grain agree on it too |
| Y2022D14.PourLonger | src/AdventOfCode/Y2022/D14/Y2022D14.cs:62-100 | a whole pour is never a proper prefix of another grain order |
| Y2022D14.SettledCountUnique | src/AdventOfCode/Y2022/D14/Y2022D14.cs:58-103 | the number of settled grains is a function of the walls |
| Y2022D14.Fall | src/AdventOfCode/Y2022/D14/Y2022D14.cs:72-98 | one run of the inner loop keeps the sand stable and the grain order exact; it either settles one grain, shrinking the unfilled region, or ends the pour leaving the sand unchanged |
| Y2022D14.LaidSettle | src/AdventOfCode/Y2022/D14/Y2022D14.cs:79-88 | a settling grain lands where a grain dropped from the source rests, extending the grain order |
| Y2022D14.LaidPush | src/AdventOfCode/Y2022/D14/Y2022D14.cs:97-98 | a grain that moves on keeps following its own fall from the source |
| Y2022D14.FallExtend | src/AdventOfCode/Y2022/D14/Y2022D14.cs:74-77 | a fall extended by the grain's next point is still a fall |
| Y2022D14.MovingUncovered | src/AdventOfCode/Y2022/D14/Y2022D14.cs:74-81 | a grain that can still move is not on settled sand |
| Y2022D14.InOrderSnoc | src/AdventOfCode/Y2022/D14/Y2022D14.cs:79-81 | appending the point a grain dropped from the source rests on extends the grain order and its set |
| Y2022D14.Unpush | src/AdventOfCode/Y2022/D14/Y2022D14.cs:87 | popping the path gives back the point pushed last |
| Y2022D14.SettleStep | src/AdventOfCode/Y2022/D14/Y2022D14.cs:79-88 | a blocked grain settles keeping the invariant, and the next grain resumes from where it came |
| Y2022D14.SettleSand | src/AdventOfCode/Y2022/D14/Y2022D14.cs:79-81 | the settled grain is reachable, off the walls and blocked, and the unfilled region shrinks |
| Y2022D14.SettleTrail | src/AdventOfCode/Y2022/D14/Y2022D14.cs:87 | the next grain resumes from the point the settled one came from |
| Y2022D14.OverflowStep | src/AdventOfCode/Y2022/D14/Y2022D14.cs:91-95 | without a floor, a grain about to move to the lowest wall's row or below means a grain dropped from the source escapes, so the pour has ended |
| Y2022D14.PushStep | src/AdventOfCode/Y2022/D14/Y2022D14.cs:97-98 | moving to an open point below extends the fall |
| Y2022D14.PathShape | src/AdventOfCode/Y2022/D14/Y2022D14.cs:13-18 | a fall drops one row per step and drifts at most one column per step |
| Y2022D14.ReachAll | src/AdventOfCode/Y2022/D14/Y2022D14.cs:58-103 | every point a fall can reach lies in the triangle under the source |
| Y2022D14.FloorFills | src/AdventOfCode/Y2022/D14/Y2022D14.cs:58-103 | with a floor, the sand is exactly the points a fall can reach |
| Y2022D14.MaxYOf | src/AdventOfCode/Y2022/D14/Y2022D14.cs:60 | the largest row of the walls |
| Y2022D14.MaxY | src/AdventOfCode/Y2022/D14/Y2022D14.cs:60 | the loop finds the largest wall row |
| Y2022D14.GetSettledCount | src/AdventOfCode/Y2022/D14/Y2022D14.cs:58-103 | fails exactly when there are no walls; otherwise the length of the grain-by-grain pour (`SettledCount`), which with a floor is the number of reachable points |
| Y2022D14.SolvePartOne | src/AdventOfCode/Y2022/D14/Y2022D14.cs:21-37 | fails exactly when parsing fails or there are no walls; otherwise the number of grains the grain-by-grain pour without a floor settles before one escapes (`SettledCount`, unique by `SettledCountUnique`) |
| Y2022D14.SolvePartTwo | src/AdventOfCode/Y2022/D14/Y2022D14.cs:40-56 | fails exactly when parsing fails or there are no walls; otherwise the number of points a fall can reach over the floor |
| Y2022D14.Stable | src/AdventOfCode/Y2022/D14/Y2022D14.cs:74-81 | the sand is stable exactly when no move from a settled grain leads to an open point |
| Y2023D01.DigitChars | src/AdventOfCode/Y2023/D01/Y2023D01.cs:14 | exactly the line's digit characters, in order |
| Y2023D01.CharsValue | src/AdventOfCode/Y2023/D01/Y2023D01.cs:14-16 | none exactly when the line has no digit; otherwise ten times the first digit plus the last |
| Y2023D01.TwoDigits | src/AdventOfCode/Y2023/D01/Y2023D01.cs:16 | the text of two digits parses to ten times the first plus the second |
| Seqs.SumPresent | src/AdventOfCode/Y2023/D01/Y2023D01.cs:13-16 | a Sum over a selector that may throw: defined exactly when every element has a value, and then the sum of the values |
| Seqs.SumPresentAppend | src/AdventOfCode/Y2023/D01/Y2023D01.cs:13-16 | summing two batches together is defined exactly when both are, and is the sum of the two totals |
| Y2023D01.CalibrationsSum | src/AdventOfCode/Y2023/D01/Y2023D01.cs:13-16 | the per-line values sum exactly when every line holds a digit, to the sum of ten times each line's first digit plus its last |
| Y2023D01.SolvePartOne | src/AdventOfCode/Y2023/D01/Y2023D01.cs:11-17 | the answer exists exactly when every line holds a digit, and is then the sum over the lines of ten times the first digit plus the last |
| Y2023D01.WordValue | src/AdventOfCode/Y2023/D01/Y2023D01.cs:58-70 | a value from 1 to 9 exactly for the nine spelled-out digits, 0 otherwise |
| Y2023D01.DigitFree | src/AdventOfCode/Y2023/D01/Y2023D01.cs:48-54 | the position of the first digit, with no digit before it |
| Y2023D01.WordsUpTo | src/AdventOfCode/Y2023/D01/Y2023D01.cs:57-75 | every collected word value lies between 1 and 9 |
| Y2023D01.NumbersFrom | src/AdventOfCode/Y2023/D01/Y2023D01.cs:37-77 | every number read is at most 9 |
| Y2023D01.ScanWords | src/AdventOfCode/Y2023/D01/Y2023D01.cs:47-76 | the inner loop collects exactly the words spelled by the digit-free prefixes, shortest first |
| Y2023D01.GetNumbersFromLine | src/AdventOfCode/Y2023/D01/Y2023D01.cs:33-80 | the loop reads exactly the line's numbers: digits by value and words wherever they start |
| Y2023D01.WordsUpToContains | src/AdventOfCode/Y2023/D01/Y2023D01.cs:48-76 | a word spelled by a digit-free prefix is collected |
| Y2023D01.NumbersFromContains | src/AdventOfCode/Y2023/D01/Y2023D01.cs:37-77 | words starting at a position are read from every earlier position |
| Y2023D01.EveryWordCounts | src/AdventOfCode/Y2023/D01/Y2023D01.cs:56 | every spelled-out digit not interrupted by a digit is read, overlapping words included |
| Y2023D01.WordsNone | src/AdventOfCode/Y2023/D01/Y2023D01.cs:72-75 | with no word among the prefixes nothing is collected |
| Y2023D01.NoWordsJustDigits | src/AdventOfCode/Y2023/D01/Y2023D01.cs:37-44 | a line with no spelled-out word reads just its digits, as in part one |
| Y2023D01.NumbersValue | src/AdventOfCode/Y2023/D01/Y2023D01.cs:30 | none exactly when there are no numbers; otherwise ten times the first plus the last |
| Y2023D01.SolvePartTwo | src/AdventOfCode/Y2023/D01/Y2023D01.cs:25-31 | the answer exists exactly when every line reads some number, and is then the sum over the lines of ten times the first number read plus the last |
| Y2023D01.SpelledCalibrationsSum | src/AdventOfCode/Y2023/D01/Y2023D01.cs:27-30 | the per-line values sum exactly when every line reads a number, to the sum of ten times each line's first number plus its last |
| Y2023D02.FirstCount | src/AdventOfCode/Y2023/D02/Y2023D02.cs:71-73 | the count of the first match of the colour, or "0" when none matches |
| Y2023D02.ParseRoundResult | src/AdventOfCode/Y2023/D02/Y2023D02.cs:66-74 | defined exactly when the three counts parse; the round holds the first count of each colour |
| Y2023D02.MissingColourIsZero | src/AdventOfCode/Y2023/D02/Y2023D02.cs:71 | a colour that is not matched counts 0 |
| Y2023D02.ParseRounds | src/AdventOfCode/Y2023/D02/Y2023D02.cs:27-30 | one round per ';'-separated part |
| Y2023D02.ParseGameOne | src/AdventOfCode/Y2023/D02/Y2023D02.cs:24-33 | a parsed game has a ':' and at least one round, and its id is the text before ':' without "Game " |
| Y2023D02.ParseGameTwo | src/AdventOfCode/Y2023/D02/Y2023D02.cs:48-57 | a parsed game has a ':' and at least one round, and its id is the second word before ':' |
| Y2023D02.PossibleByMaxima | src/AdventOfCode/Y2023/D02/Y2023D02.cs:35-38 | a game is possible exactly when each colour's largest count is within its limit |
| Y2023D02.SumPowersNonNegative | src/AdventOfCode/Y2023/D02/Y2023D02.cs:59-63 | with non-negative counts the sum of powers is non-negative |
| Y2023D02.PowerNonNegative | src/AdventOfCode/Y2023/D02/Y2023D02.cs:60-62 | with non-negative counts a game's power is non-negative |
| Y2023D02.NonePossible | src/AdventOfCode/Y2023/D02/Y2023D02.cs:35-39 | only possible games add their ids: with none possible the sum is 0 |
| Y2023D02.Possible | src/AdventOfCode/Y2023/D02/Y2023D02.cs:35-38 | every round within 12 red, 13 green and 14 blue |
| Y2023D02.Power | src/AdventOfCode/Y2023/D02/Y2023D02.cs:59-62 | the largest red, green and blue counts multiplied |
| Y2023D02.PowerOfLargestCounts | src/AdventOfCode/Y2023/D02/Y2023D02.cs:59-62 | the power is the product of one red, one green and one blue count, each shown in some round and exceeded by none |
| Y2023D02.SumPossibleIds | src/AdventOfCode/Y2023/D02/Y2023D02.cs:35-39 | the sum over the games of the id of each possible game, 0 for the others |
| Y2023D02.SumPowers | src/AdventOfCode/Y2023/D02/Y2023D02.cs:59-63 | the sum over the games of their powers |
| Y2023D02.SolvePartOne | src/AdventOfCode/Y2023/D02/Y2023D02.cs:15-40 | the answer exists exactly when every line parses as a game, and is then the sum of the ids of the possible games |
| Y2023D02.SolvePartTwo | src/AdventOfCode/Y2023/D02/Y2023D02.cs:43-64 | the answer exists exactly when every line parses as a game, and is then the sum of the games' powers |
| Y2023D03.GroupRuns | src/AdventOfCode/Y2023/D03/Y2023D03.cs:64-98 | no runs exactly for no cells; every run is non-empty and made of the given cells |
| Y2023D03.GroupRunsFlatten | src/AdventOfCode/Y2023/D03/Y2023D03.cs:64-98 | the runs, concatenated, give the cells back in order |
| Y2023D03.GroupRunsConnected | src/AdventOfCode/Y2023/D03/Y2023D03.cs:78-82 | within a run each cell is the X-neighbour of the one before it |
| Y2023D03.GroupRunsMaximal | src/AdventOfCode/Y2023/D03/Y2023D03.cs:78-88 | a run's first cell is never the X-neighbour of the previous run's last cell |
| Y2023D03.ConnectedOneRow | src/AdventOfCode/Y2023/D03/Y2023D03.cs:78-82 | a connected run stays on one row |
| Y2023D03.RunOnOneRow | src/AdventOfCode/Y2023/D03/Y2023D03.cs:64-98 | every cell of a run is on the row of its first cell |
| Y2023D03.GetNumberCellGroups | src/AdventOfCode/Y2023/D03/Y2023D03.cs:64-98 | the loop builds exactly the runs |
| Y2023D03.Text | src/AdventOfCode/Y2023/D03/Y2023D03.cs:27 | the characters of a group, in order |
| Y2023D03.NumberOf | src/AdventOfCode/Y2023/D03/Y2023D03.cs:27-28 | a non-empty group of digits parses to its number |
| Y2023D03.DigitCells | src/AdventOfCode/Y2023/D03/Y2023D03.cs:66 | exactly the digit cells |
| Y2023D03.RunsOfDigits | src/AdventOfCode/Y2023/D03/Y2023D03.cs:64-98 | the runs of digit cells hold only digits |
| Y2023D03.Symbols | src/AdventOfCode/Y2023/D03/Y2023D03.cs:12-15 | exactly the input's characters that are neither digits nor '.', each once |
| Y2023D03.PartNumbersBounds | src/AdventOfCode/Y2023/D03/Y2023D03.cs:22-31 | the part-number sum lies between 0 and the sum of all numbers: 0 without symbols, all of them when every group touches a symbol |
| Y2023D03.PartNumbers | src/AdventOfCode/Y2023/D03/Y2023D03.cs:22-31 | the sum over the groups of the number of each group touching a symbol cell, 0 for the others |
| Y2023D03.SolvePartOne | src/AdventOfCode/Y2023/D03/Y2023D03.cs:10-32 | the sum, over the runs of digit cells of the grid, of the number of each run with a cell next to a symbol cell; never negative |
| Y2023D03.AdjacentGroups | src/AdventOfCode/Y2023/D03/Y2023D03.cs:46-48 | exactly the groups with a cell next to the gear, in order |
| Y2023D03.ProductOfTwo | src/AdventOfCode/Y2023/D03/Y2023D03.cs:55-58 | the product of two numbers is their product |
| Y2023D03.GearRatio | src/AdventOfCode/Y2023/D03/Y2023D03.cs:50-58 | a gear with fewer than two adjacent numbers adds nothing; with exactly two, their product |
| Y2023D03.LonelyGears | src/AdventOfCode/Y2023/D03/Y2023D03.cs:50-53 | gears with fewer than two adjacent numbers add nothing |
| Y2023D03.SolvePartTwo | src/AdventOfCode/Y2023/D03/Y2023D03.cs:35-62 | the loop's sum is the sum of the gear ratios of the '*' cells |
| Y2023D04.WinCount | src/AdventOfCode/Y2023/D04/Y2023D04.cs:11 | the number of distinct winning numbers the card also holds |
| Y2023D04.Pow2 | src/AdventOfCode/Y2023/D04/Y2023D04.cs:21 | a power of two is at least 1 |
| Y2023D04.Points | src/AdventOfCode/Y2023/D04/Y2023D04.cs:21 | 0 exactly without wins; otherwise 2 to the power wins - 1 |
| Y2023D04.PointsDouble | src/AdventOfCode/Y2023/D04/Y2023D04.cs:21 | the first win is worth 1 and each further win doubles the worth |
| Y2023D04.Wins | src/AdventOfCode/Y2023/D04/Y2023D04.cs:20 | the win count of each card, in order |
| Y2023D04.TotalPoints | src/AdventOfCode/Y2023/D04/Y2023D04.cs:19-22 | 0 exactly when no card wins; at least each card's points |
| Y2023D04.Copies | src/AdventOfCode/Y2023/D04/Y2023D04.cs:30-43 | every card is held at least once |
| Y2023D04.ContributionSettles | src/AdventOfCode/Y2023/D04/Y2023D04.cs:32-43 | cards from j on add nothing to card j |
| Y2023D04.AllCopies | src/AdventOfCode/Y2023/D04/Y2023D04.cs:30-43 | the copies of every card, each at least 1 |
| Y2023D04.SumAtLeastOnes | src/AdventOfCode/Y2023/D04/Y2023D04.cs:45 | a sum of counts that are each at least 1 is at least their number |
| Y2023D04.TotalAtLeastCards | src/AdventOfCode/Y2023/D04/Y2023D04.cs:45 | the total held is at least the number of cards |
| Y2023D04.NoWinsNoCopies | src/AdventOfCode/Y2023/D04/Y2023D04.cs:30-43 | without wins every card is held once |
| Y2023D04.NoWinsContribution | src/AdventOfCode/Y2023/D04/Y2023D04.cs:37-42 | without wins no card adds to another |
| Y2023D04.CountCopies | src/AdventOfCode/Y2023/D04/Y2023D04.cs:30-43 | the nested loops leave exactly each card's number of copies in a fresh array |
| Y2023D04.AddCopies | src/AdventOfCode/Y2023/D04/Y2023D04.cs:37-42 | card c's loop adds its count to the next wins[c] cards, clipped at the end, which fixes card c+1's count |
| Y2023D04.NonEmpty | src/AdventOfCode/Y2023/D04/Y2023D04.cs:54-55 | exactly the non-empty pieces |
| Y2023D04.ParseCard | src/AdventOfCode/Y2023/D04/Y2023D04.cs:51-55 | a parsed card had a ':' and a '\|' after it |
| Y2023D04.SolvePartOne | src/AdventOfCode/Y2023/D04/Y2023D04.cs:15-23 | fails exactly when a card does not parse; otherwise the sum of the points, 0 exactly when no card wins |
| Y2023D04.SolvePartTwo | src/AdventOfCode/Y2023/D04/Y2023D04.cs:26-46 | fails exactly when a card does not parse; otherwise the total of all copies, at least the number of cards |
| Y2023D05.MapItem.MappedValue | src/AdventOfCode/Y2023/D05/Y2023D05.cs:18-27 | a value outside the source range is kept; one inside lands in the destination range |
| Y2023D05.SourceRange | src/AdventOfCode/Y2023/D05/Y2023D05.cs:14-16 | an item can map exactly the values from its source start to its source end |
| Y2023D05.ItemOneToOne | src/AdventOfCode/Y2023/D05/Y2023D05.cs:18-27 | an item maps its source range one to one |
| Y2023D05.ItemOnto | src/AdventOfCode/Y2023/D05/Y2023D05.cs:18-27 | every value of the destination range is the image of a source value |
| Y2023D05.Map.MappedValue | src/AdventOfCode/Y2023/D05/Y2023D05.cs:35-41 | the first item that can map the value maps it; with none the value is kept |
| Y2023D05.ThroughAppend | src/AdventOfCode/Y2023/D05/Y2023D05.cs:52 | going through two lists of maps is going through the first, then the second |
| Y2023D05.AddItem | src/AdventOfCode/Y2023/D05/Y2023D05.cs:197 | the last map gets the item appended; the other maps are unchanged |
| Y2023D05.ParseMapsAndSeeds | src/AdventOfCode/Y2023/D05/Y2023D05.cs:164-199 | the loop computes the specified parse, failing where the source throws |
| Y2023D05.ParseStuck | src/AdventOfCode/Y2023/D05/Y2023D05.cs:190-197 | once a line throws, the parse throws |
| Y2023D05.ParseHeaders | src/AdventOfCode/Y2023/D05/Y2023D05.cs:177-182 | one map per header line |
| Y2023D05.ParseOrphanItem | src/AdventOfCode/Y2023/D05/Y2023D05.cs:190-193 | a line of numbers before any header throws |
| Y2023D05.ParseBlank | src/AdventOfCode/Y2023/D05/Y2023D05.cs:172-175 | blank lines are skipped |
| Y2023D05.Locations | src/AdventOfCode/Y2023/D05/Y2023D05.cs:51-52 | each seed's location through all the maps |
| Y2023D05.PartOneOf | src/AdventOfCode/Y2023/D05/Y2023D05.cs:45-54 | none exactly when there are no seeds; otherwise the lowest location of a seed |
| Y2023D05.SplitRange | src/AdventOfCode/Y2023/D05/Y2023D05.cs:131-162 | one to three contiguous pieces from the range's start to its end; once cut, each piece lies inside or outside the source range |
| Y2023D05.ContiguousHolds | src/AdventOfCode/Y2023/D05/Y2023D05.cs:131-162 | non-empty contiguous pieces hold exactly the values from the first start to the last end |
| Y2023D05.ContiguousAscends | src/AdventOfCode/Y2023/D05/Y2023D05.cs:131-162 | every contiguous piece lies within the first start and the last end |
| Y2023D05.SplitCovers | src/AdventOfCode/Y2023/D05/Y2023D05.cs:131-162 | splitting a non-empty range by a non-empty item gives non-empty pieces holding exactly the range's values |
| Y2023D05.SplitTouching | src/AdventOfCode/Y2023/D05/Y2023D05.cs:135-161 | a range with an end on an end of the source range comes back whole |
| Y2023D05.SplitAll | src/AdventOfCode/Y2023/D05/Y2023D05.cs:87-89 | each range gives one to three pieces |
| Y2023D05.SplitAllHolds | src/AdventOfCode/Y2023/D05/Y2023D05.cs:87-89 | splitting a list of non-empty ranges keeps them non-empty and holds the same values |
| Y2023D05.HoldsAppend | src/AdventOfCode/Y2023/D05/Y2023D05.cs:87-92 | a value is held by two lists together exactly when one of them holds it |
| Y2023D05.SplitByItemsHolds | src/AdventOfCode/Y2023/D05/Y2023D05.cs:85-93 | splitting by every item of a map loses and adds no value |
| Y2023D05.Shift | src/AdventOfCode/Y2023/D05/Y2023D05.cs:98-108 | the start goes where the map sends it; the end is moved by the same item, or kept when no item maps the start |
| Y2023D05.ShiftUniform | src/AdventOfCode/Y2023/D05/Y2023D05.cs:96-109 | for a range inside or outside each source range, moving its ends moves every value in it as the map does |
| Y2023D05.ShiftAll | src/AdventOfCode/Y2023/D05/Y2023D05.cs:96-109 | every range shifted |
| Y2023D05.MapRangesStarts | src/AdventOfCode/Y2023/D05/Y2023D05.cs:82-110 | after one map every start is the map's image of a piece's start |
| Y2023D05.ApplyMap | src/AdventOfCode/Y2023/D05/Y2023D05.cs:85-109 | the two loops split the group by every item and then shift each range |
| Y2023D05.ShiftRange | src/AdventOfCode/Y2023/D05/Y2023D05.cs:98-108 | the loop shifts by the first item that maps the start |
| Y2023D05.SeedRanges | src/AdventOfCode/Y2023/D05/Y2023D05.cs:73-75 | defined exactly for an even count of seed numbers, one range per pair |
| Y2023D05.SeedRangesPairs | src/AdventOfCode/Y2023/D05/Y2023D05.cs:75 | pair i is the range from its start to start + length - 1 |
| Y2023D05.Starts | src/AdventOfCode/Y2023/D05/Y2023D05.cs:113 | the start of each range |
| Y2023D05.SolvePartTwo | src/AdventOfCode/Y2023/D05/Y2023D05.cs:68-114 | the loops compute the specified part two, failing where the source throws |
| Y2023D05.MapGroups | src/AdventOfCode/Y2023/D05/Y2023D05.cs:73-111 | each seed range becomes a group, mapped through every map in turn |
| Y2023D05.ApplyToGroups | src/AdventOfCode/Y2023/D05/Y2023D05.cs:82-110 | every group is updated by the map |
| Y2023D05.PartTwoTouching | src/AdventOfCode/Y2023/D05/Y2023D05.cs:131-162 | part two can differ from the lowest location of a seed: the range 5..10 with the item "100 5 3" gives 100 though seed 8 is at 8 |
| Y2023D05.PartOne | src/AdventOfCode/Y2023/D05/Y2023D05.cs:45-54 | fails exactly when parsing fails or there are no seeds; otherwise the location of some seed, and no seed has a lower one |
| Y2023D05.PartTwoOf | src/AdventOfCode/Y2023/D05/Y2023D05.cs:68-113 | fails exactly when the seed numbers do not pair up or there are none |
| Y2023D05.GroupsNonEmpty | src/AdventOfCode/Y2023/D05/Y2023D05.cs:73-113 | with at least one seed range, at least one range is left after all maps |
| Y2023D05.SplitByItemsLength | src/AdventOfCode/Y2023/D05/Y2023D05.cs:85-93 | splitting by the map items never loses a range |
| Y2023D05.MapsRangesLength | src/AdventOfCode/Y2023/D05/Y2023D05.cs:80-111 | running ranges through the maps never loses a range |
| Y2023D05.ParseNext | src/AdventOfCode/Y2023/D05/Y2023D05.cs:170-198 | reading one more line continues the parse of the lines before it |
| Y2023D05.PartTwo | src/AdventOfCode/Y2023/D05/Y2023D05.cs:68-113 | fails exactly when parsing fails, the seed numbers do not pair up, or there are none |
| Y2023D07.Ordinal | src/AdventOfCode/Y2023/D07/Y2023D07.cs:36-45 | the enum value of a type, at most 6 |
| Y2023D07.OrdinalInjective | src/AdventOfCode/Y2023/D07/Y2023D07.cs:36-45 | different types have different enum values |
| Y2023D07.Counts | src/AdventOfCode/Y2023/D07/Y2023D07.cs:55-56 | one count per distinct card, each at least 1 |
| Y2023D07.Profile | src/AdventOfCode/Y2023/D07/Y2023D07.cs:55-58 | the same counts, one per distinct card, rearranged |
| Y2023D07.Classify | src/AdventOfCode/Y2023/D07/Y2023D07.cs:60-70 | each type exactly for its pattern of leading counts; none when no pattern matches |
| Y2023D07.CountsSum | src/AdventOfCode/Y2023/D07/Y2023D07.cs:55-56 | the counts add up to the number of cards |
| Y2023D07.SumOfPositives | src/AdventOfCode/Y2023/D07/Y2023D07.cs:55-58 | counts of at least one add up to at least their number, to exactly it when all are one |
| Y2023D07.ProfileFacts | src/AdventOfCode/Y2023/D07/Y2023D07.cs:55-58 | the profile is descending, its counts at least 1 adding up to the number of cards, headed by the largest count |
| Y2023D07.ProfileOfFive | src/AdventOfCode/Y2023/D07/Y2023D07.cs:60-70 | a descending profile of positive counts adding up to five always matches a pattern, fixed by its length and head |
| Y2023D07.FiveCardsClassified | src/AdventOfCode/Y2023/D07/Y2023D07.cs:49-71 | every five-card hand is classified by its number of distinct cards and its most common card's count |
| Y2023D07.FirstMismatch | src/AdventOfCode/Y2023/D07/Y2023D07.cs:28-30 | the first position within the shorter hand where the cards differ, none when there is none |
| Y2023D07.Compare | src/AdventOfCode/Y2023/D07/Y2023D07.cs:21-33 | different types compare by enum value; none exactly when the types agree and no card differs |
| Y2023D07.FirstMismatchSymmetric | src/AdventOfCode/Y2023/D07/Y2023D07.cs:28-30 | the first mismatch is the same both ways round |
| Y2023D07.CompareAntisymmetric | src/AdventOfCode/Y2023/D07/Y2023D07.cs:21-33 | swapping the hands negates the comparison, which throws both ways or neither |
| Y2023D07.CompareDecides | src/AdventOfCode/Y2023/D07/Y2023D07.cs:21-33 | for hands over the card ranks the comparison is never 0, and within a type it orders by the rank of the first differing card |
| Y2023D07.SortKeyAntisymmetric | src/AdventOfCode/Y2023/D07/Y2023D07.cs:88 | the sort key orders no two hands both ways |
| Y2023D07.ParseHand | src/AdventOfCode/Y2023/D07/Y2023D07.cs:85-86 | defined exactly when the line has a bid that parses and cards that classify |
| Y2023D07.Ranked | src/AdventOfCode/Y2023/D07/Y2023D07.cs:88-89 | fails exactly when two hands clash (the comparer's `First` throws on them, Y2023D07.cs:28-30, and no hand can sort between them, so the sort must compare them); otherwise a permutation of the hands in which the comparer answers for every pair of neighbours and never ranks a hand above the next one, so the hands ascend by type and, within a type, by the first differing card |
| Y2023D07.NoClashPermuted | src/AdventOfCode/Y2023/D07/Y2023D07.cs:28-30 | in a permutation of hands without a clashing pair, the comparer answers for every pair of neighbours |
| Y2023D07.NoClashOnce | src/AdventOfCode/Y2023/D07/Y2023D07.cs:28-30 | without a clashing pair no hand occurs twice, because identical cards clash |
| Y2023D07.OccursTwice | src/AdventOfCode/Y2023/D07/Y2023D07.cs:88 | a hand counted twice in the list occurs at two different places |
| Y2023D07.PairCounted | src/AdventOfCode/Y2023/D07/Y2023D07.cs:88 | two equal neighbours are counted at least twice |
| Y2023D07.RankedByType | src/AdventOfCode/Y2023/D07/Y2023D07.cs:88-89 | along the ranking the types never decrease |
| Y2023D07.TypesAscend | src/AdventOfCode/Y2023/D07/Y2023D07.cs:88 | in sorted hands the types ascend |
| Y2023D07.WinningsSameBid | src/AdventOfCode/Y2023/D07/Y2023D07.cs:91-93 | with equal bids twice the winnings are bid * n * (n + 1) |
| Y2023D07.SolvePartOne | src/AdventOfCode/Y2023/D07/Y2023D07.cs:78-94 | the answer exists exactly when every line parses as a hand and no two hands clash; it is the sum of bid times 1-based rank over a permutation of the hands that ascends by the comparer |
| Y2023D07.ParseHands | src/AdventOfCode/Y2023/D07/Y2023D07.cs:82-87 | defined exactly when every line parses; one hand per line |
| Y2023D07.Winnings | src/AdventOfCode/Y2023/D07/Y2023D07.cs:91-93 | never negative when no bid is |
| Y2023D08.ParseNode | src/AdventOfCode/Y2023/D08/Y2023D08.cs:89-90 | defined exactly when the line has three fields; the node holds them |
| Y2023D08.ParseNodes | src/AdventOfCode/Y2023/D08/Y2023D08.cs:88-90 | the names in order, pairwise distinct, each mapped to its node |
| Y2023D08.ParseNodesFails | src/AdventOfCode/Y2023/D08/Y2023D08.cs:88-90 | the dictionary fails only for a short line or a repeated name |
| Y2023D08.Parse | src/AdventOfCode/Y2023/D08/Y2023D08.cs:76-91 | the instructions are the first cleaned line; the nodes are keyed by their names |
| Y2023D08.Move | src/AdventOfCode/Y2023/D08/Y2023D08.cs:24-25 | move m follows instruction (m - 1) mod the count: 'L' to the left exit, anything else right; none exactly for a missing node |
| Y2023D08.WalkStaysBroken | src/AdventOfCode/Y2023/D08/Y2023D08.cs:21-26 | leaving the network ends the walk for good |
| Y2023D08.ArrivalExcludesFailure | src/AdventOfCode/Y2023/D08/Y2023D08.cs:21-26 | reaching ZZZ and failing first exclude each other |
| Y2023D08.WalkToGoal | src/AdventOfCode/Y2023/D08/Y2023D08.cs:18-28 | the number of moves of the first arrival at ZZZ, none exactly when a node on the way is missing |
| Y2023D08.SolvePartOne | src/AdventOfCode/Y2023/D08/Y2023D08.cs:14-29 | the first arrival at ZZZ; none exactly when parsing fails, there are no instructions or the walk fails first |
| Y2023D08.Third | src/AdventOfCode/Y2023/D08/Y2023D08.cs:38 | character 2 exists exactly for names of length at least 3 |
| Y2023D08.Starts | src/AdventOfCode/Y2023/D08/Y2023D08.cs:38 | exactly the names whose third character is 'A'; none when a name is too short |
| Y2023D08.StopBound | src/AdventOfCode/Y2023/D08/Y2023D08.cs:45-71 | a move count by which every start has stopped |
| Y2023D08.MoveAll | src/AdventOfCode/Y2023/D08/Y2023D08.cs:49-63 | one pass moves every start not yet at a Z node and records the move count of each arrival |
| Y2023D08.FirstZs | src/AdventOfCode/Y2023/D08/Y2023D08.cs:41-71 | the first Z hit of every start, none only when some walk fails |
| Y2023D08.SolvePartTwo | src/AdventOfCode/Y2023/D08/Y2023D08.cs:32-74 | the least common multiple of every start's first Z hit: a multiple of each hit that divides, and is at most, every positive common multiple; none when parsing, the instructions or the names fail, or a walk fails first |
| Y2023D08.GreatestCommonFactor | src/AdventOfCode/Y2023/D08/Y2023D08.cs:93-103 | Euclid's loop: a common divisor of both that every common divisor divides, 0 exactly for (0, 0) |
| Y2023D08.GcdDivides | src/AdventOfCode/Y2023/D08/Y2023D08.cs:93-103 | the greatest common factor divides both arguments |
| Y2023D08.DividesCombination | src/AdventOfCode/Y2023/D08/Y2023D08.cs:98 | a common divisor of b and x divides b * d + x |
| Y2023D08.GcdZero | src/AdventOfCode/Y2023/D08/Y2023D08.cs:93-103 | the factor is 0 only for (0, 0), and Gcd(a, 0) is a |
| Y2023D08.LcmCommonMultiple | src/AdventOfCode/Y2023/D08/Y2023D08.cs:105-108 | a / gcd * b is a multiple of both arguments, positive when both are |
| Y2023D08.DividesTransitive | src/AdventOfCode/Y2023/D08/Y2023D08.cs:112 | a divisor of a divisor divides |
| Y2023D08.LcmAll | src/AdventOfCode/Y2023/D08/Y2023D08.cs:110-113 | the fold from 1 is positive |
| Y2023D08.LcmAllCommonMultiple | src/AdventOfCode/Y2023/D08/Y2023D08.cs:110-113 | every hit divides the fold, and no hits fold to 1 |
| Y2023D08.GcdGreatest | src/AdventOfCode/Y2023/D08/Y2023D08.cs:93-103 | every common divisor of a and b divides Euclid's result |
| Y2023D08.DividesRemainder | src/AdventOfCode/Y2023/D08/Y2023D08.cs:98 | a common divisor of a and b divides a % b |
| Y2023D08.GcdScale | src/AdventOfCode/Y2023/D08/Y2023D08.cs:93-103 | scaling both arguments by m scales the factor by m |
| Y2023D08.ModScale | src/AdventOfCode/Y2023/D08/Y2023D08.cs:98 | (m * a) % (m * b) is m * (a % b) |
| Y2023D08.DivModUnique | src/AdventOfCode/Y2023/D08/Y2023D08.cs:98 | a quotient and remainder in range are the ones % computes |
| Y2023D08.LcmLeast | src/AdventOfCode/Y2023/D08/Y2023D08.cs:105-108 | a / gcd * b divides every common multiple of a and b |
| Y2023D08.LcmAllLeast | src/AdventOfCode/Y2023/D08/Y2023D08.cs:110-113 | the fold divides every common multiple of the hits |
| Y2023D08.DividesAtMost | src/AdventOfCode/Y2023/D08/Y2023D08.cs:110-113 | a divisor of a positive number is at most that number |
| Y2023D08.LcmAllIsLeast | src/AdventOfCode/Y2023/D08/Y2023D08.cs:110-113 | the fold is the least common multiple: a common multiple dividing, and at most, every positive common multiple |
| Y2023D08.LowestCommonMultipleOf | src/AdventOfCode/Y2023/D08/Y2023D08.cs:110-113 | the array fold computes LcmAll: a common multiple of the numbers that divides, and is at most, every positive common multiple |
| Y2023D09.Difference | src/AdventOfCode/Y2023/D09/Y2023D09.cs:46-56 | one element fewer than a non-empty list, each the difference of consecutive elements |
| Y2023D09.CalculateDifference | src/AdventOfCode/Y2023/D09/Y2023D09.cs:46-56 | the loop computes the consecutive differences |
| Y2023D09.DiffRows | src/AdventOfCode/Y2023/D09/Y2023D09.cs:31-44 | the table starts with the history and ends with its first row of zeros, having at most one row more than the history has values |
| Y2023D09.DiffRowsSteps | src/AdventOfCode/Y2023/D09/Y2023D09.cs:38-41 | every row but the last has a non-zero element, and each later row is the difference of the one before |
| Y2023D09.CalculateDiffSequence | src/AdventOfCode/Y2023/D09/Y2023D09.cs:31-44 | the loop builds the table of differences |
| Y2023D09.SumOfLasts | src/AdventOfCode/Y2023/D09/Y2023D09.cs:17 | defined exactly when no row is empty |
| Y2023D09.SumOfLastsCons | src/AdventOfCode/Y2023/D09/Y2023D09.cs:17 | the sum of last elements is the first row's last element plus the rest's |
| Y2023D09.PredictionStep | src/AdventOfCode/Y2023/D09/Y2023D09.cs:16-41 | a history with a non-zero element predicts its last value plus the prediction of its differences |
| Y2023D09.PredictionExtends | src/AdventOfCode/Y2023/D09/Y2023D09.cs:16-17 | appending the prediction to a history appends the differences' prediction to its differences |
| Y2023D09.PredictionOfZeros | src/AdventOfCode/Y2023/D09/Y2023D09.cs:38 | a non-empty history of zeros predicts 0; an empty one has no prediction |
| Y2023D09.ConstantPrediction | src/AdventOfCode/Y2023/D09/Y2023D09.cs:31-44 | a constant history of two or more values, or a single 0, predicts the constant |
| Y2023D09.SingleValueFails | src/AdventOfCode/Y2023/D09/Y2023D09.cs:17-41 | a single non-zero value has no prediction |
| Y2023D09.ArithmeticDifference | src/AdventOfCode/Y2023/D09/Y2023D09.cs:46-56 | the differences of an arithmetic history are its step |
| Y2023D09.StepPrediction | src/AdventOfCode/Y2023/D09/Y2023D09.cs:16-41 | a history of three or more values whose differences all equal one step predicts its last value plus that step |
| Y2023D09.ArithmeticPrediction | src/AdventOfCode/Y2023/D09/Y2023D09.cs:16-17 | an arithmetic history of three or more values continues with the next term |
| Y2023D09.ReverseArithmetic | src/AdventOfCode/Y2023/D09/Y2023D09.cs:24 | reversed, an arithmetic history is arithmetic with the opposite step |
| Y2023D09.ArithmeticBackwards | src/AdventOfCode/Y2023/D09/Y2023D09.cs:21-29 | read backwards, an arithmetic history extrapolates to the term before its first |
| Y2023D09.SumPredictions | src/AdventOfCode/Y2023/D09/Y2023D09.cs:16-17 | defined exactly when every history has a prediction, and then the sum of the predictions |
| Y2023D09.SumPredictionsAppend | src/AdventOfCode/Y2023/D09/Y2023D09.cs:16-17 | two batches of histories together sum exactly when each does, to the sum of their totals |
| Y2023D09.Reversed | src/AdventOfCode/Y2023/D09/Y2023D09.cs:24 | every history reversed |
| Y2023D09.SolvePartOne | src/AdventOfCode/Y2023/D09/Y2023D09.cs:10-18 | the answer exists exactly when the input parses and every history has a prediction, and is then the sum of the predictions |
| Y2023D09.SolvePartTwo | src/AdventOfCode/Y2023/D09/Y2023D09.cs:21-29 | the answer exists exactly when the input parses and every reversed history has a prediction, and is then the sum of those predictions |
| Y2023D09.Prediction | src/AdventOfCode/Y2023/D09/Y2023D09.cs:16-17 | a value exists exactly when every row of the table is nonempty, which needs a nonempty history |
| Y2023D10.ParsePipe | src/AdventOfCode/Y2023/D10/Y2023D10.cs:25-40 | defined exactly for the eight pipe symbols, each with its compass flags |
| Y2023D10.OnlyStartIsAll | src/AdventOfCode/Y2023/D10/Y2023D10.cs:28-48 | only 'S' carries every compass flag |
| Y2023D10.DoPipeCellsConnect | src/AdventOfCode/Y2023/D10/Y2023D10.cs:79-103 | true exactly when a has a flag pointing toward b and b has the opposite flag |
| Y2023D10.ConnectSymmetric | src/AdventOfCode/Y2023/D10/Y2023D10.cs:79-103 | connection does not depend on the order of the cells |
| Y2023D10.GroundConnectsNothing | src/AdventOfCode/Y2023/D10/Y2023D10.cs:79-103 | a cell without compass flags connects to nothing |
| Y2023D10.Build | src/AdventOfCode/Y2023/D10/Y2023D10.cs:46 | defined exactly when every character is a pipe symbol; the grid of pipes |
| Y2023D10.CellInBounds | src/AdventOfCode/Y2023/D10/Y2023D10.cs:62 | a cell of a grid lies within its bounds |
| Y2023D10.Next | src/AdventOfCode/Y2023/D10/Y2023D10.cs:62-65 | the chosen neighbour is a 4-neighbour, not the cell just left, that connects; none exactly when no neighbour qualifies |
| Y2023D10.PrevOf | src/AdventOfCode/Y2023/D10/Y2023D10.cs:64 | the cell before position j, none at the start |
| Y2023D10.TraceExtend | src/AdventOfCode/Y2023/D10/Y2023D10.cs:62-67 | appending the next cell keeps a trace a trace |
| Y2023D10.TraceShape | src/AdventOfCode/Y2023/D10/Y2023D10.cs:55-68 | every pipe of a trace is a connecting 4-neighbour of the one before and never the cell two back |
| Y2023D10.EndsAtPrefix | src/AdventOfCode/Y2023/D10/Y2023D10.cs:57 | whether the loop ends at a position depends only on the cells up to it |
| Y2023D10.TraceLoop | src/AdventOfCode/Y2023/D10/Y2023D10.cs:50-70 | for the one trace at which the loop first ends: an answer exactly when that trace closes, and then half its length; none when it gets stuck |
| Y2023D10.Ended | src/AdventOfCode/Y2023/D10/Y2023D10.cs:57-60 | when the break test holds or no next cell exists, the list of pipes is the first place the loop ends |
| Y2023D10.Grow | src/AdventOfCode/Y2023/D10/Y2023D10.cs:55-68 | one round of the loop keeps its invariant: the list stays a trace, a prefix of the closed trace at which the loop has not ended, and grows closer to it |
| Y2023D10.TargetLonger | src/AdventOfCode/Y2023/D10/Y2023D10.cs:57-60 | a prefix at which the loop does not end is shorter than the closed trace |
| Y2023D10.PrefixNext | src/AdventOfCode/Y2023/D10/Y2023D10.cs:62-67 | the next cell of a proper prefix of a trace is the trace's next cell |
| Y2023D10.TracesAgree | src/AdventOfCode/Y2023/D10/Y2023D10.cs:55-68 | two traces from the same start agree as far as both go |
| Y2023D10.FirstEndPrefix | src/AdventOfCode/Y2023/D10/Y2023D10.cs:57-60 | a trace at which the loop first ends is no proper prefix of another |
| Y2023D10.FirstEndAt | src/AdventOfCode/Y2023/D10/Y2023D10.cs:57-60 | the loop ends at the last cell of its first end and nowhere before |
| Y2023D10.FirstEndUnique | src/AdventOfCode/Y2023/D10/Y2023D10.cs:50-70 | the loop is deterministic: there is only one trace at which it first ends |
| Y2023D10.FirstEndsAgree | src/AdventOfCode/Y2023/D10/Y2023D10.cs:50-70 | every first end is the one given |
| Y2023D10.NoEndExtends | src/AdventOfCode/Y2023/D10/Y2023D10.cs:57-60 | appending a cell does not change where the loop could have ended |
| Y2023D10.SolvePartOne | src/AdventOfCode/Y2023/D10/Y2023D10.cs:44-71 | none when a symbol is rejected or there is no start; whenever the trace from the first start closes, exactly half the length of that closed loop; an answer only for such a closed loop |
| Y2023D10.ClosedLoopConnects | src/AdventOfCode/Y2023/D10/Y2023D10.cs:57 | a closed loop has at least three pipes, returns next to the start, and each pipe connects both ways to the one before |
| Y2023D10.ConnectionOf | src/AdventOfCode/Y2023/D10/Y2023D10.cs:28-39 | each of the six pipe symbols connects exactly two directions; only '.' carries the None flag; a symbol outside the list gets no direction |
| Y2023D10.PipeOf | src/AdventOfCode/Y2023/D10/Y2023D10.cs:25-40 | keeps the symbol; the connection is all four directions exactly for 'S' |

## Left out

- The command-line tooling is input/output and plumbing, with nothing to prove about it: `ResultsCommand`, `CreateCommand`, `BenchmarkCommand`, `Program.cs`, `ServiceCollectionExtensions` and the benchmark generator.
- `Y2023D06` is left out because it computes with floating point (`Math.Sqrt`, `Math.Pow`, `Math.Floor`).
- Console output is left out: `Graph.PrintPath` and the diagnostic `WriteLine` calls in days 2022/08, 2022/11 and 2022/12.
- `ISolution` and `ExpectedResultAttribute` are declarations with no behaviour. The expected answers are not evaluated; lemmas relating the alternative solutions to each other stand in for them.
- `src/AdventOfCode.Lib/InputHelpers.cs` is a duplicate of the `AsInts` in `Helpers/InputHelpers.cs` and is not part of this model.
- Some part-two methods only return an empty string: 2022 day 2, 2023 day 7 and 2023 day 10. They have nothing to model.
- `Regex.Matches` in 2023 day 2 is a parameter of the model, a function from a round's text to its (count, colour) matches.
- `int.Parse` and `long.Parse` accept exactly an optional '-' followed by ASCII digits. Surrounding whitespace, a leading '+' and culture-specific forms are not modelled.
- Strings.ParseInt: the `OverflowException` of `int.Parse` on a number outside 32 bits is modelled only where `ParseInt32` or `ParseLong` is used: file sizes in 2022 day 7 (both solutions), the monkey notes of 2022 day 11, and the numbers of 2022 day 13 and 2023 day 5. Elsewhere `ParseInt` reads numbers of any size. That covers `InputHelpers.AsInts`, 2021 day 2, 2022 days 1, 4, 5 (both solutions), 8, 9, 10 and 14, and 2023 days 1 to 4, 7 and 9. Puzzle inputs stay far inside 32 bits.
- `char.IsDigit` and `char.GetNumericValue` are modelled for ASCII '0'..'9' only.
- Y2023D04.Points: the source computes each card's points as the `double` `Math.Pow(2, n - 1)`, sums the doubles and casts the sum with `(int)`. The model uses the exact integer power of two. The two agree while the sum stays below 2^53 and inside `int`; rounding and the out-of-range cast are not modelled.
- Arithmetic is on unbounded integers except where noted:
  - 2022 day 11 models checked `long` arithmetic;
  - `Longs` models unchecked `long` products;
  - `int` overflow in LINQ `Sum` (2022 day 7 directory sizes, calorie and score sums) and `ulong` wrap-around in 2023 day 8 are not modelled.
- `OrderBy`, `Order` and `OrderDescending` are modelled by one stable insertion sort that takes the same comparator. Where the source relies on a specific tie order, the lemmas state properties that hold whatever the tie order.
- Objects whose fields are only written in their constructors are modelled as values: `PacketPart` in 2022 day 13, the `SeedRange` lists in 2023 day 5 and the `Hand` of 2023 day 7.
- The closures of 2022 day 7's second solution are modelled as the branches they choose between.
- Y2022D12.Graph.AStar: the .NET `PriorityQueue` tie order is not modelled; the model dequeues the first entry with minimal priority. So the model proves that every returned path is a walk from start to end, not which path is returned.
- Y2022D12.Graph.AStar: requires non-negative edge weights. The puzzle's weight function always meets this (`ClimbWeightNonNegative`), and termination is proved under it.
- Y2022D12.SolvePartOne: A* optimality is not proved. The puzzle's weights can be 0, so the Manhattan heuristic is not admissible, and the answer is a step count rather than a path cost.
- Y2022D13.Compare: transitivity is not proved. Part two's result is characterised as a non-decreasing permutation under the comparison, not as a unique order.
- Y2022D14.GetWallPoints: requires every segment to be horizontal or vertical, because on a diagonal pair the source's loop never ends. `SolvePartOne` and `SolvePartTwo` carry the same precondition.
- Y2022D11.Solution.SolvePartOne: requires that no monkey throws to itself. Otherwise the source re-inspects the item within the same turn, possibly forever. `SolvePartTwo` has the same precondition.
- Y2022D11.Monkey.InspectItems: the source's iterator yields lazily, so each throw is enqueued before the next item is dequeued. The model drains the queue first and then delivers the throws in order. The two agree because no monkey throws to itself (`TurnsInOrder`).
- Y2022D11.Build: the program's monkey array is never written after parsing, so it is a sequence of references to the mutable monkeys; only the monkeys themselves change.
- Y2022D11.Solution.SolvePartOne: the static mutable `SuperMod` becomes a field of the `Solution` class. Every exception, including one thrown part-way through a round, collapses to `None`.
- Y2022D08.SolvePartOne: requires that, when every character is a digit, the trees fill whole rows as wide as the first. The source never checks this. A character that is not a digit gives None, where the source throws. `SolvePartTwo` and the second solution have the same precondition.
- Y2022D07.TotalWithin: stated for directory names without '_'. With '_' in names, two different paths can share a joined key.
- Y2022D07.AtLeastDescendant: stated for directory names without '_', for the same reason, and for non-negative file sizes.
- Y2022D07.FirstAbove: the answer is characterised as the least size above the requirement. Which of several equal sizes `OrderBy` returns is immaterial, because only the value is returned.
- Y2023D05.SolvePartTwo: not proved equal to the lowest location of any seed. The split tests are strict, so a range that only touches a map item's edge is not split, and `PartTwoTouching` exhibits an input where the two differ. The model follows the code.
- Y2023D05.SplitCovers: stated for non-empty ranges and items; counts below 1 are not covered.
- Y2023D08.SolvePartOne: requires that the walk from AAA ends (`PartOneFinishes`). On any other input the source's loop never ends.
- Y2023D08.SolvePartTwo: requires that every start's walk reaches a Z node or fails (`PartTwoFinishes`). On any other input the source's loop never ends.
- Y2023D10.SolvePartOne: requires `Traceable`, a rectangular grid whose trace closes or gets stuck. On other inputs the source's loop never ends. Ragged grids are not modelled.

## Findings

| source | as written | input that shows it | evidently intended | confidence | as-written member | corrected member |
|---|---|---|---|---|---|---|
| src/AdventOfCode/Y2022/D06/Y2022D06.cs:27 | the scan tests only starts `i < length - n`, so the final window is never examined | "abcd" with n = 4: the only window is unique, yet the result is 0 | every window, the final one included, is examined | not executed | Y2022D06.FinalWindowSkipped | Y2022D06.FindStartInclusive |
| src/AdventOfCode/Y2022/D08/Y2022D08.cs:39 | the last-row test `i > (gw - 1) * gw` assumes a square grid | the 3-wide, 4-row grid `TallGrid`: tree 7 is counted although it is neither on the perimeter nor visible | trees on the last row of a grid of any shape count as border trees | not executed | Y2022D08.TallGridMiscount | Y2022D08.CountIntended |
