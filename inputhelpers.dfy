/** Turning puzzle input text into lines, character grids and integers. */
module InputHelpers {
  import opened Wrappers
  import opened Strings
  import opened Grids
  import Extensions

  /** The lines of the input: a split on '\n' only, empty lines kept. */
  function AsLines(input: string): (lines: seq<string>)
    ensures lines == Extensions.AsLines(input)
  {
    Split(input, '\n')
  }

  /** No line contains '\n', there is one line more than there are newlines,
      and joining the lines with '\n' gives back the input. */
  lemma AsLinesProperties(input: string)
    ensures forall i :: 0 <= i < |AsLines(input)| ==> '\n' !in AsLines(input)[i]
    ensures |AsLines(input)| == CountChar(input, '\n') + 1
    ensures Join(AsLines(input), "\n") == input
  {
    Extensions.AsLinesSplitsOnNewline(input);
  }

  /** One row of characters per line; ragged text gives ragged rows. */
  function AsCharGrid(input: string): (rows: seq<seq<char>>)
    ensures |rows| == CountChar(input, '\n') + 1
    ensures Join(rows, "\n") == input
  {
    AsLinesProperties(input);
    AsLines(input)
  }

  /** The character grid of the input. */
  function AsGrid(input: string): (g: Grid<char>)
    ensures g.Valid()
  {
    Construct(AsCharGrid(input))
  }

  /** The grid of the input with `transform` applied to every character. */
  function AsGridWith<T(==,!new)>(input: string, transform: char -> T): (g: Grid<T>)
    ensures g.Valid()
  {
    var lines := AsLines(input);
    Construct(seq(|lines|, r requires 0 <= r < |lines| =>
      seq(|lines[r]|, c requires 0 <= c < |lines[r]| => transform(lines[r][c]))))
  }

  /** Get(c, r) on AsGrid is the c-th character of line r, and None off the text. */
  lemma AsGridGet(input: string, column: int, row: int)
    ensures var lines := AsLines(input);
      AsGrid(input).Get(column, row) ==
        if 0 <= row < |lines| && 0 <= column < |lines[row]| then Some(lines[row][column]) else None
  {
    GetConstruct(AsCharGrid(input), column, row);
  }

  /** AsGridWith stores transform(ch) where AsGrid stores ch. */
  lemma AsGridWithGet<T(!new)>(input: string, transform: char -> T, column: int, row: int)
    ensures AsGridWith(input, transform).Get(column, row) ==
      match AsGrid(input).Get(column, row)
      case Some(ch) => Some(transform(ch))
      case None => None
  {
    AsGridGet(input, column, row);
  }

  /** One integer per line, in order; None when some line is not a number
      (an empty line included), where int.Parse throws. */
  function AsInts(input: string): (r: Option<seq<int>>)
    ensures r.Some? <==> forall i :: 0 <= i < |AsLines(input)| ==> ParseInt(AsLines(input)[i]).Some?
    ensures r.Some? ==> (|r.value| == |AsLines(input)| &&
      forall i :: 0 <= i < |r.value| ==> ParseInt(AsLines(input)[i]) == Some(r.value[i]))
  {
    Extensions.ParseAs(AsLines(input), ParseInt)
  }

  /** An empty line makes AsInts fail. */
  lemma AsIntsEmptyLine(input: string, i: int)
    requires 0 <= i < |AsLines(input)| && AsLines(input)[i] == ""
    ensures AsInts(input).None?
  {
  }
}
