/** The string extension methods of the helper library. */
module Extensions {
  import opened Wrappers
  import opened Strings

  /** The lines of the input, split on '\n' only. */
  function AsLines(input: string): (lines: seq<string>)
    ensures |lines| >= 1
  {
    Split(input, '\n')
  }

  /** Newline-free lines, one more than there are newlines (so the empty text
      is one empty line), joining back to the input. */
  lemma AsLinesSplitsOnNewline(input: string)
    ensures forall i :: 0 <= i < |AsLines(input)| ==> '\n' !in AsLines(input)[i]
    ensures |AsLines(input)| == CountChar(input, '\n') + 1
    ensures Join(AsLines(input), "\n") == input
  {
    SplitProperties(input, '\n');
    JoinSplitOn(input, "\n");
  }

  /** Parses each string with the type's parser: output i is the parse of
      input i; None where a parse throws. */
  function ParseAs<T>(input: seq<string>, parse: string -> Option<T>): (r: Option<seq<T>>)
    ensures r.Some? <==> forall i :: 0 <= i < |input| ==> parse(input[i]).Some?
    ensures r.Some? ==> (|r.value| == |input| &&
      forall i :: 0 <= i < |input| ==> parse(input[i]) == Some(r.value[i]))
  {
    if input == [] then Some([])
    else
      match (parse(input[0]), ParseAs(input[1..], parse))
      case (Some(x), Some(xs)) =>
        assert forall i :: 1 <= i < |input| ==> input[i] == input[1..][i - 1];
        Some([x] + xs)
      case (_, _) =>
        assert forall i :: 1 <= i < |input| ==> input[i] == input[1..][i - 1];
        None
  }
}
