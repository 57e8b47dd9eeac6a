/** Tuning trouble, second version: each window is taken with Substring and
    its distinct characters are counted. */
module Y2022D06A1 {
  import opened Wrappers
  import opened Seqs
  import opened Y2022D06

  /** Every start 0, 1, ... below the input length is tried in turn. A window
      reaching past the end makes Substring throw (Fail); a window whose
      distinct count is `n` gives its end. Reaching the end of the input
      returns 0. */
  method FindStart(input: string, n: nat) returns (r: Result<int>)
    ensures r == match FirstUnique(input, n, |input| - n + 1)
      case Some(i) => Ok(i + n)
      case None => if |input| > 0 && n >= 2 then Fail("Substring out of range") else Ok(0)
  {
    var i := 0;
    while i < |input|
      invariant 0 <= i <= |input|
      invariant i > 0 ==> i - 1 + n <= |input|
      invariant FirstUnique(input, n, i).None?
    {
      if i + n > |input| {
        assert FirstUnique(input, n, |input| - n + 1).None?;
        return Fail("Substring out of range");
      }
      var window := input[i..i + n];
      DistinctCountUnique(window);
      if |Distinct(window)| == n {
        FirstUniqueStable(input, n, i + 1, |input| - n + 1);
        return Ok(i + n);
      }
      i := i + 1;
    }
    if |input| == 0 {
      assert UniqueAt(input, n, 0) <==> n == 0;
    }
    return Ok(0);
  }

  /** A found marker lies after a full window of distinct characters, and no
      earlier window is free of repetitions. */
  lemma FoundMarker(input: string, n: nat)
    requires FirstUnique(input, n, |input| - n + 1).Some?
    ensures var i := FirstUnique(input, n, |input| - n + 1).value;
      i + n >= n && UniqueAt(input, n, i) && forall j :: 0 <= j < i ==> !UniqueAt(input, n, j)
  {
  }

  /** When the span scan of Y2022D06 finds a window, this version finds the
      same one, so both report the same marker. */
  lemma SameMarkerAsSpanScan(input: string, n: nat)
    requires FirstUnique(input, n, |input| - n).Some?
    ensures FirstUnique(input, n, |input| - n + 1) == FirstUnique(input, n, |input| - n)
  {
    FirstUniqueStable(input, n, |input| - n, |input| - n + 1);
  }

  /** Part one: the first window of 4. */
  method SolvePartOne(input: string) returns (r: Result<int>)
    ensures r.Ok? && r.value != 0 ==> UniqueAt(input, 4, r.value - 4)
    ensures r.Ok? && r.value != 0 ==> forall i :: 0 <= i < r.value - 4 ==> !UniqueAt(input, 4, i)
    ensures r.Fail? <==> |input| > 0 && forall i :: 0 <= i < |input| - 3 ==> !UniqueAt(input, 4, i)
    ensures r.Ok? && r.value == 0 ==> |input| == 0
    ensures (exists i :: 0 <= i < |input| - 3 && UniqueAt(input, 4, i)) ==> r.Ok? && r.value != 0
  {
    r := FindStart(input, 4);
    if FirstUnique(input, 4, |input| - 4 + 1).Some? {
      FoundMarker(input, 4);
    }
  }

  /** Part two: the first window of 14. */
  method SolvePartTwo(input: string) returns (r: Result<int>)
    ensures r.Ok? && r.value != 0 ==> UniqueAt(input, 14, r.value - 14)
    ensures r.Ok? && r.value != 0 ==> forall i :: 0 <= i < r.value - 14 ==> !UniqueAt(input, 14, i)
    ensures r.Fail? <==> |input| > 0 && forall i :: 0 <= i < |input| - 13 ==> !UniqueAt(input, 14, i)
    ensures r.Ok? && r.value == 0 ==> |input| == 0
    ensures (exists i :: 0 <= i < |input| - 13 && UniqueAt(input, 14, i)) ==> r.Ok? && r.value != 0
  {
    r := FindStart(input, 14);
    if FirstUnique(input, 14, |input| - 14 + 1).Some? {
      FoundMarker(input, 14);
    }
  }
}
