/** Tuning trouble: the end of the first window of `n` distinct characters,
    found by scanning read-only slices of the input. */
module Y2022D06 {
  import opened Wrappers
  import opened Seqs

  /** The window of `n` characters starting at `i` lies in `s` and has no
      repeated character. */
  predicate UniqueAt(s: string, n: nat, i: int)
  {
    0 <= i && i + n <= |s| && Unique(s[i..i + n])
  }

  /** The first start below `limit` of a window without repetitions. */
  function FirstUnique(s: string, n: nat, limit: int): (r: Option<nat>)
    ensures r.Some? ==> r.value < limit && UniqueAt(s, n, r.value)
    ensures r.Some? ==> forall i :: 0 <= i < r.value ==> !UniqueAt(s, n, i)
    ensures r.None? ==> forall i :: 0 <= i < limit ==> !UniqueAt(s, n, i)
    decreases if limit < 0 then 0 else limit
  {
    if limit <= 0 then None
    else
      match FirstUnique(s, n, limit - 1)
      case Some(i) => Some(i)
      case None => if UniqueAt(s, n, limit - 1) then Some(limit - 1) else None
  }

  /** A larger search bound finds the same first window once one is found. */
  lemma {:induction false} FirstUniqueStable(s: string, n: nat, limit: int, limit': int)
    requires limit <= limit' && FirstUnique(s, n, limit).Some?
    ensures FirstUnique(s, n, limit') == FirstUnique(s, n, limit)
    decreases limit' - limit
  {
    if limit < limit' {
      FirstUniqueStable(s, n, limit, limit' - 1);
    }
  }

  /** ReadOnlySpan.LastIndexOf: the last position of `c`, or -1. */
  function LastIndexOf(s: string, c: char): (r: int)
    ensures -1 <= r < |s|
    ensures r == -1 <==> c !in s
    ensures r >= 0 ==> s[r] == c && forall j :: r < j < |s| ==> s[j] != c
  {
    if s == [] then -1
    else if s[|s| - 1] == c then |s| - 1
    else
      assert s == s[..|s| - 1] + [s[|s| - 1]];
      LastIndexOf(s[..|s| - 1], c)
  }

  /** A slice has no repetition exactly when every character's last position
      is its own position. */
  lemma UniqueByLastIndex(w: string)
    ensures Unique(w) <==> forall j :: 0 <= j < |w| ==> LastIndexOf(w, w[j]) == j
  {
    if Unique(w) {
      forall j | 0 <= j < |w| ensures LastIndexOf(w, w[j]) == j {
        var k := LastIndexOf(w, w[j]);
        assert w[k] == w[j];
      }
    }
    if forall j :: 0 <= j < |w| ==> LastIndexOf(w, w[j]) == j {
      forall i, j | 0 <= i < j < |w| ensures w[i] != w[j] {
        assert LastIndexOf(w, w[i]) == i;
      }
    }
  }

  /** The inner loop of the scan: the slice is unique unless some character's
      last position differs from its own. */
  method SliceIsUnique(slice: string) returns (unique: bool)
    ensures unique <==> Unique(slice)
  {
    unique := true;
    var j := 0;
    while j < |slice|
      invariant 0 <= j <= |slice|
      invariant unique <==> forall k :: 0 <= k < j ==> LastIndexOf(slice, slice[k]) == k
    {
      var dupe := LastIndexOf(slice, slice[j]) != j;
      if dupe {
        unique := false;
        break;
      }
      j := j + 1;
    }
    UniqueByLastIndex(slice);
  }

  /** The scan of the source: windows starting at 0, 1, ... up to but
      excluding |input| - n are tested; the result is the end of the first
      unique one, or 0 when none of them is unique. */
  method FindStart(input: string, n: nat) returns (startsAt: int)
    ensures startsAt == match FirstUnique(input, n, |input| - n)
      case Some(i) => i + n
      case None => 0
    ensures startsAt != 0 ==> n <= startsAt < |input|
  {
    startsAt := 0;
    var i := 0;
    while i < |input| - n
      invariant 0 <= i && (|input| - n >= 0 ==> i <= |input| - n)
      invariant FirstUnique(input, n, i).None?
      invariant startsAt == 0
    {
      var unique := SliceIsUnique(input[i..i + n]);
      if unique {
        startsAt := i + n;
        FirstUniqueStable(input, n, i + 1, |input| - n);
        return;
      }
      i := i + 1;
    }
  }

  /** Part one: the first window of 4. */
  method SolvePartOne(input: string) returns (r: int)
    ensures r != 0 ==> 4 <= r < |input| && UniqueAt(input, 4, r - 4)
    ensures r != 0 ==> forall i :: 0 <= i < r - 4 ==> !UniqueAt(input, 4, i)
    ensures r == 0 ==> forall i :: 0 <= i < |input| - 4 ==> !UniqueAt(input, 4, i)
  {
    r := FindStart(input, 4);
  }

  /** Part two: the first window of 14. */
  method SolvePartTwo(input: string) returns (r: int)
    ensures r != 0 ==> 14 <= r < |input| && UniqueAt(input, 14, r - 14)
    ensures r != 0 ==> forall i :: 0 <= i < r - 14 ==> !UniqueAt(input, 14, i)
    ensures r == 0 ==> forall i :: 0 <= i < |input| - 14 ==> !UniqueAt(input, 14, i)
  {
    r := FindStart(input, 14);
  }

  /** The loop bound stops one window short: when only the final window is
      free of repetitions, as in "abcd" with n = 4, the scan reports 0. */
  lemma FinalWindowSkipped()
    ensures UniqueAt("abcd", 4, 0)
    ensures FirstUnique("abcd", 4, |"abcd"| - 4).None?
  {
    assert "abcd"[0..4] == "abcd";
  }

  /** Every unique window starts at most |s| - n, so searching below
      |s| - n + 1 finds one whenever there is one. */
  lemma FirstUniqueComplete(s: string, n: nat)
    ensures FirstUnique(s, n, |s| - n + 1).Some? <==> exists i :: UniqueAt(s, n, i)
  {
    var r := FirstUnique(s, n, |s| - n + 1);
    if r.Some? {
      assert UniqueAt(s, n, r.value);
    }
  }

  /** The scan with the final window included (`i <= |input| - n`): the end
      of the first unique window anywhere in the input, or 0. */
  method FindStartInclusive(input: string, n: nat) returns (startsAt: int)
    ensures startsAt == match FirstUnique(input, n, |input| - n + 1)
      case Some(i) => i + n
      case None => 0
    ensures n >= 1 ==> (startsAt != 0 <==> exists i :: UniqueAt(input, n, i))
  {
    FirstUniqueComplete(input, n);
    startsAt := 0;
    var i := 0;
    while i <= |input| - n
      invariant 0 <= i && (|input| - n + 1 >= 0 ==> i <= |input| - n + 1)
      invariant FirstUnique(input, n, i).None?
    {
      var unique := SliceIsUnique(input[i..i + n]);
      if unique {
        startsAt := i + n;
        FirstUniqueStable(input, n, i + 1, |input| - n + 1);
        return;
      }
      i := i + 1;
    }
  }
}
