/** Trebuchet calibration: the first and last digit of each line, in part
    two also digits spelled out as words. */
module Y2023D01 {
  import opened Wrappers
  import opened Seqs
  import opened Strings
  import InputHelpers

  /** The digit characters of a line, in order. */
  function DigitChars(line: string): (r: string)
    ensures forall i :: 0 <= i < |r| ==> IsDigit(r[i])
    ensures forall c :: c in r <==> c in line && IsDigit(c)
  {
    if line == [] then []
    else DigitChars(line[..|line| - 1]) + (if IsDigit(line[|line| - 1]) then [line[|line| - 1]] else [])
  }

  /** int.Parse of the first and last digit characters put together; None
      when the line has no digit (First throws). */
  function CharsValue(line: string): (r: Option<int>)
    ensures r.None? <==> !HasDigit(line)
    ensures r.Some? ==> r.value == 10 * DigitValue(DigitChars(line)[0]) + DigitValue(DigitChars(line)[|DigitChars(line)| - 1])
  {
    var digits := DigitChars(line);
    if digits == [] then
      assert forall i :: 0 <= i < |line| ==> line[i] in line;
      None
    else
      var text := [digits[0], digits[|digits| - 1]];
      TwoDigits(digits[0], digits[|digits| - 1]);
      ParseInt(text)
  }

  /** A two-digit text parses to ten times the first digit plus the second. */
  lemma TwoDigits(a: char, b: char)
    requires IsDigit(a) && IsDigit(b)
    ensures ParseInt([a, b]) == Some(10 * DigitValue(a) + DigitValue(b))
  {
    var t := [a, b];
    assert AllDigits(t);
    assert t[..1] == [a];
    assert [a][..0] == [];
    assert DigitsValue([a]) == DigitValue(a);
    assert DigitsValue(t) == 10 * DigitsValue([a]) + DigitValue(b);
    assert ParseInt(t) == Some(DigitsValue(t));
  }

  predicate HasDigit(line: string)
  {
    exists k :: 0 <= k < |line| && IsDigit(line[k])
  }

  /** A line with a digit has a first and a last digit character. */
  lemma HasDigitChars(line: string)
    requires HasDigit(line)
    ensures DigitChars(line) != []
  {
    var k :| 0 <= k < |line| && IsDigit(line[k]);
    assert line[k] in DigitChars(line);
  }

  /** The calibration value of a line: its first digit, then its last. */
  function Calibration(line: string): (r: int)
    requires HasDigit(line)
  {
    HasDigitChars(line);
    10 * DigitValue(DigitChars(line)[0]) + DigitValue(DigitChars(line)[|DigitChars(line)| - 1])
  }

  /** Each line's value as part one reads it. */
  function CharsValues(lines: seq<string>): (r: seq<Option<int>>)
    ensures |r| == |lines| && forall i :: 0 <= i < |lines| ==> r[i] == CharsValue(lines[i])
  {
    seq(|lines|, i requires 0 <= i < |lines| => CharsValue(lines[i]))
  }

  /** The calibration value of every line. */
  function Calibrations(lines: seq<string>): seq<int>
    requires forall i :: 0 <= i < |lines| ==> HasDigit(lines[i])
  {
    seq(|lines|, i requires 0 <= i < |lines| && HasDigit(lines[i]) => Calibration(lines[i]))
  }

  /** Part one: every line's two-digit value, summed. */
  function SolvePartOne(input: string): (r: Option<int>)
    ensures r.Some? <==> forall i :: 0 <= i < |InputHelpers.AsLines(input)| ==> HasDigit(InputHelpers.AsLines(input)[i])
    ensures r.Some? ==> r.value == Sum(Calibrations(InputHelpers.AsLines(input)))
  {
    CalibrationsSum(InputHelpers.AsLines(input));
    SumPresent(CharsValues(InputHelpers.AsLines(input)))
  }

  /** Part one's sum exists exactly when every line has a digit, and is then
      the sum of the calibration values. */
  lemma CalibrationsSum(lines: seq<string>)
    ensures SumPresent(CharsValues(lines)).Some? <==> forall i :: 0 <= i < |lines| ==> HasDigit(lines[i])
    ensures SumPresent(CharsValues(lines)).Some? ==> SumPresent(CharsValues(lines)).value == Sum(Calibrations(lines))
  {
    if forall i :: 0 <= i < |lines| ==> HasDigit(lines[i]) {
      assert Values(CharsValues(lines)) == Calibrations(lines);
    }
  }

  // ---------------------------------------------------------------------------
  // Part two
  // ---------------------------------------------------------------------------

  /** The switch on the spelled-out digits; 0 for any other text. */
  function WordValue(text: string): (r: nat)
    ensures r <= 9
    ensures r > 0 <==> text in {"one", "two", "three", "four", "five", "six", "seven", "eight", "nine"}
  {
    match text
    case "one" => 1
    case "two" => 2
    case "three" => 3
    case "four" => 4
    case "five" => 5
    case "six" => 6
    case "seven" => 7
    case "eight" => 8
    case "nine" => 9
    case _ => 0
  }

  /** The position of the first digit of `s`, or its length. */
  function DigitFree(s: string): (r: nat)
    ensures r <= |s| && (r < |s| ==> IsDigit(s[r]))
    ensures forall j :: 0 <= j < r ==> !IsDigit(s[j])
  {
    if s == [] then 0
    else if IsDigit(s[0]) then 0
    else
      var r := DigitFree(s[1..]) + 1;
      assert forall j :: 1 <= j < r ==> s[j] == s[1..][j - 1];
      r
  }

  /** The values of the words that the prefixes of `s` of length 1 .. j spell,
      shortest first. */
  function WordsUpTo(s: string, j: nat): (r: seq<nat>)
    requires j <= |s|
    ensures forall k :: 0 <= k < |r| ==> 1 <= r[k] <= 9
  {
    if j == 0 then []
    else WordsUpTo(s, j - 1) + (if WordValue(s[..j]) > 0 then [WordValue(s[..j])] else [])
  }

  /** The words starting at the front of `s`, found before the first digit. */
  function WordsAt(s: string): seq<nat>
  {
    WordsUpTo(s, DigitFree(s))
  }

  /** The numbers of a line from position `i` on: a digit gives its value, any
      other position the words starting there. */
  function NumbersFrom(line: string, i: nat): (r: seq<nat>)
    requires i <= |line|
    ensures forall k :: 0 <= k < |r| ==> r[k] <= 9
    decreases |line| - i
  {
    if i == |line| then []
    else
      var here := if IsDigit(line[i]) then [DigitValue(line[i])] else WordsAt(line[i..]);
      here + NumbersFrom(line, i + 1)
  }

  function Numbers(line: string): seq<nat>
  {
    NumbersFrom(line, 0)
  }

  /** The inner loop of the source: grows a prefix of `s` until a digit and
      collects the words it spells. */
  method ScanWords(s: string) returns (found: seq<nat>)
    ensures found == WordsAt(s)
  {
    found := [];
    var j := 0;
    while j < |s|
      invariant 0 <= j <= DigitFree(s)
      invariant found == WordsUpTo(s, j)
    {
      if IsDigit(s[j]) {
        break;
      }
      var testString := s[..j + 1];
      var digit := WordValue(testString);
      if digit > 0 {
        found := found + [digit];
      }
      j := j + 1;
    }
  }

  /** GetNumbersFromLine: one scan per position, in order. */
  method GetNumbersFromLine(line: string) returns (digits: seq<nat>)
    ensures digits == Numbers(line)
  {
    digits := [];
    for i := 0 to |line|
      invariant digits + NumbersFrom(line, i) == Numbers(line)
    {
      var c := line[i];
      ghost var rest := NumbersFrom(line, i + 1);
      if IsDigit(c) {
        assert NumbersFrom(line, i) == [DigitValue(c)] + rest;
        assert digits + ([DigitValue(c)] + rest) == (digits + [DigitValue(c)]) + rest;
        digits := digits + [DigitValue(c)];
        continue;
      }
      var found := ScanWords(line[i..]);
      assert NumbersFrom(line, i) == found + rest;
      assert digits + (found + rest) == (digits + found) + rest;
      digits := digits + found;
    }
  }

  /** A word spelled by the prefix of length `m` is collected by the scan
      of any longer digit-free prefix. */
  lemma {:induction false} WordsUpToContains(s: string, j: nat, m: nat)
    requires 1 <= m <= j <= |s|
    requires WordValue(s[..m]) > 0
    ensures WordValue(s[..m]) in WordsUpTo(s, j)
  {
    if j > m {
      WordsUpToContains(s, j - 1, m);
    }
  }

  /** The words starting at position `i` are among the numbers read from any
      earlier position. */
  lemma {:induction false} NumbersFromContains(line: string, k: nat, i: nat, x: nat)
    requires k <= i < |line|
    requires !IsDigit(line[i]) && x in WordsAt(line[i..])
    ensures x in NumbersFrom(line, k)
    decreases i - k
  {
    if k < i {
      NumbersFromContains(line, k + 1, i, x);
    }
  }

  /** Every spelled-out digit is read wherever it starts, also when it
      overlaps another word (as in "twone"), as long as no digit character
      interrupts it. */
  lemma EveryWordCounts(line: string, i: nat, m: nat)
    requires i < |line| && 1 <= m <= |line| - i
    requires forall k :: i <= k < i + m ==> !IsDigit(line[k])
    requires WordValue(line[i..i + m]) > 0
    ensures WordValue(line[i..i + m]) in Numbers(line)
  {
    var s := line[i..];
    assert s[..m] == line[i..i + m];
    assert DigitFree(s) >= m by {
      assert forall k :: 0 <= k < m ==> s[k] == line[i + k];
    }
    WordsUpToContains(s, DigitFree(s), m);
    NumbersFromContains(line, 0, i, WordValue(line[i..i + m]));
  }

  lemma {:induction false} WordsNone(s: string, j: nat)
    requires j <= |s|
    requires forall k :: 1 <= k <= j ==> WordValue(s[..k]) == 0
    ensures WordsUpTo(s, j) == []
  {
    if j > 0 {
      WordsNone(s, j - 1);
    }
  }

  /** The digit values of a line, in order. */
  function DigitValues(line: string): (r: seq<nat>)
  {
    if line == [] then [] else (if IsDigit(line[0]) then [DigitValue(line[0])] else []) + DigitValues(line[1..])
  }

  /** A line in which no word starts anywhere reads just its digits, as in
      part one. */
  lemma {:induction false} NoWordsJustDigits(line: string, i: nat)
    requires i <= |line|
    requires forall a, b :: i <= a < b <= |line| ==> WordValue(line[a..b]) == 0
    ensures NumbersFrom(line, i) == DigitValues(line[i..])
    decreases |line| - i
  {
    if i < |line| {
      NoWordsJustDigits(line, i + 1);
      var s := line[i..];
      if !IsDigit(line[i]) {
        forall k | 1 <= k <= DigitFree(s) ensures WordValue(s[..k]) == 0 {
          assert s[..k] == line[i..i + k];
        }
        WordsNone(s, DigitFree(s));
      }
      assert s[1..] == line[i + 1..];
    }
  }

  /** The value of a line's numbers: ten times the first plus the last; None
      when there are none (First throws). */
  function NumbersValue(numbers: seq<nat>): (r: Option<int>)
    requires forall k :: 0 <= k < |numbers| ==> numbers[k] <= 9
    ensures r.None? <==> numbers == []
    ensures r.Some? ==> r.value == 10 * numbers[0] + numbers[|numbers| - 1]
  {
    if numbers == [] then None
    else
      TwoDigits(DigitChar(numbers[0]), DigitChar(numbers[|numbers| - 1]));
      ParseInt([DigitChar(numbers[0]), DigitChar(numbers[|numbers| - 1])])
  }

  function LineValue(line: string): Option<int>
  {
    NumbersValue(Numbers(line))
  }

  /** Each line's value as part two reads it. */
  function LineValues(lines: seq<string>): (r: seq<Option<int>>)
    ensures |r| == |lines| && forall i :: 0 <= i < |lines| ==> r[i] == LineValue(lines[i])
  {
    seq(|lines|, i requires 0 <= i < |lines| => LineValue(lines[i]))
  }

  /** The calibration value of every line when spelled-out digits count:
      ten times its first number plus its last. */
  function SpelledCalibrations(lines: seq<string>): seq<int>
    requires forall i :: 0 <= i < |lines| ==> Numbers(lines[i]) != []
  {
    seq(|lines|, i requires 0 <= i < |lines| && Numbers(lines[i]) != [] =>
      10 * Numbers(lines[i])[0] + Numbers(lines[i])[|Numbers(lines[i])| - 1])
  }

  /** Part two: every line's value with spelled-out digits, summed. */
  function SolvePartTwo(input: string): (r: Option<int>)
    ensures r.Some? <==> forall i :: 0 <= i < |InputHelpers.AsLines(input)| ==> Numbers(InputHelpers.AsLines(input)[i]) != []
    ensures r.Some? ==> r.value == Sum(SpelledCalibrations(InputHelpers.AsLines(input)))
  {
    SpelledCalibrationsSum(InputHelpers.AsLines(input));
    SumPresent(LineValues(InputHelpers.AsLines(input)))
  }

  /** Part two's sum exists exactly when every line has a number, and is
      then the sum of the spelled-out calibration values. */
  lemma SpelledCalibrationsSum(lines: seq<string>)
    ensures SumPresent(LineValues(lines)).Some? <==> forall i :: 0 <= i < |lines| ==> Numbers(lines[i]) != []
    ensures SumPresent(LineValues(lines)).Some? ==> SumPresent(LineValues(lines)).value == Sum(SpelledCalibrations(lines))
  {
    if forall i :: 0 <= i < |lines| ==> Numbers(lines[i]) != [] {
      assert Values(LineValues(lines)) == SpelledCalibrations(lines);
    }
  }
}
