/** The string operations of .NET that the puzzles rely on: Split, Join,
    int.Parse, ToString, Replace, Trim, StartsWith, IndexOf. Strings are
    sequences of characters. */
module Strings {
  import opened Wrappers

  // ---------------------------------------------------------------------------
  // Split and Join
  // ---------------------------------------------------------------------------

  /** String.Split(separator): the pieces between non-overlapping occurrences
      of `sep`, found left to right; empty pieces are kept. */
  function SplitOn(s: string, sep: string): (r: seq<string>)
    requires sep != []
    ensures |r| >= 1
    decreases |s|
  {
    if |s| < |sep| then [s]
    else if s[..|sep|] == sep then [[]] + SplitOn(s[|sep|..], sep)
    else
      var rest := SplitOn(s[1..], sep);
      [[s[0]] + rest[0]] + rest[1..]
  }

  /** String.Split(char). */
  function Split(s: string, c: char): (r: seq<string>)
    ensures |r| >= 1
  {
    SplitOn(s, [c])
  }

  /** String.Join(sep, pieces). */
  function Join(pieces: seq<string>, sep: string): string
  {
    if pieces == [] then []
    else if |pieces| == 1 then pieces[0]
    else pieces[0] + sep + Join(pieces[1..], sep)
  }

  lemma JoinConsHead(c: char, pieces: seq<string>, sep: string)
    requires pieces != []
    ensures Join([[c] + pieces[0]] + pieces[1..], sep) == [c] + Join(pieces, sep)
  {
    var p := [[c] + pieces[0]] + pieces[1..];
    assert p[1..] == pieces[1..];
  }

  /** Joining the pieces with the separator gives back the input. */
  lemma {:induction false} JoinSplitOn(s: string, sep: string)
    requires sep != []
    ensures Join(SplitOn(s, sep), sep) == s
    decreases |s|
  {
    if |s| < |sep| {
    } else if s[..|sep|] == sep {
      var rest := SplitOn(s[|sep|..], sep);
      assert SplitOn(s, sep) == [[]] + rest;
      JoinSplitOn(s[|sep|..], sep);
      assert ([[]] + rest)[1..] == rest;
      assert Join([[]] + rest, sep) == sep + Join(rest, sep);
      assert s == sep + s[|sep|..];
    } else {
      var rest := SplitOn(s[1..], sep);
      assert SplitOn(s, sep) == [[s[0]] + rest[0]] + rest[1..];
      JoinSplitOn(s[1..], sep);
      JoinConsHead(s[0], rest, sep);
      assert s == [s[0]] + s[1..];
    }
  }

  /** Number of occurrences of `c` in `s`. */
  function CountChar(s: string, c: char): nat
  {
    if s == [] then 0 else (if s[0] == c then 1 else 0) + CountChar(s[1..], c)
  }

  /** No piece of a split on `c` contains `c`, and there is one piece more than
      there are occurrences of `c`. */
  lemma {:induction false} SplitProperties(s: string, c: char)
    ensures forall i :: 0 <= i < |Split(s, c)| ==> c !in Split(s, c)[i]
    ensures |Split(s, c)| == CountChar(s, c) + 1
    decreases |s|
  {
    if |s| >= 1 {
      SplitProperties(s[1..], c);
      var rest := Split(s[1..], c);
      if s[..1] == [c] {
        assert s[0] == c;
        assert s[1..] == s[|[c]|..];
        assert Split(s, c) == [[]] + rest;
      } else {
        assert s[0] != c;
        assert Split(s, c) == [[s[0]] + rest[0]] + rest[1..];
      }
    }
  }

  /** A piece without the separator stays glued to the first piece of the
      split of what follows it. */
  lemma {:induction false} SplitPrefix(p: string, s: string, c: char)
    requires c !in p
    ensures Split(p + s, c) == [p + Split(s, c)[0]] + Split(s, c)[1..]
    decreases |p|
  {
    if p != [] {
      var t := p[1..] + s;
      SplitPrefix(p[1..], s, c);
      assert p + s == [p[0]] + t;
      assert (p + s)[..1] == [p[0]] != [c];
      assert (p + s)[1..] == t;
      assert Split(p + s, c) == [[p[0]] + Split(t, c)[0]] + Split(t, c)[1..];
      assert [p[0]] + (p[1..] + Split(s, c)[0]) == p + Split(s, c)[0];
    } else {
      assert p + s == s;
      assert p + Split(s, c)[0] == Split(s, c)[0];
      assert Split(s, c) == [Split(s, c)[0]] + Split(s, c)[1..];
    }
  }

  /** Splitting pieces joined on `c` gives the pieces back, when none of
      them contains `c`. */
  lemma {:induction false} SplitJoin(pieces: seq<string>, c: char)
    requires pieces != [] && forall i :: 0 <= i < |pieces| ==> c !in pieces[i]
    ensures Split(Join(pieces, [c]), c) == pieces
    decreases |pieces|
  {
    if |pieces| == 1 {
      SplitPrefix(pieces[0], [], c);
      assert pieces[0] + [] == pieces[0];
    } else {
      var rest := Join(pieces[1..], [c]);
      SplitJoin(pieces[1..], c);
      var s := [c] + rest;
      assert s[..1] == [c] && s[1..] == rest;
      assert Split(s, c) == [[]] + pieces[1..];
      SplitPrefix(pieces[0], s, c);
      assert Join(pieces, [c]) == pieces[0] + s;
      assert pieces[0] + [] == pieces[0];
      assert pieces == [pieces[0]] + pieces[1..];
    }
  }

  // ---------------------------------------------------------------------------
  // Digits and integers
  // ---------------------------------------------------------------------------

  /** char.IsDigit, restricted to ASCII digits. */
  predicate IsDigit(c: char)
  {
    '0' <= c <= '9'
  }

  function DigitValue(c: char): (d: nat)
    requires IsDigit(c)
    ensures d <= 9
  {
    c as int - '0' as int
  }

  function DigitChar(d: nat): (c: char)
    requires d <= 9
    ensures IsDigit(c) && DigitValue(c) == d
  {
    ('0' as int + d) as char
  }

  predicate AllDigits(s: string)
  {
    forall i :: 0 <= i < |s| ==> IsDigit(s[i])
  }

  /** The value of a run of decimal digits, most significant first. */
  function DigitsValue(s: string): nat
    requires AllDigits(s)
  {
    if s == [] then 0 else 10 * DigitsValue(s[..|s| - 1]) + DigitValue(s[|s| - 1])
  }

  /** int.Parse: an optional '-' followed by one or more digits; anything else
      is a FormatException, modelled as None. */
  function ParseInt(s: string): (r: Option<int>)
    ensures r.Some? <==> (|s| > 0 && AllDigits(s)) || (|s| > 1 && s[0] == '-' && AllDigits(s[1..]))
  {
    if |s| > 0 && AllDigits(s) then Some(DigitsValue(s))
    else if |s| > 1 && s[0] == '-' && AllDigits(s[1..]) then Some(-(DigitsValue(s[1..]) as int))
    else None
  }

  /** int.Parse: out of the 32-bit range is an OverflowException (None). */
  function ParseInt32(s: string): (r: Option<int>)
    ensures r.Some? <==> ParseInt(s).Some? && -0x8000_0000 <= ParseInt(s).value < 0x8000_0000
    ensures r.Some? ==> r == ParseInt(s)
  {
    match ParseInt(s)
    case Some(v) => if -0x8000_0000 <= v < 0x8000_0000 then Some(v) else None
    case None => None
  }

  /** Decimal text of a natural number, without leading zeros. */
  function NatToString(n: nat): (s: string)
    ensures |s| > 0 && AllDigits(s)
    ensures DigitsValue(s) == n
    ensures s[0] == '0' ==> n == 0
  {
    if n < 10 then [DigitChar(n)]
    else
      var s := NatToString(n / 10) + [DigitChar(n % 10)];
      assert s[..|s| - 1] == NatToString(n / 10);
      s
  }

  /** int.ToString(). */
  function IntToString(n: int): (s: string)
    ensures ParseInt(s) == Some(n)
  {
    if n >= 0 then NatToString(n)
    else
      var s := "-" + NatToString(-n);
      assert s[1..] == NatToString(-n);
      s
  }

  // ---------------------------------------------------------------------------
  // Searching and rewriting
  // ---------------------------------------------------------------------------

  predicate StartsWith(s: string, prefix: string)
  {
    |prefix| <= |s| && s[..|prefix|] == prefix
  }

  /** String.IndexOf(char): the first position of `c`, or -1. */
  function IndexOf(s: string, c: char): (r: int)
    ensures -1 <= r < |s|
    ensures r == -1 <==> c !in s
    ensures r >= 0 ==> s[r] == c && c !in s[..r]
  {
    if s == [] then -1
    else if s[0] == c then 0
    else
      var k := IndexOf(s[1..], c);
      assert s[1..][..(if k >= 0 then k else 0)] == s[1..(if k >= 0 then k else 0) + 1];
      if k == -1 then -1 else k + 1
  }

  /** String.Replace(pattern, replacement): every non-overlapping occurrence of
      `pattern`, found left to right, becomes `replacement`. */
  function Replace(s: string, pattern: string, replacement: string): (r: string)
    requires pattern != []
    decreases |s|
  {
    if |s| < |pattern| then s
    else if s[..|pattern|] == pattern then replacement + Replace(s[|pattern|..], pattern, replacement)
    else [s[0]] + Replace(s[1..], pattern, replacement)
  }

  /** Removing a single character that does not occur leaves the string unchanged. */
  lemma {:induction false} ReplaceAbsent(s: string, c: char)
    requires c !in s
    ensures Replace(s, [c], "") == s
    decreases |s|
  {
    if |s| >= 1 {
      assert s[0] != c;
      assert s[..1] != [c];
      assert c !in s[1..];
      ReplaceAbsent(s[1..], c);
      assert s == [s[0]] + s[1..];
    }
  }

  /** The characters String.Trim() and string.IsNullOrWhiteSpace treat as
      white space (the ASCII ones). */
  function Whitespace(): set<char>
  {
    {' ', '\t', '\n', '\r', '\U{000B}', '\U{000C}'}
  }

  /** String.Trim(chars): leading and trailing characters from `chars` removed. */
  function Trim(s: string, chars: set<char>): (r: string)
    ensures |r| <= |s|
    ensures r != [] ==> r[0] !in chars && r[|r| - 1] !in chars
    decreases |s|
  {
    if s == [] then s
    else if s[0] in chars then Trim(s[1..], chars)
    else if s[|s| - 1] in chars then Trim(s[..|s| - 1], chars)
    else s
  }

  /** Trim keeps a contiguous part of the string and drops only characters of
      `chars` around it. */
  lemma TrimInfix(s: string, chars: set<char>)
    ensures exists a, b :: (0 <= a <= b <= |s| && Trim(s, chars) == s[a..b] &&
      (forall i :: 0 <= i < a ==> s[i] in chars) && (forall i :: b <= i < |s| ==> s[i] in chars))
  {
    var a, b := TrimBounds(s, chars);
  }

  /** The bounds of the part that Trim keeps. */
  lemma {:induction false} TrimBounds(s: string, chars: set<char>) returns (a: nat, b: nat)
    ensures a <= b <= |s| && Trim(s, chars) == s[a..b]
    ensures forall i :: 0 <= i < a ==> s[i] in chars
    ensures forall i :: b <= i < |s| ==> s[i] in chars
    decreases |s|
  {
    if s == [] {
      a, b := 0, 0;
    } else if s[0] in chars {
      var t := s[1..];
      var a', b' := TrimBounds(t, chars);
      a, b := a' + 1, b' + 1;
      assert t[a'..b'] == s[a..b];
      forall i | 0 <= i < a ensures s[i] in chars {
        if i > 0 {
          assert s[i] == t[i - 1];
        }
      }
      forall i | b <= i < |s| ensures s[i] in chars {
        assert s[i] == t[i - 1];
      }
    } else if s[|s| - 1] in chars {
      var t := s[..|s| - 1];
      a, b := TrimBounds(t, chars);
      assert t[a..b] == s[a..b];
      forall i | b <= i < |s| ensures s[i] in chars {
        if i < |t| {
          assert s[i] == t[i];
        }
      }
    } else {
      a, b := 0, |s|;
    }
  }

  /** A string that starts and ends outside `chars` is left as it is by Trim. */
  lemma TrimNothing(s: string, chars: set<char>)
    requires s != [] ==> s[0] !in chars && s[|s| - 1] !in chars
    ensures Trim(s, chars) == s
  {
  }
}
