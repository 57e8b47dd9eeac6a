/** Supply stacks, second solution: each stack is a string of crate letters
    read bottom to top, and a move cuts the top `cnt` letters off one string
    and appends them, reversed for part one, to another. */
module Y2022D05A1 {
  import opened Wrappers
  import opened Strings
  import opened Seqs
  import InputHelpers
  import Extensions
  import D05 = Y2022D05

  // ---------------------------------------------------------------------------
  // Moves on strings
  // ---------------------------------------------------------------------------

  /** Where a move throws: `to` or `frm` is not a stack, or the slice that
      starts `cnt` letters before the end of `frm` does not exist. */
  predicate Throws(st: seq<string>, cnt: int, frm: int, to: int)
  {
    !(0 <= to < |st|) || !(0 <= frm < |st|) || !(0 <= cnt <= |st[frm]|)
  }

  /** A move as the source writes it: the last `cnt` letters of `frm`
      (reversed when `reversed` holds) are appended to `to`, then the last
      `cnt` letters of the new `frm` are cut off. None where it throws. */
  function SliceMove(st: seq<string>, cnt: int, frm: int, to: int, reversed: bool): (r: Option<seq<string>>)
    ensures r.Some? <==> !Throws(st, cnt, frm, to)
    ensures r.Some? ==> |r.value| == |st|
  {
    if Throws(st, cnt, frm, to) then None
    else
      var piece := st[frm][|st[frm]| - cnt..];
      var s1 := st[to := st[to] + (if reversed then Reverse(piece) else piece)];
      Some(s1[frm := s1[frm][..|s1[frm]| - cnt]])
  }

  /** On every move that does not throw, the string crane and the stack
      crane of the first solution leave the same stacks: part one with
      part one, part two with part two. */
  lemma SliceMoveAgrees(st: seq<string>, cnt: int, frm: int, to: int)
    requires !Throws(st, cnt, frm, to)
    ensures SliceMove(st, cnt, frm, to, true) == D05.CrateByCrate(st, cnt, frm, to)
    ensures SliceMove(st, cnt, frm, to, false) == D05.BlockMove(st, cnt, frm, to)
  {
    if cnt == 0 {
      EmptyMove(st, frm, to, true);
      EmptyMove(st, frm, to, false);
    } else if frm == to {
      MoveOntoItself(st, cnt, frm, true);
      MoveOntoItself(st, cnt, frm, false);
      D05.MoveCratesOntoItself(st, cnt, frm);
      D05.MoveBlockConserves(st, cnt, frm, to);
    } else {
      ReversedMoveAgrees(st, cnt, frm, to);
      BlockMoveAgrees(st, cnt, frm, to);
    }
  }

  lemma EmptyMove(st: seq<string>, frm: int, to: int, reversed: bool)
    requires !Throws(st, 0, frm, to)
    ensures SliceMove(st, 0, frm, to, reversed) == Some(st)
  {
    var piece := st[frm][|st[frm]| - 0..];
    var added := if reversed then Reverse(piece) else piece;
    assert piece == [] && added == [];
    assert st[to] + added == st[to];
    var s1 := st[to := st[to] + added];
    assert s1 == st;
    assert s1[frm][..|s1[frm]| - 0] == st[frm];
    assert s1[frm := s1[frm][..|s1[frm]| - 0]] == st;
  }

  lemma MoveOntoItself(st: seq<string>, cnt: int, f: int, reversed: bool)
    requires !Throws(st, cnt, f, f)
    ensures SliceMove(st, cnt, f, f, reversed) == Some(st)
  {
    var h := |st[f]|;
    var piece := st[f][h - cnt..];
    var added := if reversed then Reverse(piece) else piece;
    var s1 := st[f := st[f] + added];
    assert s1[f][..|s1[f]| - cnt] == st[f];
    assert s1[f := s1[f][..|s1[f]| - cnt]] == st;
  }

  lemma ReversedMoveAgrees(st: seq<string>, cnt: int, frm: int, to: int)
    requires !Throws(st, cnt, frm, to) && cnt > 0 && frm != to
    ensures SliceMove(st, cnt, frm, to, true) == Some(D05.MoveCrates(st, cnt, frm, to))
  {
    var h := |st[frm]|;
    var piece := st[frm][h - cnt..];
    assert D05.Taken(cnt, h) == cnt;
    D05.MoveCratesReversed(st, cnt, frm, to);
    var a := D05.MoveCrates(st, cnt, frm, to);
    var b := st[to := st[to] + Reverse(piece)][frm := st[frm][..h - cnt]];
    assert SliceMove(st, cnt, frm, to, true).value == b;
    forall i | 0 <= i < |st| ensures a[i] == b[i] {
    }
    assert a == b;
  }

  lemma BlockMoveAgrees(st: seq<string>, cnt: int, frm: int, to: int)
    requires !Throws(st, cnt, frm, to) && cnt > 0 && frm != to
    ensures SliceMove(st, cnt, frm, to, false) == Some(D05.MoveBlock(st, cnt, frm, to))
  {
    var h := |st[frm]|;
    var piece := st[frm][h - cnt..];
    assert D05.Taken(cnt, h) == cnt;
    var b := st[to := st[to] + piece][frm := st[frm][..h - cnt]];
    assert SliceMove(st, cnt, frm, to, false).value == b;
    assert D05.MoveBlock(st, cnt, frm, to) == b;
  }

  /** A move of more crates than the stack holds throws here, while the
      first solution skips the missing pops. */
  lemma OverlongMoveOnlyThrowsHere(st: seq<string>, cnt: int, frm: int, to: int)
    requires 0 <= frm < |st| && 0 <= to < |st| && cnt > |st[frm]|
    ensures SliceMove(st, cnt, frm, to, true).None? && SliceMove(st, cnt, frm, to, false).None?
    ensures D05.CrateByCrate(st, cnt, frm, to).Some? && D05.BlockMove(st, cnt, frm, to).Some?
  {
  }

  /** A move keeps the total number of letters. */
  lemma SliceMoveConserves(st: seq<string>, cnt: int, frm: int, to: int, reversed: bool)
    requires !Throws(st, cnt, frm, to)
    ensures D05.Total(SliceMove(st, cnt, frm, to, reversed).value) == D05.Total(st)
  {
    var piece := st[frm][|st[frm]| - cnt..];
    var added := if reversed then Reverse(piece) else piece;
    var s1 := st[to := st[to] + added];
    D05.TotalUpdate(st, to, st[to] + added);
    D05.TotalUpdate(s1, frm, s1[frm][..|s1[frm]| - cnt]);
  }

  /** The body of the move loop on the list of strings. */
  method MoveLetters(stacks: array<string>, cnt: int, frm: int, to: int, reversed: bool) returns (ok: bool)
    modifies stacks
    ensures ok <==> SliceMove(old(stacks[..]), cnt, frm, to, reversed).Some?
    ensures ok ==> SliceMove(old(stacks[..]), cnt, frm, to, reversed) == Some(stacks[..])
  {
    if !(0 <= to < stacks.Length) || !(0 <= frm < stacks.Length) || !(0 <= cnt <= |stacks[frm]|) {
      return false;
    }
    var piece := stacks[frm][|stacks[frm]| - cnt..];
    stacks[to] := stacks[to] + (if reversed then Reverse(piece) else piece);
    stacks[frm] := stacks[frm][..|stacks[frm]| - cnt];
    return true;
  }

  /** The moves one after the other; None once a move throws. */
  function RunMoves(st: seq<string>, moves: seq<D05.Move>, reversed: bool): Option<seq<string>>
    decreases |moves|
  {
    if moves == [] then Some(st)
    else
      match SliceMove(st, moves[0].count, moves[0].from, moves[0].to, reversed)
      case None => None
      case Some(next) => RunMoves(next, moves[1..], reversed)
  }

  /** Where the string crane does not throw, a whole run agrees with the
      stack crane of the first solution. */
  lemma {:induction false} RunMovesAgree(st: seq<string>, moves: seq<D05.Move>, reversed: bool)
    ensures RunMoves(st, moves, reversed).Some? ==> RunMoves(st, moves, reversed) == D05.RunMoves(st, moves, !reversed)
    decreases |moves|
  {
    if moves != [] {
      var m := moves[0];
      if !Throws(st, m.count, m.from, m.to) {
        SliceMoveAgrees(st, m.count, m.from, m.to);
        RunMovesAgree(SliceMove(st, m.count, m.from, m.to, reversed).value, moves[1..], reversed);
      }
    }
  }

  method ApplyMoves(stacks: array<string>, moves: seq<D05.Move>, reversed: bool) returns (ok: bool)
    modifies stacks
    ensures ok <==> RunMoves(old(stacks[..]), moves, reversed).Some?
    ensures ok ==> RunMoves(old(stacks[..]), moves, reversed) == Some(stacks[..])
  {
    for i := 0 to |moves|
      invariant RunMoves(old(stacks[..]), moves, reversed) == RunMoves(stacks[..], moves[i..], reversed)
    {
      var m := moves[i];
      assert moves[i..][1..] == moves[i + 1..];
      var moved := MoveLetters(stacks, m.count, m.from, m.to, reversed);
      if !moved {
        return false;
      }
    }
    return true;
  }

  // ---------------------------------------------------------------------------
  // Parsing
  // ---------------------------------------------------------------------------

  /** The stack count: the position of the first newline divided by four
      (division truncating toward zero, so no newline gives 0), plus one. */
  function StackCount(input: string): (r: nat)
    ensures r >= 1
  {
    var i := IndexOf(input, '\n');
    if i < 0 then 1 else i / 4 + 1
  }

  /** The letter positions of a drawing row: every fourth character starting
      from the second. */
  function RowLetters(line: string): (r: string)
    ensures forall m :: 0 <= m < |r| ==> 1 + 4 * m < |line| && r[m] == line[1 + 4 * m]
    ensures 1 + 4 * |r| >= |line|
  {
    seq((|line| + 2) / 4, m requires 0 <= m < (|line| + 2) / 4 => line[1 + 4 * m])
  }

  /** The letter positions of all rows but the numbers row, top row first. */
  function DrawingLetters(input: string): string
  {
    var lines := InputHelpers.AsLines(SplitOn(input, "\n\n")[0]);
    Flatten(seq(|lines| - 1, i requires 0 <= i < |lines| - 1 => RowLetters(lines[i])))
  }

  /** The letters whose position is `k` modulo `count`, in order. */
  function Group(letters: string, count: nat, k: nat): string
    requires count > 0
  {
    if letters == [] then []
    else
      var n := |letters| - 1;
      Group(letters[..n], count, k) + (if n % count == k then [letters[n]] else [])
  }

  /** The characters other than ' ', in order. */
  function NonSpace(s: string): (r: string)
    ensures ' ' !in r && |r| <= |s|
  {
    if s == [] then [] else (if s[0] == ' ' then [] else [s[0]]) + NonSpace(s[1..])
  }

  /** The first letter kept by NonSpace is the first non-space character. */
  lemma {:induction false} NonSpaceFirst(s: string, i: nat)
    requires i < |s| && s[i] != ' ' && forall j :: 0 <= j < i ==> s[j] == ' '
    ensures NonSpace(s) != [] && NonSpace(s)[0] == s[i]
  {
    if i > 0 {
      assert forall j :: 0 <= j < i - 1 ==> s[1..][j] == s[j + 1];
      NonSpaceFirst(s[1..], i - 1);
    }
  }

  /** NonSpace of nothing but spaces is empty. */
  lemma {:induction false} NonSpaceOfSpaces(s: string)
    requires forall j :: 0 <= j < |s| ==> s[j] == ' '
    ensures NonSpace(s) == []
  {
    if s != [] {
      NonSpaceOfSpaces(s[1..]);
    }
  }

  /** The keys GroupBy produces, in order of first appearance: one group per
      key that occurs, so fewer than `count` when there are fewer letters. */
  function Stacks(letters: string, count: nat): (r: seq<string>)
    requires count > 0
    ensures |r| == if |letters| < count then |letters| else count
  {
    var groups := if |letters| < count then |letters| else count;
    seq(groups, k requires 0 <= k < groups => Reverse(NonSpace(Group(letters, count, k))))
  }

  /** The top of stack `k` is its last letter: the first non-space letter
      of its group, which is the highest crate drawn over that stack; a
      group of spaces gives an empty stack. */
  lemma StackTop(letters: string, count: nat, k: nat, i: nat)
    requires count > 0 && k < |Stacks(letters, count)|
    requires var g := Group(letters, count, k);
      i < |g| && g[i] != ' ' && forall j :: 0 <= j < i ==> g[j] == ' '
    ensures var s := Stacks(letters, count)[k];
      s != [] && s[|s| - 1] == Group(letters, count, k)[i]
  {
    NonSpaceFirst(Group(letters, count, k), i);
  }

  lemma StackOfSpaces(letters: string, count: nat, k: nat)
    requires count > 0 && k < |Stacks(letters, count)|
    requires forall j :: 0 <= j < |Group(letters, count, k)| ==> Group(letters, count, k)[j] == ' '
    ensures Stacks(letters, count)[k] == []
  {
    NonSpaceOfSpaces(Group(letters, count, k));
  }

  /** A move line: the odd-position words, then numbers from the first three,
      with the stack numbers made 0-based. */
  function ParseMove(line: string): (r: Option<D05.Move>)
  {
    var words := Split(line, ' ');
    var arr := seq(|words| / 2, i requires 0 <= i < |words| / 2 => words[2 * i + 1]);
    if |arr| < 3 then None
    else
      match (ParseInt(arr[0]), ParseInt(arr[1]), ParseInt(arr[2]))
      case (Some(n), Some(a), Some(b)) => Some(D05.Move(n, a - 1, b - 1))
      case _ => None
  }

  /** Taking the odd words reads the same words as the first solution's
      fixed positions 1, 3 and 5. */
  lemma ParseMoveAgrees(line: string)
    ensures ParseMove(line) == D05.ParseMove(line)
  {
  }

  function ParseMoves(input: string): Option<seq<D05.Move>>
  {
    var sections := SplitOn(input, "\n\n");
    if |sections| < 2 then None
    else Extensions.ParseAs(InputHelpers.AsLines(sections[1]), ParseMove)
  }

  /** The answer: the last letter of every stack; None where Last meets an
      empty string. */
  function Tops(st: seq<string>): (r: Option<string>)
    ensures r.Some? <==> forall i :: 0 <= i < |st| ==> st[i] != []
    ensures r.Some? ==> |r.value| == |st| && forall i :: 0 <= i < |st| ==> r.value[i] == st[i][|st[i]| - 1]
  {
    if st == [] then Some("")
    else if st[0] == [] then None
    else
      match Tops(st[1..])
      case None => None
      case Some(rest) => Some([st[0][|st[0]| - 1]] + rest)
  }

  function Solve(input: string, reversed: bool): Option<string>
  {
    match ParseMoves(input)
    case None => None
    case Some(moves) =>
      match RunMoves(Stacks(DrawingLetters(input), StackCount(input)), moves, reversed)
      case None => None
      case Some(final) => Tops(final)
  }

  method SolveWith(input: string, reversed: bool) returns (r: Option<string>)
    ensures r == Solve(input, reversed)
  {
    var start := Stacks(DrawingLetters(input), StackCount(input));
    var stacks := new string[|start|](i requires 0 <= i < |start| => start[i]);
    assert stacks[..] == start;
    var moves := ParseMoves(input);
    if moves.None? {
      return None;
    }
    var ok := ApplyMoves(stacks, moves.value, reversed);
    if !ok {
      return None;
    }
    r := Tops(stacks[..]);
  }

  /** Part one: the moved letters are reversed. */
  method SolvePartOne(input: string) returns (r: Option<string>)
    ensures r == Solve(input, true)
  {
    r := SolveWith(input, true);
  }

  /** Part two: the moved letters keep their order. */
  method SolvePartTwo(input: string) returns (r: Option<string>)
    ensures r == Solve(input, false)
  {
    r := SolveWith(input, false);
  }
}
