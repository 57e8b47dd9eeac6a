/** Supply stacks: crates on numbered stacks are rearranged by a crane. Part
    one moves crates one at a time, part two moves a block at once; the
    answer is the top crate of every stack. A stack is a sequence of crates
    read bottom to top, so its top is its last element. */
module Y2022D05 {
  import opened Wrappers
  import opened Strings
  import opened Seqs
  import InputHelpers
  import Extensions

  // ---------------------------------------------------------------------------
  // Stacks and moves
  // ---------------------------------------------------------------------------

  function Last<T>(s: seq<T>): T
    requires s != []
  {
    s[|s| - 1]
  }

  /** The number of crates on all stacks. */
  function Total<T>(st: seq<seq<T>>): nat
  {
    if st == [] then 0 else |st[0]| + Total(st[1..])
  }

  /** Replacing one stack changes the total by the difference in height. */
  lemma {:induction false} TotalUpdate<T>(st: seq<seq<T>>, i: nat, x: seq<T>)
    requires i < |st|
    ensures Total(st[i := x]) == Total(st) - |st[i]| + |x|
  {
    if i == 0 {
      assert st[i := x][1..] == st[1..];
    } else {
      assert st[i := x][1..] == st[1..][i - 1 := x];
      TotalUpdate(st[1..], i - 1, x);
    }
  }

  /** How many crates a move of `n` takes from a stack of height `height`:
      a pop from an empty stack is skipped, and a non-positive count runs
      no round. */
  function Taken(n: int, height: nat): (k: nat)
    ensures k <= height && (n > 0 ==> k <= n)
    ensures k == height || k == (if n > 0 then n else 0)
  {
    if n <= 0 then 0 else if n < height then n else height
  }

  /** One TryPop from stack `f` followed by a Push of the crate onto `t`. */
  function PopPush<T>(st: seq<seq<T>>, f: nat, t: nat): (r: seq<seq<T>>)
    requires f < |st| && t < |st| && st[f] != []
    ensures |r| == |st| && Total(r) == Total(st)
  {
    var top := Last(st[f]);
    var s1 := st[f := st[f][..|st[f]| - 1]];
    TotalUpdate(st, f, st[f][..|st[f]| - 1]);
    TotalUpdate(s1, t, s1[t] + [top]);
    s1[t := s1[t] + [top]]
  }

  /** `n` rounds of the part-one loop: each pops the top of `f`, if there is
      one, and pushes it onto `t`. Stack `t` is only touched by a pop that
      succeeds. */
  function MoveCrates<T>(st: seq<seq<T>>, n: int, f: nat, t: int): (r: seq<seq<T>>)
    requires f < |st| && (st[f] != [] ==> 0 <= t < |st|)
    ensures |r| == |st| && Total(r) == Total(st)
    decreases n
  {
    if n <= 0 || st[f] == [] then st else MoveCrates(PopPush(st, f, t), n - 1, f, t)
  }

  /** One more round appends one more pop-and-push. */
  lemma {:induction false} MoveCratesStep<T>(st: seq<seq<T>>, n: nat, f: nat, t: int)
    requires f < |st| && (st[f] != [] ==> 0 <= t < |st|)
    ensures var s := MoveCrates(st, n, f, t);
      s[f] != [] ==> 0 <= t < |st| && MoveCrates(st, n + 1, f, t) == PopPush(s, f, t)
    ensures var s := MoveCrates(st, n, f, t);
      s[f] == [] ==> MoveCrates(st, n + 1, f, t) == s
    decreases n
  {
    if n > 0 && st[f] != [] {
      MoveCratesStep(PopPush(st, f, t), n - 1, f, t);
    }
  }

  /** Reversing a sequence with one more element at its end puts that element
      first. */
  lemma ReverseSnoc<T>(s: seq<T>, x: T)
    ensures Reverse(s + [x]) == [x] + Reverse(s)
  {
    var a := Reverse(s + [x]);
    var b := [x] + Reverse(s);
    assert |a| == |b|;
    forall i | 0 <= i < |a| ensures a[i] == b[i] {
      if i > 0 {
        assert a[i] == (s + [x])[|s| - i];
      }
    }
  }

  /** Part one between two different stacks: the top `k` crates of `f`
      arrive on `t` in reverse order, and no other stack changes. */
  lemma {:induction false} MoveCratesReversed<T>(st: seq<seq<T>>, n: int, f: nat, t: nat)
    requires f < |st| && t < |st| && f != t
    ensures var k := Taken(n, |st[f]|); var r := MoveCrates(st, n, f, t);
      r[f] == st[f][..|st[f]| - k] &&
      r[t] == st[t] + Reverse(st[f][|st[f]| - k..]) &&
      forall i :: 0 <= i < |st| && i != f && i != t ==> r[i] == st[i]
    decreases n
  {
    var k := Taken(n, |st[f]|);
    if n <= 0 || st[f] == [] {
      assert st[f][|st[f]| - k..] == [];
      assert st[t] + [] == st[t];
    } else {
      var h := |st[f]|;
      var s1 := PopPush(st, f, t);
      assert s1[f] == st[f][..h - 1] && s1[t] == st[t] + [Last(st[f])];
      assert forall i :: 0 <= i < |st| && i != f && i != t ==> s1[i] == st[i];
      MoveCratesReversed(s1, n - 1, f, t);
      assert Taken(n - 1, |s1[f]|) == k - 1;
      assert MoveCrates(st, n, f, t) == MoveCrates(s1, n - 1, f, t);
      ReversedStep(st, s1, MoveCrates(s1, n - 1, f, t), f, t, k, Taken(n - 1, |s1[f]|));
    }
  }

  /** One pop-and-push from `f` onto `t` followed by `k - 1` more moves the
      top `k` crates of `f` onto `t` reversed. */
  lemma ReversedStep<T>(st: seq<seq<T>>, s1: seq<seq<T>>, r: seq<seq<T>>, f: nat, t: nat, k: nat, j: nat)
    requires f < |st| && t < |st| && f != t && |s1| == |st| && |r| == |st| && 1 <= k <= |st[f]| && j + 1 == k
    requires s1[f] == st[f][..|st[f]| - 1] && s1[t] == st[t] + [Last(st[f])]
    requires forall i :: 0 <= i < |st| && i != f && i != t ==> s1[i] == st[i]
    requires r[f] == s1[f][..|s1[f]| - j] &&
      r[t] == s1[t] + Reverse(s1[f][|s1[f]| - j..]) &&
      forall i :: 0 <= i < |s1| && i != f && i != t ==> r[i] == s1[i]
    ensures r[f] == st[f][..|st[f]| - k]
    ensures r[t] == st[t] + Reverse(st[f][|st[f]| - k..])
    ensures forall i :: 0 <= i < |st| && i != f && i != t ==> r[i] == st[i]
  {
    var h := |st[f]|;
    var block := st[f][h - k..h - 1];
    assert s1[f][..h - 1 - (k - 1)] == st[f][..h - k];
    assert s1[f][h - 1 - (k - 1)..] == block;
    assert st[f][h - k..] == block + [Last(st[f])];
    ReverseSnoc(block, Last(st[f]));
    assert r[t] == st[t] + ([Last(st[f])] + Reverse(block));
  }

  /** Part one from a stack onto itself changes nothing. */
  lemma {:induction false} MoveCratesOntoItself<T>(st: seq<seq<T>>, n: int, f: nat)
    requires f < |st|
    ensures MoveCrates(st, n, f, f) == st
    decreases n
  {
    if n > 0 && st[f] != [] {
      assert st[f][..|st[f]| - 1] + [Last(st[f])] == st[f];
      assert PopPush(st, f, f) == st;
      MoveCratesOntoItself(st, n - 1, f);
    }
  }

  /** Part two: the top `k` crates of `f` move onto `t` as a block, keeping
      their order. Stack `t` is only touched when the block is not empty. */
  function MoveBlock<T>(st: seq<seq<T>>, n: int, f: nat, t: int): (r: seq<seq<T>>)
    requires f < |st| && (Taken(n, |st[f]|) > 0 ==> 0 <= t < |st|)
  {
    var k := Taken(n, |st[f]|);
    if k == 0 then st
    else
      var s1 := st[f := st[f][..|st[f]| - k]];
      s1[t := s1[t] + st[f][|st[f]| - k..]]
  }

  /** Part two keeps the number of crates, and moving onto the same stack
      changes nothing. */
  lemma MoveBlockConserves<T>(st: seq<seq<T>>, n: int, f: nat, t: int)
    requires f < |st| && (Taken(n, |st[f]|) > 0 ==> 0 <= t < |st|)
    ensures |MoveBlock(st, n, f, t)| == |st| && Total(MoveBlock(st, n, f, t)) == Total(st)
    ensures f == t ==> MoveBlock(st, n, f, t) == st
  {
    var k := Taken(n, |st[f]|);
    if k > 0 {
      var h := |st[f]|;
      var s1 := st[f := st[f][..h - k]];
      var r := s1[t := s1[t] + st[f][h - k..]];
      assert MoveBlock(st, n, f, t) == r;
      TotalUpdate(st, f, st[f][..h - k]);
      TotalUpdate(s1, t, s1[t] + st[f][h - k..]);
      if f == t {
        SplitAt(st[f], h - k);
        assert r == st[f := st[f]];
      }
    }
  }

  lemma SplitAt<T>(s: seq<T>, i: nat)
    requires i <= |s|
    ensures s[..i] + s[i..] == s
  {
  }

  /** Between two different stacks the two cranes differ only in the order
      of the block that lands on `t`: part one delivers it reversed. */
  lemma CratesReverseBlock<T>(st: seq<seq<T>>, n: int, f: nat, t: nat)
    requires f < |st| && t < |st| && f != t
    ensures var a := MoveCrates(st, n, f, t); var b := MoveBlock(st, n, f, t);
      |a| == |b| == |st| &&
      (forall i :: 0 <= i < |st| && i != t ==> a[i] == b[i]) &&
      |a[t]| >= |st[t]| && |b[t]| >= |st[t]| &&
      a[t][..|st[t]|] == st[t] == b[t][..|st[t]|] &&
      a[t][|st[t]|..] == Reverse(b[t][|st[t]|..])
  {
    var k := Taken(n, |st[f]|);
    var block := st[f][|st[f]| - k..];
    MoveCratesReversed(st, n, f, t);
    MoveBlockConserves(st, n, f, t);
    var a := MoveCrates(st, n, f, t);
    var b := MoveBlock(st, n, f, t);
    assert a[t] == st[t] + Reverse(block);
    assert b[t] == st[t] + block;
    assert a[t][|st[t]|..] == Reverse(block);
    assert b[t][|st[t]|..] == block;
  }

  /** Where a move throws: a round runs and `f` is not a stack, or a crate
      is popped and `t` is not a stack. */
  predicate Throws<T>(st: seq<seq<T>>, n: int, f: int, t: int)
  {
    n > 0 && (!(0 <= f < |st|) || (st[f] != [] && !(0 <= t < |st|)))
  }

  /** The part-one move as the source runs it; None where it throws. */
  function CrateByCrate<T>(st: seq<seq<T>>, n: int, f: int, t: int): Option<seq<seq<T>>>
  {
    if Throws(st, n, f, t) then None
    else if n <= 0 then Some(st)
    else Some(MoveCrates(st, n, f, t))
  }

  /** The part-two move as the source runs it; None where it throws. */
  function BlockMove<T>(st: seq<seq<T>>, n: int, f: int, t: int): Option<seq<seq<T>>>
  {
    if Throws(st, n, f, t) then None
    else if n <= 0 then Some(st)
    else Some(MoveBlock(st, n, f, t))
  }

  /** The inner loop of part one on the list of stacks: `count` rounds of
      TryPop from `from` and Push onto `to`. False where the source throws. */
  method MoveOneByOne(stacks: array<seq<string>>, count: int, from: int, to: int) returns (ok: bool)
    modifies stacks
    ensures ok <==> !Throws(old(stacks[..]), count, from, to)
    ensures ok ==> CrateByCrate(old(stacks[..]), count, from, to) == Some(stacks[..])
  {
    ghost var st := stacks[..];
    var i := 0;
    while i < count
      invariant i == 0 ==> stacks[..] == st
      invariant i > 0 ==> (i <= count && 0 <= from < stacks.Length &&
        (st[from] != [] ==> 0 <= to < stacks.Length) && stacks[..] == MoveCrates(st, i, from, to))
      decreases count - i
    {
      if !(0 <= from < stacks.Length) {
        return false;
      }
      if stacks[from] != [] {
        var popped := stacks[from][|stacks[from]| - 1];
        stacks[from] := stacks[from][..|stacks[from]| - 1];
        if !(0 <= to < stacks.Length) {
          return false;
        }
        MoveCratesStep(st, i, from, to);
        stacks[to] := stacks[to] + [popped];
      } else if i > 0 {
        MoveCratesStep(st, i, from, to);
      }
      i := i + 1;
    }
    return true;
  }

  /** The body of part two's loop on the list of stacks: up to `count` pops
      from `from` into a list, then the list pushed back in reverse onto
      `to`. False where the source throws. */
  method MoveAsBlock(stacks: array<seq<string>>, count: int, from: int, to: int) returns (ok: bool)
    modifies stacks
    ensures ok <==> !Throws(old(stacks[..]), count, from, to)
    ensures ok ==> BlockMove(old(stacks[..]), count, from, to) == Some(stacks[..])
  {
    ghost var st := stacks[..];
    var toPush;
    ok, toPush := PopInto(stacks, count, from);
    if !ok {
      return false;
    }
    var block := Reverse(toPush);
    ghost var s1 := stacks[..];
    ok := PushAll(stacks, to, block);
    if count > 0 {
      var h := |st[from]|;
      var k := Taken(count, h);
      assert block == st[from][h - k..];
      assert s1 == st[from := st[from][..h - k]];
      if k == 0 {
        assert st[from][..h] == st[from];
        assert s1 == st;
      } else {
        assert st[from] != [] && block != [];
        assert ok ==> stacks[..] == s1[to := s1[to] + block];
      }
    }
  }

  /** The crates on top of `s`, topmost first: `k` pops in a row. */
  predicate PoppedFrom(s: seq<string>, k: nat, popped: seq<string>)
  {
    k <= |s| && |popped| == k && forall j :: 0 <= j < k ==> popped[j] == s[|s| - 1 - j]
  }

  /** Part two's pop loop: `count` rounds of TryPop from `from` into a list.
      False where the source throws. */
  method PopInto(stacks: array<seq<string>>, count: int, from: int) returns (ok: bool, toPush: seq<string>)
    modifies stacks
    ensures ok <==> (count <= 0 || 0 <= from < stacks.Length)
    ensures ok && count <= 0 ==> toPush == [] && stacks[..] == old(stacks[..])
    ensures ok && count > 0 ==> (0 <= from < stacks.Length &&
      PoppedFrom(old(stacks[from]), Taken(count, |old(stacks[from])|), toPush) &&
      stacks[..] == old(stacks[..])[from := old(stacks[from])[..|old(stacks[from])| - Taken(count, |old(stacks[from])|)]])
  {
    ghost var st := stacks[..];
    toPush := [];
    var i := 0;
    while i < count
      invariant i == 0 ==> toPush == [] && stacks[..] == st
      invariant i > 0 ==> (i <= count && 0 <= from < stacks.Length &&
        PoppedFrom(st[from], Taken(i, |st[from]|), toPush) &&
        stacks[..] == st[from := st[from][..|st[from]| - Taken(i, |st[from]|)]])
      decreases count - i
    {
      if !(0 <= from < stacks.Length) {
        return false, toPush;
      }
      ghost var h := |st[from]|;
      ghost var k := Taken(i, h);
      assert stacks[from] == st[from][..h - k];
      if stacks[from] != [] {
        var popped := stacks[from][|stacks[from]| - 1];
        stacks[from] := stacks[from][..|stacks[from]| - 1];
        toPush := toPush + [popped];
        assert Taken(i + 1, h) == k + 1;
        assert st[from][..h - k][..h - k - 1] == st[from][..h - (k + 1)];
        assert popped == st[from][h - 1 - k];
      } else {
        assert Taken(i + 1, h) == k;
      }
      i := i + 1;
    }
    return true, toPush;
  }

  /** Part two's push loop: every crate of `block` pushed onto `to` in turn.
      False where the source throws. */
  method PushAll(stacks: array<seq<string>>, to: int, block: seq<string>) returns (ok: bool)
    modifies stacks
    ensures ok <==> (block == [] || 0 <= to < stacks.Length)
    ensures ok && block == [] ==> stacks[..] == old(stacks[..])
    ensures ok && block != [] ==> stacks[..] == old(stacks[..])[to := old(stacks[to]) + block]
  {
    ghost var s1 := stacks[..];
    var j := 0;
    while j < |block|
      invariant 0 <= j <= |block|
      invariant j == 0 ==> stacks[..] == s1
      invariant j > 0 ==> 0 <= to < stacks.Length && stacks[..] == s1[to := s1[to] + block[..j]]
    {
      if !(0 <= to < stacks.Length) {
        return false;
      }
      assert stacks[to] == s1[to] + block[..j];
      ghost var prev := stacks[..];
      stacks[to] := stacks[to] + [block[j]];
      assert block[..j + 1] == block[..j] + [block[j]];
      assert stacks[..] == prev[to := prev[to] + [block[j]]];
      assert s1[to] + block[..j + 1] == (s1[to] + block[..j]) + [block[j]];
      j := j + 1;
    }
    assert block[..j] == block;
    return true;
  }

  /** The moves of a puzzle one after the other, with the part-one crane or
      (when `block` holds) the part-two crane; None once a move throws. */
  function RunMoves<T>(st: seq<seq<T>>, moves: seq<Move>, block: bool): Option<seq<seq<T>>>
    decreases |moves|
  {
    if moves == [] then Some(st)
    else
      var m := moves[0];
      match (if block then BlockMove(st, m.count, m.from, m.to) else CrateByCrate(st, m.count, m.from, m.to))
      case None => None
      case Some(next) => RunMoves(next, moves[1..], block)
  }

  /** Every move keeps the number of stacks and the number of crates, so a
      whole run does too. */
  lemma {:induction false} RunMovesConserves<T>(st: seq<seq<T>>, moves: seq<Move>, block: bool)
    ensures RunMoves(st, moves, block).Some? ==>
      |RunMoves(st, moves, block).value| == |st| && Total(RunMoves(st, moves, block).value) == Total(st)
    decreases |moves|
  {
    if moves != [] {
      var m := moves[0];
      var next := if block then BlockMove(st, m.count, m.from, m.to) else CrateByCrate(st, m.count, m.from, m.to);
      if next.Some? {
        if block && m.count > 0 {
          MoveBlockConserves(st, m.count, m.from, m.to);
        }
        RunMovesConserves(next.value, moves[1..], block);
      }
    }
  }

  /** The answer: the top crate of each stack with brackets trimmed, in
      stack order; None where Peek meets an empty stack. */
  function Tops(st: seq<seq<string>>): (r: Option<string>)
    ensures r.Some? <==> forall i :: 0 <= i < |st| ==> st[i] != []
  {
    if st == [] then Some("")
    else if st[0] == [] then None
    else
      match Tops(st[1..])
      case None => None
      case Some(rest) => Some(Trim(Last(st[0]), Brackets()) + rest)
  }

  function Brackets(): set<char>
  {
    {'[', ']'}
  }

  /** A crate drawn as "[X]". */
  function Crate(x: char): string
  {
    ['[', x, ']']
  }

  /** When every top crate is drawn as "[X]", the answer spells the letters
      of the tops in stack order. */
  lemma {:induction false} TopsSpellLetters(st: seq<seq<string>>, letters: string)
    requires |letters| == |st|
    requires forall i :: 0 <= i < |st| ==> letters[i] !in Brackets() && st[i] != [] && Last(st[i]) == Crate(letters[i])
    ensures Tops(st) == Some(letters)
  {
    if st != [] {
      TopsSpellLetters(st[1..], letters[1..]);
      var c := Crate(letters[0]);
      assert c[1..] == [letters[0], ']'];
      assert c[1..][..1] == [letters[0]];
      assert Trim([letters[0]], Brackets()) == [letters[0]];
      assert Trim(c[1..], Brackets()) == [letters[0]];
      assert Trim(c, Brackets()) == [letters[0]];
      assert letters == [letters[0]] + letters[1..];
    }
  }

  // ---------------------------------------------------------------------------
  // Parsing
  // ---------------------------------------------------------------------------

  datatype Move = Move(count: int, from: int, to: int)

  predicate Blank(s: string)
  {
    forall c :: c in s ==> c in Whitespace()
  }

  /** The crate fields of one drawing row: chunks of four characters, each
      trimmed. */
  function RowCrates(line: string): (r: seq<string>)
    ensures |r| == |Chunk(line, 4)|
    ensures forall i :: 0 <= i < |r| ==> r[i] == Trim(Chunk(line, 4)[i], Whitespace())
  {
    var cs := Chunk(line, 4);
    seq(|cs|, i requires 0 <= i < |cs| => Trim(cs[i], Whitespace()))
  }

  /** The part of the input before the first blank line. */
  function Drawing(input: string): string
  {
    SplitOn(input, "\n\n")[0]
  }

  /** The number of stacks: the non-empty words of the drawing's last line
      (the row of stack numbers). */
  function StackCount(drawing: string): nat
  {
    var lines := InputHelpers.AsLines(drawing);
    |Filter(Split(lines[|lines| - 1], ' '), (w: string) => w != [])|
  }

  /** The crate fields of all rows but the numbers row, bottom row first. */
  function CrateFields(drawing: string): seq<string>
  {
    var lines := InputHelpers.AsLines(drawing);
    var rows := seq(|lines| - 1, i requires 0 <= i < |lines| - 1 => RowCrates(lines[i]));
    Flatten(Reverse(rows))
  }

  /** The crates the source pushes onto stack `k`: the non-blank fields whose
      position is `k` modulo `count`, in order. */
  function Column(fields: seq<string>, count: nat, k: nat): seq<string>
    requires count > 0
  {
    if fields == [] then []
    else
      var n := |fields| - 1;
      Column(fields[..n], count, k) + (if n % count == k && !Blank(fields[n]) then [fields[n]] else [])
  }

  /** A stack is empty exactly when all the fields of its column are blank. */
  lemma {:induction false} ColumnEmpty(fields: seq<string>, count: nat, k: nat)
    requires count > 0
    ensures Column(fields, count, k) == [] <==>
      forall i :: 0 <= i < |fields| && i % count == k ==> Blank(fields[i])
  {
    if fields != [] {
      var n := |fields| - 1;
      var init := fields[..n];
      ColumnEmpty(init, count, k);
      BlankColumnSnoc(fields, init, count, k);
      var extra := if n % count == k && !Blank(fields[n]) then [fields[n]] else [];
      assert Column(fields, count, k) == Column(init, count, k) + extra;
    }
  }

  /** The column's fields are all blank exactly when those before the last
      are and the last one is, should it belong to the column. */
  lemma BlankColumnSnoc(fields: seq<string>, init: seq<string>, count: nat, k: nat)
    requires count > 0 && fields != [] && init == fields[..|fields| - 1]
    ensures (forall i :: 0 <= i < |fields| && i % count == k ==> Blank(fields[i])) <==>
      (forall i :: 0 <= i < |init| && i % count == k ==> Blank(init[i])) &&
      ((|fields| - 1) % count == k ==> Blank(fields[|fields| - 1]))
  {
    assert forall i :: 0 <= i < |init| ==> init[i] == fields[i];
  }

  /** A non-empty stack has as its top the last non-blank field of its
      column, which, the rows being reversed, is the highest crate drawn
      above it. */
  lemma {:induction false} ColumnTop(fields: seq<string>, count: nat, k: nat)
    requires count > 0
    ensures Column(fields, count, k) != [] ==>
      exists i :: 0 <= i < |fields| && i % count == k && !Blank(fields[i]) &&
        Last(Column(fields, count, k)) == fields[i] &&
        forall j :: i < j < |fields| && j % count == k ==> Blank(fields[j])
  {
    if fields != [] {
      var n := |fields| - 1;
      var init := fields[..n];
      ColumnTop(init, count, k);
      if n % count == k && !Blank(fields[n]) {
        assert Last(Column(fields, count, k)) == fields[n];
      } else if Column(init, count, k) != [] {
        var i :| 0 <= i < |init| && i % count == k && !Blank(init[i]) &&
          Last(Column(init, count, k)) == init[i] &&
          forall j :: i < j < |init| && j % count == k ==> Blank(init[j]);
        assert fields[i] == init[i];
        assert forall j :: i < j < n ==> init[j] == fields[j];
      }
    }
  }

  /** The stacks after the Aggregate: stack `k` holds column `k`. */
  function Stacked(fields: seq<string>, count: nat): (r: seq<seq<string>>)
    requires count > 0
    ensures |r| == count && forall k :: 0 <= k < count ==> r[k] == Column(fields, count, k)
  {
    seq(count, k requires 0 <= k < count => Column(fields, count, k))
  }

  /** One more field pushes it onto its stack, unless it is blank. */
  lemma StackedStep(fields: seq<string>, count: nat, i: nat)
    requires count > 0 && i < |fields|
    ensures Blank(fields[i]) ==> Stacked(fields[..i + 1], count) == Stacked(fields[..i], count)
    ensures !Blank(fields[i]) ==> (Stacked(fields[..i + 1], count) ==
      Stacked(fields[..i], count)[i % count := Stacked(fields[..i], count)[i % count] + [fields[i]]])
  {
    var pre := fields[..i + 1];
    assert pre[..i] == fields[..i] && pre[i] == fields[i];
    var a := Stacked(pre, count);
    var b := Stacked(fields[..i], count);
    forall k | 0 <= k < count
      ensures a[k] == b[k] + (if i % count == k && !Blank(fields[i]) then [fields[i]] else [])
    {
      assert Column(pre, count, k) == Column(pre[..i], count, k) +
        (if i % count == k && !Blank(pre[i]) then [pre[i]] else []);
    }
    if Blank(fields[i]) {
      forall k | 0 <= k < count ensures a[k] == b[k] {
        assert b[k] + [] == b[k];
      }
    } else {
      forall k | 0 <= k < count ensures a[k] == b[i % count := b[i % count] + [fields[i]]][k] {
        if k != i % count {
          assert b[k] + [] == b[k];
        }
      }
    }
  }

  /** ParseStartStacks on the crate fields: None where a non-blank field
      meets zero stacks (the modulo divides by zero). */
  function StacksOf(fields: seq<string>, count: nat): Option<seq<seq<string>>>
  {
    if count > 0 then Some(Stacked(fields, count))
    else if exists i :: 0 <= i < |fields| && !Blank(fields[i]) then None
    else Some([])
  }

  /** The Aggregate of ParseStartStacks: field `i`, when not blank, is pushed
      onto stack `i % count` of a list of `count` empty stacks. */
  method BuildStacks(fields: seq<string>, count: nat) returns (r: Option<array<seq<string>>>)
    ensures r.Some? <==> StacksOf(fields, count).Some?
    ensures r.Some? ==> fresh(r.value) && r.value[..] == StacksOf(fields, count).value
  {
    var stacks := new seq<string>[count](_ => []);
    for i := 0 to |fields|
      invariant count > 0 ==> stacks[..] == Stacked(fields[..i], count)
      invariant count == 0 ==> forall j :: 0 <= j < i ==> Blank(fields[j])
    {
      if count > 0 {
        StackedStep(fields, count, i);
      }
      if !Blank(fields[i]) {
        if count == 0 {
          return None;
        }
        stacks[i % count] := stacks[i % count] + [fields[i]];
      }
    }
    assert fields[..|fields|] == fields;
    return Some(stacks);
  }

  /** A move line "move N from A to B": the second, fourth and sixth words,
      with the stack numbers made 0-based; None when a line has fewer than
      six words or one of them is not a number. */
  function ParseMove(line: string): (r: Option<Move>)
  {
    var words := Split(line, ' ');
    if |words| < 6 then None
    else
      match (ParseInt(words[1]), ParseInt(words[3]), ParseInt(words[5]))
      case (Some(n), Some(a), Some(b)) => Some(Move(n, a - 1, b - 1))
      case _ => None
  }

  /** The line the puzzle writes for a move, with 1-based stack numbers. */
  function MoveLine(m: Move): string
  {
    Join(MoveWords(m), " ")
  }

  function MoveWords(m: Move): seq<string>
  {
    ["move", IntToString(m.count), "from", IntToString(m.from + 1), "to", IntToString(m.to + 1)]
  }

  /** Parsing a move line gives the move back: the stack numbers come out
      0-based. */
  lemma ParseMoveLine(m: Move)
    ensures ParseMove(MoveLine(m)) == Some(m)
  {
    var words := MoveWords(m);
    MoveWordsNoSpace(m);
    SplitJoin(words, ' ');
    MoveWordsParse(m);
  }

  /** The numbers of a move line parse back to the move's numbers. */
  lemma MoveWordsParse(m: Move)
    ensures ParseInt(MoveWords(m)[1]) == Some(m.count)
    ensures ParseInt(MoveWords(m)[3]) == Some(m.from + 1)
    ensures ParseInt(MoveWords(m)[5]) == Some(m.to + 1)
  {
  }

  lemma MoveWordsNoSpace(m: Move)
    ensures forall i :: 0 <= i < |MoveWords(m)| ==> ' ' !in MoveWords(m)[i]
  {
    var words := MoveWords(m);
    IntToStringNoSpace(m.count);
    IntToStringNoSpace(m.from + 1);
    IntToStringNoSpace(m.to + 1);
    assert ' ' !in words[0] && ' ' !in words[2] && ' ' !in words[4];
    forall i | 0 <= i < |words| ensures ' ' !in words[i] {
      if i == 1 || i == 3 || i == 5 {
        assert words[i] == IntToString(if i == 1 then m.count else if i == 3 then m.from + 1 else m.to + 1);
      }
    }
  }

  lemma IntToStringNoSpace(n: int)
    ensures ' ' !in IntToString(n)
  {
    assert ParseInt(IntToString(n)) == Some(n);
  }

  /** The moves: every line after the first blank line; None when there is
      no blank line or a line does not parse. */
  function ParseMovements(input: string): Option<seq<Move>>
  {
    var sections := SplitOn(input, "\n\n");
    if |sections| < 2 then None
    else Extensions.ParseAs(InputHelpers.AsLines(sections[1]), ParseMove)
  }

  /** Stacks, moves, the crane of the part, then the tops. */
  function Solve(input: string, block: bool): Option<string>
  {
    var drawing := Drawing(input);
    match (StacksOf(CrateFields(drawing), StackCount(drawing)), ParseMovements(input))
    case (Some(st), Some(moves)) =>
      (match RunMoves(st, moves, block)
       case None => None
       case Some(final) => Tops(final))
    case _ => None
  }

  /** Runs the moves on the list of stacks, each with the crane of the part. */
  method ApplyMoves(stacks: array<seq<string>>, moves: seq<Move>, block: bool) returns (ok: bool)
    modifies stacks
    ensures ok <==> RunMoves(old(stacks[..]), moves, block).Some?
    ensures ok ==> RunMoves(old(stacks[..]), moves, block) == Some(stacks[..])
  {
    for i := 0 to |moves|
      invariant RunMoves(old(stacks[..]), moves, block) == RunMoves(stacks[..], moves[i..], block)
    {
      var m := moves[i];
      assert moves[i..][1..] == moves[i + 1..];
      var moved;
      if block {
        moved := MoveAsBlock(stacks, m.count, m.from, m.to);
      } else {
        moved := MoveOneByOne(stacks, m.count, m.from, m.to);
      }
      if !moved {
        return false;
      }
    }
    return true;
  }

  /** Part one, one crate at a time. */
  method SolvePartOne(input: string) returns (r: Option<string>)
    ensures r == Solve(input, false)
  {
    r := SolveWith(input, false);
  }

  /** Part two, whole blocks. */
  method SolvePartTwo(input: string) returns (r: Option<string>)
    ensures r == Solve(input, true)
  {
    r := SolveWith(input, true);
  }

  method SolveWith(input: string, block: bool) returns (r: Option<string>)
    ensures r == Solve(input, block)
  {
    var drawing := Drawing(input);
    var built := BuildStacks(CrateFields(drawing), StackCount(drawing));
    var moves := ParseMovements(input);
    if built.None? || moves.None? {
      return None;
    }
    var stacks := built.value;
    var ok := ApplyMoves(stacks, moves.value, block);
    if !ok {
      return None;
    }
    r := Tops(stacks[..]);
  }
}
