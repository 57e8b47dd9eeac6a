/** 2022 day 13: distress-signal packets, nested lists of integers written
    like "[1,[2,3],[]]". Part one sums the 1-based indices of the pairs that
    are in order; part two sorts every packet together with the dividers
    [[2]] and [[6]] and multiplies the dividers' 1-based positions. */
module Y2022D13 {
  import opened Wrappers
  import opened Strings
  import opened Seqs
  import Extensions

  /** A PacketPart: an integer, or a list of parts. */
  datatype Packet = Int(n: int) | List(parts: seq<Packet>)

  function Size(p: Packet): nat
    decreases p, 1
  {
    match p
    case Int(_) => 1
    case List(ps) => 1 + SizeAll(ps)
  }

  function SizeAll(ps: seq<Packet>): nat
    decreases ps, 0
  {
    if ps == [] then 0 else Size(ps[0]) + SizeAll(ps[1..])
  }

  // ---------------------------------------------------------------------------
  // CompareTo
  // ---------------------------------------------------------------------------

  /** Int32.CompareTo. */
  function CompareInts(a: int, b: int): (r: int)
    ensures r == 0 <==> a == b
    ensures r < 0 <==> a < b
  {
    if a < b then -1 else if a > b then 1 else 0
  }

  /** CompareTo: two integers compare as integers; two lists compare
      element-wise; an integer against a list is wrapped in a one-element list
      and compared again. The result is -1, 0 or 1. */
  function Compare(l: Packet, r: Packet): (c: int)
    ensures -1 <= c <= 1
    decreases Size(l) + Size(r), 0
  {
    match (l, r)
    case (Int(a), Int(b)) => CompareInts(a, b)
    case (List(ls), List(rs)) => CompareAll(ls, rs)
    case (Int(a), List(rs)) => SizeOne(Int(a)); CompareAll([Int(a)], rs)
    case (List(ls), Int(b)) => SizeOne(Int(b)); CompareAll(ls, [Int(b)])
  }

  lemma SizeOne(p: Packet)
    ensures SizeAll([p]) == Size(p)
  {
    assert [p][1..] == [];
  }

  /** The two-lists branch: the first non-zero comparison of the zipped
      elements wins; otherwise the shorter list is smaller. */
  function CompareAll(ls: seq<Packet>, rs: seq<Packet>): (c: int)
    ensures -1 <= c <= 1
    decreases SizeAll(ls) + SizeAll(rs), 1
  {
    if ls == [] || rs == [] then
      (if |ls| == |rs| then 0 else if |ls| < |rs| then -1 else 1)
    else
      var c := Compare(ls[0], rs[0]);
      if c != 0 then c else CompareAll(ls[1..], rs[1..])
  }

  /** CompareTo(null) is -1. */
  function CompareTo(l: Packet, r: Option<Packet>): (c: int)
    ensures -1 <= c <= 1
    ensures r.None? ==> c == -1
  {
    match r
    case None => -1
    case Some(p) => Compare(l, p)
  }

  /** An integer against a list is the one-element list against the list. */
  lemma WrapInt(a: int, r: Packet)
    requires r.List?
    ensures Compare(Int(a), r) == Compare(List([Int(a)]), r)
    ensures Compare(r, Int(a)) == Compare(r, List([Int(a)]))
  {
  }

  /** Swapping the operands negates the comparison. */
  lemma {:induction false} CompareFlip(l: Packet, r: Packet)
    ensures Compare(r, l) == -Compare(l, r)
    decreases Size(l) + Size(r), 0
  {
    match (l, r)
    case (Int(a), Int(b)) =>
    case (List(ls), List(rs)) => CompareAllFlip(ls, rs);
    case (Int(a), List(rs)) => SizeOne(Int(a)); CompareAllFlip([Int(a)], rs);
    case (List(ls), Int(b)) => SizeOne(Int(b)); CompareAllFlip(ls, [Int(b)]);
  }

  lemma {:induction false} CompareAllFlip(ls: seq<Packet>, rs: seq<Packet>)
    ensures CompareAll(rs, ls) == -CompareAll(ls, rs)
    decreases SizeAll(ls) + SizeAll(rs), 1
  {
    if ls != [] && rs != [] {
      CompareFlip(ls[0], rs[0]);
      CompareAllFlip(ls[1..], rs[1..]);
    }
  }

  /** Every packet is equal to itself. */
  lemma {:induction false} CompareSelf(p: Packet)
    ensures Compare(p, p) == 0
    decreases Size(p), 0
  {
    match p
    case Int(_) =>
    case List(ps) => CompareAllSelf(ps);
  }

  lemma {:induction false} CompareAllSelf(ps: seq<Packet>)
    ensures CompareAll(ps, ps) == 0
    decreases SizeAll(ps), 1
  {
    if ps != [] {
      CompareSelf(ps[0]);
      CompareAllSelf(ps[1..]);
    }
  }

  // ---------------------------------------------------------------------------
  // ToString
  // ---------------------------------------------------------------------------

  /** ToString: an integer in decimal, a list as "[" + its parts joined with
      "," + "]". */
  function Show(p: Packet): (r: string)
    ensures p.List? ==> |r| >= 2 && r[0] == '[' && r[|r| - 1] == ']'
    decreases Size(p), 0
  {
    match p
    case Int(n) => IntToString(n)
    case List(ps) => "[" + Join(Shows(ps), ",") + "]"
  }

  function Shows(ps: seq<Packet>): (r: seq<string>)
    ensures |r| == |ps|
    decreases SizeAll(ps), 1
  {
    if ps == [] then [] else [Show(ps[0])] + Shows(ps[1..])
  }

  // ---------------------------------------------------------------------------
  // The parsing constructor
  // ---------------------------------------------------------------------------

  /** The constructor's state: the stack of lists still open, each with the
      parts added so far, and the parts of the packet itself. */
  datatype State = State(stack: seq<seq<Packet>>, parts: seq<Packet>)

  /** A finished part goes to the innermost open list, or to the packet
      itself when no list is open (Peek().AddPart, SubParts.Add). */
  function Add(st: State, q: Packet): (r: State)
    ensures |r.stack| == |st.stack|
  {
    if st.stack == [] then State([], st.parts + [q])
    else State(st.stack[..|st.stack| - 1] + [st.stack[|st.stack| - 1] + [q]], st.parts)
  }

  /** charArray.Skip(i).TakeWhile(char.IsDigit): the longest run of digits
      starting at `i`. */
  function DigitRun(cs: seq<char>, i: nat): (k: nat)
    requires i <= |cs|
    ensures i + k <= |cs| && AllDigits(cs[i..i + k])
    ensures i + k == |cs| || !IsDigit(cs[i + k])
    decreases |cs| - i
  {
    if i == |cs| || !IsDigit(cs[i]) then 0
    else
      var k := 1 + DigitRun(cs, i + 1);
      assert cs[i..i + k] == [cs[i]] + cs[i + 1..i + k];
      k
  }

  /** One turn of the constructor's loop at index `i`: the new state and the
      index of the next turn. '[' opens a list; ']' closes the innermost one,
      and Pop on an empty stack throws; ',' is skipped; anything else must
      begin an integer, read whole, and int.Parse throws when there are no
      digits or the value does not fit in 32 bits. */
  function StepAt(cs: seq<char>, i: nat, st: State): (r: Option<(State, nat)>)
    requires i < |cs|
    ensures r.Some? ==> i < r.value.1 <= |cs|
  {
    var c := cs[i];
    if c == '[' then Some((State(st.stack + [[]], st.parts), i + 1))
    else if c == ']' then
      if st.stack == [] then None
      else
        var n := |st.stack| - 1;
        Some((Add(State(st.stack[..n], st.parts), List(st.stack[n])), i + 1))
    else if c == ',' then Some((st, i + 1))
    else
      var k := DigitRun(cs, i);
      match ParseInt32(cs[i..i + k])
      case None => None
      case Some(v) => Some((Add(st, Int(v)), i + k))
  }

  /** The constructor's loop from index `i` to the end. */
  function Run(cs: seq<char>, i: nat, st: State): Option<State>
    requires i <= |cs|
    decreases |cs| - i
  {
    if i == |cs| then Some(st)
    else
      match StepAt(cs, i, st)
      case None => None
      case Some((st', j)) => Run(cs, j, st')
  }

  /** new PacketPart(line): the first and last characters are dropped
      unread (a line shorter than two characters throws); lists left open at
      the end are dropped. */
  function Parsed(line: string): (r: Option<Packet>)
    ensures |line| < 2 ==> r.None?
    ensures r.Some? ==> r.value.List?
  {
    if |line| < 2 then None
    else
      match Run(line[1..|line| - 1], 0, State([], []))
      case None => None
      case Some(st) => Some(List(st.parts))
  }

  /** The parsing constructor, a loop over the characters with a stack of
      open lists. The lists are values here: a list on the stack is not
      shared with anything else, so replacing the top of the stack is the
      same as adding to the object it holds. */
  method NewPacket(line: string) returns (r: Option<Packet>)
    ensures r == Parsed(line)
  {
    if |line| < 2 {
      return None;
    }
    var cs := line[1..|line| - 1];
    var stack: seq<seq<Packet>> := [];
    var parts: seq<Packet> := [];
    var i := 0;
    ghost var result := Run(cs, 0, State([], []));
    while i < |cs|
      invariant 0 <= i <= |cs|
      invariant result == Run(cs, i, State(stack, parts))
      decreases |cs| - i
    {
      ghost var st := State(stack, parts);
      var ok, j;
      ok, j, stack, parts := Turn(cs, i, stack, parts);
      if !ok {
        return None;
      }
      RunStep(cs, i, st);
      i := j;
    }
    r := Some(List(parts));
  }

  /** One turn of the constructor's loop: `ok` is false where the source
      throws; otherwise the new stack, parts and index are those of StepAt. */
  method Turn(cs: seq<char>, i: nat, stack: seq<seq<Packet>>, parts: seq<Packet>)
    returns (ok: bool, j: nat, stack': seq<seq<Packet>>, parts': seq<Packet>)
    requires i < |cs|
    ensures ok <==> StepAt(cs, i, State(stack, parts)).Some?
    ensures ok ==> StepAt(cs, i, State(stack, parts)).value.0 == State(stack', parts')
    ensures ok ==> StepAt(cs, i, State(stack, parts)).value.1 == j
  {
    stack', parts' := stack, parts;
    var c := cs[i];
    if c == '[' {
      stack' := stack + [[]];
    } else if c == ']' {
      if |stack| > 1 {
        var popped := stack[|stack| - 1];
        stack' := stack[..|stack| - 1];
        stack' := stack'[..|stack'| - 1] + [stack'[|stack'| - 1] + [List(popped)]];
      } else if |stack| == 1 {
        parts' := parts + [List(stack[0])];
        stack' := [];
      } else {
        return false, 0, stack', parts';
      }
    } else if c == ',' {
    } else {
      var k := DigitRun(cs, i);
      var intStr := cs[i..i + k];
      var v := ParseInt32(intStr);
      if v.None? {
        return false, 0, stack', parts';
      }
      if |stack| > 0 {
        stack' := stack[..|stack| - 1] + [stack[|stack| - 1] + [Int(v.value)]];
      } else {
        parts' := parts + [Int(v.value)];
      }
      return true, i + |intStr|, stack', parts';
    }
    return true, i + 1, stack', parts';
  }

  /** '[' opens a list. */
  lemma OpenStep(cs: seq<char>, i: nat, st: State)
    requires i < |cs| && cs[i] == '['
    ensures Run(cs, i, st) == Run(cs, i + 1, State(st.stack + [[]], st.parts))
  {
    assert StepAt(cs, i, st).Some? && StepAt(cs, i, st).value.0 == State(st.stack + [[]], st.parts);
  }

  /** ']' closes the innermost list; with none open, Pop throws. */
  lemma CloseStep(cs: seq<char>, i: nat, st: State)
    requires i < |cs| && cs[i] == ']'
    ensures st.stack == [] ==> Run(cs, i, st) == None
    ensures st.stack != [] ==> (Run(cs, i, st) ==
      Run(cs, i + 1, Add(State(st.stack[..|st.stack| - 1], st.parts), List(st.stack[|st.stack| - 1]))))
  {
  }

  /** A comma is skipped. */
  lemma CommaStep(cs: seq<char>, j: nat, st: State)
    requires j < |cs| && cs[j] == ','
    ensures Run(cs, j, st) == Run(cs, j + 1, st)
  {
    assert StepAt(cs, j, st).Some? && StepAt(cs, j, st).value.0 == st && StepAt(cs, j, st).value.1 == j + 1;
  }

  // ---------------------------------------------------------------------------
  // Round trip
  // ---------------------------------------------------------------------------

  /** Every integer of the packet is non-negative and fits in 32 bits, as in
      the puzzle input. */
  predicate Small(p: Packet)
    decreases Size(p), 0
  {
    match p
    case Int(n) => 0 <= n < 0x8000_0000
    case List(ps) => SmallAll(ps)
  }

  predicate SmallAll(ps: seq<Packet>)
    decreases SizeAll(ps), 1
  {
    ps == [] || (Small(ps[0]) && SmallAll(ps[1..]))
  }

  /** `s` occurs in `cs` at `i`, followed by the end or by a non-digit. */
  predicate Occurs(cs: seq<char>, i: nat, s: string)
    ensures Occurs(cs, i, s) ==> i + |s| <= |cs|
    decreases |s|
  {
    if s == [] then i <= |cs| && (i == |cs| || !IsDigit(cs[i]))
    else i < |cs| && cs[i] == s[0] && Occurs(cs, i + 1, s[1..])
  }

  /** The same, as a slice of `cs`. */
  lemma {:induction false} OccursSlice(cs: seq<char>, i: nat, s: string)
    ensures Occurs(cs, i, s) <==>
      i + |s| <= |cs| && cs[i..i + |s|] == s && (i + |s| == |cs| || !IsDigit(cs[i + |s|]))
    decreases |s|
  {
    if s != [] {
      OccursSlice(cs, i + 1, s[1..]);
      if i + |s| <= |cs| {
        assert cs[i..i + |s|] == [cs[i]] + cs[i + 1..i + 1 + |s[1..]|];
        assert s == [s[0]] + s[1..];
      }
    }
  }

  /** One turn of the loop. */
  lemma RunStep(cs: seq<char>, i: nat, st: State)
    requires i < |cs| && StepAt(cs, i, st).Some?
    ensures Run(cs, i, st) == Run(cs, StepAt(cs, i, st).value.1, StepAt(cs, i, st).value.0)
  {
  }

  /** Reading the text of a part adds the part. */
  lemma {:induction false} ReadPart(cs: seq<char>, i: nat, st: State, q: Packet)
    requires Small(q) && Occurs(cs, i, Show(q))
    ensures Run(cs, i, st) == Run(cs, i + |Show(q)|, Add(st, q))
    decreases Size(q), 2
  {
    match q
    case Int(n) => ReadInt(cs, i, st, n);
    case List(ps) => ReadList(cs, i, st, ps);
  }

  /** A run of digits is read as one integer element, however many digits
      it has, when its value fits in 32 bits. */
  lemma ReadDigits(cs: seq<char>, i: nat, k: nat, st: State, v: int)
    requires 0 < k && i + k <= |cs| && AllDigits(cs[i..i + k])
    requires i + k == |cs| || !IsDigit(cs[i + k])
    requires v == DigitsValue(cs[i..i + k]) && v < 0x8000_0000
    ensures Run(cs, i, st) == Run(cs, i + k, Add(st, Int(v)))
  {
    assert cs[i] == cs[i..i + k][0];
    DigitRunOf(cs, i, k);
    assert StepAt(cs, i, st).Some? && StepAt(cs, i, st).value.0 == Add(st, Int(v)) && StepAt(cs, i, st).value.1 == i + k;
    RunStep(cs, i, st);
  }

  /** The digits of an integer are read as one integer. */
  lemma ReadInt(cs: seq<char>, i: nat, st: State, n: int)
    requires Small(Int(n)) && Occurs(cs, i, Show(Int(n)))
    ensures Run(cs, i, st) == Run(cs, i + |Show(Int(n))|, Add(st, Int(n)))
  {
    var s := NatToString(n);
    var k := |Show(Int(n))|;
    assert Show(Int(n)) == s;
    OccursSlice(cs, i, s);
    assert cs[i..i + k] == s;
    ReadDigits(cs, i, k, st, n);
  }

  /** A list is opened by '[', filled by its parts, and closed by ']'. */
  lemma {:induction false} ReadList(cs: seq<char>, i: nat, st: State, ps: seq<Packet>)
    requires SmallAll(ps) && Occurs(cs, i, Show(List(ps)))
    ensures Run(cs, i, st) == Run(cs, i + |Show(List(ps))|, Add(st, List(ps)))
    decreases Size(List(ps)), 1
  {
    var body := Join(Shows(ps), ",");
    assert Show(List(ps)) == "[" + body + "]";
    OccursBrackets(cs, i, body);
    ReadBracketed(cs, i, st, ps, body);
  }

  lemma {:induction false} ReadBracketed(cs: seq<char>, i: nat, st: State, ps: seq<Packet>, body: string)
    requires body == Join(Shows(ps), ",") && SmallAll(ps) && Occurs(cs, i + 1, body)
    requires i + 1 + |body| < |cs| && cs[i] == '[' && cs[i + 1 + |body|] == ']'
    ensures Run(cs, i, st) == Run(cs, i + 1 + |body| + 1, Add(st, List(ps)))
    decreases Size(List(ps)), 0
  {
    var st1 := State(st.stack + [[]], st.parts);
    var st2 := State(st.stack + [ps], st.parts);
    var j := i + 1 + |body|;
    assert Run(cs, i, st) == Run(cs, i + 1, st1) by {
      OpenStep(cs, i, st);
    }
    assert Run(cs, i + 1, st1) == Run(cs, j, st2) by {
      OpenedAll(st, ps);
      ReadParts(cs, i + 1, st1, ps, j, st2);
    }
    assert Run(cs, j, st2) == Run(cs, j + 1, Add(st, List(ps))) by {
      CloseList(cs, j, st, ps);
    }
    BracketRuns(cs, i, st, ps, j);
  }

  /** Opening, reading the parts into the open list, and closing it. */
  lemma BracketRuns(cs: seq<char>, i: nat, st: State, ps: seq<Packet>, j: nat)
    requires i < j < |cs|
    requires Run(cs, i, st) == Run(cs, i + 1, State(st.stack + [[]], st.parts))
    requires Run(cs, i + 1, State(st.stack + [[]], st.parts)) == Run(cs, j, State(st.stack + [ps], st.parts))
    requires Run(cs, j, State(st.stack + [ps], st.parts)) == Run(cs, j + 1, Add(st, List(ps)))
    ensures Run(cs, i, st) == Run(cs, j + 1, Add(st, List(ps)))
  {
  }

  /** The parts added to a freshly opened list make up that list. */
  lemma OpenedAll(st: State, ps: seq<Packet>)
    ensures AddAll(State(st.stack + [[]], st.parts), ps) == State(st.stack + [ps], st.parts)
  {
    AddAllOpen(st.stack, [], st.parts, ps);
    assert [] + ps == ps;
  }

  /** ']' closes the list on top of the stack and adds it to the one below. */
  lemma CloseList(cs: seq<char>, j: nat, st: State, top: seq<Packet>)
    requires j < |cs| && cs[j] == ']'
    ensures Run(cs, j, State(st.stack + [top], st.parts)) == Run(cs, j + 1, Add(st, List(top)))
  {
    var st2 := State(st.stack + [top], st.parts);
    CloseStep(cs, j, st2);
    assert st2.stack[..|st2.stack| - 1] == st.stack;
    assert State(st.stack, st.parts) == st;
  }

  /** Text between brackets. */
  lemma OccursBrackets(cs: seq<char>, i: nat, body: string)
    requires Occurs(cs, i, "[" + body + "]")
    ensures i + 1 + |body| < |cs|
    ensures cs[i] == '[' && cs[i + 1 + |body|] == ']'
    ensures Occurs(cs, i + 1, body)
    ensures i + |"[" + body + "]"| == i + 1 + |body| + 1
  {
    var text := "[" + body + "]";
    OccursSlice(cs, i, text);
    OccursSlice(cs, i + 1, body);
    var w := cs[i..i + |text|];
    assert w == text;
    assert cs[i] == w[0] == text[0];
    assert cs[i + 1 + |body|] == w[1 + |body|] == text[1 + |body|];
    forall k | 0 <= k < |body|
      ensures cs[i + 1..i + 1 + |body|][k] == body[k]
    {
      assert cs[i + 1 + k] == w[1 + k] == text[1 + k];
    }
  }

  /** The digits of a part are read as one integer. */
  lemma DigitRunOf(cs: seq<char>, i: nat, k: nat)
    requires i + k <= |cs| && AllDigits(cs[i..i + k])
    requires i + k == |cs| || !IsDigit(cs[i + k])
    ensures DigitRun(cs, i) == k
    decreases k
  {
    if k > 0 {
      assert cs[i + 1..i + k] == cs[i..i + k][1..];
      DigitRunOf(cs, i + 1, k - 1);
    }
  }

  /** Adding the parts one after another. */
  function AddAll(st: State, ps: seq<Packet>): State
    decreases |ps|
  {
    if ps == [] then st else AddAll(Add(st, ps[0]), ps[1..])
  }

  /** Adding to an open list appends to it. */
  lemma {:induction false} AddAllOpen(stack: seq<seq<Packet>>, top: seq<Packet>, parts: seq<Packet>, ps: seq<Packet>)
    ensures AddAll(State(stack + [top], parts), ps) == State(stack + [top + ps], parts)
    decreases |ps|
  {
    if ps != [] {
      assert (stack + [top])[..|stack|] == stack;
      assert Add(State(stack + [top], parts), ps[0]) == State(stack + [top + [ps[0]]], parts);
      assert AddAll(State(stack + [top], parts), ps) == AddAll(State(stack + [top + [ps[0]]], parts), ps[1..]);
      AddAllOpen(stack, top + [ps[0]], parts, ps[1..]);
      assert top + [ps[0]] + ps[1..] == top + ps;
    } else {
      assert top + ps == top;
    }
  }

  /** Adding with no list open appends to the packet's own parts. */
  lemma {:induction false} AddAllClosed(parts: seq<Packet>, ps: seq<Packet>)
    ensures AddAll(State([], parts), ps) == State([], parts + ps)
    decreases |ps|
  {
    if ps != [] {
      AddAllClosed(parts + [ps[0]], ps[1..]);
      assert parts + [ps[0]] + ps[1..] == parts + ps;
    } else {
      assert parts + ps == parts;
    }
  }

  /** Reading comma-separated parts adds each of them. */
  lemma {:induction false} ReadParts(cs: seq<char>, i: nat, st: State, ps: seq<Packet>, end: nat, fin: State)
    requires SmallAll(ps) && Occurs(cs, i, Join(Shows(ps), ","))
    requires end == i + |Join(Shows(ps), ",")| && fin == AddAll(st, ps)
    ensures Run(cs, i, st) == Run(cs, end, fin)
    decreases SizeAll(ps), 3
  {
    if ps == [] {
      assert Join(Shows(ps), ",") == [];
    } else if |ps| == 1 {
      JoinOne(st, ps);
      ReadPart(cs, i, st, ps[0]);
    } else {
      var head := Show(ps[0]);
      var tail := Join(Shows(ps[1..]), ",");
      JoinShows(ps);
      OccursComma(cs, i, head, tail);
      assert AddAll(st, ps) == AddAll(Add(st, ps[0]), ps[1..]);
      ReadSeparated(cs, i, st, ps, head, tail, end, fin);
    }
  }

  /** The text and the reading of a single part. */
  lemma JoinOne(st: State, ps: seq<Packet>)
    requires |ps| == 1
    ensures Join(Shows(ps), ",") == Show(ps[0])
    ensures AddAll(st, ps) == Add(st, ps[0])
    ensures SmallAll(ps) ==> Small(ps[0])
  {
    assert Shows(ps) == [Show(ps[0])];
    assert ps[1..] == [];
  }

  /** The first part and the rest are each smaller than all the parts. */
  lemma SizeSplit(ps: seq<Packet>)
    requires ps != []
    ensures Size(ps[0]) < SizeAll(ps) || |ps| == 1
    ensures SizeAll(ps[1..]) < SizeAll(ps)
  {
    assert Size(ps[0]) >= 1 && SizeAll(ps) == Size(ps[0]) + SizeAll(ps[1..]);
    if |ps| >= 2 {
      assert Size(ps[1]) >= 1 && SizeAll(ps[1..]) == Size(ps[1..][0]) + SizeAll(ps[1..][1..]);
    }
  }

  /** The first of several parts, then a comma, then the rest. */
  lemma {:induction false} ReadSeparated(cs: seq<char>, i: nat, st: State, ps: seq<Packet>, head: string, tail: string, end: nat, fin: State)
    requires |ps| >= 2 && Small(ps[0]) && SmallAll(ps[1..])
    requires head == Show(ps[0]) && tail == Join(Shows(ps[1..]), ",")
    requires Occurs(cs, i, head) && i + |head| < |cs| && cs[i + |head|] == ',' && Occurs(cs, i + |head| + 1, tail)
    requires end == i + |head| + 1 + |tail| && fin == AddAll(Add(st, ps[0]), ps[1..])
    ensures Run(cs, i, st) == Run(cs, end, fin)
    decreases SizeAll(ps), 2
  {
    SizeSplit(ps);
    ReadPart(cs, i, st, ps[0]);
    ReadCommaRest(cs, i + |head|, Add(st, ps[0]), ps[1..], tail, end, fin);
  }

  /** A comma, then the remaining parts. */
  lemma {:induction false} ReadCommaRest(cs: seq<char>, j: nat, st: State, ps: seq<Packet>, tail: string, end: nat, fin: State)
    requires ps != [] && tail == Join(Shows(ps), ",") && SmallAll(ps)
    requires j < |cs| && cs[j] == ',' && Occurs(cs, j + 1, tail)
    requires end == j + 1 + |tail| && fin == AddAll(st, ps)
    ensures Run(cs, j, st) == Run(cs, end, fin)
    decreases SizeAll(ps), 4
  {
    CommaStep(cs, j, st);
    ReadParts(cs, j + 1, st, ps, end, fin);
  }

  /** The text of several parts is the first, a comma, and the rest. */
  lemma JoinShows(ps: seq<Packet>)
    requires |ps| >= 2
    ensures Join(Shows(ps), ",") == Show(ps[0]) + "," + Join(Shows(ps[1..]), ",")
    ensures SmallAll(ps) ==> Small(ps[0]) && SmallAll(ps[1..])
  {
    assert Shows(ps) == [Show(ps[0])] + Shows(ps[1..]);
  }

  /** Text followed by a comma and more text. */
  lemma OccursComma(cs: seq<char>, i: nat, a: string, b: string)
    requires Occurs(cs, i, a + "," + b)
    ensures Occurs(cs, i, a) && cs[i + |a|] == ','
    ensures Occurs(cs, i + |a| + 1, b)
    ensures i + |a| + 1 + |b| == i + |a + "," + b|
  {
    var all := a + "," + b;
    OccursSlice(cs, i, all);
    OccursSlice(cs, i, a);
    OccursSlice(cs, i + |a| + 1, b);
    assert cs[i..i + |a|] == cs[i..i + |all|][..|a|];
    assert cs[i + |a|] == all[|a|];
    assert cs[i + |a| + 1..i + |a| + 1 + |b|] == cs[i..i + |all|][|a| + 1..];
  }

  /** Parsing the text of a packet gives the packet back: part two relies on
      this to find the dividers by their text. */
  lemma ParseShow(ps: seq<Packet>)
    requires SmallAll(ps)
    ensures Parsed(Show(List(ps))) == Some(List(ps))
  {
    var body := Join(Shows(ps), ",");
    var line := Show(List(ps));
    assert line[1..|line| - 1] == body;
    assert body[0..0 + |body|] == body;
    OccursSlice(body, 0, body);
    AddAllClosed([], ps);
    assert [] + ps == ps;
    ReadParts(body, 0, State([], []), ps, |body|, State([], ps));
    assert Run(body, 0, State([], [])) == Some(State([], ps));
  }

  // ---------------------------------------------------------------------------
  // Part one
  // ---------------------------------------------------------------------------

  /** A block's first two lines, as packets; a block of one line throws. */
  function PairOf(block: string): Option<(Packet, Packet)>
  {
    var lines := Split(block, '\n');
    if |lines| < 2 then None
    else
      match (Parsed(lines[0]), Parsed(lines[1]))
      case (Some(l), Some(r)) => Some((l, r))
      case _ => None
  }

  /** 1 + 2 + ... + n. */
  function Triangle(n: nat): nat
  {
    if n == 0 then 0 else Triangle(n - 1) + n
  }

  /** The sum of the 1-based indices of the pairs whose comparison is not 1. */
  function Score(pairs: seq<(Packet, Packet)>): (r: int)
    ensures 0 <= r <= Triangle(|pairs|)
  {
    if pairs == [] then 0
    else
      var n := |pairs|;
      Score(pairs[..n - 1]) + (if Compare(pairs[n - 1].0, pairs[n - 1].1) != 1 then n else 0)
  }

  /** The sum of the 1-based indices of the pairs that compare equal. */
  function Ties(pairs: seq<(Packet, Packet)>): int
  {
    if pairs == [] then 0
    else
      var n := |pairs|;
      Ties(pairs[..n - 1]) + (if Compare(pairs[n - 1].0, pairs[n - 1].1) == 0 then n else 0)
  }

  function Swapped(pairs: seq<(Packet, Packet)>): (r: seq<(Packet, Packet)>)
    ensures |r| == |pairs| && forall i :: 0 <= i < |pairs| ==> r[i] == (pairs[i].1, pairs[i].0)
  {
    seq(|pairs|, i requires 0 <= i < |pairs| => (pairs[i].1, pairs[i].0))
  }

  /** The blank-line separated blocks of the input. */
  function Blocks(input: string): (r: seq<string>)
    ensures |r| >= 1
  {
    SplitOn(input, "\n\n")
  }

  /** Every block holds a pair of packets. */
  predicate AllPairs(blocks: seq<string>) {
    forall i :: 0 <= i < |blocks| ==> PairOf(blocks[i]).Some?
  }

  function PartOne(input: string): (r: Option<int>)
    ensures r.Some? <==> AllPairs(Blocks(input))
    ensures r.Some? ==> 0 <= r.value <= Triangle(|Blocks(input)|)
  {
    match Extensions.ParseAs(Blocks(input), PairOf)
    case None => None
    case Some(pairs) => Some(Score(pairs))
  }

  /** The score reaches its maximum exactly when every pair is in order. */
  lemma {:induction false} ScoreAllInOrder(pairs: seq<(Packet, Packet)>)
    ensures Score(pairs) == Triangle(|pairs|) <==>
      forall i :: 0 <= i < |pairs| ==> Compare(pairs[i].0, pairs[i].1) != 1
    decreases |pairs|
  {
    if pairs != [] {
      var n := |pairs|;
      ScoreAllInOrder(pairs[..n - 1]);
      InOrderSnoc(pairs, pairs[..n - 1]);
    }
  }

  /** Every pair is in order exactly when the ones before the last are and the
      last one is. */
  lemma InOrderSnoc(pairs: seq<(Packet, Packet)>, init: seq<(Packet, Packet)>)
    requires pairs != [] && init == pairs[..|pairs| - 1]
    ensures (forall i :: 0 <= i < |pairs| ==> Compare(pairs[i].0, pairs[i].1) != 1) <==>
      (forall i :: 0 <= i < |init| ==> Compare(init[i].0, init[i].1) != 1) &&
      Compare(pairs[|pairs| - 1].0, pairs[|pairs| - 1].1) != 1
  {
    assert forall i :: 0 <= i < |init| ==> init[i] == pairs[i];
  }

  /** Every pair is in order one way round or the other, and both ways round
      exactly when it compares equal: the scores of the pairs and of the
      swapped pairs add up to every index plus the ties. */
  lemma {:induction false} ScoreSwapped(pairs: seq<(Packet, Packet)>)
    ensures Score(pairs) + Score(Swapped(pairs)) == Triangle(|pairs|) + Ties(pairs)
    decreases |pairs|
  {
    if pairs != [] {
      var n := |pairs|;
      assert Swapped(pairs)[..n - 1] == Swapped(pairs[..n - 1]);
      ScoreSwapped(pairs[..n - 1]);
      CompareFlip(pairs[n - 1].0, pairs[n - 1].1);
    }
  }

  // ---------------------------------------------------------------------------
  // Part two
  // ---------------------------------------------------------------------------

  const Divider2: Packet := List([List([Int(2)])])
  const Divider6: Packet := List([List([Int(6)])])

  /** The non-empty lines, then the two divider lines. */
  function PacketLines(input: string): (r: seq<string>)
    ensures |r| >= 2 && r[|r| - 2] == "[[2]]" && r[|r| - 1] == "[[6]]"
  {
    Filter(Split(input, '\n'), (l: string) => l != []) + ["[[2]]", "[[6]]"]
  }

  predicate IsDivider(p: Packet)
  {
    Show(p) == "[[2]]" || Show(p) == "[[6]]"
  }

  /** The product of the 1-based positions of the packets shown as a divider. */
  function DecoderKey(sorted: seq<Packet>): (r: int)
    ensures r >= 1
  {
    if sorted == [] then 1
    else
      var n := |sorted|;
      DecoderKey(sorted[..n - 1]) * (if IsDivider(sorted[n - 1]) then n else 1)
  }

  function PartTwo(input: string): (r: Option<int>)
    ensures r.Some? <==> forall i :: 0 <= i < |PacketLines(input)| ==> Parsed(PacketLines(input)[i]).Some?
    ensures r.Some? ==> r.value >= 1
  {
    match Extensions.ParseAs(PacketLines(input), Parsed)
    case None => None
    case Some(packets) => Some(DecoderKey(SortBy(packets, Compare)))
  }

  /** The divider lines parse to the dividers, which show as those lines. */
  lemma Dividers()
    ensures Parsed("[[2]]") == Some(Divider2) && Parsed("[[6]]") == Some(Divider6)
    ensures Show(Divider2) == "[[2]]" && Show(Divider6) == "[[6]]"
    ensures Compare(Divider2, Divider6) == -1
  {
    DividerShow(2);
    DividerShow(6);
    assert DigitChar(2) == '2' && DigitChar(6) == '6';
    assert "[[" + ['2'] + "]]" == "[[2]]" && "[[" + ['6'] + "]]" == "[[6]]";
  }

  lemma DividerShow(n: nat)
    requires 0 < n < 10
    ensures Parsed("[[" + [DigitChar(n)] + "]]") == Some(List([List([Int(n)])]))
    ensures Show(List([List([Int(n)])])) == "[[" + [DigitChar(n)] + "]]"
  {
    var d := [DigitChar(n)];
    assert NatToString(n) == d;
    assert IntToString(n) == d;
    assert Shows([Int(n)]) == [d];
    assert Show(List([Int(n)])) == "[" + d + "]";
    assert Shows([List([Int(n)])]) == ["[" + d + "]"];
    assert SmallAll([Int(n)]) by {
      assert [Int(n)][1..] == [] && SmallAll([]) && Small(Int(n));
    }
    assert SmallAll([List([Int(n)])]) by {
      assert [List([Int(n)])][1..] == [] && SmallAll([]) && Small(List([Int(n)]));
    }
    assert Join([d], ",") == d;
    assert Join(["[" + d + "]"], ",") == "[" + d + "]";
    assert Show(List([List([Int(n)])])) == "[" + ("[" + d + "]") + "]" == "[[" + d + "]]";
    ParseShow([List([Int(n)])]);
  }

  /** Part two sorts a permutation of the packets, the dividers among them,
      so that no packet is greater than the next. */
  lemma PartTwoSorted(input: string, packets: seq<Packet>)
    requires Extensions.ParseAs(PacketLines(input), Parsed) == Some(packets)
    ensures PartTwo(input) == Some(DecoderKey(SortBy(packets, Compare)))
    ensures multiset(SortBy(packets, Compare)) == multiset(packets)
    ensures Divider2 in SortBy(packets, Compare) && Divider6 in SortBy(packets, Compare)
    ensures SortedBy(SortBy(packets, Compare), Compare)
  {
    var lines := PacketLines(input);
    Dividers();
    assert Parsed(lines[|lines| - 2]) == Some(packets[|lines| - 2]);
    assert Parsed(lines[|lines| - 1]) == Some(packets[|lines| - 1]);
    var sorted := SortBy(packets, Compare);
    assert Divider2 in multiset(sorted) && Divider6 in multiset(sorted);
    assert Antisymmetric(packets, Compare) by {
      forall a, b | a in packets && b in packets && Compare(a, b) >= 0 ensures Compare(b, a) <= 0 {
        CompareFlip(a, b);
      }
    }
    SortBySorted(packets, Compare);
  }

  /** With no divider, the key is 1. */
  lemma {:induction false} KeyNone(s: seq<Packet>)
    requires forall k :: 0 <= k < |s| ==> !IsDivider(s[k])
    ensures DecoderKey(s) == 1
    decreases |s|
  {
    if s != [] {
      KeyNone(s[..|s| - 1]);
    }
  }

  /** With one divider at `i`, the key is its position. */
  lemma {:induction false} KeyOne(s: seq<Packet>, i: nat)
    requires i < |s| && IsDivider(s[i])
    requires forall k :: 0 <= k < |s| && k != i ==> !IsDivider(s[k])
    ensures DecoderKey(s) == i + 1
    decreases |s|
  {
    var n := |s|;
    if i == n - 1 {
      KeyNone(s[..n - 1]);
    } else {
      KeyOne(s[..n - 1], i);
    }
  }

  /** With dividers at `i` and `j` only, as when the input holds none, the key
      is the product of their positions. */
  lemma {:induction false} KeyTwo(s: seq<Packet>, i: nat, j: nat)
    requires i < j < |s| && IsDivider(s[i]) && IsDivider(s[j])
    requires forall k :: 0 <= k < |s| && k != i && k != j ==> !IsDivider(s[k])
    ensures DecoderKey(s) == (i + 1) * (j + 1)
    decreases |s|
  {
    var n := |s|;
    if j == n - 1 {
      KeyOne(s[..n - 1], i);
    } else {
      KeyTwo(s[..n - 1], i, j);
    }
  }
}
