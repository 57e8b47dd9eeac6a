/** Monkey in the Middle: each monkey inspects its items in queue order,
    computes a new worry level, tests it for divisibility and throws the item
    to one of two other monkeys. The answer ("monkey business") is the product
    of the two largest inspection counts. */
module Y2022D11 {
  import opened Wrappers
  import opened Strings
  import opened Seqs
  import opened Longs
  import InputHelpers
  import Extensions

  // ---------------------------------------------------------------------------
  // Monkeys as values
  // ---------------------------------------------------------------------------

  /** The fixed part of a monkey. The new worry is `worry op operand`, or
      `worry op worry` without an operand, divided by `relief`; the item goes to
      `ifTrue` when the new worry is divisible by `divisor`, else to `ifFalse`. */
  datatype Rule = Rule(op: char, operand: Option<int>, divisor: int, ifTrue: int, ifFalse: int, relief: int)

  /** The changing part of all the monkeys: each one's item queue, front first,
      and how many items each has inspected. */
  datatype Troop = Troop(items: seq<seq<int>>, counts: seq<int>)

  /** How worry is kept in range. `Checked(superMod)` is the program: checked
      64-bit arithmetic, with the forwarded worry reduced by C# `%` modulo
      `superMod`. `Unbounded` is the puzzle's own arithmetic on unbounded
      integers with no reduction. */
  datatype Arith = Checked(superMod: int) | Unbounded

  predicate Shaped(rules: seq<Rule>, t: Troop)
  {
    |t.items| == |rules| && |t.counts| == |rules|
  }

  /** No monkey throws to itself. The program would re-inspect such an item in
      the same turn, possibly forever; the model covers the troops without. */
  predicate NoSelfThrow(rules: seq<Rule>)
  {
    forall k :: 0 <= k < |rules| ==> rules[k].ifTrue != k && rules[k].ifFalse != k
  }

  /** C# `%` throws for a zero divisor and, on longs, for MinLong % -1. */
  predicate RemDefined(a: Arith, v: int, d: int)
  {
    d != 0 && (a.Checked? ==> !(v == MinLong && d == -1))
  }

  /** The worry after inspection and relief; None where the program throws: an
      operation other than '*' and '+', a zero relief, or (checked) a result
      outside the long range. */
  function NewWorry(r: Rule, a: Arith, worry: int): Option<int>
  {
    var other: int := if r.operand.Some? then r.operand.value else worry;
    var raw: int := if r.op == '*' then worry * other else worry + other;
    if r.op != '*' && r.op != '+' then None
    else if a.Checked? && !InLong(raw) then None
    else if r.relief == 0 then None
    else if a.Checked? && !InLong(Quot(raw, r.relief)) then None
    else Some(Quot(raw, r.relief))
  }

  /** One inspected item: the target monkey and the worry forwarded to it. */
  function Throw(r: Rule, a: Arith, worry: int): (t: Option<(int, int)>)
    ensures t.Some? <==> NewWorry(r, a, worry).Some? && RemDefined(a, NewWorry(r, a, worry).value, r.divisor)
                         && (a.Checked? ==> RemDefined(a, NewWorry(r, a, worry).value, a.superMod))
    ensures t.Some? ==> t.value.0 == if NewWorry(r, a, worry).value % r.divisor == 0 then r.ifTrue else r.ifFalse
    ensures t.Some? && a.Checked? ==> InLong(t.value.1) && Congruent(t.value.1, NewWorry(r, a, worry).value, a.superMod)
    ensures t.Some? && a.Unbounded? ==> t.value.1 == NewWorry(r, a, worry).value
  {
    match NewWorry(r, a, worry)
    case None => None
    case Some(v) =>
      if !RemDefined(a, v, r.divisor) then None
      else
        RemCongruent(v, r.divisor);
        var target: int := if Rem(v, r.divisor) == 0 then r.ifTrue else r.ifFalse;
        match a
        case Unbounded => Some((target, v))
        case Checked(m) =>
          if !RemDefined(a, v, m) then None
          else
            RemCongruent(v, m);
            Some((target, Rem(v, m)))
  }

  /** A whole turn of one monkey, `count` being its inspections so far: every
      item is dequeued in order and thrown; None where the program throws,
      including (checked) a count that would pass MaxLong. */
  function Inspection(r: Rule, a: Arith, count: int, items: seq<int>): (t: Option<seq<(int, int)>>)
    ensures t.Some? <==> (a.Checked? && items != [] ==> count + |items| <= MaxLong)
                         && forall i :: 0 <= i < |items| ==> Throw(r, a, items[i]).Some?
    ensures t.Some? ==> (|t.value| == |items| &&
      forall i :: 0 <= i < |items| ==> Throw(r, a, items[i]) == Some(t.value[i]))
    decreases |items|
  {
    if items == [] then Some([])
    else if a.Checked? && count >= MaxLong then None
    else
      assert forall i :: 1 <= i < |items| ==> items[i] == items[1..][i - 1];
      match (Throw(r, a, items[0]), Inspection(r, a, count + 1, items[1..]))
      case (Some(p), Some(ps)) => Some([p] + ps)
      case (_, _) => None
  }

  /** The worries thrown to monkey `m`, in throwing order. */
  function Sent(thrown: seq<(int, int)>, m: int): (s: seq<int>)
    ensures |s| <= |thrown|
  {
    if thrown == [] then []
    else (if thrown[0].0 == m then [thrown[0].1] else []) + Sent(thrown[1..], m)
  }

  /** The thrown items appended, in order, to their targets' queues; None when a
      target is not a monkey (IndexOutOfRangeException). Each item ends up on
      exactly one queue. */
  function Deliver(t: Troop, thrown: seq<(int, int)>): (r: Option<Troop>)
    requires |t.items| == |t.counts|
    ensures r.Some? <==> forall i :: 0 <= i < |thrown| ==> 0 <= thrown[i].0 < |t.items|
    ensures r.Some? ==> r.value.counts == t.counts && |r.value.items| == |t.items|
    decreases |thrown|
  {
    if thrown == [] then Some(t)
    else
      var (target, worry) := thrown[0];
      assert forall i :: 1 <= i < |thrown| ==> thrown[i] == thrown[1..][i - 1];
      if !(0 <= target < |t.items|) then None
      else Deliver(Troop(t.items[target := t.items[target] + [worry]], t.counts), thrown[1..])
  }

  /** Delivery appends to each queue exactly the worries thrown to it. */
  lemma {:induction false} DeliverQueues(t: Troop, thrown: seq<(int, int)>)
    requires |t.items| == |t.counts| && Deliver(t, thrown).Some?
    ensures forall m :: 0 <= m < |t.items| ==> Deliver(t, thrown).value.items[m] == t.items[m] + Sent(thrown, m)
    decreases |thrown|
  {
    if thrown != [] {
      var (target, worry) := thrown[0];
      var t' := Troop(t.items[target := t.items[target] + [worry]], t.counts);
      DeliverQueues(t', thrown[1..]);
      forall m | 0 <= m < |t.items|
        ensures Deliver(t, thrown).value.items[m] == t.items[m] + Sent(thrown, m)
      {
        if m == target {
          assert t.items[m] + [worry] + Sent(thrown[1..], m) == t.items[m] + ([worry] + Sent(thrown[1..], m));
        } else {
          assert Sent(thrown, m) == [] + Sent(thrown[1..], m);
        }
      }
    }
  }

  /** Monkey `k`'s turn: its queue is emptied, its count grows by the number of
      items it held, and the items go to their targets. */
  function Turn(rules: seq<Rule>, a: Arith, t: Troop, k: nat): (r: Option<Troop>)
    requires Shaped(rules, t) && k < |rules|
    ensures r.Some? ==> Shaped(rules, r.value)
    ensures r.Some? ==> r.value.counts == t.counts[k := t.counts[k] + |t.items[k]|]
  {
    match Inspection(rules[k], a, t.counts[k], t.items[k])
    case None => None
    case Some(thrown) => Deliver(Troop(t.items[k := []], t.counts[k := t.counts[k] + |t.items[k]|]), thrown)
  }

  /** The troop after the turns of monkeys 0 .. j-1, in index order. */
  function TurnsUpTo(rules: seq<Rule>, a: Arith, t: Troop, j: nat): (r: Option<Troop>)
    requires Shaped(rules, t) && j <= |rules|
    ensures r.Some? ==> Shaped(rules, r.value)
  {
    if j == 0 then Some(t)
    else
      match TurnsUpTo(rules, a, t, j - 1)
      case None => None
      case Some(s) => Turn(rules, a, s, j - 1)
  }

  /** One round: every monkey takes its turn, in index order. */
  function Round(rules: seq<Rule>, a: Arith, t: Troop): (r: Option<Troop>)
    requires Shaped(rules, t)
    ensures r.Some? ==> Shaped(rules, r.value)
  {
    TurnsUpTo(rules, a, t, |rules|)
  }

  /** `n` rounds. */
  function Rounds(rules: seq<Rule>, a: Arith, t: Troop, n: nat): (r: Option<Troop>)
    requires Shaped(rules, t)
    ensures r.Some? ==> Shaped(rules, r.value)
  {
    if n == 0 then Some(t)
    else
      match Rounds(rules, a, t, n - 1)
      case None => None
      case Some(s) => Round(rules, a, s)
  }

  // ---------------------------------------------------------------------------
  // What a turn and a round do
  // ---------------------------------------------------------------------------

  function Lengths(qs: seq<seq<int>>): (r: seq<int>)
    ensures |r| == |qs| && forall i :: 0 <= i < |qs| ==> r[i] == |qs[i]|
  {
    seq(|qs|, i requires 0 <= i < |qs| => |qs[i]|)
  }

  /** The number of items held by all the monkeys together. */
  function Total(qs: seq<seq<int>>): int
  {
    Sum(Lengths(qs))
  }

  lemma TotalUpdate(qs: seq<seq<int>>, k: nat, x: seq<int>)
    requires k < |qs|
    ensures Total(qs[k := x]) == Total(qs) - |qs[k]| + |x|
  {
    assert Lengths(qs[k := x]) == Lengths(qs)[k := |x|];
    SumUpdate(Lengths(qs), k, |x|);
  }

  /** Delivering adds exactly the thrown items to the queues. */
  lemma {:induction false} DeliverTotal(t: Troop, thrown: seq<(int, int)>)
    requires |t.items| == |t.counts| && Deliver(t, thrown).Some?
    ensures Total(Deliver(t, thrown).value.items) == Total(t.items) + |thrown|
    decreases |thrown|
  {
    if thrown != [] {
      var (target, worry) := thrown[0];
      TotalUpdate(t.items, target, t.items[target] + [worry]);
      DeliverTotal(Troop(t.items[target := t.items[target] + [worry]], t.counts), thrown[1..]);
    }
  }

  /** Every target a monkey throws to is one of its two targets. */
  lemma InspectionTargets(r: Rule, a: Arith, count: int, items: seq<int>, i: int)
    requires Inspection(r, a, count, items).Some? && 0 <= i < |items|
    ensures Inspection(r, a, count, items).value[i].0 in {r.ifTrue, r.ifFalse}
  {
    assert Throw(r, a, items[i]) == Some(Inspection(r, a, count, items).value[i]);
  }

  lemma {:induction false} SentNone(thrown: seq<(int, int)>, m: int)
    requires forall i :: 0 <= i < |thrown| ==> thrown[i].0 != m
    ensures Sent(thrown, m) == []
    decreases |thrown|
  {
    if thrown != [] {
      assert forall i :: 0 <= i < |thrown[1..]| ==> thrown[1..][i] == thrown[i + 1];
      SentNone(thrown[1..], m);
    }
  }

  /** A turn conserves the items: the monkey's queue ends empty (no monkey
      throws to itself), every other queue gains exactly what was thrown to it,
      no item is created or lost, and the monkey's count grows by the number of
      items it held. */
  lemma TurnMovesItems(rules: seq<Rule>, a: Arith, t: Troop, k: nat)
    requires Shaped(rules, t) && k < |rules| && NoSelfThrow(rules) && Turn(rules, a, t, k).Some?
    ensures Turn(rules, a, t, k).value.items[k] == []
    ensures forall m :: 0 <= m < |rules| && m != k ==> t.items[m] <= Turn(rules, a, t, k).value.items[m]
    ensures Total(Turn(rules, a, t, k).value.items) == Total(t.items)
    ensures Sum(Turn(rules, a, t, k).value.counts) == Sum(t.counts) + |t.items[k]|
  {
    TurnEmpties(rules, a, t, k);
    forall m | 0 <= m < |rules| && m != k
      ensures t.items[m] <= Turn(rules, a, t, k).value.items[m]
    {
      TurnOther(rules, a, t, k, m);
    }
    TurnTotals(rules, a, t, k);
  }

  /** A monkey that never throws to itself ends its turn empty-handed. */
  lemma TurnEmpties(rules: seq<Rule>, a: Arith, t: Troop, k: nat)
    requires Shaped(rules, t) && k < |rules| && NoSelfThrow(rules) && Turn(rules, a, t, k).Some?
    ensures Turn(rules, a, t, k).value.items[k] == []
  {
    var thrown := Inspection(rules[k], a, t.counts[k], t.items[k]).value;
    var emptied := Troop(t.items[k := []], t.counts[k := t.counts[k] + |t.items[k]|]);
    DeliverQueues(emptied, thrown);
    forall i | 0 <= i < |thrown| ensures thrown[i].0 != k {
      InspectionTargets(rules[k], a, t.counts[k], t.items[k], i);
    }
    SentNone(thrown, k);
  }

  /** A turn keeps the number of items and adds the items held to the counts. */
  lemma TurnTotals(rules: seq<Rule>, a: Arith, t: Troop, k: nat)
    requires Shaped(rules, t) && k < |rules| && Turn(rules, a, t, k).Some?
    ensures Total(Turn(rules, a, t, k).value.items) == Total(t.items)
    ensures Sum(Turn(rules, a, t, k).value.counts) == Sum(t.counts) + |t.items[k]|
  {
    var thrown := Inspection(rules[k], a, t.counts[k], t.items[k]).value;
    var emptied := Troop(t.items[k := []], t.counts[k := t.counts[k] + |t.items[k]|]);
    assert |thrown| == |t.items[k]|;
    DeliverTotal(emptied, thrown);
    TotalUpdate(t.items, k, []);
    SumUpdate(t.counts, k, t.counts[k] + |t.items[k]|);
  }

  /** A round conserves the number of items held by the troop. */
  lemma {:induction false} TurnsConserve(rules: seq<Rule>, a: Arith, t: Troop, j: nat)
    requires Shaped(rules, t) && j <= |rules| && NoSelfThrow(rules) && TurnsUpTo(rules, a, t, j).Some?
    ensures Total(TurnsUpTo(rules, a, t, j).value.items) == Total(t.items)
  {
    if j > 0 {
      TurnsConserve(rules, a, t, j - 1);
      TurnMovesItems(rules, a, TurnsUpTo(rules, a, t, j - 1).value, j - 1);
    }
  }

  /** Monkeys act in index order. Before monkey `j`'s turn its queue has only
      grown, by what earlier monkeys of the same round threw to it, and its count
      is untouched; its turn counts everything it then holds, so an item thrown
      to a later monkey is inspected in the same round. */
  lemma {:induction false} TurnsInOrder(rules: seq<Rule>, a: Arith, t: Troop, i: nat, j: nat)
    requires Shaped(rules, t) && i <= |rules| && j < |rules| && TurnsUpTo(rules, a, t, i).Some?
    ensures i <= j ==> t.items[j] <= TurnsUpTo(rules, a, t, i).value.items[j]
    ensures i <= j ==> TurnsUpTo(rules, a, t, i).value.counts[j] == t.counts[j]
    ensures j < i ==> (TurnsUpTo(rules, a, t, j).Some? &&
      TurnsUpTo(rules, a, t, i).value.counts[j] == t.counts[j] + |TurnsUpTo(rules, a, t, j).value.items[j]|)
  {
    if i > 0 {
      var s := TurnsUpTo(rules, a, t, i - 1).value;
      TurnsInOrder(rules, a, t, i - 1, j);
      assert TurnsUpTo(rules, a, t, i) == Turn(rules, a, s, i - 1);
      if i - 1 != j {
        TurnOther(rules, a, s, i - 1, j);
        if i <= j {
          PrefixTrans(t.items[j], s.items[j], Turn(rules, a, s, i - 1).value.items[j]);
        }
      }
    }
  }

  /** Another monkey's turn only appends to monkey `j`'s queue and leaves its
      count alone. */
  lemma TurnOther(rules: seq<Rule>, a: Arith, s: Troop, k: nat, j: nat)
    requires Shaped(rules, s) && k < |rules| && j < |rules| && k != j && Turn(rules, a, s, k).Some?
    ensures s.items[j] <= Turn(rules, a, s, k).value.items[j]
    ensures Turn(rules, a, s, k).value.counts[j] == s.counts[j]
  {
    var thrown := Inspection(rules[k], a, s.counts[k], s.items[k]).value;
    var emptied := Troop(s.items[k := []], s.counts[k := s.counts[k] + |s.items[k]|]);
    DeliverQueues(emptied, thrown);
    assert Turn(rules, a, s, k).value.items[j] == s.items[j] + Sent(thrown, j);
  }

  lemma PrefixTrans(x: seq<int>, y: seq<int>, z: seq<int>)
    requires x <= y && y <= z
    ensures x <= z
  {
    assert forall i :: 0 <= i < |x| ==> x[i] == y[i] == z[i];
  }

  /** What a round does to monkey `j`: it inspects its initial items and
      everything monkeys before it threw to it in this round. */
  lemma RoundCounts(rules: seq<Rule>, a: Arith, t: Troop, j: nat)
    requires Shaped(rules, t) && j < |rules| && Round(rules, a, t).Some?
    ensures TurnsUpTo(rules, a, t, j).Some?
    ensures t.items[j] <= TurnsUpTo(rules, a, t, j).value.items[j]
    ensures Round(rules, a, t).value.counts[j] == t.counts[j] + |TurnsUpTo(rules, a, t, j).value.items[j]|
  {
    TurnsInOrder(rules, a, t, |rules|, j);
    TurnsInOrder(rules, a, t, j, j);
  }

  /** Rounds conserve the number of items. */
  lemma {:induction false} RoundsConserve(rules: seq<Rule>, a: Arith, t: Troop, n: nat)
    requires Shaped(rules, t) && NoSelfThrow(rules) && Rounds(rules, a, t, n).Some?
    ensures Total(Rounds(rules, a, t, n).value.items) == Total(t.items)
  {
    if n > 0 {
      RoundsConserve(rules, a, t, n - 1);
      TurnsConserve(rules, a, Rounds(rules, a, t, n - 1).value, |rules|);
    }
  }

  // ---------------------------------------------------------------------------
  // The SuperMod reduction of part two
  // ---------------------------------------------------------------------------

  /** `m` can stand for SuperMod: relief is 1 and every divisor divides `m`. */
  predicate Reduces(rules: seq<Rule>, m: int)
  {
    m != 0 && forall k :: 0 <= k < |rules| ==> rules[k].relief == 1 && rules[k].divisor != 0 && m % rules[k].divisor == 0
  }

  /** Two worry lists that agree modulo `m`, position by position. */
  predicate CongruentSeqs(x: seq<int>, y: seq<int>, m: int)
    requires m != 0
  {
    |x| == |y| && forall i :: 0 <= i < |x| ==> Congruent(x[i], y[i], m)
  }

  /** Two troops with the same counts whose queues agree modulo `m`. */
  predicate Similar(t1: Troop, t2: Troop, m: int)
    requires m != 0
  {
    t1.counts == t2.counts && |t1.items| == |t2.items| &&
    forall k :: 0 <= k < |t1.items| ==> CongruentSeqs(t1.items[k], t2.items[k], m)
  }

  /** Two lists of throws with the same targets and congruent worries. */
  predicate Matching(ps1: seq<(int, int)>, ps2: seq<(int, int)>, m: int)
    requires m != 0
  {
    |ps1| == |ps2| && forall i :: 0 <= i < |ps1| ==> ps1[i].0 == ps2[i].0 && Congruent(ps1[i].1, ps2[i].1, m)
  }

  /** With relief 1, '*' and '+' respect congruence modulo `m`. */
  lemma WorryCongruent(r: Rule, m: int, w1: int, w2: int)
    requires r.relief == 1 && m != 0 && Congruent(w1, w2, m) && NewWorry(r, Checked(m), w1).Some?
    ensures NewWorry(r, Unbounded, w2).Some?
    ensures Congruent(NewWorry(r, Checked(m), w1).value, NewWorry(r, Unbounded, w2).value, m)
  {
    var o1: int := if r.operand.Some? then r.operand.value else w1;
    var o2: int := if r.operand.Some? then r.operand.value else w2;
    var raw1: int := if r.op == '*' then w1 * o1 else w1 + o1;
    var raw2: int := if r.op == '*' then w2 * o2 else w2 + o2;
    QuotOne(raw1);
    QuotOne(raw2);
    if r.op == '*' {
      if r.operand.Some? {
        CongruentMul(w1, w2, o1, m);
      } else {
        CongruentMul(w1, w2, w1, m);
        CongruentMul(w1, w2, w2, m);
        assert w2 * w1 == w1 * w2;
        CongruentTrans(w1 * w1, w2 * w1, w2 * w2, m);
      }
    } else if r.operand.Some? {
      assert raw1 - raw2 == w1 - w2;
    } else {
      CongruentMul(w1, w2, 2, m);
      assert raw1 == w1 * 2 && raw2 == w2 * 2;
    }
  }

  /** Congruent worries are thrown to the same monkey, with congruent worries. */
  lemma ThrowCongruent(r: Rule, m: int, w1: int, w2: int)
    requires r.relief == 1 && m != 0 && r.divisor != 0 && m % r.divisor == 0
    requires Congruent(w1, w2, m) && Throw(r, Checked(m), w1).Some?
    ensures Throw(r, Unbounded, w2).Some?
    ensures Throw(r, Checked(m), w1).value.0 == Throw(r, Unbounded, w2).value.0
    ensures Congruent(Throw(r, Checked(m), w1).value.1, Throw(r, Unbounded, w2).value.1, m)
  {
    WorryCongruent(r, m, w1, w2);
    var v1 := NewWorry(r, Checked(m), w1).value;
    var v2 := NewWorry(r, Unbounded, w2).value;
    CongruentDivisor(v1, v2, m, r.divisor);
    CongruentDivisible(v1, v2, r.divisor);
    CongruentTrans(Throw(r, Checked(m), w1).value.1, v1, v2, m);
  }

  lemma InspectionCongruent(r: Rule, m: int, count: int, items1: seq<int>, items2: seq<int>)
    requires r.relief == 1 && m != 0 && r.divisor != 0 && m % r.divisor == 0
    requires CongruentSeqs(items1, items2, m) && Inspection(r, Checked(m), count, items1).Some?
    ensures Inspection(r, Unbounded, count, items2).Some?
    ensures Matching(Inspection(r, Checked(m), count, items1).value, Inspection(r, Unbounded, count, items2).value, m)
  {
    forall i | 0 <= i < |items2| ensures Throw(r, Unbounded, items2[i]).Some? {
      ThrowCongruent(r, m, items1[i], items2[i]);
    }
    forall i | 0 <= i < |items1|
      ensures Throw(r, Checked(m), items1[i]).value.0 == Throw(r, Unbounded, items2[i]).value.0
      ensures Congruent(Throw(r, Checked(m), items1[i]).value.1, Throw(r, Unbounded, items2[i]).value.1, m)
    {
      ThrowCongruent(r, m, items1[i], items2[i]);
    }
  }

  lemma {:induction false} DeliverSimilar(t1: Troop, t2: Troop, ps1: seq<(int, int)>, ps2: seq<(int, int)>, m: int)
    requires m != 0 && |t1.items| == |t1.counts| && |t2.items| == |t2.counts|
    requires Similar(t1, t2, m) && Matching(ps1, ps2, m) && Deliver(t1, ps1).Some?
    ensures Deliver(t2, ps2).Some? && Similar(Deliver(t1, ps1).value, Deliver(t2, ps2).value, m)
    decreases |ps1|
  {
    if ps1 != [] {
      var (target, w1) := ps1[0];
      var w2 := ps2[0].1;
      var u1 := Troop(t1.items[target := t1.items[target] + [w1]], t1.counts);
      var u2 := Troop(t2.items[target := t2.items[target] + [w2]], t2.counts);
      assert CongruentSeqs(t1.items[target] + [w1], t2.items[target] + [w2], m);
      assert Similar(u1, u2, m);
      assert Matching(ps1[1..], ps2[1..], m);
      DeliverSimilar(u1, u2, ps1[1..], ps2[1..], m);
    }
  }

  lemma TurnSimilar(rules: seq<Rule>, m: int, t1: Troop, t2: Troop, k: nat)
    requires Reduces(rules, m) && Shaped(rules, t1) && Shaped(rules, t2) && k < |rules|
    requires Similar(t1, t2, m) && Turn(rules, Checked(m), t1, k).Some?
    ensures Turn(rules, Unbounded, t2, k).Some?
    ensures Similar(Turn(rules, Checked(m), t1, k).value, Turn(rules, Unbounded, t2, k).value, m)
  {
    InspectionCongruent(rules[k], m, t1.counts[k], t1.items[k], t2.items[k]);
    var e1 := Troop(t1.items[k := []], t1.counts[k := t1.counts[k] + |t1.items[k]|]);
    var e2 := Troop(t2.items[k := []], t2.counts[k := t2.counts[k] + |t2.items[k]|]);
    assert Similar(e1, e2, m);
    DeliverSimilar(e1, e2, Inspection(rules[k], Checked(m), t1.counts[k], t1.items[k]).value,
                   Inspection(rules[k], Unbounded, t2.counts[k], t2.items[k]).value, m);
  }

  lemma {:induction false} TurnsSimilar(rules: seq<Rule>, m: int, t1: Troop, t2: Troop, j: nat)
    requires Reduces(rules, m) && Shaped(rules, t1) && Shaped(rules, t2) && j <= |rules|
    requires Similar(t1, t2, m) && TurnsUpTo(rules, Checked(m), t1, j).Some?
    ensures TurnsUpTo(rules, Unbounded, t2, j).Some?
    ensures Similar(TurnsUpTo(rules, Checked(m), t1, j).value, TurnsUpTo(rules, Unbounded, t2, j).value, m)
  {
    if j > 0 {
      TurnsSimilar(rules, m, t1, t2, j - 1);
      TurnSimilar(rules, m, TurnsUpTo(rules, Checked(m), t1, j - 1).value,
                  TurnsUpTo(rules, Unbounded, t2, j - 1).value, j - 1);
    }
  }

  /** The reduction is sound: when every divisor divides `m` and relief is 1,
      the program's rounds with worry reduced modulo `m` succeed only if the
      puzzle's unbounded rounds do, with the same inspection counts and worries
      congruent modulo `m`. */
  lemma {:induction false} ReductionSound(rules: seq<Rule>, m: int, t1: Troop, t2: Troop, n: nat)
    requires Reduces(rules, m) && Shaped(rules, t1) && Shaped(rules, t2)
    requires Similar(t1, t2, m) && Rounds(rules, Checked(m), t1, n).Some?
    ensures Rounds(rules, Unbounded, t2, n).Some?
    ensures Similar(Rounds(rules, Checked(m), t1, n).value, Rounds(rules, Unbounded, t2, n).value, m)
  {
    if n > 0 {
      ReductionSound(rules, m, t1, t2, n - 1);
      TurnsSimilar(rules, m, Rounds(rules, Checked(m), t1, n - 1).value,
                   Rounds(rules, Unbounded, t2, n - 1).value, |rules|);
    }
  }

  /** Every factor divides the product. */
  lemma {:induction false} DividesProduct(s: seq<int>, i: nat)
    requires i < |s| && s[i] != 0
    ensures Product(s) % s[i] == 0
  {
    var init := s[..|s| - 1];
    if i == |s| - 1 {
      assert Product(s) - 0 == s[i] * Product(init);
      MultipleCongruent(Product(s), 0, s[i], Product(init));
    } else {
      assert init[i] == s[i];
      DividesProduct(init, i);
      CongruentMul(Product(init), 0, s[|s| - 1], s[i]);
    }
  }

  /** A product of non-zero factors is non-zero. */
  lemma {:induction false} ProductNonZero(s: seq<int>)
    requires forall i :: 0 <= i < |s| ==> s[i] != 0
    ensures Product(s) != 0
  {
    if s != [] {
      ProductNonZero(s[..|s| - 1]);
      AbsMul(Product(s[..|s| - 1]), s[|s| - 1]);
      MulMono(Abs(Product(s[..|s| - 1])), Abs(s[|s| - 1]));
    }
  }

  // ---------------------------------------------------------------------------
  // Monkey business
  // ---------------------------------------------------------------------------

  /** The two largest counts, largest first (OrderByDescending, then Take(2)). */
  function TopTwo(counts: seq<int>): (r: seq<int>)
    ensures |r| == if |counts| < 2 then |counts| else 2
  {
    var sorted := SortBy(counts, Descending);
    sorted[..if |sorted| < 2 then |sorted| else 2]
  }

  /** TopTwo keeps two of the counts (all of them when there are fewer) and
      every count it leaves out is at most each count it keeps. */
  lemma TopTwoLargest(counts: seq<int>)
    ensures multiset(TopTwo(counts)) <= multiset(counts)
    ensures forall x, y :: x in multiset(counts) - multiset(TopTwo(counts)) && y in TopTwo(counts) ==> x <= y
  {
    var sorted := SortBy(counts, Descending);
    DescendingAntisymmetric(counts);
    SortBySorted(counts, Descending);
    var r := TopTwo(counts);
    var rest := sorted[|r|..];
    assert sorted == r + rest;
    assert multiset(counts) - multiset(r) == multiset(rest);
    forall x, y | x in multiset(rest) && y in r ensures x <= y {
      assert x in rest;
      DescendingSplit(sorted, |r|, x, y);
    }
  }

  /** In a descending sequence nothing after a cut exceeds anything before it. */
  lemma DescendingSplit(sorted: seq<int>, k: nat, x: int, y: int)
    requires SortedBy(sorted, Descending) && k <= |sorted|
    requires x in sorted[k..] && y in sorted[..k]
    ensures x <= y
  {
    var i :| k <= i < |sorted| && sorted[i] == x;
    var j :| 0 <= j < k && sorted[j] == y;
    DescendingSortedAll(sorted, j, i);
  }

  /** The answer: the product of the two largest counts, folded by an
      unchecked Aggregate, so it wraps past the long range. */
  function Business(counts: seq<int>): int
  {
    UncheckedProduct(TopTwo(counts))
  }

  // ---------------------------------------------------------------------------
  // Parsing
  // ---------------------------------------------------------------------------

  /** One starting item: a comma-separated field, trimmed, as a long. */
  function ParseItem(field: string): Option<int>
  {
    ParseLong(Trim(field, Whitespace()))
  }

  /** One monkey's block, read at the program's fixed columns: the items from
      column 18 of line 1, the operation at column 23 of line 2 and its operand
      from column 25 (anything that is not a long, such as "old", means the
      worry itself), the divisor from column 21 of line 3 and the targets from
      columns 29 and 30 of lines 4 and 5. A missing line or a short line is an
      exception (None). */
  function ParseMonkey(block: string, relief: int): (r: Option<(Rule, seq<int>)>)
    ensures r.Some? ==> r.value.0.relief == relief
    ensures r.Some? ==> forall i :: 0 <= i < |r.value.1| ==> InLong(r.value.1[i])
  {
    var lines := InputHelpers.AsLines(block);
    if |lines| < 6 || |lines[1]| < 18 || |lines[2]| < 25 || |lines[3]| < 21 || |lines[4]| < 29 || |lines[5]| < 30 then None
    else
      var items := Extensions.ParseAs(Split(lines[1][18..], ','), ParseItem);
      var divisor := ParseLong(lines[3][21..]);
      var ifTrue := ParseInt32(lines[4][29..]);
      var ifFalse := ParseInt32(lines[5][30..]);
      if items.None? || divisor.None? || ifTrue.None? || ifFalse.None? then None
      else
        var rule := Rule(lines[2][23], ParseLong(lines[2][25..]), divisor.value, ifTrue.value, ifFalse.value, relief);
        assert forall i :: 0 <= i < |items.value| ==> ParseItem(Split(lines[1][18..], ',')[i]) == Some(items.value[i]);
        Some((rule, items.value))
  }

  /** The monkeys of the input: blocks separated by a blank line. */
  function Parse(input: string, relief: int): (r: Option<seq<(Rule, seq<int>)>>)
    ensures r.Some? ==> forall k :: 0 <= k < |r.value| ==> r.value[k].0.relief == relief
  {
    var blocks := SplitOn(input, "\n\n");
    var r := Extensions.ParseAs(blocks, (b: string) => ParseMonkey(b, relief));
    assert r.Some? ==> forall k :: 0 <= k < |r.value| ==> ParseMonkey(blocks[k], relief) == Some(r.value[k]);
    r
  }

  function RulesOf(ps: seq<(Rule, seq<int>)>): (rules: seq<Rule>)
    ensures |rules| == |ps| && forall k :: 0 <= k < |ps| ==> rules[k] == ps[k].0
  {
    seq(|ps|, k requires 0 <= k < |ps| => ps[k].0)
  }

  /** The troop as parsed: the starting items, and no inspections yet. */
  function Start(ps: seq<(Rule, seq<int>)>): (t: Troop)
    ensures Shaped(RulesOf(ps), t)
    ensures forall k :: 0 <= k < |ps| ==> t.items[k] == ps[k].1 && t.counts[k] == 0
  {
    Troop(seq(|ps|, k requires 0 <= k < |ps| => ps[k].1), seq(|ps|, k => 0))
  }

  function Divisors(rules: seq<Rule>): (ds: seq<int>)
    ensures |ds| == |rules| && forall k :: 0 <= k < |rules| ==> ds[k] == rules[k].divisor
  {
    seq(|rules|, k requires 0 <= k < |rules| => rules[k].divisor)
  }

  /** Part two's SuperMod: the divisors multiplied by an unchecked Aggregate. */
  function SuperModOf(rules: seq<Rule>): int
  {
    UncheckedProduct(Divisors(rules))
  }

  /** The answer after `n` rounds of `Parse(input, relief)` under `a`. */
  function Answer(input: string, relief: int, a: Arith, n: nat): Option<int>
  {
    match Parse(input, relief)
    case None => None
    case Some(ps) => Outcome(ps, a, n)
  }

  /** The answer after `n` rounds of the parsed monkeys `ps` under `a`. */
  function Outcome(ps: seq<(Rule, seq<int>)>, a: Arith, n: nat): Option<int>
  {
    match Rounds(RulesOf(ps), a, Start(ps), n)
    case None => None
    case Some(t) => Some(Business(t.counts))
  }

  /** The input parses and all `n` rounds run without an exception. */
  predicate Plays(input: string, relief: int, a: Arith, n: nat) {
    Parse(input, relief).Some? &&
    Rounds(RulesOf(Parse(input, relief).value), a, Start(Parse(input, relief).value), n).Some?
  }

  /** Part one: relief 3, 20 rounds, worry reduced modulo the current SuperMod
      (MaxLong unless part two has run before in the same process). */
  function PartOne(input: string, superMod: int): (r: Option<int>)
    ensures r.Some? <==> Plays(input, 3, Checked(superMod), 20)
  {
    Answer(input, 3, Checked(superMod), 20)
  }

  /** Part two: relief 1, 10000 rounds, worry reduced modulo the product of the
      divisors. */
  function PartTwo(input: string): (r: Option<int>)
    ensures r.Some? <==> (Parse(input, 1).Some? &&
      Plays(input, 1, Checked(SuperModOf(RulesOf(Parse(input, 1).value))), 10000))
  {
    match Parse(input, 1)
    case None => None
    case Some(ps) => Answer(input, 1, Checked(SuperModOf(RulesOf(ps))), 10000)
  }

  /** Part two computes the puzzle's own answer: when every divisor is non-zero
      and their product fits in a long, reducing worry modulo that product
      gives the same inspection counts as unbounded worry. */
  lemma PartTwoIsUnbounded(input: string)
    requires Parse(input, 1).Some?
    requires forall k :: 0 <= k < |Parse(input, 1).value| ==> Parse(input, 1).value[k].0.divisor != 0
    requires InLong(Product(Divisors(RulesOf(Parse(input, 1).value))))
    requires PartTwo(input).Some?
    ensures Answer(input, 1, Unbounded, 10000) == PartTwo(input)
  {
    var ps := Parse(input, 1).value;
    var rules := RulesOf(ps);
    var ds := Divisors(rules);
    var m := SuperModOf(rules);
    assert m == Product(ds);
    ProductNonZero(ds);
    forall k | 0 <= k < |rules| ensures m % rules[k].divisor == 0 {
      DividesProduct(ds, k);
    }
    assert Reduces(rules, m);
    ReductionSound(rules, m, Start(ps), Start(ps), 10000);
  }

  // ---------------------------------------------------------------------------
  // The program's monkeys
  // ---------------------------------------------------------------------------

  function Prepend(done: seq<(int, int)>, rest: Option<seq<(int, int)>>): Option<seq<(int, int)>>
  {
    match rest
    case None => None
    case Some(ps) => Some(done + ps)
  }

  lemma PrependNothing(rest: Option<seq<(int, int)>>)
    ensures Prepend([], rest) == rest
  {
    if rest.Some? {
      assert [] + rest.value == rest.value;
    }
  }

  /** Inspecting the front item: the turn fails if the count is at MaxLong
      (checked) or the item's throw fails, and otherwise goes on with the rest. */
  lemma InspectionStep(r: Rule, a: Arith, count: int, items: seq<int>, done: seq<(int, int)>)
    requires items != []
    ensures a.Checked? && count >= MaxLong ==> Inspection(r, a, count, items).None?
    ensures Throw(r, a, items[0]).None? ==> Inspection(r, a, count, items).None?
    ensures (a.Checked? ==> count < MaxLong) && Throw(r, a, items[0]).Some? ==>
      Prepend(done, Inspection(r, a, count, items))
      == Prepend(done + [Throw(r, a, items[0]).value], Inspection(r, a, count + 1, items[1..]))
  {
    var rest := Inspection(r, a, count + 1, items[1..]);
    if rest.Some? && Throw(r, a, items[0]).Some? {
      assert done + ([Throw(r, a, items[0]).value] + rest.value) == done + [Throw(r, a, items[0]).value] + rest.value;
    }
  }

  /** A monkey: its rule never changes; its queue and its count do. */
  class Monkey {
    const rule: Rule
    var items: seq<int>
    var inspected: int

    constructor (rule: Rule, items: seq<int>)
      ensures this.rule == rule && this.items == items && inspected == 0
    {
      this.rule := rule;
      this.items := items;
      inspected := 0;
    }

    /** Dequeues every item, counting each one, and returns where each goes and
        with what worry, in order; None where the program throws, after
        dequeuing the item that caused it. */
    method InspectItems(superMod: int) returns (thrown: Option<seq<(int, int)>>)
      modifies this
      ensures thrown == Inspection(rule, Checked(superMod), old(inspected), old(items))
      ensures thrown.Some? ==> items == [] && inspected == old(inspected) + |old(items)|
      ensures thrown.None? ==> |items| < |old(items)| && items == old(items)[|old(items)| - |items|..]
    {
      var out: seq<(int, int)> := [];
      PrependNothing(Inspection(rule, Checked(superMod), inspected, items));
      while items != []
        invariant |out| <= |old(items)| && items == old(items)[|out|..]
        invariant inspected == old(inspected) + |out|
        invariant Inspection(rule, Checked(superMod), old(inspected), old(items))
               == Prepend(out, Inspection(rule, Checked(superMod), inspected, items))
        decreases |items|
      {
        var t := InspectFront(superMod, out);
        if t.None? {
          return None;
        }
        out := out + [t.value];
      }
      assert out + [] == out;
      return Some(out);
    }

    /** Dequeues and inspects the front item. On success the throws so far,
        `done`, grow by its throw; on failure the whole turn fails. */
    method InspectFront(superMod: int, ghost done: seq<(int, int)>) returns (t: Option<(int, int)>)
      requires items != []
      modifies this
      ensures items == old(items)[1..]
      ensures t.None? ==> Inspection(rule, Checked(superMod), old(inspected), old(items)).None?
      ensures t.Some? ==> inspected == old(inspected) + 1
      ensures t.Some? ==> Prepend(done, Inspection(rule, Checked(superMod), old(inspected), old(items)))
                          == Prepend(done + [t.value], Inspection(rule, Checked(superMod), inspected, items))
    {
      var worry := items[0];
      InspectionStep(rule, Checked(superMod), inspected, items, done);
      items := items[1..];
      if inspected >= MaxLong {
        return None;
      }
      inspected := inspected + 1;
      t := Throw(rule, Checked(superMod), worry);
    }
  }

  /** The monkeys are distinct objects. The program's array of monkeys is
      never written after parsing, so it is a sequence of references here. */
  predicate Separate(ms: seq<Monkey>)
  {
    forall i, j :: 0 <= i < |ms| && 0 <= j < |ms| && i != j ==> ms[i] != ms[j]
  }

  function Rules(ms: seq<Monkey>): (rules: seq<Rule>)
    ensures |rules| == |ms| && forall k :: 0 <= k < |ms| ==> rules[k] == ms[k].rule
  {
    seq(|ms|, k requires 0 <= k < |ms| => ms[k].rule)
  }

  /** The queues and counts the monkeys hold. */
  function Snapshot(ms: seq<Monkey>): (t: Troop)
    reads ms
    ensures |t.items| == |ms| && |t.counts| == |ms|
    ensures forall k :: 0 <= k < |ms| ==> t.items[k] == ms[k].items && t.counts[k] == ms[k].inspected
  {
    Troop(seq(|ms|, k requires 0 <= k < |ms| reads ms => ms[k].items),
          seq(|ms|, k requires 0 <= k < |ms| reads ms => ms[k].inspected))
  }

  /** The monkeys hold the queues and counts of `t`. */
  predicate Mirrors(ms: seq<Monkey>, t: Troop)
    reads ms
  {
    |t.items| == |ms| && |t.counts| == |ms| &&
    forall k :: 0 <= k < |ms| ==> ms[k].items == t.items[k] && ms[k].inspected == t.counts[k]
  }

  lemma MirrorsSnapshot(ms: seq<Monkey>, t: Troop)
    requires Mirrors(ms, t)
    ensures Snapshot(ms) == t
  {
  }

  /** A failed turn fails every later stage of the round. */
  lemma {:induction false} TurnsFail(rules: seq<Rule>, a: Arith, t: Troop, j: nat, i: nat)
    requires Shaped(rules, t) && j <= i <= |rules| && TurnsUpTo(rules, a, t, j).None?
    ensures TurnsUpTo(rules, a, t, i).None?
    decreases i - j
  {
    if j < i {
      TurnsFail(rules, a, t, j + 1, i);
    }
  }

  lemma {:induction false} RoundsFail(rules: seq<Rule>, a: Arith, t: Troop, j: nat, i: nat)
    requires Shaped(rules, t) && j <= i && Rounds(rules, a, t, j).None?
    ensures Rounds(rules, a, t, i).None?
    decreases i - j
  {
    if j < i {
      RoundsFail(rules, a, t, j + 1, i);
    }
  }

  /** ParseMonkeys: one new monkey per parsed block. */
  method Build(ps: seq<(Rule, seq<int>)>) returns (ms: seq<Monkey>)
    ensures |ms| == |ps| && Separate(ms)
    ensures forall k :: 0 <= k < |ms| ==> fresh(ms[k])
    ensures Rules(ms) == RulesOf(ps) && Snapshot(ms) == Start(ps)
  {
    ms := [];
    for k := 0 to |ps|
      invariant |ms| == k
      invariant forall i :: 0 <= i < k ==> fresh(ms[i])
      invariant forall i :: 0 <= i < k ==> ms[i].rule == ps[i].0 && ms[i].items == ps[i].1 && ms[i].inspected == 0
      invariant forall i, j :: 0 <= i < k && 0 <= j < k && i != j ==> ms[i] != ms[j]
    {
      var m := new Monkey(ps[k].0, ps[k].1);
      ms := ms + [m];
    }
  }

  /** One round: each monkey takes its turn, in index order. */
  method PlayRound(ms: seq<Monkey>, superMod: int) returns (ok: bool)
    requires Separate(ms) && NoSelfThrow(Rules(ms))
    modifies ms
    ensures ok <==> Round(Rules(ms), Checked(superMod), old(Snapshot(ms))).Some?
    ensures ok ==> Snapshot(ms) == Round(Rules(ms), Checked(superMod), old(Snapshot(ms))).value
  {
    ghost var t0 := Snapshot(ms);
    ghost var last;
    ok, last := PlayTurns(ms, superMod, t0);
    if ok {
      MirrorsSnapshot(ms, last);
    }
  }

  /** The turns of one round from troop `t0`, which the monkeys mirror. */
  method PlayTurns(ms: seq<Monkey>, superMod: int, ghost t0: Troop) returns (ok: bool, ghost last: Troop)
    requires Separate(ms) && Mirrors(ms, t0)
    modifies ms
    ensures ok <==> TurnsUpTo(Rules(ms), Checked(superMod), t0, |ms|).Some?
    ensures ok ==> TurnsUpTo(Rules(ms), Checked(superMod), t0, |ms|) == Some(last) && Mirrors(ms, last)
  {
    last := t0;
    var k := 0;
    while k < |ms|
      invariant 0 <= k <= |ms|
      invariant TurnsUpTo(Rules(ms), Checked(superMod), t0, k) == Some(last) && Mirrors(ms, last)
    {
      ghost var next;
      ok, next := Advance(ms, superMod, k, t0, last);
      if !ok {
        return;
      }
      last := next;
      k := k + 1;
    }
    ok := true;
  }

  /** The turn of monkey `k` within a round that has reached `cur`; when it
      fails, so does the round. */
  method Advance(ms: seq<Monkey>, superMod: int, k: nat, ghost t0: Troop, ghost cur: Troop)
    returns (ok: bool, ghost next: Troop)
    requires Separate(ms) && k < |ms| && Shaped(Rules(ms), t0)
    requires TurnsUpTo(Rules(ms), Checked(superMod), t0, k) == Some(cur) && Mirrors(ms, cur)
    modifies ms
    ensures !ok ==> TurnsUpTo(Rules(ms), Checked(superMod), t0, |ms|).None?
    ensures ok ==> TurnsUpTo(Rules(ms), Checked(superMod), t0, k + 1) == Some(next) && Mirrors(ms, next)
  {
    ok := TakeTurn(ms, superMod, k, cur);
    next := TurnStep(Rules(ms), Checked(superMod), t0, k, cur);
  }

  lemma TurnsNext(rules: seq<Rule>, a: Arith, t0: Troop, k: nat, cur: Troop)
    requires Shaped(rules, t0) && k < |rules| && TurnsUpTo(rules, a, t0, k) == Some(cur)
    ensures TurnsUpTo(rules, a, t0, k + 1) == Turn(rules, a, cur, k)
  {
  }

  /** Extending the turns of a round by one more. */
  lemma TurnStep(rules: seq<Rule>, a: Arith, t0: Troop, k: nat, cur: Troop) returns (next: Troop)
    requires Shaped(rules, t0) && k < |rules| && TurnsUpTo(rules, a, t0, k) == Some(cur)
    ensures Turn(rules, a, cur, k).None? ==> TurnsUpTo(rules, a, t0, |rules|).None?
    ensures Turn(rules, a, cur, k).Some? ==> TurnsUpTo(rules, a, t0, k + 1) == Some(next) == Turn(rules, a, cur, k)
  {
    TurnsNext(rules, a, t0, k, cur);
    if Turn(rules, a, cur, k).Some? {
      next := Turn(rules, a, cur, k).value;
    } else {
      next := cur;
      TurnsFail(rules, a, t0, k + 1, |rules|);
    }
  }

  /** Monkey `k`'s turn: it inspects all its items, and each item is
      enqueued on its target as soon as it is thrown. */
  method TakeTurn(ms: seq<Monkey>, superMod: int, k: nat, ghost cur: Troop) returns (ok: bool)
    requires Separate(ms) && k < |ms| && Mirrors(ms, cur)
    modifies ms
    ensures ok <==> Turn(Rules(ms), Checked(superMod), cur, k).Some?
    ensures ok ==> Mirrors(ms, Turn(Rules(ms), Checked(superMod), cur, k).value)
  {
    var thrown := Inspect(ms, superMod, k, cur);
    if thrown.None? {
      return false;
    }
    ghost var emptied := Troop(cur.items[k := []], cur.counts[k := cur.counts[k] + |cur.items[k]|]);
    ok := Enqueue(ms, thrown.value, emptied);
  }

  /** Monkey `k` inspects all its items; the others are untouched. */
  method Inspect(ms: seq<Monkey>, superMod: int, k: nat, ghost cur: Troop) returns (thrown: Option<seq<(int, int)>>)
    requires Separate(ms) && k < |ms| && Mirrors(ms, cur)
    modifies ms[k]
    ensures thrown == Inspection(ms[k].rule, Checked(superMod), cur.counts[k], cur.items[k])
    ensures thrown.Some? ==> Mirrors(ms, Troop(cur.items[k := []], cur.counts[k := cur.counts[k] + |cur.items[k]|]))
  {
    thrown := ms[k].InspectItems(superMod);
    if thrown.Some? {
      forall i | 0 <= i < |ms| && i != k
        ensures ms[i].items == cur.items[i] && ms[i].inspected == cur.counts[i]
      {
        assert ms[i] != ms[k];
      }
    }
  }

  /** Each thrown item is enqueued on its target, in order. */
  method Enqueue(ms: seq<Monkey>, thrown: seq<(int, int)>, ghost cur: Troop) returns (ok: bool)
    requires Separate(ms) && Mirrors(ms, cur)
    modifies ms
    ensures ok <==> Deliver(cur, thrown).Some?
    ensures ok ==> Mirrors(ms, Deliver(cur, thrown).value)
  {
    ghost var now := cur;
    var j := 0;
    while j < |thrown|
      invariant 0 <= j <= |thrown|
      invariant Mirrors(ms, now)
      invariant Deliver(cur, thrown) == Deliver(now, thrown[j..])
    {
      var (target, worry) := thrown[j];
      if !(0 <= target < |ms|) {
        return false;
      }
      ms[target].items := ms[target].items + [worry];
      assert thrown[j..][1..] == thrown[j + 1..];
      now := Troop(now.items[target := now.items[target] + [worry]], now.counts);
      assert Mirrors(ms, now) by {
        forall i | 0 <= i < |ms| && i != target
          ensures ms[i].items == now.items[i] && ms[i].inspected == now.counts[i]
        {
          assert ms[i] != ms[target];
        }
      }
      j := j + 1;
    }
    assert thrown[j..] == [];
    return true;
  }

  /** `n` rounds, one after another. */
  method PlayRounds(ms: seq<Monkey>, superMod: int, n: nat) returns (ok: bool)
    requires Separate(ms) && NoSelfThrow(Rules(ms))
    modifies ms
    ensures ok <==> Rounds(Rules(ms), Checked(superMod), old(Snapshot(ms)), n).Some?
    ensures ok ==> Snapshot(ms) == Rounds(Rules(ms), Checked(superMod), old(Snapshot(ms)), n).value
  {
    ghost var t0 := Snapshot(ms);
    var i := 0;
    while i < n
      invariant 0 <= i <= n
      invariant Rounds(Rules(ms), Checked(superMod), t0, i) == Some(Snapshot(ms))
    {
      ok := NextRound(ms, superMod, i, t0);
      if !ok {
        RoundsFail(Rules(ms), Checked(superMod), t0, i + 1, n);
        return;
      }
      i := i + 1;
    }
    ok := true;
  }

  /** Round `i + 1`, played on the monkeys holding the result of `i` rounds. */
  method NextRound(ms: seq<Monkey>, superMod: int, i: nat, ghost t0: Troop) returns (ok: bool)
    requires Separate(ms) && NoSelfThrow(Rules(ms)) && Shaped(Rules(ms), t0)
    requires Rounds(Rules(ms), Checked(superMod), t0, i) == Some(Snapshot(ms))
    modifies ms
    ensures ok <==> Rounds(Rules(ms), Checked(superMod), t0, i + 1).Some?
    ensures ok ==> Rounds(Rules(ms), Checked(superMod), t0, i + 1) == Some(Snapshot(ms))
  {
    ok := PlayRound(ms, superMod);
  }

  class Solution {
    /** The program's static SuperMod: it starts at MaxLong, part two sets it,
        and it persists for any later run in the same process. */
    var superMod: int

    constructor ()
      ensures superMod == MaxLong
    {
      superMod := MaxLong;
    }

    /** Part one: relief 3 and 20 rounds under the current SuperMod. */
    method SolvePartOne(input: string) returns (r: Option<int>)
      requires Parse(input, 3).Some? ==> NoSelfThrow(RulesOf(Parse(input, 3).value))
      ensures r == PartOne(input, superMod)
    {
      var parsed := Parse(input, 3);
      if parsed.None? {
        return None;
      }
      r := Simulate(parsed.value, 20);
    }

    /** Part two: relief 1, SuperMod set to the product of the divisors, and
        10000 rounds. */
    method SolvePartTwo(input: string) returns (r: Option<int>)
      requires Parse(input, 1).Some? ==> NoSelfThrow(RulesOf(Parse(input, 1).value))
      modifies this
      ensures r == PartTwo(input)
      ensures Parse(input, 1).None? ==> superMod == old(superMod)
      ensures Parse(input, 1).Some? ==> superMod == SuperModOf(RulesOf(Parse(input, 1).value))
    {
      var parsed := Parse(input, 1);
      if parsed.None? {
        return None;
      }
      superMod := SuperModOf(RulesOf(parsed.value));
      r := Simulate(parsed.value, 10000);
    }

    /** The monkeys of `ps` play `n` rounds; the answer is their monkey business. */
    method Simulate(ps: seq<(Rule, seq<int>)>, n: nat) returns (r: Option<int>)
      requires NoSelfThrow(RulesOf(ps))
      ensures r == Outcome(ps, Checked(superMod), n)
    {
      var ms := Build(ps);
      var ok := PlayRounds(ms, superMod, n);
      if !ok {
        return None;
      }
      r := Some(Business(Snapshot(ms).counts));
    }
  }
}
