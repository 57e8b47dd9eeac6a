/** Mirage maintenance: extrapolating a history through its table of
    differences. */
module Y2023D09 {
  import opened Wrappers
  import opened Seqs
  import opened Strings
  import Extensions

  /** Consecutive differences: one element fewer than the input. */
  function Difference(list: seq<int>): (r: seq<int>)
    ensures |list| >= 1 ==> |r| == |list| - 1
    ensures list == [] ==> r == []
    ensures forall i {:trigger r[i]} :: 0 <= i < |r| ==> r[i] == list[i + 1] - list[i]
  {
    if |list| <= 1 then [] else seq(|list| - 1, i requires 0 <= i < |list| - 1 => list[i + 1] - list[i])
  }

  /** The loop of the source: ret receives list[i + 1] - list[i] for each i. */
  method CalculateDifference(list: seq<int>) returns (ret: seq<int>)
    ensures ret == Difference(list)
  {
    ret := [];
    var i := 0;
    while i < |list| - 1
      invariant i == 0 || i < |list|
      invariant |ret| == i
      invariant forall k :: 0 <= k < i ==> ret[k] == list[k + 1] - list[k]
    {
      ret := ret + [list[i + 1] - list[i]];
      i := i + 1;
    }
    assert |ret| == |Difference(list)|;
  }

  /** No element is non-zero (LINQ Any(i => i != 0) is false). */
  predicate AllZero(list: seq<int>)
  {
    forall i :: 0 <= i < |list| ==> list[i] == 0
  }

  /** The table of differences: the history, then the difference of the last
      row, until a row with no non-zero element. */
  function DiffRows(list: seq<int>): (rows: seq<seq<int>>)
    ensures |rows| >= 1 && rows[0] == list
    ensures AllZero(rows[|rows| - 1])
    ensures |rows| <= |list| + 1
    decreases |list|
  {
    if AllZero(list) then [list]
    else
      var rest := DiffRows(Difference(list));
      var rows := [list] + rest;
      assert rows[|rows| - 1] == rest[|rest| - 1];
      rows
  }

  /** Row `k` has a non-zero element and row `k + 1` is its difference. */
  predicate Step(rows: seq<seq<int>>, k: int)
    requires 0 <= k < |rows| - 1
  {
    !AllZero(rows[k]) && rows[k + 1] == Difference(rows[k])
  }

  /** Every row but the last has a non-zero element, and each row after the
      first is the difference of the one before. */
  lemma {:induction false} DiffRowsSteps(list: seq<int>)
    ensures forall k :: 0 <= k < |DiffRows(list)| - 1 ==> Step(DiffRows(list), k)
    decreases |list|
  {
    if !AllZero(list) {
      var rest := DiffRows(Difference(list));
      var rows := DiffRows(list);
      assert rows == [list] + rest;
      DiffRowsSteps(Difference(list));
      assert Step(rows, 0);
      forall k | 1 <= k < |rows| - 1 ensures Step(rows, k) {
        assert Step(rest, k - 1);
        assert rows[k] == rest[k - 1] && rows[k + 1] == rest[k];
      }
    }
  }

  /** The while loop of the source, appending rows until the last has no
      non-zero element. */
  method CalculateDiffSequence(list: seq<int>) returns (rows: seq<seq<int>>)
    ensures rows == DiffRows(list)
  {
    ghost var table := DiffRows(list);
    DiffRowsSteps(list);
    rows := [list];
    while !AllZero(rows[|rows| - 1])
      invariant 1 <= |rows| <= |table|
      invariant rows == table[..|rows|]
      decreases |table| - |rows|
    {
      var last := rows[|rows| - 1];
      assert Step(table, |rows| - 1);
      var next := CalculateDifference(last);
      assert next == table[|rows|];
      rows := rows + [next];
    }
    assert |rows| - 1 < |table| - 1 ==> Step(table, |rows| - 1);
  }

  /** The sum of the last elements of the rows; None when a row is empty
      (Last throws). */
  function SumOfLasts(rows: seq<seq<int>>): (r: Option<int>)
    ensures r.Some? <==> forall k :: 0 <= k < |rows| ==> rows[k] != []
  {
    if rows == [] then Some(0)
    else
      assert forall k :: 0 <= k < |rows| - 1 ==> rows[..|rows| - 1][k] == rows[k];
      match SumOfLasts(rows[..|rows| - 1])
      case None => None
      case Some(s) =>
        var last := rows[|rows| - 1];
        if last == [] then None else Some(s + last[|last| - 1])
  }

  /** The next value of a history: the sum of the last elements of its table;
      None when some row of the table is empty, the empty history included. */
  function Prediction(list: seq<int>): (r: Option<int>)
    ensures r.Some? <==> forall k :: 0 <= k < |DiffRows(list)| ==> DiffRows(list)[k] != []
    ensures r.Some? ==> list != []
  {
    assert SumOfLasts(DiffRows(list)).Some? ==> DiffRows(list)[0] != [];
    SumOfLasts(DiffRows(list))
  }

  lemma {:induction false} SumOfLastsCons(row: seq<int>, rows: seq<seq<int>>)
    requires row != []
    ensures SumOfLasts([row] + rows) == match SumOfLasts(rows)
      case None => None
      case Some(s) => Some(row[|row| - 1] + s)
    decreases |rows|
  {
    if rows != [] {
      var all := [row] + rows;
      assert all[..|all| - 1] == [row] + rows[..|rows| - 1];
      SumOfLastsCons(row, rows[..|rows| - 1]);
    } else {
      assert ([row] + rows)[..0] == [];
    }
  }

  /** A history with a non-zero element predicts its last value plus the
      prediction for its differences. */
  lemma PredictionStep(list: seq<int>)
    requires !AllZero(list)
    ensures Prediction(list) == match Prediction(Difference(list))
      case None => None
      case Some(p) => Some(list[|list| - 1] + p)
  {
    DiffRowsCons(list);
    SumOfLastsCons(list, DiffRows(Difference(list)));
  }

  /** The table of a history with a non-zero element is the history on top
      of the table of its differences. */
  lemma DiffRowsCons(list: seq<int>)
    requires !AllZero(list)
    ensures list != [] && DiffRows(list) == [list] + DiffRows(Difference(list))
  {
  }

  /** Extrapolation keeps the table consistent: appending the prediction to a
      history appends the prediction of its differences to the differences. */
  lemma PredictionExtends(list: seq<int>)
    requires !AllZero(list) && Prediction(list).Some?
    ensures Prediction(Difference(list)).Some?
    ensures Difference(list + [Prediction(list).value]) ==
      Difference(list) + [Prediction(Difference(list)).value]
  {
    PredictionStep(list);
    var p := Prediction(list).value;
    var d := Difference(list);
    var e := Difference(list + [p]);
    assert |e| == |d| + 1;
    forall i | 0 <= i < |e| ensures e[i] == (d + [Prediction(d).value])[i] {
      if i < |d| {
        assert (list + [p])[i + 1] == list[i + 1];
      }
    }
  }

  /** A non-empty history of zeros predicts 0; an empty one has no prediction. */
  lemma PredictionOfZeros(list: seq<int>)
    requires AllZero(list)
    ensures list != [] ==> Prediction(list) == Some(0)
    ensures list == [] ==> Prediction(list).None?
  {
    assert DiffRows(list) == [list];
    assert [list][..0] == [];
    if list != [] {
      assert list[|list| - 1] == 0;
      assert SumOfLasts([list]) == Some(0 + list[|list| - 1]);
    }
  }

  /** A constant history predicts the same value again, provided there are
      two values or the constant is 0. */
  lemma ConstantPrediction(list: seq<int>, c: int)
    requires |list| >= 2 || (|list| == 1 && c == 0)
    requires forall i :: 0 <= i < |list| ==> list[i] == c
    ensures Prediction(list) == Some(c)
  {
    if c == 0 {
      PredictionOfZeros(list);
    } else {
      assert list[0] == c;
      var d := Difference(list);
      assert forall i :: 0 <= i < |d| ==> d[i] == 0;
      PredictionOfZeros(d);
      PredictionStep(list);
    }
  }

  /** A single non-zero value has no prediction: its difference row is empty
      and Last throws on it. */
  lemma SingleValueFails(x: int)
    requires x != 0
    ensures Prediction([x]).None?
  {
    assert [x][0] != 0;
    PredictionStep([x]);
    PredictionOfZeros(Difference([x]));
  }

  /** `list[i]` is `a + b * i` throughout. */
  predicate Arithmetic(list: seq<int>, a: int, b: int)
  {
    forall i :: 0 <= i < |list| ==> list[i] == a + b * i
  }

  /** The differences of an arithmetic history are its step. */
  lemma ArithmeticDifference(list: seq<int>, a: int, b: int)
    requires Arithmetic(list, a, b)
    ensures forall i :: 0 <= i < |Difference(list)| ==> Difference(list)[i] == b
  {
    var d := Difference(list);
    forall i | 0 <= i < |d| ensures d[i] == b {
      assert list[i] == a + b * i;
      assert list[i + 1] == a + b * (i + 1);
      NextTerm(a, b, i + 1);
    }
  }

  /** An arithmetic history `a + b * i` of at least three values continues
      with `a + b * n`. */
  lemma ArithmeticPrediction(list: seq<int>, a: int, b: int)
    requires |list| >= 3
    requires Arithmetic(list, a, b)
    ensures Prediction(list) == Some(a + b * |list|)
  {
    ArithmeticDifference(list, a, b);
    LastTerm(list, a, b);
    StepPrediction(list, b, a + b * |list|);
  }

  /** A history of three or more values whose differences are all `b`
      predicts its last value plus `b`. */
  lemma StepPrediction(list: seq<int>, b: int, v: int)
    requires |list| >= 3
    requires forall i :: 0 <= i < |Difference(list)| ==> Difference(list)[i] == b
    requires list[|list| - 1] + b == v
    ensures Prediction(list) == Some(v)
  {
    var d := Difference(list);
    assert |d| == |list| - 1;
    if AllZero(list) {
      assert d[0] == list[1] - list[0] == 0;
      PredictionOfZeros(list);
    } else {
      ConstantPrediction(d, b);
      PredictionFrom(list, b);
    }
  }

  /** A history whose differences predict `p` predicts its last value plus `p`. */
  lemma PredictionFrom(list: seq<int>, p: int)
    requires !AllZero(list) && Prediction(Difference(list)) == Some(p)
    ensures list != [] && Prediction(list) == Some(list[|list| - 1] + p)
  {
    PredictionStep(list);
  }

  /** The last value of an arithmetic history plus the step is its next term. */
  lemma LastTerm(list: seq<int>, a: int, b: int)
    requires |list| >= 1 && Arithmetic(list, a, b)
    ensures list[|list| - 1] + b == a + b * |list|
  {
    assert list[|list| - 1] == a + b * (|list| - 1);
    NextTerm(a, b, |list|);
  }

  lemma MulSplit(b: int, m: int, i: int)
    ensures b * (m - i) == b * m + (-b) * i
  {
  }

  lemma NextTerm(a: int, b: int, n: int)
    ensures a + b * (n - 1) + b == a + b * n
    ensures a + b * (n - 1) + (-b) * n == a - b
  {
  }

  /** Reversed, an arithmetic history is arithmetic with the opposite step. */
  lemma ReverseArithmetic(list: seq<int>, a: int, b: int)
    requires Arithmetic(list, a, b)
    ensures Arithmetic(Reverse(list), a + b * (|list| - 1), -b)
  {
    var r := Reverse(list);
    var n := |list|;
    forall i | 0 <= i < n ensures r[i] == (a + b * (n - 1)) + (-b) * i {
      assert r[i] == list[n - 1 - i] == a + b * (n - 1 - i);
      MulSplit(b, n - 1, i);
    }
  }

  /** Read backwards, the same arithmetic history continues with `a - b`: part
      two's extrapolation to the left. */
  lemma ArithmeticBackwards(list: seq<int>, a: int, b: int)
    requires |list| >= 3
    requires Arithmetic(list, a, b)
    ensures Prediction(Reverse(list)) == Some(a - b)
  {
    var n := |list|;
    var first := a + b * (n - 1);
    ReverseArithmetic(list, a, b);
    ArithmeticPrediction(Reverse(list), first, -b);
    BackStep(a, b, n, |Reverse(list)|);
  }

  lemma BackStep(a: int, b: int, n: int, m: int)
    requires m == n
    ensures (a + b * (n - 1)) + (-b) * m == a - b
  {
    NextTerm(a, b, n);
  }

  /** A line of space-separated integers. */
  function ParseHistory(line: string): Option<seq<int>>
  {
    Extensions.ParseAs(Split(line, ' '), ParseInt)
  }

  function Histories(input: string): Option<seq<seq<int>>>
  {
    Extensions.ParseAs(Extensions.AsLines(input), ParseHistory)
  }

  /** The prediction of every history. */
  function Predictions(histories: seq<seq<int>>): (r: seq<Option<int>>)
    ensures |r| == |histories| && forall k :: 0 <= k < |histories| ==> r[k] == Prediction(histories[k])
  {
    seq(|histories|, k requires 0 <= k < |histories| => Prediction(histories[k]))
  }

  /** The sum of the predictions; None when a history has none. */
  function SumPredictions(histories: seq<seq<int>>): (r: Option<int>)
    ensures r.Some? <==> forall k :: 0 <= k < |histories| ==> Prediction(histories[k]).Some?
    ensures r.Some? ==> r.value == Sum(Values(Predictions(histories)))
  {
    SumPresent(Predictions(histories))
  }

  /** Summing over two batches of histories together is summing each batch:
      the total exists exactly when both do, and is their sum. */
  lemma SumPredictionsAppend(a: seq<seq<int>>, b: seq<seq<int>>)
    ensures SumPredictions(a + b).Some? <==> SumPredictions(a).Some? && SumPredictions(b).Some?
    ensures SumPredictions(a + b).Some? ==>
      SumPredictions(a + b).value == SumPredictions(a).value + SumPredictions(b).value
  {
    var ab := a + b;
    assert forall k :: 0 <= k < |ab| ==> ab[k] == if k < |a| then a[k] else b[k - |a|];
    assert Predictions(ab) == Predictions(a) + Predictions(b);
    SumPresentAppend(Predictions(a), Predictions(b));
  }

  /** The histories read backwards. */
  function Reversed(histories: seq<seq<int>>): (r: seq<seq<int>>)
    ensures |r| == |histories|
    ensures forall k :: 0 <= k < |r| ==> r[k] == Reverse(histories[k])
  {
    seq(|histories|, k requires 0 <= k < |histories| => Reverse(histories[k]))
  }

  /** Part one: the sum of the predictions of every history. */
  function SolvePartOne(input: string): (r: Option<int>)
    ensures r.Some? <==> (Histories(input).Some? &&
      forall k :: 0 <= k < |Histories(input).value| ==> Prediction(Histories(input).value[k]).Some?)
    ensures r.Some? ==> r.value == Sum(Values(Predictions(Histories(input).value)))
  {
    match Histories(input)
    case None => None
    case Some(histories) => SumPredictions(histories)
  }

  /** Part two: the same on every history reversed. */
  function SolvePartTwo(input: string): (r: Option<int>)
    ensures r.Some? <==> (Histories(input).Some? &&
      forall k :: 0 <= k < |Histories(input).value| ==> Prediction(Reverse(Histories(input).value[k])).Some?)
    ensures r.Some? ==> r.value == Sum(Values(Predictions(Reversed(Histories(input).value))))
  {
    match Histories(input)
    case None => None
    case Some(histories) => SumPredictions(Reversed(histories))
  }
}
