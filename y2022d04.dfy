/** Camp cleanup: pairs of section ranges, counted when one contains the
    other (part one) or when they overlap (part two). */
module Y2022D04 {
  import opened Wrappers
  import opened Seqs
  import opened Strings
  import InputHelpers
  import Extensions

  datatype Assignment = Assignment(e1Min: int, e1Max: int, e2Min: int, e2Max: int)

  /** The numbers of a line: split on ',', each piece split on '-'. */
  function Fields(line: string): seq<string>
  {
    Flatten(seq(|Split(line, ',')|, i requires 0 <= i < |Split(line, ',')| => Split(Split(line, ',')[i], '-')))
  }

  /** A line becomes the first four numbers; None when a field is not a number
      or there are fewer than four (the array index throws). */
  function ParseAssignment(line: string): (r: Option<Assignment>)
    ensures r.Some? <==> (Extensions.ParseAs(Fields(line), ParseInt).Some? &&
      |Extensions.ParseAs(Fields(line), ParseInt).value| >= 4)
    ensures r.Some? ==> var v := Extensions.ParseAs(Fields(line), ParseInt).value;
      r.value == Assignment(v[0], v[1], v[2], v[3])
  {
    match Extensions.ParseAs(Fields(line), ParseInt)
    case None => None
    case Some(values) =>
      if |values| < 4 then None else Some(Assignment(values[0], values[1], values[2], values[3]))
  }

  /** One range lies within the other: every section of one is a section of
      the other. */
  predicate Contains(a: Assignment)
    ensures Contains(a) ==>
      (forall s :: InRange(s, a.e2Min, a.e2Max) ==> InRange(s, a.e1Min, a.e1Max)) ||
      (forall s :: InRange(s, a.e1Min, a.e1Max) ==> InRange(s, a.e2Min, a.e2Max))
  {
    (a.e1Min <= a.e2Min && a.e1Max >= a.e2Max) || (a.e2Min <= a.e1Min && a.e2Max >= a.e1Max)
  }

  /** The ranges share a section; ranges that do not overlap have no
      section in common. */
  predicate Overlaps(a: Assignment)
    ensures !Overlaps(a) ==> forall s :: !(InRange(s, a.e1Min, a.e1Max) && InRange(s, a.e2Min, a.e2Max))
  {
    a.e1Max >= a.e2Min && a.e2Max >= a.e1Min
  }

  function Swap(a: Assignment): Assignment
  {
    Assignment(a.e2Min, a.e2Max, a.e1Min, a.e1Max)
  }

  /** Both tests are symmetric in the two elves. */
  lemma TestsSymmetric(a: Assignment)
    ensures Contains(a) <==> Contains(Swap(a))
    ensures Overlaps(a) <==> Overlaps(Swap(a))
  {
  }

  /** With well-formed ranges, containment implies overlap. */
  lemma ContainsOverlaps(a: Assignment)
    requires a.e1Min <= a.e1Max && a.e2Min <= a.e2Max
    ensures Contains(a) ==> Overlaps(a)
  {
  }

  /** Overlap holds exactly when some section lies in both ranges. */
  lemma OverlapsShareSection(a: Assignment)
    requires a.e1Min <= a.e1Max && a.e2Min <= a.e2Max
    ensures Overlaps(a) <==> exists s :: InRange(s, a.e1Min, a.e1Max) && InRange(s, a.e2Min, a.e2Max)
  {
    if Overlaps(a) {
      var s := if a.e1Min >= a.e2Min then a.e1Min else a.e2Min;
      assert InRange(s, a.e1Min, a.e1Max) && InRange(s, a.e2Min, a.e2Max);
    }
  }

  predicate InRange(s: int, lo: int, hi: int)
  {
    lo <= s <= hi
  }

  /** How many pairs contain one another. */
  function CountContains(pairs: seq<Assignment>): (r: nat)
    ensures r <= |pairs|
  {
    if pairs == [] then 0
    else CountContains(pairs[..|pairs| - 1]) + (if Contains(pairs[|pairs| - 1]) then 1 else 0)
  }

  /** How many pairs overlap. */
  function CountOverlaps(pairs: seq<Assignment>): (r: nat)
    ensures r <= |pairs|
  {
    if pairs == [] then 0
    else CountOverlaps(pairs[..|pairs| - 1]) + (if Overlaps(pairs[|pairs| - 1]) then 1 else 0)
  }

  /** With well-formed ranges, every containing pair also overlaps, so part one
      never exceeds part two. */
  lemma {:induction false} ContainsAtMostOverlaps(pairs: seq<Assignment>)
    requires forall i :: 0 <= i < |pairs| ==> pairs[i].e1Min <= pairs[i].e1Max && pairs[i].e2Min <= pairs[i].e2Max
    ensures CountContains(pairs) <= CountOverlaps(pairs)
  {
    if pairs != [] {
      ContainsAtMostOverlaps(pairs[..|pairs| - 1]);
      ContainsOverlaps(pairs[|pairs| - 1]);
    }
  }

  function Pairs(input: string): Option<seq<Assignment>>
  {
    Extensions.ParseAs(InputHelpers.AsLines(input), ParseAssignment)
  }

  /** Part one: the pairs where one range contains the other. */
  function SolvePartOne(input: string): (r: Option<nat>)
    ensures r.None? <==> Pairs(input).None?
    ensures r.Some? ==> r.value == CountContains(Pairs(input).value) <= |InputHelpers.AsLines(input)|
  {
    match Pairs(input)
    case None => None
    case Some(pairs) => Some(CountContains(pairs))
  }

  /** Part two: the pairs whose ranges overlap. */
  function SolvePartTwo(input: string): (r: Option<nat>)
    ensures r.None? <==> Pairs(input).None?
    ensures r.Some? ==> r.value == CountOverlaps(Pairs(input).value) <= |InputHelpers.AsLines(input)|
  {
    match Pairs(input)
    case None => None
    case Some(pairs) => Some(CountOverlaps(pairs))
  }

  /** Part one is at most part two when every range is well formed. */
  lemma PartOneAtMostPartTwo(input: string)
    requires Pairs(input).Some?
    requires forall i :: 0 <= i < |Pairs(input).value| ==>
      Pairs(input).value[i].e1Min <= Pairs(input).value[i].e1Max &&
      Pairs(input).value[i].e2Min <= Pairs(input).value[i].e2Max
    ensures SolvePartOne(input).value <= SolvePartTwo(input).value
  {
    ContainsAtMostOverlaps(Pairs(input).value);
  }
}
