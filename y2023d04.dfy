/** Scratchcards: winning numbers per card, points, and copies won of the
    following cards. */
module Y2023D04 {
  import opened Wrappers
  import opened Seqs
  import opened Strings
  import InputHelpers
  import Extensions

  datatype Card = Card(winners: seq<int>, numbers: seq<int>)

  /** The number of distinct winning numbers the card also holds. */
  function WinCount(card: Card): (r: nat)
    ensures r == |set x | x in card.winners && x in card.numbers|
  {
    var shared := Intersect(card.winners, card.numbers);
    DistinctCardinality(shared);
    assert (set x | x in shared) == (set x | x in card.winners && x in card.numbers);
    |shared|
  }

  function Pow2(n: nat): (r: nat)
    ensures r >= 1
  {
    if n == 0 then 1 else 2 * Pow2(n - 1)
  }

  /** The worth of a card: 0 without wins, else 2 to the power wins - 1. */
  function Points(wins: nat): (r: nat)
    ensures wins == 0 <==> r == 0
    ensures wins >= 1 ==> r == Pow2(wins - 1)
  {
    if wins > 0 then Pow2(wins - 1) else 0
  }

  /** The first win is worth one point and each further win doubles it. */
  lemma PointsDouble(wins: nat)
    requires wins >= 1
    ensures Points(1) == 1
    ensures Points(wins + 1) == 2 * Points(wins)
  {
  }

  /** The win counts of the cards, in order. */
  function Wins(cards: seq<Card>): (r: seq<nat>)
    ensures |r| == |cards|
    ensures forall i :: 0 <= i < |cards| ==> r[i] == WinCount(cards[i])
  {
    seq(|cards|, i requires 0 <= i < |cards| => WinCount(cards[i]))
  }

  /** Sum of the card points. */
  function TotalPoints(wins: seq<nat>): (r: nat)
    ensures r == 0 <==> forall i :: 0 <= i < |wins| ==> wins[i] == 0
    ensures forall i :: 0 <= i < |wins| ==> r >= Points(wins[i])
  {
    if wins == [] then 0
    else
      var init := wins[..|wins| - 1];
      assert forall i :: 0 <= i < |init| ==> init[i] == wins[i];
      TotalPoints(init) + Points(wins[|wins| - 1])
  }

  // ---------------------------------------------------------------------------
  // Copies (part two)
  // ---------------------------------------------------------------------------

  /** What cards before `i` add to the copies of card `j`: card `k` adds its
      own copies when `j` is among the `wins[k]` cards after it. */
  function Contribution(wins: seq<nat>, j: int, i: nat): (r: nat)
    requires i <= |wins|
    decreases i, 0
  {
    if i == 0 then 0
    else Contribution(wins, j, i - 1) + (if i - 1 < j <= i - 1 + wins[i - 1] then Copies(wins, i - 1) else 0)
  }

  /** The copies of card `j`: the original plus what earlier cards add. */
  function Copies(wins: seq<nat>, j: nat): (r: nat)
    requires j < |wins|
    ensures r >= 1
    decreases j, 1
  {
    1 + Contribution(wins, j, j)
  }

  /** Only cards before `j` add to it: cards from `j` on contribute nothing. */
  lemma {:induction false} ContributionSettles(wins: seq<nat>, j: nat, i: nat)
    requires j <= i <= |wins|
    ensures Contribution(wins, j, i) == Contribution(wins, j, j)
    decreases i
  {
    if i > j && i > 0 {
      ContributionSettles(wins, j, i - 1);
    }
  }

  /** The copies of every card. */
  function AllCopies(wins: seq<nat>): (r: seq<nat>)
    ensures |r| == |wins|
    ensures forall j :: 0 <= j < |wins| ==> r[j] == Copies(wins, j) >= 1
  {
    seq(|wins|, j requires 0 <= j < |wins| => Copies(wins, j))
  }

  lemma {:induction false} SumAtLeastOnes(s: seq<nat>)
    requires forall i :: 0 <= i < |s| ==> s[i] >= 1
    ensures Sum(s) >= |s|
  {
    if s != [] {
      SumAtLeastOnes(s[..|s| - 1]);
    }
  }

  /** Every card is held at least once, so the total is at least the number of cards. */
  lemma TotalAtLeastCards(wins: seq<nat>)
    ensures Sum(AllCopies(wins)) >= |wins|
  {
    SumAtLeastOnes(AllCopies(wins));
  }

  /** Without any wins every card is held exactly once. */
  lemma NoWinsNoCopies(wins: seq<nat>, j: nat)
    requires j < |wins|
    requires forall i :: 0 <= i < |wins| ==> wins[i] == 0
    ensures Copies(wins, j) == 1
  {
    NoWinsContribution(wins, j, j);
  }

  lemma {:induction false} NoWinsContribution(wins: seq<nat>, j: int, i: nat)
    requires i <= |wins|
    requires forall k :: 0 <= k < |wins| ==> wins[k] == 0
    ensures Contribution(wins, j, i) == 0
  {
    if i > 0 {
      NoWinsContribution(wins, j, i - 1);
    }
  }

  /** The nested loops of the source over an array of copy counts, all 1 at
      first: card `c` adds its count to the next `wins[c]` cards, clipped at
      the end. Each card's count is final once the loop reaches it. */
  method CountCopies(wins: seq<nat>) returns (cardMultiples: array<int>)
    ensures fresh(cardMultiples)
    ensures cardMultiples[..] == AllCopies(wins)
  {
    var n := |wins|;
    cardMultiples := new int[n](_ => 1);
    var cardIdx := 0;
    while cardIdx < n
      invariant 0 <= cardIdx <= n && cardMultiples.Length == n
      invariant forall j :: 0 <= j < cardIdx ==> cardMultiples[j] == Copies(wins, j)
      invariant forall j :: cardIdx <= j < n ==> cardMultiples[j] == 1 + Contribution(wins, j, cardIdx)
    {
      AddCopies(wins, cardMultiples, cardIdx);
      cardIdx := cardIdx + 1;
    }
  }

  /** The inner loop for card `c`. */
  method AddCopies(wins: seq<nat>, cardMultiples: array<int>, c: nat)
    requires c < |wins| == cardMultiples.Length
    requires forall j :: 0 <= j < c ==> cardMultiples[j] == Copies(wins, j)
    requires forall j :: c <= j < |wins| ==> cardMultiples[j] == 1 + Contribution(wins, j, c)
    modifies cardMultiples
    ensures forall j :: 0 <= j < c + 1 ==> cardMultiples[j] == Copies(wins, j)
    ensures forall j :: c + 1 <= j < |wins| ==> cardMultiples[j] == 1 + Contribution(wins, j, c + 1)
  {
    var n := |wins|;
    var winCount := wins[c];
    var d := c + 1;
    while d < c + winCount + 1 && d < n
      invariant c + 1 <= d <= n
      invariant d <= c + winCount + 1
      invariant cardMultiples[c] == Copies(wins, c)
      invariant forall j :: 0 <= j < c ==> cardMultiples[j] == Copies(wins, j)
      invariant forall j :: c + 1 <= j < d ==> cardMultiples[j] == 1 + Contribution(wins, j, c + 1)
      invariant forall j :: d <= j < n ==> cardMultiples[j] == 1 + Contribution(wins, j, c)
    {
      cardMultiples[d] := cardMultiples[d] + cardMultiples[c];
      d := d + 1;
    }
  }

  /** The numbers of one side of a card: the non-empty pieces between spaces. */
  function NonEmpty(pieces: seq<string>): (r: seq<string>)
    ensures forall i :: 0 <= i < |r| ==> r[i] != "" && r[i] in pieces
    ensures forall p :: p in pieces && p != "" ==> p in r
  {
    if pieces == [] then []
    else (if pieces[0] == "" then [] else [pieces[0]]) + NonEmpty(pieces[1..])
  }

  function ParseNumbers(side: string): Option<seq<int>>
  {
    Extensions.ParseAs(NonEmpty(Split(side, ' ')), ParseInt)
  }

  /** "Card n: winners | numbers"; None when a separator is missing (the
      index throws) or a number does not parse. */
  function ParseCard(line: string): (r: Option<Card>)
    ensures r.Some? ==> |Split(line, ':')| >= 2 && |Split(Split(line, ':')[1], '|')| >= 2
  {
    var parts := Split(line, ':');
    if |parts| < 2 then None
    else
      var sides := Split(parts[1], '|');
      if |sides| < 2 then None
      else
        match (ParseNumbers(sides[0]), ParseNumbers(sides[1]))
        case (Some(w), Some(n)) => Some(Card(w, n))
        case (_, _) => None
  }

  function Cards(input: string): Option<seq<Card>>
  {
    Extensions.ParseAs(InputHelpers.AsLines(input), ParseCard)
  }

  /** Part one: the sum of the card points. */
  function SolvePartOne(input: string): (r: Option<nat>)
    ensures r.None? <==> Cards(input).None?
    ensures r.Some? ==> r.value == TotalPoints(Wins(Cards(input).value))
    ensures r.Some? ==> (r.value == 0 <==> forall i :: 0 <= i < |Cards(input).value| ==> WinCount(Cards(input).value[i]) == 0)
  {
    match Cards(input)
    case None => None
    case Some(cards) => Some(TotalPoints(Wins(cards)))
  }

  /** Part two: the total number of cards held, at least one per card. */
  method SolvePartTwo(input: string) returns (r: Option<int>)
    ensures r.None? <==> Cards(input).None?
    ensures r.Some? ==> r.value == Sum(AllCopies(Wins(Cards(input).value)))
    ensures r.Some? ==> r.value >= |Cards(input).value|
  {
    var cards := Cards(input);
    if cards.None? {
      return None;
    }
    var wins := Wins(cards.value);
    var cardMultiples := CountCopies(wins);
    TotalAtLeastCards(wins);
    return Some(Sum(cardMultiples[..]));
  }
}
