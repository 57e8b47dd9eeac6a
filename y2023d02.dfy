/** Cube conundrum: games of rounds revealing red, green and blue cubes. The
    regular expression that finds the "<count> <colour>" pairs of a round is
    a parameter of the model. */
module Y2023D02 {
  import opened Wrappers
  import opened Seqs
  import opened Strings
  import InputHelpers
  import Extensions

  /** One match of "(\d+) (\w+)": the count text and the colour word. */
  datatype Match = Match(count: string, colour: string)

  datatype Round = Round(red: int, green: int, blue: int)

  datatype Game = Game(id: int, rounds: seq<Round>)

  /** The count text of the first match of `colour`, or "0" when there is none. */
  function FirstCount(matches: seq<Match>, colour: string): (r: string)
    ensures (forall i :: 0 <= i < |matches| ==> matches[i].colour != colour) ==> r == "0"
    ensures (exists i :: 0 <= i < |matches| && matches[i].colour == colour) ==>
      exists i :: 0 <= i < |matches| && matches[i].colour == colour && r == matches[i].count &&
        forall j :: 0 <= j < i ==> matches[j].colour != colour
  {
    if matches == [] then "0"
    else if matches[0].colour == colour then
      assert matches[0].colour == colour && matches[0].count == matches[0].count;
      matches[0].count
    else
      var r := FirstCount(matches[1..], colour);
      assert forall i :: 1 <= i < |matches| ==> matches[i] == matches[1..][i - 1];
      r
  }

  /** A round from its matches: each colour's first count, 0 when missing;
      None when a count is not a number. */
  function ParseRoundResult(matches: seq<Match>): (r: Option<Round>)
    ensures r.Some? <==> (ParseInt(FirstCount(matches, "red")).Some? &&
      ParseInt(FirstCount(matches, "green")).Some? && ParseInt(FirstCount(matches, "blue")).Some?)
    ensures r.Some? ==> r.value == Round(ParseInt(FirstCount(matches, "red")).value,
      ParseInt(FirstCount(matches, "green")).value, ParseInt(FirstCount(matches, "blue")).value)
  {
    match (ParseInt(FirstCount(matches, "red")), ParseInt(FirstCount(matches, "green")), ParseInt(FirstCount(matches, "blue")))
    case (Some(red), Some(green), Some(blue)) => Some(Round(red, green, blue))
    case (_, _, _) => None
  }

  /** A colour that is not matched counts 0. */
  lemma MissingColourIsZero(matches: seq<Match>)
    requires forall i :: 0 <= i < |matches| ==> matches[i].colour != "red"
    requires ParseRoundResult(matches).Some?
    ensures ParseRoundResult(matches).value.red == 0
  {
    assert DigitsValue("0") == 0 by {
      assert "0"[..0] == [];
    }
  }

  /** The rounds of a game: the ';'-separated parts after the ':'. */
  function ParseRounds(text: string, regex: string -> seq<Match>): (r: Option<seq<Round>>)
    ensures r.Some? ==> |r.value| == |Split(text, ';')| >= 1
  {
    var parts := Split(text, ';');
    var parsed := seq(|parts|, i requires 0 <= i < |parts| => ParseRoundResult(regex(parts[i])));
    if forall i :: 0 <= i < |parsed| ==> parsed[i].Some? then
      Some(seq(|parsed|, i requires 0 <= i < |parsed| && parsed[i].Some? => parsed[i].value))
    else None
  }

  /** Part one's game line: the id is the text before ':' with "Game " removed. */
  function ParseGameOne(line: string, regex: string -> seq<Match>): (r: Option<Game>)
    ensures r.Some? ==> (|Split(line, ':')| >= 2 && r.value.rounds != [] &&
      Some(r.value.id) == ParseInt(Replace(Split(line, ':')[0], "Game ", "")))
  {
    var split := Split(line, ':');
    if |split| < 2 then None
    else
      match (ParseInt(Replace(split[0], "Game ", "")), ParseRounds(split[1], regex))
      case (Some(id), Some(rounds)) => Some(Game(id, rounds))
      case (_, _) => None
  }

  /** Part two's game line: the id is the second space-separated word before ':'. */
  function ParseGameTwo(line: string, regex: string -> seq<Match>): (r: Option<Game>)
    ensures r.Some? ==> (|Split(line, ':')| >= 2 && r.value.rounds != [] &&
      |Split(Split(line, ':')[0], ' ')| >= 2 && Some(r.value.id) == ParseInt(Split(Split(line, ':')[0], ' ')[1]))
  {
    var split := Split(line, ':');
    if |split| < 2 then None
    else
      var words := Split(split[0], ' ');
      if |words| < 2 then None
      else
        match (ParseInt(words[1]), ParseRounds(split[1], regex))
        case (Some(id), Some(rounds)) => Some(Game(id, rounds))
        case (_, _) => None
  }

  const RedLimit := 12
  const GreenLimit := 13
  const BlueLimit := 14

  /** Every round shows at most 12 red, 13 green and 14 blue cubes. */
  predicate Possible(g: Game)
  {
    (forall i :: 0 <= i < |g.rounds| ==> g.rounds[i].red <= RedLimit) &&
    (forall i :: 0 <= i < |g.rounds| ==> g.rounds[i].green <= GreenLimit) &&
    (forall i :: 0 <= i < |g.rounds| ==> g.rounds[i].blue <= BlueLimit)
  }

  function Reds(g: Game): seq<int> { seq(|g.rounds|, i requires 0 <= i < |g.rounds| => g.rounds[i].red) }
  function Greens(g: Game): seq<int> { seq(|g.rounds|, i requires 0 <= i < |g.rounds| => g.rounds[i].green) }
  function Blues(g: Game): seq<int> { seq(|g.rounds|, i requires 0 <= i < |g.rounds| => g.rounds[i].blue) }

  /** The power of a game: the largest red, green and blue counts multiplied. */
  function Power(g: Game): (r: int)
    requires g.rounds != []
  {
    Max(Reds(g)).value * Max(Greens(g)).value * Max(Blues(g)).value
  }

  /** Rounds i, j and k show the largest red, green and blue counts of the game. */
  predicate LargestAt(g: Game, i: int, j: int, k: int)
  {
    0 <= i < |g.rounds| && 0 <= j < |g.rounds| && 0 <= k < |g.rounds| &&
    forall m :: 0 <= m < |g.rounds| ==>
      g.rounds[m].red <= g.rounds[i].red && g.rounds[m].green <= g.rounds[j].green &&
      g.rounds[m].blue <= g.rounds[k].blue
  }

  /** The power multiplies, for each colour, a count shown in some round that
      no round exceeds: the fewest cubes of each colour the game could be
      played with. */
  lemma PowerOfLargestCounts(g: Game)
    requires g.rounds != []
    ensures exists i, j, k :: (LargestAt(g, i, j, k) &&
      Power(g) == g.rounds[i].red * g.rounds[j].green * g.rounds[k].blue)
  {
    var i := MaxAt(Reds(g));
    var j := MaxAt(Greens(g));
    var k := MaxAt(Blues(g));
    assert Reds(g)[i] == g.rounds[i].red && Greens(g)[j] == g.rounds[j].green && Blues(g)[k] == g.rounds[k].blue;
    forall m | 0 <= m < |g.rounds|
      ensures g.rounds[m].red <= g.rounds[i].red && g.rounds[m].green <= g.rounds[j].green &&
        g.rounds[m].blue <= g.rounds[k].blue
    {
      assert Reds(g)[m] == g.rounds[m].red && Greens(g)[m] == g.rounds[m].green && Blues(g)[m] == g.rounds[m].blue;
    }
    assert LargestAt(g, i, j, k);
    assert Power(g) == g.rounds[i].red * g.rounds[j].green * g.rounds[k].blue;
  }

  /** A game is possible exactly when its largest counts, the factors of its
      power, are within the limits. */
  lemma PossibleByMaxima(g: Game)
    requires g.rounds != []
    ensures Possible(g) <==> (Max(Reds(g)).value <= RedLimit &&
      Max(Greens(g)).value <= GreenLimit && Max(Blues(g)).value <= BlueLimit)
  {
    assert forall i :: 0 <= i < |g.rounds| ==> Reds(g)[i] == g.rounds[i].red;
    assert forall i :: 0 <= i < |g.rounds| ==> Greens(g)[i] == g.rounds[i].green;
    assert forall i :: 0 <= i < |g.rounds| ==> Blues(g)[i] == g.rounds[i].blue;
  }

  /** Each game's id when it is possible, 0 when it is not. */
  function PossibleIds(games: seq<Game>): seq<int>
  {
    seq(|games|, i requires 0 <= i < |games| => if Possible(games[i]) then games[i].id else 0)
  }

  /** Each game's power. */
  function Powers(games: seq<Game>): seq<int>
    requires forall i :: 0 <= i < |games| ==> games[i].rounds != []
  {
    seq(|games|, i requires 0 <= i < |games| => Power(games[i]))
  }

  /** Sum of the ids of the possible games. */
  function SumPossibleIds(games: seq<Game>): (r: int)
    ensures r == Sum(PossibleIds(games))
  {
    if games == [] then 0
    else
      var g := games[|games| - 1];
      assert PossibleIds(games)[..|games| - 1] == PossibleIds(games[..|games| - 1]);
      SumPossibleIds(games[..|games| - 1]) + (if Possible(g) then g.id else 0)
  }

  /** Sum of the powers. */
  function SumPowers(games: seq<Game>): (r: int)
    requires forall i :: 0 <= i < |games| ==> games[i].rounds != []
    ensures r == Sum(Powers(games))
  {
    if games == [] then 0
    else
      assert Powers(games)[..|games| - 1] == Powers(games[..|games| - 1]);
      SumPowers(games[..|games| - 1]) + Power(games[|games| - 1])
  }

  /** With non-negative counts every power, and so the sum, is non-negative. */
  lemma {:induction false} SumPowersNonNegative(games: seq<Game>)
    requires forall i :: 0 <= i < |games| ==> games[i].rounds != []
    requires forall i, k :: 0 <= i < |games| && 0 <= k < |games[i].rounds| ==>
      games[i].rounds[k].red >= 0 && games[i].rounds[k].green >= 0 && games[i].rounds[k].blue >= 0
    ensures SumPowers(games) >= 0
  {
    if games != [] {
      SumPowersNonNegative(games[..|games| - 1]);
      PowerNonNegative(games[|games| - 1]);
    }
  }

  lemma PowerNonNegative(g: Game)
    requires g.rounds != []
    requires forall k :: 0 <= k < |g.rounds| ==> g.rounds[k].red >= 0 && g.rounds[k].green >= 0 && g.rounds[k].blue >= 0
    ensures Power(g) >= 0
  {
    assert g.rounds[0].red == Reds(g)[0] && g.rounds[0].green == Greens(g)[0] && g.rounds[0].blue == Blues(g)[0];
    ProductNonNegative(Max(Reds(g)).value, Max(Greens(g)).value, Max(Blues(g)).value);
  }

  lemma ProductNonNegative(a: int, b: int, c: int)
    requires a >= 0 && b >= 0 && c >= 0
    ensures a * b * c >= 0
  {
  }

  /** Only possible games add to part one: when none is possible it is 0. */
  lemma {:induction false} NonePossible(games: seq<Game>)
    requires forall i :: 0 <= i < |games| ==> !Possible(games[i])
    ensures SumPossibleIds(games) == 0
  {
    if games != [] {
      NonePossible(games[..|games| - 1]);
    }
  }

  /** Part one: the id sum of the possible games; None when a line does not parse. */
  function SolvePartOne(input: string, regex: string -> seq<Match>): (r: Option<int>)
    ensures r.Some? <==> Extensions.ParseAs(InputHelpers.AsLines(input), line => ParseGameOne(line, regex)).Some?
    ensures r.Some? ==> r.value == Sum(PossibleIds(Extensions.ParseAs(InputHelpers.AsLines(input), line => ParseGameOne(line, regex)).value))
  {
    match Extensions.ParseAs(InputHelpers.AsLines(input), line => ParseGameOne(line, regex))
    case None => None
    case Some(games) => Some(SumPossibleIds(games))
  }

  /** Part two: the sum of the game powers; None when a line does not parse. */
  function SolvePartTwo(input: string, regex: string -> seq<Match>): (r: Option<int>)
    ensures r.Some? <==> Extensions.ParseAs(InputHelpers.AsLines(input), line => ParseGameTwo(line, regex)).Some?
    ensures r.Some? ==> r.value == Sum(Powers(Extensions.ParseAs(InputHelpers.AsLines(input), line => ParseGameTwo(line, regex)).value))
  {
    match Extensions.ParseAs(InputHelpers.AsLines(input), line => ParseGameTwo(line, regex))
    case None => None
    case Some(games) =>
      assert forall i :: 0 <= i < |games| ==> ParseGameTwo(InputHelpers.AsLines(input)[i], regex) == Some(games[i]);
      Some(SumPowers(games))
  }
}
