/** Rock paper scissors: scoring a strategy guide of (opponent, you) letters. */
module Y2022D02 {
  import opened Wrappers
  import opened Seqs
  import opened Strings
  import Extensions

  datatype Shape = Rock | Paper | Scissors

  /** The letter table: A and X are Rock, B and Y Paper, C and Z Scissors;
      any other key is missing (KeyNotFoundException). */
  function Selection(letter: string): (r: Option<Shape>)
    ensures r.Some? <==> letter in {"A", "B", "C", "X", "Y", "Z"}
  {
    if letter == "A" || letter == "X" then Some(Rock)
    else if letter == "B" || letter == "Y" then Some(Paper)
    else if letter == "C" || letter == "Z" then Some(Scissors)
    else None
  }

  /** The score of the shape you play. */
  function SelectionScore(you: Shape): (r: nat)
    ensures 1 <= r <= 3
  {
    match you
    case Rock => 1
    case Paper => 2
    case Scissors => 3
  }

  /** The win table: the shape that beats `opponent`. */
  function WinCondition(opponent: Shape): (r: Shape)
    ensures Beats(r, opponent) && !Beats(opponent, r)
  {
    match opponent
    case Rock => Paper
    case Paper => Scissors
    case Scissors => Rock
  }

  /** The rules of the game, stated pair by pair. */
  predicate Beats(a: Shape, b: Shape)
  {
    (a == Paper && b == Rock) || (a == Scissors && b == Paper) || (a == Rock && b == Scissors)
  }

  /** The win table agrees with the rules, no shape beats itself, and of two
      different shapes exactly one beats the other. */
  lemma WinConditionIsBeats(a: Shape, b: Shape)
    ensures WinCondition(b) == a <==> Beats(a, b)
    ensures !Beats(a, a)
    ensures a != b ==> (Beats(a, b) <==> !Beats(b, a))
  {
  }

  /** The score of one game: the shape score plus 6 for a win, 3 for a draw
      and 0 for a loss. */
  function GameScore(opponent: Shape, you: Shape): (r: int)
    ensures 1 <= r <= 9
    ensures r - SelectionScore(you) == 6 <==> Beats(you, opponent)
    ensures r - SelectionScore(you) == 3 <==> you == opponent
    ensures r - SelectionScore(you) == 0 <==> Beats(opponent, you)
  {
    var baseScore := SelectionScore(you);
    if WinCondition(opponent) == you then baseScore + 6
    else if opponent == you then baseScore + 3
    else baseScore
  }

  /** One line "<opponent> <you>"; None when a letter is missing or unknown. */
  function ParseGame(line: string): (r: Option<(Shape, Shape)>)
    ensures r.Some? <==> (|Split(line, ' ')| >= 2 &&
      Selection(Split(line, ' ')[0]).Some? && Selection(Split(line, ' ')[1]).Some?)
  {
    var split := Split(line, ' ');
    if |split| < 2 then None
    else
      match (Selection(split[0]), Selection(split[1]))
      case (Some(opponent), Some(you)) => Some((opponent, you))
      case (_, _) => None
  }

  /** The games of the guide, one per line. */
  function Games(input: string): Option<seq<(Shape, Shape)>>
  {
    Extensions.ParseAs(Extensions.AsLines(input), ParseGame)
  }

  /** Sum of the game scores, folded left to right. */
  function TotalScore(games: seq<(Shape, Shape)>): (r: int)
    ensures |games| <= r <= 9 * |games|
  {
    if games == [] then 0
    else TotalScore(games[..|games| - 1]) + GameScore(games[|games| - 1].0, games[|games| - 1].1)
  }

  /** Playing the same shape as the opponent every time scores 4, 5 or 6 per game. */
  lemma {:induction false} AllDrawsScore(games: seq<(Shape, Shape)>)
    requires forall i :: 0 <= i < |games| ==> games[i].0 == games[i].1
    ensures 4 * |games| <= TotalScore(games) <= 6 * |games|
  {
    if games != [] {
      AllDrawsScore(games[..|games| - 1]);
    }
  }

  /** Part one: the total score of the guide; None when a line does not parse. */
  function SolvePartOne(input: string): (r: Option<int>)
    ensures r.None? <==> Games(input).None?
    ensures r.Some? ==> |Games(input).value| <= r.value <= 9 * |Games(input).value|
    ensures r.Some? ==> r.value == TotalScore(Games(input).value)
  {
    match Games(input)
    case None => None
    case Some(games) => Some(TotalScore(games))
  }
}
