/** Camel cards: hands classified by their card-count profile, ordered by
    type and then by the first differing card, and ranked for winnings. */
module Y2023D07 {
  import opened Wrappers
  import opened Seqs
  import opened Strings
  import InputHelpers
  import Extensions

  /** The card ranks, weakest first. */
  function CardOrder(): string
  {
    "23456789TJQKA"
  }

  /** Hand types in the order of their enum values. */
  datatype HandType = High | OneP | TwoP | ThreeKind | FullHouse | FourKind | FiveKind

  /** The enum value of a hand type. */
  function Ordinal(t: HandType): (r: nat)
    ensures r <= 6
  {
    match t
    case High => 0
    case OneP => 1
    case TwoP => 2
    case ThreeKind => 3
    case FullHouse => 4
    case FourKind => 5
    case FiveKind => 6
  }

  /** Different types have different enum values. */
  lemma OrdinalInjective(t: HandType, u: HandType)
    ensures Ordinal(t) == Ordinal(u) ==> t == u
  {
  }

  /** A parsed hand: its cards, its bid and the type fixed at construction. */
  datatype Hand = Hand(cards: string, bid: int, handType: HandType)

  // ---------------------------------------------------------------------------
  // Classification.
  // ---------------------------------------------------------------------------

  /** How often each distinct card occurs (the GroupBy counts). */
  function Counts(cards: string): (r: seq<int>)
    ensures |r| == |Distinct(cards)|
    ensures forall i :: 0 <= i < |r| ==> r[i] >= 1
  {
    var d := Distinct(cards);
    assert forall i :: 0 <= i < |d| ==> d[i] in cards;
    seq(|d|, i requires 0 <= i < |d| => multiset(cards)[d[i]])
  }

  /** The counts, largest first. */
  function Profile(cards: string): (r: seq<int>)
    ensures |r| == |Distinct(cards)|
    ensures multiset(r) == multiset(Counts(cards))
  {
    SortBy(Counts(cards), Descending)
  }

  /** The switch on the profile's leading counts; None (the switch throws)
      when no pattern matches, for instance on an empty hand. */
  function Classify(profile: seq<int>): (r: Option<HandType>)
    ensures r == Some(High) <==> |profile| >= 1 && profile[0] == 1
    ensures r == Some(FourKind) <==> |profile| >= 1 && profile[0] == 4
    ensures r == Some(FiveKind) <==> |profile| >= 1 && profile[0] == 5
    ensures r == Some(OneP) <==> |profile| >= 2 && profile[0] == 2 && profile[1] == 1
    ensures r == Some(TwoP) <==> |profile| >= 2 && profile[0] == 2 && profile[1] == 2
    ensures r == Some(ThreeKind) <==> |profile| >= 2 && profile[0] == 3 && profile[1] == 1
    ensures r == Some(FullHouse) <==> |profile| >= 2 && profile[0] == 3 && profile[1] == 2
  {
    if |profile| == 0 then None
    else if profile[0] == 1 then Some(High)
    else if |profile| >= 2 && profile[0] == 2 && profile[1] == 1 then Some(OneP)
    else if |profile| >= 2 && profile[0] == 2 && profile[1] == 2 then Some(TwoP)
    else if |profile| >= 2 && profile[0] == 3 && profile[1] == 1 then Some(ThreeKind)
    else if |profile| >= 2 && profile[0] == 3 && profile[1] == 2 then Some(FullHouse)
    else if profile[0] == 4 then Some(FourKind)
    else if profile[0] == 5 then Some(FiveKind)
    else None
  }

  /** The type of a hand, as the constructor computes it. */
  function TypeOf(cards: string): Option<HandType>
  {
    Classify(Profile(cards))
  }

  /** The usual poker reading of a hand of five: by the number of distinct
      cards and by how often the most common card occurs. */
  function ReferenceType(distinct: nat, most: int): HandType
  {
    if distinct == 5 then High
    else if distinct == 4 then OneP
    else if distinct == 3 then (if most == 2 then TwoP else ThreeKind)
    else if distinct == 2 then (if most == 3 then FullHouse else FourKind)
    else FiveKind
  }

  /** The counts add up to the number of cards. */
  lemma {:induction false} CountsSum(cards: string)
    ensures Sum(Counts(cards)) == |cards|
  {
    if cards != [] {
      var init := cards[..|cards| - 1];
      assert cards == init + [cards[|cards| - 1]];
      CountsSum(init);
      if cards[|cards| - 1] in Distinct(init) {
        CountsSnocSeen(init, cards[|cards| - 1]);
      } else {
        CountsSnocNew(init, cards[|cards| - 1]);
      }
    }
  }

  /** Another copy of a card already seen raises its count by one. */
  lemma CountsSnocSeen(init: string, x: char)
    requires x in Distinct(init)
    ensures Sum(Counts(init + [x])) == Sum(Counts(init)) + 1
  {
    var k := CountsSeen(init, x);
    SumRaised(Counts(init + [x]), Counts(init), k);
  }

  lemma SumRaised(a: seq<int>, b: seq<int>, k: nat)
    requires k < |b| && a == b[k := b[k] + 1]
    ensures Sum(a) == Sum(b) + 1
  {
    SumIncrement(b, k);
  }

  /** The counts after another copy of the card at position `k`. */
  lemma CountsSeen(init: string, x: char) returns (k: nat)
    requires x in Distinct(init)
    ensures k < |Counts(init)| && Counts(init + [x]) == Counts(init)[k := Counts(init)[k] + 1]
  {
    var cards := init + [x];
    var d := Distinct(init);
    var before := Counts(init);
    var after := Counts(cards);
    assert cards[..|cards| - 1] == init;
    k :| 0 <= k < |d| && d[k] == x;
    assert Distinct(cards) == d;
    forall i | 0 <= i < |d| ensures after[i] == before[k := before[k] + 1][i] {
      if i != k {
        assert d[i] != x;
      }
    }
  }

  /** A card not seen before adds a count of one. */
  lemma CountsSnocNew(init: string, x: char)
    requires x !in Distinct(init)
    ensures Sum(Counts(init + [x])) == Sum(Counts(init)) + 1
  {
    CountsNew(init, x);
    SumAppend(Counts(init), [1]);
    assert [1][..0] == [];
  }

  /** The counts after a card not seen before. */
  lemma CountsNew(init: string, x: char)
    requires x !in Distinct(init)
    ensures Counts(init + [x]) == Counts(init) + [1]
  {
    DistinctSnocNew(init, x);
    CountsKept(init, x);
    CountsLast(init, x);
  }

  lemma DistinctSnocNew(init: string, x: char)
    requires x !in Distinct(init)
    ensures Distinct(init + [x]) == Distinct(init) + [x]
  {
    assert (init + [x])[..|init|] == init;
  }

  /** The cards seen before keep their counts. */
  lemma CountsKept(init: string, x: char)
    requires x !in Distinct(init) && Distinct(init + [x]) == Distinct(init) + [x]
    ensures forall i :: 0 <= i < |Distinct(init)| ==> Counts(init + [x])[i] == Counts(init)[i]
  {
    var d := Distinct(init);
    assert multiset(init + [x]) == multiset(init) + multiset{x};
    forall i | 0 <= i < |d| ensures Counts(init + [x])[i] == Counts(init)[i] {
      assert d[i] != x;
    }
  }

  /** The new card occurs once. */
  lemma CountsLast(init: string, x: char)
    requires x !in Distinct(init) && Distinct(init + [x]) == Distinct(init) + [x]
    ensures Counts(init + [x])[|Distinct(init)|] == 1
  {
    assert x !in multiset(init);
    assert multiset(init + [x]) == multiset(init) + multiset{x};
  }

  /** Raising one element by one raises the sum by one. */
  lemma SumIncrement(s: seq<int>, k: nat)
    requires k < |s|
    ensures Sum(s[k := s[k] + 1]) == Sum(s) + 1
  {
    var t := s[k := s[k] + 1];
    SumRemove(s, k);
    SumRemove(t, k);
    assert t[..k] + t[k + 1..] == s[..k] + s[k + 1..];
  }

  /** The sum of a non-empty sequence is its head plus the sum of the rest. */
  lemma SumHead(s: seq<int>)
    requires s != []
    ensures Sum(s) == s[0] + Sum(s[1..])
  {
    assert s == [s[0]] + s[1..];
    SumAppend([s[0]], s[1..]);
    assert [s[0]][..0] == [];
  }

  /** Elements of at least one sum to at least the length; elements of
      exactly one sum to the length. */
  lemma {:induction false} SumOfPositives(s: seq<int>)
    requires forall i :: 0 <= i < |s| ==> s[i] >= 1
    ensures Sum(s) >= |s|
    ensures (forall i :: 0 <= i < |s| ==> s[i] <= 1) ==> Sum(s) == |s|
  {
    if s != [] {
      SumOfPositives(s[..|s| - 1]);
    }
  }

  /** The facts about a profile the classification relies on: it is a
      descending arrangement of counts of at least one that add up to the
      number of cards, headed by the largest count. */
  lemma ProfileFacts(cards: string)
    ensures Sum(Profile(cards)) == |cards|
    ensures forall i :: 0 <= i < |Profile(cards)| ==> Profile(cards)[i] >= 1
    ensures forall i, j :: 0 <= i <= j < |Profile(cards)| ==> Profile(cards)[j] <= Profile(cards)[i]
    ensures Profile(cards) != [] ==> Profile(cards)[0] == Max(Counts(cards)).value
  {
    CountsSum(cards);
    SumPermutation(Profile(cards), Counts(cards));
    ProfilePositive(cards);
    ProfileDescending(cards);
    if Profile(cards) != [] {
      SortedHeadIsMax(Counts(cards));
    }
  }

  lemma ProfilePositive(cards: string)
    ensures forall i :: 0 <= i < |Profile(cards)| ==> Profile(cards)[i] >= 1
  {
    var p := Profile(cards);
    forall i | 0 <= i < |p| ensures p[i] >= 1 {
      assert p[i] in multiset(Counts(cards));
    }
  }

  lemma ProfileDescending(cards: string)
    ensures forall i, j :: 0 <= i <= j < |Profile(cards)| ==> Profile(cards)[j] <= Profile(cards)[i]
  {
    var p := Profile(cards);
    DescendingAntisymmetric(Counts(cards));
    SortBySorted(Counts(cards), Descending);
    forall i, j | 0 <= i <= j < |p| ensures p[j] <= p[i] {
      DescendingSortedAll(p, i, j);
    }
  }

  /** The arithmetic of the classification: a descending profile of counts
      of at least one adding up to five always matches a pattern, and the
      pattern is fixed by its length and its head. */
  lemma ProfileOfFive(p: seq<int>)
    requires Sum(p) == 5
    requires forall i :: 0 <= i < |p| ==> p[i] >= 1
    requires forall i, j :: 0 <= i <= j < |p| ==> p[j] <= p[i]
    ensures p != [] && Classify(p) == Some(ReferenceType(|p|, p[0]))
  {
    assert p != [];
    var q := p[1..];
    SumHead(p);
    SumOfPositives(q);
    if p[0] == 1 {
      SumOfPositives(p);
    } else if p[0] == 2 || p[0] == 3 {
      var r := p[2..];
      SumHead(q);
      SumOfPositives(r);
      assert r == q[1..];
      if p[1] == 1 {
        assert forall i :: 0 <= i < |q| ==> q[i] <= 1 by {
          forall i | 0 <= i < |q| ensures q[i] <= 1 {
            assert q[i] == p[i + 1];
          }
        }
        SumOfPositives(q);
      }
    }
  }

  /** Every hand of five cards is classified, and its type is the usual
      poker reading by distinct cards and most common card. */
  lemma FiveCardsClassified(cards: string)
    requires |cards| == 5
    ensures TypeOf(cards) == Some(ReferenceType(|Distinct(cards)|, Max(Counts(cards)).value))
  {
    ProfileFacts(cards);
    ProfileOfFive(Profile(cards));
  }

  // ---------------------------------------------------------------------------
  // The comparer.
  // ---------------------------------------------------------------------------

  /** The first position, within the shorter hand, where the cards differ;
      None when there is none (First throws). */
  function FirstMismatch(a: string, b: string): (r: Option<nat>)
    ensures r.Some? ==> r.value < |a| && r.value < |b| && a[r.value] != b[r.value]
    ensures r.Some? ==> forall i :: 0 <= i < r.value ==> a[i] == b[i]
    ensures r.None? <==> forall i :: 0 <= i < |a| && i < |b| ==> a[i] == b[i]
  {
    if a == [] || b == [] then None
    else if a[0] != b[0] then Some(0)
    else
      match FirstMismatch(a[1..], b[1..])
      case None => None
      case Some(k) => Some(k + 1)
  }

  /** The comparer: the difference of the types when they differ, otherwise
      the difference of the ranks of the first differing cards (a card
      outside the order ranks -1); None when no card differs. */
  function Compare(x: Hand, y: Hand): (r: Option<int>)
    ensures x.handType != y.handType ==> r == Some(Ordinal(x.handType) - Ordinal(y.handType))
    ensures r.None? <==> x.handType == y.handType && FirstMismatch(x.cards, y.cards).None?
  {
    if x.handType != y.handType then Some(Ordinal(x.handType) - Ordinal(y.handType))
    else
      match FirstMismatch(x.cards, y.cards)
      case None => None
      case Some(k) => Some(IndexOf(CardOrder(), x.cards[k]) - IndexOf(CardOrder(), y.cards[k]))
  }

  /** Mismatches are found at the same place both ways round. */
  lemma {:induction false} FirstMismatchSymmetric(a: string, b: string)
    ensures FirstMismatch(a, b) == FirstMismatch(b, a)
  {
    if a != [] && b != [] && a[0] == b[0] {
      FirstMismatchSymmetric(a[1..], b[1..]);
    }
  }

  /** Swapping the hands negates the comparison, and it throws both ways or
      neither. */
  lemma CompareAntisymmetric(x: Hand, y: Hand)
    ensures Compare(x, y).Some? <==> Compare(y, x).Some?
    ensures Compare(x, y).Some? ==> Compare(x, y).value == -Compare(y, x).value
  {
    FirstMismatchSymmetric(x.cards, y.cards);
  }

  /** For hands over the card ranks the comparison never says "equal": it
      throws for identical cards and otherwise orders the hands, by type
      first and then by the rank of the first differing card. */
  lemma CompareDecides(x: Hand, y: Hand)
    requires forall i :: 0 <= i < |x.cards| ==> x.cards[i] in CardOrder()
    requires forall i :: 0 <= i < |y.cards| ==> y.cards[i] in CardOrder()
    ensures Compare(x, y).Some? ==> Compare(x, y).value != 0
    ensures Compare(x, y).Some? && x.handType == y.handType ==>
      var k := FirstMismatch(x.cards, y.cards).value;
      (Compare(x, y).value < 0 <==> IndexOf(CardOrder(), x.cards[k]) < IndexOf(CardOrder(), y.cards[k]))
  {
    OrdinalInjective(x.handType, y.handType);
    if Compare(x, y).Some? && x.handType == y.handType {
      var k := FirstMismatch(x.cards, y.cards).value;
      var i := IndexOf(CardOrder(), x.cards[k]);
      var j := IndexOf(CardOrder(), y.cards[k]);
      assert i >= 0 && j >= 0;
      assert CardOrder()[i] != CardOrder()[j];
    }
  }

  /** The comparer as the sort uses it. A pair on which the comparer throws
      never reaches the sort: `Ranked` fails first, so the 0 stands for
      nothing the source computes. */
  function SortKey(x: Hand, y: Hand): int
  {
    match Compare(x, y)
    case Some(v) => v
    case None => 0
  }

  lemma SortKeyAntisymmetric(hands: seq<Hand>)
    ensures Antisymmetric(hands, SortKey)
  {
    forall a, b | a in hands && b in hands && SortKey(a, b) >= 0 ensures SortKey(b, a) <= 0 {
      CompareAntisymmetric(a, b);
    }
  }

  // ---------------------------------------------------------------------------
  // Part one.
  // ---------------------------------------------------------------------------

  /** One line "<cards> <bid>"; None when the bid is missing or not a number
      or the cards do not classify. */
  function ParseHand(line: string): (r: Option<Hand>)
    ensures r.Some? ==> r.value.cards == Split(line, ' ')[0] && TypeOf(r.value.cards) == Some(r.value.handType)
    ensures r.Some? <==> (|Split(line, ' ')| >= 2 && ParseInt(Split(line, ' ')[1]).Some? &&
      TypeOf(Split(line, ' ')[0]).Some?)
  {
    var split := Split(line, ' ');
    if |split| < 2 then None
    else
      match (ParseInt(split[1]), TypeOf(split[0]))
      case (Some(bid), Some(t)) => Some(Hand(split[0], bid, t))
      case (_, _) => None
  }

  /** Each hand's bid times its 1-based rank, summed. */
  function Winnings(ranked: seq<Hand>): (r: int)
    ensures (forall i :: 0 <= i < |ranked| ==> ranked[i].bid >= 0) ==> r >= 0
  {
    if ranked == [] then 0 else Winnings(ranked[..|ranked| - 1]) + ranked[|ranked| - 1].bid * |ranked|
  }

  /** Two hands at different places on which the comparer throws: the same
      type, and the cards of one run out before they differ from the
      other's (identical cards, say). No hand can sort between two such
      hands, so a comparison sort has to compare them with each other. */
  predicate Clashes(hands: seq<Hand>)
  {
    exists i, j :: 0 <= i < j < |hands| && Compare(hands[i], hands[j]).None?
  }

  /** Every hand compares with the next without throwing and is not
      stronger than it. */
  predicate Ascending(ranked: seq<Hand>)
  {
    forall i :: 0 <= i < |ranked| - 1 ==>
      Compare(ranked[i], ranked[i + 1]).Some? && Compare(ranked[i], ranked[i + 1]).value <= 0
  }

  /** The hands, weakest first by the comparer; None where the sort throws. */
  function Ranked(hands: seq<Hand>): (r: Option<seq<Hand>>)
    ensures r.None? <==> Clashes(hands)
    ensures r.Some? ==> multiset(r.value) == multiset(hands)
    ensures r.Some? ==> forall i :: 0 <= i < |r.value| - 1 ==> Compare(r.value[i], r.value[i + 1]).Some?
    ensures r.Some? ==> Ascending(r.value)
  {
    if Clashes(hands) then None
    else
      var sorted := SortBy(hands, SortKey);
      NoClashPermuted(hands, sorted);
      SortKeyAntisymmetric(hands);
      SortBySorted(hands, SortKey);
      Some(sorted)
  }

  /** A permutation of hands without a clashing pair has none between
      neighbours either. */
  lemma NoClashPermuted(hands: seq<Hand>, sorted: seq<Hand>)
    requires !Clashes(hands) && multiset(sorted) == multiset(hands)
    ensures forall i :: 0 <= i < |sorted| - 1 ==> Compare(sorted[i], sorted[i + 1]).Some?
  {
    forall i | 0 <= i < |sorted| - 1 ensures Compare(sorted[i], sorted[i + 1]).Some? {
      var x, y := sorted[i], sorted[i + 1];
      PairCounted(sorted, i);
      NoClashOnce(hands, x);
      assert x in multiset(hands) && y in multiset(hands);
      var a :| 0 <= a < |hands| && hands[a] == x;
      var b :| 0 <= b < |hands| && hands[b] == y;
      if a < b {
        assert Compare(hands[a], hands[b]).Some?;
      } else {
        assert Compare(hands[b], hands[a]).Some?;
        CompareAntisymmetric(y, x);
      }
    }
  }

  /** Two equal neighbours occur at least twice. */
  lemma PairCounted(s: seq<Hand>, i: nat)
    requires i + 1 < |s|
    ensures s[i] == s[i + 1] ==> multiset(s)[s[i]] >= 2
  {
    assert s == s[..i] + [s[i], s[i + 1]] + s[i + 2..];
  }

  /** Without a clashing pair no hand occurs twice: a hand clashes with
      itself. */
  lemma NoClashOnce(hands: seq<Hand>, v: Hand)
    requires !Clashes(hands)
    ensures multiset(hands)[v] <= 1
  {
    OccursTwice(hands, v);
    assert FirstMismatch(v.cards, v.cards).None?;
  }

  /** A hand that occurs twice occurs at two places. */
  lemma OccursTwice(s: seq<Hand>, v: Hand)
    ensures multiset(s)[v] >= 2 ==> exists a, b :: 0 <= a < b < |s| && s[a] == v && s[b] == v
  {
    if multiset(s)[v] >= 2 {
      assert v in multiset(s);
      var a :| 0 <= a < |s| && s[a] == v;
      var rest := s[..a] + s[a + 1..];
      assert s == s[..a] + [s[a]] + s[a + 1..];
      assert v in multiset(rest);
      var c :| 0 <= c < |rest| && rest[c] == v;
      if c < a {
        assert s[c] == v;
      } else {
        assert s[c + 1] == v;
      }
    }
  }

  /** Along the ranking the types never decrease: a hand of a higher type
      always gets a higher rank than a hand of a lower type. */
  lemma RankedByType(hands: seq<Hand>, i: nat, j: nat)
    requires Ranked(hands).Some? && i <= j < |Ranked(hands).value|
    ensures Ordinal(Ranked(hands).value[i].handType) <= Ordinal(Ranked(hands).value[j].handType)
  {
    SortKeyAntisymmetric(hands);
    SortBySorted(hands, SortKey);
    TypesAscend(Ranked(hands).value, i, j);
  }

  lemma {:induction false} TypesAscend(s: seq<Hand>, i: nat, j: nat)
    requires SortedBy(s, SortKey)
    requires i <= j < |s|
    ensures Ordinal(s[i].handType) <= Ordinal(s[j].handType)
    decreases j - i
  {
    if i < j {
      TypesAscend(s, i + 1, j);
      assert SortKey(s[i], s[i + 1]) <= 0;
    }
  }

  /** With all bids equal, the winnings do not depend on the order:
      twice the winnings are bid * n * (n + 1). */
  lemma {:induction false} WinningsSameBid(ranked: seq<Hand>, bid: int)
    requires forall i :: 0 <= i < |ranked| ==> ranked[i].bid == bid
    ensures 2 * Winnings(ranked) == bid * |ranked| * (|ranked| + 1)
  {
    if ranked != [] {
      var n := |ranked|;
      var init := ranked[..n - 1];
      assert forall i :: 0 <= i < |init| ==> init[i] == ranked[i];
      assert Winnings(ranked) == Winnings(init) + bid * n by {
        assert ranked[n - 1].bid == bid;
      }
      WinningsSameBid(init, bid);
      TriangleStep(bid, n);
    }
  }

  lemma TriangleStep(bid: int, n: int)
    ensures bid * (n - 1) * n + 2 * bid * n == bid * n * (n + 1)
  {
  }

  /** Part one: the hands of the input, ranked, with their winnings; None
      when a line does not parse or the sort throws. */
  function SolvePartOne(input: string): (r: Option<int>)
    ensures r.Some? <==> (
      (forall i :: 0 <= i < |InputHelpers.AsLines(input)| ==> ParseHand(InputHelpers.AsLines(input)[i]).Some?) &&
      !Clashes(ParseHands(InputHelpers.AsLines(input)).value))
    ensures r.Some? ==> exists ranked ::
      multiset(ranked) == multiset(ParseHands(InputHelpers.AsLines(input)).value) &&
      Ascending(ranked) && r.value == Winnings(ranked)
  {
    match ParseHands(InputHelpers.AsLines(input))
    case None => None
    case Some(hands) =>
      match Ranked(hands)
      case None => None
      case Some(ranked) => Some(Winnings(ranked))
  }

  /** The hands of the lines; None when one does not parse. */
  function ParseHands(lines: seq<string>): (r: Option<seq<Hand>>)
    ensures r.Some? <==> forall i :: 0 <= i < |lines| ==> ParseHand(lines[i]).Some?
    ensures r.Some? ==> |r.value| == |lines| && forall i :: 0 <= i < |lines| ==> ParseHand(lines[i]) == Some(r.value[i])
  {
    Extensions.ParseAs(lines, ParseHand)
  }
}
