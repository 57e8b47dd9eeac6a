/** Rucksack reorganisation: items shared by the two compartments of a
    rucksack, and the badge common to each group of three rucksacks. */
module Y2022D03 {
  import opened Wrappers
  import opened Seqs
  import opened Strings

  /** The two compartments: the first half (rounded down) and the rest. */
  function Halves(contents: string): (r: (string, string))
    ensures r.0 + r.1 == contents
    ensures |r.0| == |contents| / 2 && |r.1| - |r.0| <= 1
  {
    assert contents == contents[..|contents| / 2] + contents[|contents| / 2..];
    (contents[..|contents| / 2], contents[|contents| / 2..])
  }

  /** The distinct item types found in both compartments, in first-half order. */
  function Shared(contents: string): (r: string)
    ensures forall c :: c in r <==> c in Halves(contents).0 && c in Halves(contents).1
    ensures Unique(r)
  {
    Intersect(Halves(contents).0, Halves(contents).1)
  }

  /** The item letters: 'a'..'z' then 'A'..'Z'. */
  function Alphabet(): (r: string)
    ensures |r| == 52
    ensures forall i :: 0 <= i < 26 ==> r[i] == ('a' as int + i) as char
    ensures forall i :: 26 <= i < 52 ==> r[i] == ('A' as int + i - 26) as char
  {
    seq(52, i requires 0 <= i < 52 => if i < 26 then ('a' as int + i) as char else ('A' as int + i - 26) as char)
  }

  lemma AlphabetUnique()
    ensures Unique(Alphabet())
  {
  }

  /** The priority of an item: its position in the alphabet plus one, which is
      1..26 for 'a'..'z', 27..52 for 'A'..'Z' and 0 (IndexOf gives -1) otherwise. */
  function Priority(c: char): (r: nat)
    ensures 'a' <= c <= 'z' ==> r == c as int - 'a' as int + 1
    ensures 'A' <= c <= 'Z' ==> r == c as int - 'A' as int + 27
    ensures !('a' <= c <= 'z') && !('A' <= c <= 'Z') ==> r == 0
  {
    AlphabetIndex(c);
    IndexOf(Alphabet(), c) + 1
  }

  /** Where a letter sits in the alphabet. */
  lemma AlphabetIndex(c: char)
    ensures 'a' <= c <= 'z' ==> IndexOf(Alphabet(), c) == c as int - 'a' as int
    ensures 'A' <= c <= 'Z' ==> IndexOf(Alphabet(), c) == c as int - 'A' as int + 26
    ensures !('a' <= c <= 'z') && !('A' <= c <= 'Z') ==> IndexOf(Alphabet(), c) == -1
  {
    var alphabet := Alphabet();
    AlphabetUnique();
    if 'a' <= c <= 'z' {
      assert alphabet[c as int - 'a' as int] == c;
    } else if 'A' <= c <= 'Z' {
      assert alphabet[c as int - 'A' as int + 26] == c;
    } else {
      assert c !in alphabet;
    }
  }

  /** The priority of each item. */
  function Priorities(items: string): seq<int>
  {
    seq(|items|, k requires 0 <= k < |items| => Priority(items[k]))
  }

  /** Sum of the priorities of some items. */
  function SumPriorities(items: string): (r: nat)
    ensures r == Sum(Priorities(items))
  {
    if items == [] then 0
    else
      assert Priorities(items)[..|items| - 1] == Priorities(items[..|items| - 1]);
      SumPriorities(items[..|items| - 1]) + Priority(items[|items| - 1])
  }

  /** What a rucksack adds in part one: every distinct shared item once, so
      nothing when the compartments share nothing. */
  function RucksackPriority(contents: string): (r: nat)
    ensures r == Sum(Priorities(Shared(contents)))
    ensures (forall c :: !(c in Halves(contents).0 && c in Halves(contents).1)) ==> r == 0
  {
    if Shared(contents) != [] then
      assert Shared(contents)[0] in Shared(contents);
      SumPriorities(Shared(contents))
    else
      SumPriorities(Shared(contents))
  }

  /** A rucksack whose compartments share exactly one item type adds that
      item's priority once, however often it occurs. */
  lemma SingleSharedItem(contents: string, x: char)
    requires forall c :: c in Halves(contents).0 && c in Halves(contents).1 <==> c == x
    ensures RucksackPriority(contents) == Priority(x)
  {
    var s := Shared(contents);
    assert (set y | y in s) == {x};
    DistinctCardinality(s);
    assert s == [x];
    assert Priorities(s) == [Priority(x)];
    assert [Priority(x)][..0] == [];
  }

  /** Part one: the priorities of the shared items of every rucksack. When
      each line shares exactly one item type, the answer is the sum of those
      items' priorities. */
  function SolvePartOne(input: string): (r: nat)
    ensures r == Sum(RucksackPriorities(Split(input, '\n')))
    ensures forall items :: SharesExactly(Split(input, '\n'), items) ==> r == SumPriorities(items)
  {
    PartOneAllSingleItems(Split(input, '\n'));
    SumOfRucksacks(Split(input, '\n'))
  }

  /** Rucksack i shares exactly the item `items[i]` between its compartments. */
  ghost predicate SharesExactly(lines: seq<string>, items: string) {
    |items| == |lines| &&
    forall i, c :: 0 <= i < |lines| ==>
      (c in Halves(lines[i]).0 && c in Halves(lines[i]).1 <==> c == items[i])
  }

  lemma PartOneAllSingleItems(lines: seq<string>)
    ensures forall items :: SharesExactly(lines, items) ==> SumOfRucksacks(lines) == SumPriorities(items)
  {
    forall items | SharesExactly(lines, items) ensures SumOfRucksacks(lines) == SumPriorities(items) {
      PartOneSingleItems(lines, items);
    }
  }

  /** What each rucksack adds in part one. */
  function RucksackPriorities(lines: seq<string>): seq<int>
  {
    seq(|lines|, i requires 0 <= i < |lines| => Sum(Priorities(Shared(lines[i]))))
  }

  function SumOfRucksacks(lines: seq<string>): (r: nat)
    ensures r == Sum(RucksackPriorities(lines))
  {
    if lines == [] then 0
    else
      assert RucksackPriorities(lines)[..|lines| - 1] == RucksackPriorities(lines[..|lines| - 1]);
      SumOfRucksacks(lines[..|lines| - 1]) + RucksackPriority(lines[|lines| - 1])
  }

  /** Every rucksack sharing exactly the item `items[i]` makes part one the sum
      of those items' priorities. */
  lemma {:induction false} PartOneSingleItems(lines: seq<string>, items: string)
    requires SharesExactly(lines, items)
    ensures SumOfRucksacks(lines) == SumPriorities(items)
  {
    if lines != [] {
      PartOneSingleItems(lines[..|lines| - 1], items[..|items| - 1]);
      SingleSharedItem(lines[|lines| - 1], items[|items| - 1]);
    }
  }

  // ---------------------------------------------------------------------------
  // Part two: the badge of each group of three.
  // ---------------------------------------------------------------------------

  /** `x` occurs in every rucksack of the group. */
  predicate InAll(x: char, contents: seq<string>)
  {
    forall k :: 0 <= k < |contents| ==> x in contents[k]
  }

  /** The Aggregate of the source: starting from `common`, intersect with each
      rucksack in turn. */
  function CommonOf(common: string, contents: seq<string>): (r: string)
    ensures forall x :: x in r <==> x in common && InAll(x, contents)
    decreases |contents|
  {
    if contents == [] then common
    else
      var r := CommonOf(Intersect(common, contents[0]), contents[1..]);
      assert forall x :: InAll(x, contents) <==> x in contents[0] && InAll(x, contents[1..]) by {
        forall x ensures InAll(x, contents) <==> x in contents[0] && InAll(x, contents[1..]) {
          if x in contents[0] && InAll(x, contents[1..]) {
            forall k | 0 <= k < |contents| ensures x in contents[k] {
              if k > 0 {
                assert contents[k] == contents[1..][k - 1];
              }
            }
          }
        }
      }
      r
  }

  /** The items of `a` found in every rucksack, in `a`'s order. */
  function AmongAll(a: string, contents: seq<string>): string
  {
    if a == [] then [] else (if InAll(a[0], contents) then [a[0]] else []) + AmongAll(a[1..], contents)
  }

  lemma {:induction false} AmongAllNoRucksacks(a: string)
    ensures AmongAll(a, []) == a
  {
    if a != [] {
      AmongAllNoRucksacks(a[1..]);
    }
  }

  /** Filtering by the first rucksack, then by the others, is filtering by all. */
  lemma {:induction false} AmongThenAll(a: string, contents: seq<string>)
    requires contents != []
    ensures AmongAll(Among(a, contents[0]), contents[1..]) == AmongAll(a, contents)
  {
    if a != [] {
      AmongThenAll(a[1..], contents);
      var x := a[0];
      assert InAll(x, contents) <==> x in contents[0] && InAll(x, contents[1..]) by {
        if x in contents[0] && InAll(x, contents[1..]) {
          forall k | 0 <= k < |contents| ensures x in contents[k] {
            if k > 0 {
              assert contents[k] == contents[1..][k - 1];
            }
          }
        }
      }
      var filtered := Among(a, contents[0]);
      if x in contents[0] {
        assert filtered == [x] + Among(a[1..], contents[0]);
        assert filtered[0] == x && filtered[1..] == Among(a[1..], contents[0]);
        assert InAll(x, contents) == InAll(x, contents[1..]);
      } else {
        assert filtered == Among(a[1..], contents[0]);
        assert !InAll(x, contents);
      }
    }
  }

  /** Starting from items without repetitions, the fold keeps exactly the items
      found in every rucksack, in their original order. */
  lemma {:induction false} CommonOfIsAmongAll(a: string, contents: seq<string>)
    requires Unique(a)
    ensures CommonOf(a, contents) == AmongAll(a, contents)
    decreases |contents|
  {
    if contents == [] {
      AmongAllNoRucksacks(a);
    } else {
      IntersectOfUnique(a, contents[0]);
      AmongUnique(a, contents[0]);
      CommonOfIsAmongAll(Among(a, contents[0]), contents[1..]);
      AmongThenAll(a, contents);
    }
  }

  /** The position in `a` of the first item found in every rucksack; it is
      the first item of AmongAll. */
  function FirstInAll(a: string, contents: seq<string>): (k: nat)
    requires AmongAll(a, contents) != []
    ensures k < |a| && a[k] == AmongAll(a, contents)[0] && InAll(a[k], contents)
    ensures forall j :: 0 <= j < k ==> !InAll(a[j], contents)
  {
    if InAll(a[0], contents) then 0
    else
      var k := FirstInAll(a[1..], contents) + 1;
      assert forall j :: 0 < j < k ==> a[j] == a[1..][j - 1];
      k
  }

  /** AmongAll is empty exactly when no item of `a` is in every rucksack. */
  lemma {:induction false} AmongAllEmpty(a: string, contents: seq<string>)
    ensures AmongAll(a, contents) == [] <==> forall i :: 0 <= i < |a| ==> !InAll(a[i], contents)
  {
    if a != [] {
      AmongAllEmpty(a[1..], contents);
      assert forall i :: 1 <= i < |a| ==> a[i] == a[1..][i - 1];
    }
  }

  /** The badge of a group: the first letter of the alphabet found in every
      rucksack; None (First throws) when there is none. */
  function CommonItem(group: seq<string>): (r: Option<char>)
    ensures r.None? <==> forall i :: 0 <= i < 52 ==> !InAll(Alphabet()[i], group)
    ensures r.Some? ==> r.value in Alphabet() && InAll(r.value, group)
    ensures r.Some? ==> forall j :: 0 <= j < IndexOf(Alphabet(), r.value) ==> !InAll(Alphabet()[j], group)
  {
    var common := CommonOf(Alphabet(), group);
    AlphabetUnique();
    CommonOfIsAmongAll(Alphabet(), group);
    AmongAllEmpty(Alphabet(), group);
    if common == [] then None
    else
      var k := FirstInAll(Alphabet(), group);
      assert IndexOf(Alphabet(), common[0]) == k;
      Some(common[0])
  }

  /** The priority of a group's badge; None when it has none. */
  function BadgePriority(group: seq<string>): Option<int>
  {
    match CommonItem(group)
    case None => None
    case Some(c) => Some(Priority(c))
  }

  /** The badge priority of every group. */
  function BadgePriorities(groups: seq<seq<string>>): (r: seq<Option<int>>)
    ensures |r| == |groups| && forall i :: 0 <= i < |groups| ==> r[i] == BadgePriority(groups[i])
  {
    seq(|groups|, i requires 0 <= i < |groups| => BadgePriority(groups[i]))
  }

  /** The badge priorities of the groups summed; None when a group has no badge. */
  function BadgeSum(groups: seq<seq<string>>): (r: Option<int>)
    ensures r.Some? <==> forall i :: 0 <= i < |groups| ==> CommonItem(groups[i]).Some?
    ensures r.Some? ==> r.value == Sum(Values(BadgePriorities(groups))) && r.value >= 0
  {
    if SumPresent(BadgePriorities(groups)).Some? then
      SumNonNegative(Values(BadgePriorities(groups)));
      SumPresent(BadgePriorities(groups))
    else
      SumPresent(BadgePriorities(groups))
  }

  /** The rucksacks in groups of three, the last group possibly shorter. */
  function Groups(input: string): seq<seq<string>>
  {
    Chunk(Split(input, '\n'), 3)
  }

  /** Part two: each group's badge priority, summed; None when some group has
      no badge. */
  function SolvePartTwo(input: string): (r: Option<int>)
    ensures r.Some? <==> forall i :: 0 <= i < |Groups(input)| ==> CommonItem(Groups(input)[i]).Some?
    ensures r.Some? ==> r.value == Sum(Values(BadgePriorities(Groups(input)))) && r.value >= 0
  {
    BadgeSum(Groups(input))
  }
}
