/** 2023 day 5: seeds pushed through a chain of maps, each a list of
    (destination, source, count) items. Part one maps single seeds and takes
    the lowest location; part two maps whole seed ranges by splitting them at
    the items' source ranges and then moving both ends of each piece. */
module Y2023D05 {
  import opened Wrappers
  import opened Strings
  import opened Seqs
  import InputHelpers
  import Extensions
  import Longs

  // ---------------------------------------------------------------------------
  // MapItem and Map
  // ---------------------------------------------------------------------------

  /** One line of a map: the `count` values from `source` on go to the values
      from `dest` on. */
  datatype MapItem = MapItem(dest: int, source: int, count: int)
  {
    /** The last value of the source range. */
    function SourceEnd(): int
    {
      source + count - 1
    }

    predicate CanMap(v: int)
    {
      v >= source && v < source + count
    }

    /** GetMappedValue: a value in the source range goes to the same offset
        in the destination range; any other value is kept. */
    function MappedValue(v: int): (r: int)
      ensures !CanMap(v) ==> r == v
      ensures CanMap(v) ==> dest <= r < dest + count
    {
      if !CanMap(v) then v else dest + (v - source)
    }
  }

  /** The source range runs from `source` to SourceEnd, both included. */
  lemma SourceRange(it: MapItem, v: int)
    ensures it.CanMap(v) <==> it.source <= v <= it.SourceEnd()
  {
  }

  /** An item maps its source range one to one ... */
  lemma ItemOneToOne(it: MapItem)
    ensures forall v, w :: it.CanMap(v) && it.CanMap(w) && it.MappedValue(v) == it.MappedValue(w) ==> v == w
  {
  }

  /** ... onto its destination range. */
  lemma ItemOnto(it: MapItem, w: int)
    requires it.dest <= w < it.dest + it.count
    ensures exists v :: it.CanMap(v) && it.MappedValue(v) == w
  {
    var v := w - it.dest + it.source;
    assert it.CanMap(v) && it.MappedValue(v) == w;
  }

  /** A map, e.g. light-to-temperature: its items in file order. */
  datatype Map = Map(items: seq<MapItem>)
  {
    /** GetMappedValue: the first item, in list order, that can map `v` maps
        it; when none can, `v` is kept. */
    function MappedValue(v: int): (r: int)
      ensures (forall k :: 0 <= k < |items| ==> !items[k].CanMap(v)) ==> r == v
      ensures forall k :: (0 <= k < |items| && items[k].CanMap(v) &&
        (forall j :: 0 <= j < k ==> !items[j].CanMap(v))) ==> r == items[k].MappedValue(v)
    {
      match FirstIndex(items, (it: MapItem) => it.CanMap(v))
      case None => v
      case Some(k) => items[k].MappedValue(v)
    }
  }

  /** The maps applied in file order (the Aggregate of part one). */
  function Through(maps: seq<Map>, v: int): int
  {
    if maps == [] then v else maps[|maps| - 1].MappedValue(Through(maps[..|maps| - 1], v))
  }

  /** Going through two lists of maps is going through the first and then the
      second. */
  lemma {:induction false} ThroughAppend(first: seq<Map>, second: seq<Map>, v: int)
    ensures Through(first + second, v) == Through(second, Through(first, v))
    decreases |second|
  {
    if second != [] {
      var n := |second|;
      assert (first + second)[..|first + second| - 1] == first + second[..n - 1];
      ThroughAppend(first, second[..n - 1], v);
    } else {
      assert first + second == first;
    }
  }

  // ---------------------------------------------------------------------------
  // Parsing
  // ---------------------------------------------------------------------------

  /** The seeds and the maps, in file order. */
  datatype Almanac = Almanac(seeds: seq<int>, maps: seq<Map>)

  predicate EndsWith(s: string, suffix: string)
  {
    |suffix| <= |s| && s[|s| - |suffix|..] == suffix
  }

  /** A header such as "seed-to-soil map:". */
  predicate IsHeader(line: string)
  {
    line != [] && EndsWith(line, "map:")
  }

  /** A line that is none of blank, header or seeds: a line of numbers. */
  predicate IsItemLine(line: string)
  {
    line != [] && !EndsWith(line, "map:") && !StartsWith(line, "seeds:")
  }

  /** The last map gets one more item. */
  function AddItem(maps: seq<Map>, item: MapItem): (r: seq<Map>)
    requires maps != []
    ensures |r| == |maps| && r[..|maps| - 1] == maps[..|maps| - 1]
    ensures r[|maps| - 1].items == maps[|maps| - 1].items + [item]
  {
    maps[|maps| - 1 := Map(maps[|maps| - 1].items + [item])]
  }

  /** One turn of the parsing loop: a blank line is skipped; a header opens a
      new map; a "seeds:" line replaces the seeds by its numbers after the
      first space-separated word; any other line is three numbers added to
      the current map, and with no map yet it throws. */
  function ReadLine(a: Almanac, line: string): Option<Almanac>
  {
    if line == [] then Some(a)
    else if EndsWith(line, "map:") then Some(Almanac(a.seeds, a.maps + [Map([])]))
    else if StartsWith(line, "seeds:") then
      match Extensions.ParseAs(Split(line, ' ')[1..], Longs.ParseLong)
      case None => None
      case Some(seeds) => Some(Almanac(seeds, a.maps))
    else if a.maps == [] then None
    else
      match Extensions.ParseAs(Split(line, ' '), Longs.ParseLong)
      case None => None
      case Some(ns) =>
        if |ns| < 3 then None
        else Some(Almanac(a.seeds, AddItem(a.maps, MapItem(ns[0], ns[1], ns[2]))))
  }

  /** ParseMapsAndSeeds over the lines so far; None where it throws. */
  function Parse(lines: seq<string>): Option<Almanac>
  {
    if lines == [] then Some(Almanac([], []))
    else
      match Parse(lines[..|lines| - 1])
      case None => None
      case Some(a) => ReadLine(a, lines[|lines| - 1])
  }

  /** The number of header lines. */
  function Headers(lines: seq<string>): nat
  {
    if lines == [] then 0
    else Headers(lines[..|lines| - 1]) + (if IsHeader(lines[|lines| - 1]) then 1 else 0)
  }

  /** ParseMapsAndSeeds: one loop over the lines, appending to the lists. The
      current map is the last one added, so adding to it replaces the last
      element of `maps`. */
  method ParseMapsAndSeeds(lines: seq<string>) returns (r: Option<Almanac>)
    ensures r == Parse(lines)
  {
    var seeds: seq<int> := [];
    var maps: seq<Map> := [];
    for i := 0 to |lines|
      invariant Parse(lines[..i]) == Some(Almanac(seeds, maps))
    {
      var line := lines[i];
      ParseNext(lines, i, Almanac(seeds, maps));
      if line == [] {
        continue;
      }
      if EndsWith(line, "map:") {
        maps := maps + [Map([])];
        continue;
      }
      if StartsWith(line, "seeds:") {
        var parsed := Extensions.ParseAs(Split(line, ' ')[1..], Longs.ParseLong);
        if parsed.None? {
          ParseStuck(lines, i + 1);
          return None;
        }
        seeds := parsed.value;
        continue;
      }
      if maps == [] {
        ParseStuck(lines, i + 1);
        return None;
      }
      var numbers := Extensions.ParseAs(Split(line, ' '), Longs.ParseLong);
      if numbers.None? || |numbers.value| < 3 {
        ParseStuck(lines, i + 1);
        return None;
      }
      var ns := numbers.value;
      var current := maps[|maps| - 1];
      maps := maps[|maps| - 1 := Map(current.items + [MapItem(ns[0], ns[1], ns[2])])];
    }
    assert lines[..|lines|] == lines;
    r := Some(Almanac(seeds, maps));
  }

  /** One more line is read by ReadLine. */
  lemma ParseNext(lines: seq<string>, i: nat, a: Almanac)
    requires i < |lines| && Parse(lines[..i]) == Some(a)
    ensures Parse(lines[..i + 1]) == ReadLine(a, lines[i])
  {
    assert lines[..i + 1][..i] == lines[..i];
  }

  /** Once a line throws, the whole parse throws. */
  lemma {:induction false} ParseStuck(lines: seq<string>, i: nat)
    requires i <= |lines| && Parse(lines[..i]).None?
    ensures Parse(lines).None?
    decreases |lines| - i
  {
    if i < |lines| {
      assert lines[..i + 1][..i] == lines[..i];
      ParseStuck(lines, i + 1);
    } else {
      assert lines[..i] == lines;
    }
  }

  /** Every header opens one map, and nothing else does. */
  lemma {:induction false} ParseHeaders(lines: seq<string>)
    requires Parse(lines).Some?
    ensures |Parse(lines).value.maps| == Headers(lines)
  {
    if lines != [] {
      ParseHeaders(lines[..|lines| - 1]);
    }
  }

  /** A line of numbers before any header throws. */
  lemma ParseOrphanItem(lines: seq<string>, line: string)
    requires Parse(lines).Some? && Headers(lines) == 0 && IsItemLine(line)
    ensures Parse(lines + [line]).None?
  {
    ParseHeaders(lines);
    assert (lines + [line])[..|lines|] == lines;
  }

  /** Blank lines are skipped. */
  lemma ParseBlank(lines: seq<string>)
    ensures Parse(lines + [""]) == Parse(lines)
  {
    assert (lines + [""])[..|lines|] == lines;
  }

  // ---------------------------------------------------------------------------
  // Part one
  // ---------------------------------------------------------------------------

  /** The location of every seed. */
  function Locations(a: Almanac): (r: seq<int>)
    ensures |r| == |a.seeds|
    ensures forall i :: 0 <= i < |r| ==> r[i] == Through(a.maps, a.seeds[i])
  {
    seq(|a.seeds|, i requires 0 <= i < |a.seeds| => Through(a.maps, a.seeds[i]))
  }

  /** The lowest location; Min throws on no seeds. */
  function PartOneOf(a: Almanac): (r: Option<int>)
    ensures r.None? <==> a.seeds == []
    ensures r.Some? ==> exists i :: 0 <= i < |a.seeds| && r.value == Through(a.maps, a.seeds[i])
    ensures r.Some? ==> forall i :: 0 <= i < |a.seeds| ==> r.value <= Through(a.maps, a.seeds[i])
  {
    Min(Locations(a))
  }

  function PartOne(input: string): (r: Option<int>)
    ensures r.None? <==> Parse(InputHelpers.AsLines(input)).None? || Parse(InputHelpers.AsLines(input)).value.seeds == []
    ensures r.Some? ==> var a := Parse(InputHelpers.AsLines(input)).value;
      (exists i :: 0 <= i < |a.seeds| && r.value == Through(a.maps, a.seeds[i])) &&
      forall i :: 0 <= i < |a.seeds| ==> r.value <= Through(a.maps, a.seeds[i])
  {
    match Parse(InputHelpers.AsLines(input))
    case None => None
    case Some(a) => PartOneOf(a)
  }

  // ---------------------------------------------------------------------------
  // Seed ranges
  // ---------------------------------------------------------------------------

  /** A SeedRange: the values from `start` to `end`, both included. */
  datatype Range = Range(start: int, end: int)

  /** `v` lies in one of the ranges. */
  ghost predicate Holds(rs: seq<Range>, v: int)
  {
    exists k :: 0 <= k < |rs| && rs[k].start <= v <= rs[k].end
  }

  predicate NonEmpty(rs: seq<Range>)
  {
    forall k :: 0 <= k < |rs| ==> rs[k].start <= rs[k].end
  }

  /** Each range begins right after the one before it ends. */
  predicate Contiguous(rs: seq<Range>)
  {
    forall k :: 0 <= k < |rs| - 1 ==> rs[k + 1].start == rs[k].end + 1
  }

  /** The range lies within the item's source range. */
  predicate Inside(r: Range, it: MapItem)
  {
    it.source <= r.start && r.end <= it.SourceEnd()
  }

  /** The range misses the item's source range. */
  predicate Outside(r: Range, it: MapItem)
  {
    r.end < it.source || it.SourceEnd() < r.start
  }

  /** SplitRangeByMapItem: a range that straddles the start of the source
      range, its end, or both, is cut there; any other range comes back
      whole. */
  function SplitRange(r: Range, it: MapItem): (rs: seq<Range>)
    ensures 1 <= |rs| <= 3 && rs[0].start == r.start && rs[|rs| - 1].end == r.end
    ensures Contiguous(rs)
    ensures |rs| > 1 ==> forall k :: 0 <= k < |rs| ==> Inside(rs[k], it) || Outside(rs[k], it)
  {
    var ss := it.source;
    var se := it.SourceEnd();
    if r.start < ss && r.end > ss && r.end < se then
      [Range(r.start, ss - 1), Range(ss, r.end)]
    else if r.start > ss && r.start < se && r.end > se then
      [Range(r.start, se), Range(se + 1, r.end)]
    else if r.start < ss && r.end > se then
      [Range(r.start, ss - 1), Range(ss, se), Range(se + 1, r.end)]
    else
      [r]
  }

  /** Non-empty contiguous ranges hold exactly the values from the first
      start to the last end. */
  lemma {:induction false} ContiguousHolds(rs: seq<Range>, v: int)
    requires rs != [] && NonEmpty(rs) && Contiguous(rs)
    ensures Holds(rs, v) <==> rs[0].start <= v <= rs[|rs| - 1].end
    decreases |rs|
  {
    if |rs| > 1 {
      var tail := rs[1..];
      ContiguousHolds(tail, v);
      ContiguousAscends(rs);
      if Holds(rs, v) {
        var k :| 0 <= k < |rs| && rs[k].start <= v <= rs[k].end;
        if k > 0 {
          assert tail[k - 1] == rs[k];
        }
      }
      if rs[0].start <= v <= rs[|rs| - 1].end && !(v <= rs[0].end) {
        assert tail[0].start <= v <= tail[|tail| - 1].end;
        var k :| 0 <= k < |tail| && tail[k].start <= v <= tail[k].end;
        assert rs[k + 1] == tail[k];
      }
    } else {
      if Holds(rs, v) {
        var k :| 0 <= k < |rs| && rs[k].start <= v <= rs[k].end;
        assert k == 0;
      }
      if rs[0].start <= v <= rs[0].end {
        assert 0 <= 0 < |rs|;
      }
    }
  }

  /** In non-empty contiguous ranges every range lies within the first start
      and the last end. */
  lemma {:induction false} ContiguousAscends(rs: seq<Range>)
    requires rs != [] && NonEmpty(rs) && Contiguous(rs)
    ensures forall k :: 0 <= k < |rs| ==> rs[0].start <= rs[k].start && rs[k].end <= rs[|rs| - 1].end
    decreases |rs|
  {
    if |rs| > 1 {
      var init := rs[..|rs| - 1];
      ContiguousAscends(init);
      assert forall k :: 0 <= k < |init| ==> init[k] == rs[k];
    }
  }

  /** With a non-empty range and a non-empty source range every piece is
      non-empty, so the pieces ascend and hold exactly the range's values. */
  lemma SplitCovers(r: Range, it: MapItem)
    requires r.start <= r.end && it.count >= 1
    ensures NonEmpty(SplitRange(r, it))
    ensures forall v :: Holds(SplitRange(r, it), v) <==> r.start <= v <= r.end
  {
    var rs := SplitRange(r, it);
    assert NonEmpty(rs);
    forall v
      ensures Holds(rs, v) <==> r.start <= v <= r.end
    {
      ContiguousHolds(rs, v);
    }
  }

  /** The tests are strict: a range with an end on an end of the source range
      comes back whole, even when it reaches beyond the source range. */
  lemma SplitTouching(r: Range, it: MapItem)
    requires it.count >= 1
    requires r.start == it.source || r.end == it.source || r.start == it.SourceEnd() || r.end == it.SourceEnd()
    ensures SplitRange(r, it) == [r]
  {
  }

  /** SelectMany(sr => SplitRangeByMapItem(sr, mapItem)). */
  function SplitAll(rs: seq<Range>, it: MapItem): (r: seq<Range>)
    ensures |rs| <= |r| <= 3 * |rs|
  {
    if rs == [] then [] else SplitRange(rs[0], it) + SplitAll(rs[1..], it)
  }

  /** The first loop of part two: the ranges split by each item in turn. */
  function SplitByItems(rs: seq<Range>, items: seq<MapItem>): seq<Range>
    decreases |items|
  {
    if items == [] then rs else SplitByItems(SplitAll(rs, items[0]), items[1..])
  }

  /** Splitting non-empty ranges by a non-empty item keeps them non-empty and
      holds the same values. */
  lemma {:induction false} SplitAllHolds(rs: seq<Range>, it: MapItem)
    requires NonEmpty(rs) && it.count >= 1
    ensures NonEmpty(SplitAll(rs, it))
    ensures forall v :: Holds(SplitAll(rs, it), v) <==> Holds(rs, v)
    decreases |rs|
  {
    if rs != [] {
      var head := SplitRange(rs[0], it);
      var tail := SplitAll(rs[1..], it);
      SplitCovers(rs[0], it);
      SplitAllHolds(rs[1..], it);
      forall v
        ensures Holds(head + tail, v) <==> Holds(rs, v)
      {
        HoldsAppend(head, tail, v);
        if Holds(rs, v) {
          var k :| 0 <= k < |rs| && rs[k].start <= v <= rs[k].end;
          if k > 0 {
            assert rs[1..][k - 1] == rs[k];
          }
        }
        if Holds(rs[1..], v) {
          var k :| 0 <= k < |rs[1..]| && rs[1..][k].start <= v <= rs[1..][k].end;
          assert rs[k + 1] == rs[1..][k];
        }
      }
    }
  }

  lemma HoldsAppend(a: seq<Range>, b: seq<Range>, v: int)
    ensures Holds(a + b, v) <==> Holds(a, v) || Holds(b, v)
  {
    if Holds(a + b, v) {
      var k :| 0 <= k < |a + b| && (a + b)[k].start <= v <= (a + b)[k].end;
      if k >= |a| {
        assert b[k - |a|] == (a + b)[k];
      }
    }
    if Holds(a, v) {
      var k :| 0 <= k < |a| && a[k].start <= v <= a[k].end;
      assert (a + b)[k] == a[k];
    }
    if Holds(b, v) {
      var k :| 0 <= k < |b| && b[k].start <= v <= b[k].end;
      assert (a + b)[k + |a|] == b[k];
    }
  }

  /** Splitting by every item of a map loses no value and adds none. */
  lemma {:induction false} SplitByItemsHolds(rs: seq<Range>, items: seq<MapItem>)
    requires NonEmpty(rs) && forall k :: 0 <= k < |items| ==> items[k].count >= 1
    ensures NonEmpty(SplitByItems(rs, items))
    ensures forall v :: Holds(SplitByItems(rs, items), v) <==> Holds(rs, v)
    decreases |items|
  {
    if items != [] {
      SplitAllHolds(rs, items[0]);
      SplitByItemsHolds(SplitAll(rs, items[0]), items[1..]);
    }
  }

  /** The second loop of part two, on one range: the first item that can map
      the start moves both ends; a range whose start no item maps is kept.
      The start always goes where the map sends it. */
  function Shift(r: Range, items: seq<MapItem>): (r': Range)
    ensures r'.start == Map(items).MappedValue(r.start)
    ensures (forall k :: 0 <= k < |items| ==> !items[k].CanMap(r.start)) ==> r' == r
    ensures forall k :: (0 <= k < |items| && items[k].CanMap(r.start) &&
      (forall j :: 0 <= j < k ==> !items[j].CanMap(r.start))) ==> r'.end == items[k].MappedValue(r.end)
  {
    match FirstIndex(items, (it: MapItem) => it.CanMap(r.start))
    case None => r
    case Some(k) =>
      FirstMapper(items, r.start, k);
      Range(items[k].MappedValue(r.start), items[k].MappedValue(r.end))
  }

  /** Only one item is the first that can map a value. */
  lemma FirstMapper(items: seq<MapItem>, v: int, k: nat)
    requires k < |items| && items[k].CanMap(v) && forall j :: 0 <= j < k ==> !items[j].CanMap(v)
    ensures forall i :: (0 <= i < |items| && items[i].CanMap(v) &&
      (forall j :: 0 <= j < i ==> !items[j].CanMap(v))) ==> i == k
  {
  }

  /** For a range that lies inside or outside each source range, moving its
      ends moves every value in it: the new range is the image of the old
      one under the map. */
  lemma ShiftUniform(r: Range, m: Map)
    requires r.start <= r.end
    requires forall k :: 0 <= k < |m.items| ==> Inside(r, m.items[k]) || Outside(r, m.items[k])
    ensures Shift(r, m.items).end - Shift(r, m.items).start == r.end - r.start
    ensures forall v :: r.start <= v <= r.end ==> m.MappedValue(v) == Shift(r, m.items).start + (v - r.start)
  {
    var items := m.items;
    match FirstIndex(items, (it: MapItem) => it.CanMap(r.start))
    case None =>
      forall v | r.start <= v <= r.end
        ensures m.MappedValue(v) == v
      {
        forall k | 0 <= k < |items|
          ensures !items[k].CanMap(v)
        {
          assert !items[k].CanMap(r.start);
        }
      }
    case Some(k) =>
      assert Inside(r, items[k]);
      forall v | r.start <= v <= r.end
        ensures m.MappedValue(v) == items[k].MappedValue(v)
      {
        forall j | 0 <= j < k
          ensures !items[j].CanMap(v)
        {
          assert !items[j].CanMap(r.start);
        }
      }
  }

  /** Every range shifted. */
  function ShiftAll(rs: seq<Range>, items: seq<MapItem>): (r: seq<Range>)
    ensures |r| == |rs| && forall k :: 0 <= k < |rs| ==> r[k] == Shift(rs[k], items)
  {
    seq(|rs|, k requires 0 <= k < |rs| => Shift(rs[k], items))
  }

  /** One map applied to one group of ranges. */
  function MapRanges(m: Map, rs: seq<Range>): seq<Range>
  {
    ShiftAll(SplitByItems(rs, m.items), m.items)
  }

  /** The maps applied in file order to one group of ranges. */
  function MapsRanges(maps: seq<Map>, rs: seq<Range>): seq<Range>
  {
    if maps == [] then rs else MapRanges(maps[|maps| - 1], MapsRanges(maps[..|maps| - 1], rs))
  }

  /** Every start after a map is where the map sends the start of a piece of
      the split group. */
  lemma MapRangesStarts(m: Map, rs: seq<Range>)
    ensures |MapRanges(m, rs)| == |SplitByItems(rs, m.items)|
    ensures forall k :: 0 <= k < |MapRanges(m, rs)| ==>
      MapRanges(m, rs)[k].start == m.MappedValue(SplitByItems(rs, m.items)[k].start)
  {
  }

  /** The two loops of part two for one map and one group: the group is
      split by every item in turn, then each range is moved in place. */
  method ApplyMap(m: Map, group: seq<Range>) returns (g: seq<Range>)
    ensures g == MapRanges(m, group)
  {
    g := group;
    for i := 0 to |m.items|
      invariant SplitByItems(g, m.items[i..]) == SplitByItems(group, m.items)
    {
      assert m.items[i..][1..] == m.items[i + 1..];
      g := SplitAll(g, m.items[i]);
    }
    assert m.items[|m.items|..] == [];
    ghost var split := g;
    for k := 0 to |g|
      invariant |g| == |split|
      invariant forall j :: 0 <= j < k ==> g[j] == Shift(split[j], m.items)
      invariant forall j :: k <= j < |g| ==> g[j] == split[j]
    {
      var range := ShiftRange(g[k], m.items);
      g := g[k := range];
    }
  }

  /** The innermost loop: look for the first item that can map the start,
      move both ends by it and stop. */
  method ShiftRange(range: Range, items: seq<MapItem>) returns (r: Range)
    ensures r == Shift(range, items)
  {
    r := range;
    var t := 0;
    while t < |items|
      invariant 0 <= t <= |items|
      invariant forall j :: 0 <= j < t ==> !items[j].CanMap(range.start)
      invariant r == range
    {
      if items[t].CanMap(range.start) {
        r := Range(items[t].MappedValue(range.start), items[t].MappedValue(range.end));
        return;
      }
      t := t + 1;
    }
  }

  // ---------------------------------------------------------------------------
  // Part two
  // ---------------------------------------------------------------------------

  /** Chunk(2): the seed numbers in pairs (start, length); a lone last
      number throws. */
  function SeedRanges(seeds: seq<int>): (r: Option<seq<Range>>)
    ensures r.Some? <==> |seeds| % 2 == 0
    ensures r.Some? ==> |r.value| * 2 == |seeds|
  {
    if seeds == [] then Some([])
    else if |seeds| == 1 then None
    else
      match SeedRanges(seeds[2..])
      case None => None
      case Some(rest) => Some([Range(seeds[0], seeds[0] + seeds[1] - 1)] + rest)
  }

  /** Pair `i` is the range from its start to start + length - 1. */
  lemma {:induction false} SeedRangesPairs(seeds: seq<int>, i: nat)
    requires SeedRanges(seeds).Some? && i < |SeedRanges(seeds).value|
    ensures SeedRanges(seeds).value[i] == Range(seeds[2 * i], seeds[2 * i] + seeds[2 * i + 1] - 1)
    decreases i
  {
    if i > 0 {
      SeedRangesPairs(seeds[2..], i - 1);
      assert seeds[2..][2 * (i - 1)] == seeds[2 * i];
      assert seeds[2..][2 * (i - 1) + 1] == seeds[2 * i + 1];
    }
  }

  /** OrderBy(sr => sr.Start). */
  function ByStart(a: Range, b: Range): int
  {
    a.start - b.start
  }

  function Starts(rs: seq<Range>): (r: seq<int>)
    ensures |r| == |rs| && forall k :: 0 <= k < |rs| ==> r[k] == rs[k].start
  {
    seq(|rs|, k requires 0 <= k < |rs| => rs[k].start)
  }

  /** Each seed range, in order of start, as a group of its own, taken
      through the maps; the answer is the lowest start of all, and Min throws
      when there are none. */
  function PartTwoOf(a: Almanac): (r: Option<int>)
    ensures r.None? <==> |a.seeds| % 2 != 0 || a.seeds == []
  {
    match SeedRanges(a.seeds)
    case None => None
    case Some(rs) =>
      var sorted := SortBy(rs, ByStart);
      var groups := seq(|sorted|, i requires 0 <= i < |sorted| => MapsRanges(a.maps, [sorted[i]]));
      GroupsNonEmpty(a.maps, sorted, groups);
      Min(Starts(Flatten(groups)))
  }

  /** With at least one seed range there is at least one range to take the
      lowest start of. */
  lemma GroupsNonEmpty(maps: seq<Map>, sorted: seq<Range>, groups: seq<seq<Range>>)
    requires groups == seq(|sorted|, i requires 0 <= i < |sorted| => MapsRanges(maps, [sorted[i]]))
    ensures sorted != [] ==> Flatten(groups) != []
  {
    if sorted != [] {
      MapsRangesLength(maps, [sorted[0]]);
    }
  }

  /** Splitting never loses a range. */
  lemma {:induction false} SplitByItemsLength(rs: seq<Range>, items: seq<MapItem>)
    ensures |SplitByItems(rs, items)| >= |rs|
    decreases |items|
  {
    if items != [] {
      SplitByItemsLength(SplitAll(rs, items[0]), items[1..]);
    }
  }

  /** Going through the maps never loses a range. */
  lemma {:induction false} MapsRangesLength(maps: seq<Map>, rs: seq<Range>)
    ensures |MapsRanges(maps, rs)| >= |rs|
  {
    if maps != [] {
      var before := MapsRanges(maps[..|maps| - 1], rs);
      MapsRangesLength(maps[..|maps| - 1], rs);
      SplitByItemsLength(before, maps[|maps| - 1].items);
    }
  }

  /** Part two on the parsed input: none when parsing throws, the seed
      numbers do not pair up or there are none. */
  function PartTwo(input: string): (r: Option<int>)
    ensures r.None? <==> (Parse(InputHelpers.AsLines(input)).None? ||
      |Parse(InputHelpers.AsLines(input)).value.seeds| % 2 != 0 || Parse(InputHelpers.AsLines(input)).value.seeds == [])
  {
    match Parse(InputHelpers.AsLines(input))
    case None => None
    case Some(a) => PartTwoOf(a)
  }

  /** SolvePartTwo. */
  method SolvePartTwo(input: string) returns (r: Option<int>)
    ensures r == PartTwo(input)
  {
    var parsed := ParseMapsAndSeeds(InputHelpers.AsLines(input));
    if parsed.None? {
      return None;
    }
    var a := parsed.value;
    var ranges := SeedRanges(a.seeds);
    if ranges.None? {
      return None;
    }
    var sorted := SortBy(ranges.value, ByStart);
    var groups := MapGroups(a.maps, sorted);
    r := Min(Starts(Flatten(groups)));
  }

  /** Each seed range as a group of its own; then map after map, every group
      is updated in place. */
  method MapGroups(maps: seq<Map>, sorted: seq<Range>) returns (r: seq<seq<Range>>)
    ensures r == seq(|sorted|, i requires 0 <= i < |sorted| => MapsRanges(maps, [sorted[i]]))
  {
    var groups := new seq<Range>[|sorted|];
    for gi := 0 to |sorted|
      invariant forall j :: 0 <= j < gi ==> groups[j] == [sorted[j]]
    {
      groups[gi] := [sorted[gi]];
    }
    for mi := 0 to |maps|
      invariant forall j :: 0 <= j < groups.Length ==> groups[j] == MapsRanges(maps[..mi], [sorted[j]])
    {
      assert maps[..mi + 1][..mi] == maps[..mi];
      ApplyToGroups(maps[mi], groups);
    }
    assert maps[..|maps|] == maps;
    r := groups[..];
  }

  /** The inner loop over the groups for one map. */
  method ApplyToGroups(m: Map, groups: array<seq<Range>>)
    modifies groups
    ensures forall j :: 0 <= j < groups.Length ==> groups[j] == MapRanges(m, old(groups[j]))
  {
    ghost var before := groups[..];
    for gi := 0 to groups.Length
      invariant forall j :: 0 <= j < gi ==> groups[j] == MapRanges(m, before[j])
      invariant forall j :: gi <= j < groups.Length ==> groups[j] == before[j]
    {
      var g := ApplyMap(m, groups[gi]);
      groups[gi] := g;
    }
  }

  /** Part two is not always the lowest location of a seed in the ranges: the
      range 5..10 starts on the source start of the item "100 5 3", so it is
      not split; its start goes to 100 and its end, outside the source range,
      stays 10. Seed 8 of the range is at location 8. */
  lemma PartTwoTouching()
    ensures PartTwoOf(Almanac([5, 6], [Map([MapItem(100, 5, 3)])])) == Some(100)
    ensures Through([Map([MapItem(100, 5, 3)])], 8) == 8
  {
    var it := MapItem(100, 5, 3);
    var m := Map([it]);
    var a := Almanac([5, 6], [m]);
    var r := Range(5, 10);
    assert SeedRanges([5, 6]) == Some([r]) by {
      assert [5, 6][2..] == [];
      assert SeedRanges([5, 6][2..]) == Some([]);
      assert [Range(5, 5 + 6 - 1)] + [] == [r];
    }
    assert SortBy([r], ByStart) == [r];
    SplitTouching(r, it);
    assert SplitAll([r], it) == [r];
    assert SplitByItems([r], m.items) == [r];
    assert Shift(r, m.items) == Range(100, 10);
    assert MapsRanges(a.maps, [r]) == MapRanges(m, MapsRanges([], [r]));
    assert MapsRanges(a.maps, [r]) == [Range(100, 10)];
    var groups := seq(1, i requires 0 <= i < 1 => MapsRanges(a.maps, [[r][i]]));
    assert groups == [[Range(100, 10)]];
    assert Flatten(groups) == [Range(100, 10)];
    assert Starts([Range(100, 10)]) == [100];
    assert Through([m], 8) == m.MappedValue(Through([], 8));
  }
}
