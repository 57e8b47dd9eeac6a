/** 2022 day 7: the sizes of the directories of a file system, added up from
    a terminal log of cd and ls commands and their listings. A directory is
    keyed by the names on the path to it, root first, joined with "_". */
module Y2022D07 {
  import opened Wrappers
  import opened Strings
  import opened Seqs
  import InputHelpers

  /** The state of CalcDirSizes between two lines: the stack of directory
      names, root first (the source's Stack reversed), and the sizes found so
      far. */
  datatype Walk = Walk(path: seq<string>, sizes: map<string, int>)

  /** The key of the directory made of the first `n` names of the path:
      string.Join("_", currDir.Reverse().Take(n)). */
  function Key(path: seq<string>, n: nat): string
    requires 0 < n <= |path|
  {
    Join(path[..n], "_")
  }

  /** A file's size added to the first `n` directories of the path; an entry
      met for the first time starts at the size. */
  function AddFile(path: seq<string>, sizes: map<string, int>, size: int, n: nat): map<string, int>
    requires n <= |path|
  {
    if n == 0 then sizes
    else
      var s := AddFile(path, sizes, size, n - 1);
      var key := Key(path, n);
      s[key := (if key in s then s[key] else 0) + size]
  }

  /** A line that is not a cd, not "$ ls" and not a "dir" listing: a file
      listing, whose first word is the size. */
  predicate IsFileLine(line: string)
  {
    !StartsWith(line, "$ cd ") && line != "$ ls" && !StartsWith(line, "dir ")
  }

  /** int.Parse of the first word of a file line. */
  function FileSize(line: string): Option<int>
  {
    ParseInt32(Split(line, ' ')[0])
  }

  /** One turn of the loop: "$ cd .." pops, and Pop on an empty stack throws;
      any other cd pushes its argument; "$ ls" and "dir" lines change
      nothing; any other line is a file, whose size goes to every directory
      on the path. */
  function ReadLine(w: Walk, line: string): Option<Walk>
  {
    if StartsWith(line, "$ cd ") then
      var cd := line[5..];
      if cd == ".." then
        if w.path == [] then None else Some(Walk(w.path[..|w.path| - 1], w.sizes))
      else Some(Walk(w.path + [cd], w.sizes))
    else if line == "$ ls" || StartsWith(line, "dir ") then Some(w)
    else
      match FileSize(line)
      case None => None
      case Some(size) => Some(Walk(w.path, AddFile(w.path, w.sizes, size, |w.path|)))
  }

  /** The loop over the lines so far; None where it throws. */
  function Walked(lines: seq<string>): Option<Walk>
  {
    if lines == [] then Some(Walk([], map[]))
    else
      match Walked(lines[..|lines| - 1])
      case None => None
      case Some(w) => ReadLine(w, lines[|lines| - 1])
  }

  function DirSizes(input: string): Option<map<string, int>>
  {
    match Walked(InputHelpers.AsLines(input))
    case None => None
    case Some(w) => Some(w.sizes)
  }

  /** CalcDirSizes: a stack of names and a dictionary of sizes, updated line
      by line. */
  method CalcDirSizes(input: string) returns (r: Option<map<string, int>>)
    ensures r == DirSizes(input)
  {
    var lines := InputHelpers.AsLines(input);
    var sizes: map<string, int> := map[];
    var path: seq<string> := [];
    for li := 0 to |lines|
      invariant Walked(lines[..li]) == Some(Walk(path, sizes))
    {
      var line := lines[li];
      assert lines[..li + 1][..li] == lines[..li];
      if StartsWith(line, "$ cd ") {
        var cd := line[5..];
        if cd == ".." {
          if path == [] {
            WalkStuck(lines, li + 1);
            return None;
          }
          path := path[..|path| - 1];
        } else {
          path := path + [cd];
        }
      } else if line == "$ ls" {
      } else if StartsWith(line, "dir ") {
      } else {
        var fsize := ParseInt32(Split(line, ' ')[0]);
        if fsize.None? {
          WalkStuck(lines, li + 1);
          return None;
        }
        ghost var before := sizes;
        for i := 0 to |path|
          invariant sizes == AddFile(path, before, fsize.value, i)
        {
          var dir := Join(path[..i + 1], "_");
          if dir !in sizes {
            sizes := sizes[dir := fsize.value];
          } else {
            sizes := sizes[dir := sizes[dir] + fsize.value];
          }
        }
      }
    }
    assert lines[..|lines|] == lines;
    r := Some(Walk(path, sizes).sizes);
  }

  /** Once a line throws, the whole loop throws. */
  lemma {:induction false} WalkStuck(lines: seq<string>, i: nat)
    requires i <= |lines| && Walked(lines[..i]).None?
    ensures Walked(lines).None?
    decreases |lines| - i
  {
    if i < |lines| {
      assert lines[..i + 1][..i] == lines[..i];
      WalkStuck(lines, i + 1);
    } else {
      assert lines[..i] == lines;
    }
  }

  // ---------------------------------------------------------------------------
  // Keys
  // ---------------------------------------------------------------------------

  /** No name contains the separator "_". */
  predicate NoSep(names: seq<string>)
  {
    forall i :: 0 <= i < |names| ==> '_' !in names[i]
  }

  /** One more name makes the key longer by a separator and the name. */
  lemma {:induction false} JoinSnoc(p: seq<string>, x: string)
    requires p != []
    ensures Join(p + [x], "_") == Join(p, "_") + "_" + x
    decreases |p|
  {
    var q := p + [x];
    assert q[0] == p[0];
    if |p| == 1 {
      assert q[1..] == [x];
    } else {
      assert q[1..] == p[1..] + [x];
      JoinSnoc(p[1..], x);
    }
  }

  /** The directory of `n` names has the key of `n - 1` names, a separator
      and the last name. */
  lemma KeyStep(path: seq<string>, n: nat)
    requires 1 < n <= |path|
    ensures Key(path, n) == Key(path, n - 1) + "_" + path[n - 1]
  {
    assert path[..n] == path[..n - 1] + [path[n - 1]];
    JoinSnoc(path[..n - 1], path[n - 1]);
  }

  /** The keys of a path's directories grow longer, so they differ. */
  lemma {:induction false} KeyLonger(path: seq<string>, m: nat, n: nat)
    requires 0 < m < n <= |path|
    ensures |Key(path, m)| < |Key(path, n)|
    decreases n
  {
    KeyStep(path, n);
    if m < n - 1 {
      KeyLonger(path, m, n - 1);
    }
  }

  /** Without "_" in the names, a key determines the names. */
  lemma JoinInjective(a: seq<string>, b: seq<string>)
    requires a != [] && b != [] && NoSep(a) && NoSep(b)
    requires Join(a, "_") == Join(b, "_")
    ensures a == b
  {
    SplitJoin(a, '_');
    SplitJoin(b, '_');
  }

  /** A file's size goes to exactly the keys of the first `n` directories of
      the path, once each; every other entry is kept. */
  lemma {:induction false} AddFileAt(path: seq<string>, sizes: map<string, int>, size: int, n: nat, k: string)
    requires n <= |path|
    ensures k in AddFile(path, sizes, size, n) <==> k in sizes || exists m :: 0 < m <= n && Key(path, m) == k
    ensures (exists m :: 0 < m <= n && Key(path, m) == k) ==>
      AddFile(path, sizes, size, n)[k] == (if k in sizes then sizes[k] else 0) + size
    ensures (forall m :: 0 < m <= n ==> Key(path, m) != k) && k in sizes ==>
      AddFile(path, sizes, size, n)[k] == sizes[k]
    decreases n
  {
    if n > 0 {
      AddFileAt(path, sizes, size, n - 1, k);
      if k == Key(path, n) {
        forall m | 0 < m < n
          ensures Key(path, m) != k
        {
          KeyLonger(path, m, n);
        }
      }
    }
  }

  // ---------------------------------------------------------------------------
  // Totals
  // ---------------------------------------------------------------------------

  /** The names given to cd have no "_". */
  predicate PlainNames(lines: seq<string>)
  {
    forall i :: 0 <= i < |lines| && StartsWith(lines[i], "$ cd ") ==> '_' !in lines[i][5..]
  }

  /** Every file listed has a size of at least zero. */
  predicate NoNegativeFiles(lines: seq<string>)
  {
    forall i :: 0 <= i < |lines| && IsFileLine(lines[i]) && FileSize(lines[i]).Some? ==> FileSize(lines[i]).value >= 0
  }

  /** The sizes of the files listed while the current directory was `dir` or
      below it: the files inside `dir`. */
  function Within(lines: seq<string>, dir: seq<string>): seq<int>
  {
    if lines == [] then []
    else
      var init := lines[..|lines| - 1];
      var line := lines[|lines| - 1];
      var rest := Within(init, dir);
      match Walked(init)
      case None => rest
      case Some(w) =>
        if IsFileLine(line) && FileSize(line).Some? && dir <= w.path then rest + [FileSize(line).value]
        else rest
  }

  /** With plain names, every directory on the path has no "_" in its name. */
  lemma {:induction false} WalkPlain(lines: seq<string>)
    requires PlainNames(lines) && Walked(lines).Some?
    ensures NoSep(Walked(lines).value.path)
  {
    if lines != [] {
      PlainNamesInit(lines);
      WalkPlain(lines[..|lines| - 1]);
    }
  }

  /** A file's size goes to a directory exactly when the directory is the
      current one or one of its ancestors. */
  lemma FileKeys(path: seq<string>, sizes: map<string, int>, size: int, dir: seq<string>)
    requires NoSep(path) && dir != [] && NoSep(dir)
    ensures Join(dir, "_") in AddFile(path, sizes, size, |path|) <==> Join(dir, "_") in sizes || dir <= path
    ensures dir <= path ==>
      AddFile(path, sizes, size, |path|)[Join(dir, "_")] == (if Join(dir, "_") in sizes then sizes[Join(dir, "_")] else 0) + size
    ensures !(dir <= path) && Join(dir, "_") in sizes ==>
      AddFile(path, sizes, size, |path|)[Join(dir, "_")] == sizes[Join(dir, "_")]
  {
    var k := Join(dir, "_");
    AddFileAt(path, sizes, size, |path|, k);
    if dir <= path {
      assert Key(path, |dir|) == k by {
        assert path[..|dir|] == dir;
      }
    } else {
      forall m | 0 < m <= |path|
        ensures Key(path, m) != k
      {
        if Key(path, m) == k {
          assert NoSep(path[..m]) by {
            forall i | 0 <= i < m
              ensures '_' !in path[..m][i]
            {
              assert path[..m][i] == path[i];
            }
          }
          JoinInjective(path[..m], dir);
        }
      }
    }
  }

  lemma PlainNamesInit(lines: seq<string>)
    requires lines != [] && PlainNames(lines)
    ensures PlainNames(lines[..|lines| - 1])
  {
    var init := lines[..|lines| - 1];
    forall i | 0 <= i < |init| && StartsWith(init[i], "$ cd ")
      ensures '_' !in init[i][5..]
    {
      assert init[i] == lines[i];
    }
  }

  /** A directory's entry exists once a file inside it is listed, and holds
      the sum of the sizes of the files inside it; for "/" that is every file
      listed below the root. */
  lemma {:induction false} TotalWithin(lines: seq<string>, dir: seq<string>)
    requires PlainNames(lines) && Walked(lines).Some?
    requires dir != [] && NoSep(dir)
    ensures Join(dir, "_") in Walked(lines).value.sizes <==> Within(lines, dir) != []
    ensures Join(dir, "_") in Walked(lines).value.sizes ==>
      Walked(lines).value.sizes[Join(dir, "_")] == Sum(Within(lines, dir))
  {
    if lines != [] {
      var init := lines[..|lines| - 1];
      var line := lines[|lines| - 1];
      PlainNamesInit(lines);
      TotalWithin(init, dir);
      var w := Walked(init).value;
      if IsFileLine(line) && FileSize(line).Some? {
        WalkPlain(init);
        FileKeys(w.path, w.sizes, FileSize(line).value, dir);
      }
    }
  }

  /** Every file inside a directory's descendant is inside the directory. */
  lemma {:induction false} WithinDescendant(lines: seq<string>, dir: seq<string>, sub: seq<string>)
    requires NoNegativeFiles(lines)
    ensures Within(lines, dir + sub) != [] ==> Within(lines, dir) != []
    ensures Sum(Within(lines, dir + sub)) <= Sum(Within(lines, dir))
  {
    if lines != [] {
      var init := lines[..|lines| - 1];
      assert NoNegativeFiles(init) by {
        forall i | 0 <= i < |init| && IsFileLine(init[i]) && FileSize(init[i]).Some?
          ensures FileSize(init[i]).value >= 0
        {
          assert init[i] == lines[i];
        }
      }
      WithinDescendant(init, dir, sub);
      match Walked(init)
      case None =>
      case Some(w) =>
        if dir + sub <= w.path {
          assert dir <= w.path by {
            assert w.path[..|dir|] == (dir + sub)[..|dir|] == dir;
          }
        }
    }
  }

  /** A directory's total is at least the total of any directory below it. */
  lemma AtLeastDescendant(lines: seq<string>, dir: seq<string>, sub: seq<string>)
    requires PlainNames(lines) && NoNegativeFiles(lines) && Walked(lines).Some?
    requires dir != [] && NoSep(dir + sub)
    requires Join(dir + sub, "_") in Walked(lines).value.sizes
    ensures Join(dir, "_") in Walked(lines).value.sizes
    ensures Walked(lines).value.sizes[Join(dir, "_")] >= Walked(lines).value.sizes[Join(dir + sub, "_")]
  {
    assert NoSep(dir) by {
      forall i | 0 <= i < |dir|
        ensures '_' !in dir[i]
      {
        assert (dir + sub)[i] == dir[i];
      }
    }
    TotalWithin(lines, dir + sub);
    TotalWithin(lines, dir);
    WithinDescendant(lines, dir, sub);
  }

  // ---------------------------------------------------------------------------
  // Part one
  // ---------------------------------------------------------------------------

  const SmallLimit: int := 100000

  /** What a directory adds to part one: its size when below the limit. */
  function Small(v: int): int
  {
    if v < SmallLimit then v else 0
  }

  /** Where(v < 100000).Sum(): the sum of the sizes below the limit. */
  ghost function SmallSum(sizes: map<string, int>): int
    decreases |sizes|
  {
    if sizes == map[] then 0
    else
      var k :| k in sizes;
      Small(sizes[k]) + SmallSum(sizes - {k})
  }

  /** The sum does not depend on the order of the entries. */
  lemma {:induction false} SmallSumRemove(sizes: map<string, int>, k: string)
    requires k in sizes
    ensures SmallSum(sizes) == Small(sizes[k]) + SmallSum(sizes - {k})
    decreases |sizes|
  {
    var j :| j in sizes && SmallSum(sizes) == Small(sizes[j]) + SmallSum(sizes - {j});
    if j != k {
      SmallSumRemove(sizes - {j}, k);
      SmallSumRemove(sizes - {k}, j);
      assert sizes - {j} - {k} == sizes - {k} - {j};
    }
  }

  /** Each size below the limit is part of the sum, when none is negative. */
  lemma {:induction false} SmallSumAtLeast(sizes: map<string, int>, k: string)
    requires k in sizes && forall j :: j in sizes ==> sizes[j] >= 0
    ensures SmallSum(sizes) >= Small(sizes[k]) >= 0
    decreases |sizes|
  {
    SmallSumRemove(sizes, k);
    SmallSumNonNegative(sizes - {k});
  }

  lemma {:induction false} SmallSumNonNegative(sizes: map<string, int>)
    requires forall j :: j in sizes ==> sizes[j] >= 0
    ensures SmallSum(sizes) >= 0
    decreases |sizes|
  {
    if sizes != map[] {
      var k :| k in sizes;
      SmallSumRemove(sizes, k);
      SmallSumNonNegative(sizes - {k});
    }
  }

  /** The part one sum, over the dictionary's entries one at a time. */
  method SumSmall(sizes: map<string, int>) returns (total: int)
    ensures total == SmallSum(sizes)
  {
    total := 0;
    var rest := sizes;
    while rest != map[]
      invariant total + SmallSum(rest) == SmallSum(sizes)
      decreases |rest|
    {
      var k :| k in rest;
      SmallSumRemove(rest, k);
      total := total + Small(rest[k]);
      rest := rest - {k};
    }
  }

  method SolvePartOne(input: string) returns (r: Option<int>)
    ensures r.Some? <==> DirSizes(input).Some?
    ensures r.Some? ==> r.value == SmallSum(DirSizes(input).value)
  {
    var sizes := CalcDirSizes(input);
    if sizes.None? {
      return None;
    }
    var total := SumSmall(sizes.value);
    r := Some(total);
  }

  // ---------------------------------------------------------------------------
  // Part two
  // ---------------------------------------------------------------------------

  const DiskSize: int := 70000000
  const SpaceNeeded: int := 30000000

  /** `v` is the smallest size above `bound`. */
  ghost predicate SmallestAbove(sizes: map<string, int>, bound: int, v: int)
  {
    (exists k :: k in sizes && sizes[k] == v) && v > bound &&
    forall k :: k in sizes && sizes[k] > bound ==> sizes[k] >= v
  }

  /** OrderBy(v).First(v > bound): the smallest size above the bound; First
      throws when there is none. */
  method FirstAbove(sizes: map<string, int>, bound: int) returns (r: Option<int>)
    ensures r.None? <==> forall k :: k in sizes ==> sizes[k] <= bound
    ensures r.Some? ==> SmallestAbove(sizes, bound, r.value)
  {
    r := None;
    var rest := sizes;
    while rest != map[]
      invariant rest.Keys <= sizes.Keys && forall k :: k in rest ==> rest[k] == sizes[k]
      invariant r.None? <==> forall k :: k in sizes && k !in rest ==> sizes[k] <= bound
      invariant r.Some? ==> (exists k :: k in sizes && sizes[k] == r.value) && r.value > bound
      invariant r.Some? ==> forall k :: k in sizes && k !in rest && sizes[k] > bound ==> sizes[k] >= r.value
      decreases |rest|
    {
      var k :| k in rest;
      if rest[k] > bound && (r.None? || rest[k] < r.value) {
        r := Some(rest[k]);
      }
      rest := rest - {k};
    }
  }

  /** The space to free: what is needed minus what is unused. */
  function Required(rootSize: int): int
  {
    SpaceNeeded - (DiskSize - rootSize)
  }

  /** Part two: the smallest directory whose size exceeds the space to free.
      The root itself always does, so the answer exists exactly when "/" is
      a key, and it is at most the root's size; a missing "/" throws. */
  method SolvePartTwo(input: string) returns (r: Option<int>)
    ensures r.Some? <==> DirSizes(input).Some? && "/" in DirSizes(input).value
    ensures r.Some? ==> SmallestAbove(DirSizes(input).value, Required(DirSizes(input).value["/"]), r.value)
    ensures r.Some? ==> r.value <= DirSizes(input).value["/"]
  {
    var sizes := CalcDirSizes(input);
    if sizes.None? || "/" !in sizes.value {
      return None;
    }
    var s := sizes.value;
    var required := SpaceNeeded - (DiskSize - s["/"]);
    r := FirstAbove(s, required);
    assert s["/"] > required;
  }
}
