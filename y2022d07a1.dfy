/** 2022 day 7, second solution: the same directory sizes, with each line
    dispatched by a list pattern over its space-separated words. On a log of
    well-formed commands it agrees with the first solution. */
module Y2022D07A1 {
  import opened Wrappers
  import opened Strings
  import InputHelpers
  import opened Y2022D07

  /** One turn of the loop, by the first pattern the words match:
      ["$", "cd", "", ..] clears the stack; ["$", "cd", ".."] pops, and Pop
      on an empty stack throws; ["$", "cd", dir] pushes; ["$", "ls"] and
      ["dir", ..] change nothing; [size, _] is a file; anything else is
      ignored. Only a pop of the empty stack and a file size that is not an
      int throw; the stack grows by at most one directory, and only a file
      line touches the sizes. */
  function ReadWords(w: Walk, line: string): (r: Option<Walk>)
    ensures r.None? ==> ((w.path == [] && Split(line, ' ') == ["$", "cd", ".."]) ||
      (|Split(line, ' ')| == 2 && ParseInt32(Split(line, ' ')[0]).None?))
    ensures r.Some? ==> |r.value.path| <= |w.path| + 1
    ensures r.Some? && r.value.sizes != w.sizes ==>
      (|Split(line, ' ')| == 2 && ParseInt32(Split(line, ' ')[0]).Some? && r.value.path == w.path)
  {
    var words := Split(line, ' ');
    if |words| >= 3 && words[0] == "$" && words[1] == "cd" && words[2] == "" then
      Some(Walk([], w.sizes))
    else if |words| == 3 && words[0] == "$" && words[1] == "cd" && words[2] == ".." then
      if w.path == [] then None else Some(Walk(w.path[..|w.path| - 1], w.sizes))
    else if |words| == 3 && words[0] == "$" && words[1] == "cd" then
      Some(Walk(w.path + [words[2]], w.sizes))
    else if words == ["$", "ls"] then Some(w)
    else if words[0] == "dir" then Some(w)
    else if |words| == 2 then
      match ParseInt32(words[0])
      case None => None
      case Some(size) => Some(Walk(w.path, AddFile(w.path, w.sizes, size, |w.path|)))
    else Some(w)
  }

  /** The loop over the lines so far; None where it throws. */
  function WalkedWords(lines: seq<string>): Option<Walk>
  {
    if lines == [] then Some(Walk([], map[]))
    else
      match WalkedWords(lines[..|lines| - 1])
      case None => None
      case Some(w) => ReadWords(w, lines[|lines| - 1])
  }

  function DirSizesWords(input: string): Option<map<string, int>>
  {
    match WalkedWords(InputHelpers.AsLines(input))
    case None => None
    case Some(w) => Some(w.sizes)
  }

  /** CalcDirSizes of the second solution. */
  method CalcDirSizes(input: string) returns (r: Option<map<string, int>>)
    ensures r == DirSizesWords(input)
  {
    var lines := InputHelpers.AsLines(input);
    var sizes: map<string, int> := map[];
    var path: seq<string> := [];
    for li := 0 to |lines|
      invariant WalkedWords(lines[..li]) == Some(Walk(path, sizes))
    {
      var line := lines[li];
      assert lines[..li + 1][..li] == lines[..li];
      var words := Split(line, ' ');
      if |words| >= 3 && words[0] == "$" && words[1] == "cd" && words[2] == "" {
        path := [];
      } else if |words| == 3 && words[0] == "$" && words[1] == "cd" && words[2] == ".." {
        if path == [] {
          WalkedWordsStuck(lines, li + 1);
          return None;
        }
        path := path[..|path| - 1];
      } else if |words| == 3 && words[0] == "$" && words[1] == "cd" {
        path := path + [words[2]];
      } else if words == ["$", "ls"] {
      } else if words[0] == "dir" {
      } else if |words| == 2 {
        var fsize := ParseInt32(words[0]);
        if fsize.None? {
          WalkedWordsStuck(lines, li + 1);
          return None;
        }
        sizes := AddFileSizes(path, sizes, fsize.value);
      }
    }
    assert lines[..|lines|] == lines;
    r := Some(sizes);
  }

  /** The action of a file line: its size added to every directory on the
      current path. */
  method AddFileSizes(path: seq<string>, sizes0: map<string, int>, size: int) returns (sizes: map<string, int>)
    ensures sizes == AddFile(path, sizes0, size, |path|)
  {
    sizes := sizes0;
    for i := 0 to |path|
      invariant sizes == AddFile(path, sizes0, size, i)
    {
      var dir := Join(path[..i + 1], "_");
      sizes := sizes[dir := if dir !in sizes then size else sizes[dir] + size];
    }
  }

  /** Once a line throws, the whole loop throws. */
  lemma {:induction false} WalkedWordsStuck(lines: seq<string>, i: nat)
    requires i <= |lines| && WalkedWords(lines[..i]).None?
    ensures WalkedWords(lines).None?
    decreases |lines| - i
  {
    if i < |lines| {
      assert lines[..i + 1][..i] == lines[..i];
      WalkedWordsStuck(lines, i + 1);
    } else {
      assert lines[..i] == lines;
    }
  }

  method SolvePartOne(input: string) returns (r: Option<int>)
    ensures r.Some? <==> DirSizesWords(input).Some?
    ensures r.Some? ==> r.value == SmallSum(DirSizesWords(input).value)
  {
    var sizes := CalcDirSizes(input);
    if sizes.None? {
      return None;
    }
    var total := SumSmall(sizes.value);
    r := Some(total);
  }

  method SolvePartTwo(input: string) returns (r: Option<int>)
    ensures r.Some? <==> DirSizesWords(input).Some? && "/" in DirSizesWords(input).value
    ensures r.Some? ==> SmallestAbove(DirSizesWords(input).value, Required(DirSizesWords(input).value["/"]), r.value)
    ensures r.Some? ==> r.value <= DirSizesWords(input).value["/"]
  {
    var sizes := CalcDirSizes(input);
    if sizes.None? || "/" !in sizes.value {
      return None;
    }
    var s := sizes.value;
    var required := SpaceNeeded - (DiskSize - s["/"]);
    r := FirstAbove(s, required);
    assert s["/"] > required;
  }

  // ---------------------------------------------------------------------------
  // Agreement with the first solution
  // ---------------------------------------------------------------------------

  /** A line of the terminal log. */
  datatype Command = Cd(name: string) | Ls | Dir(name: string) | File(size: nat, name: string)

  function Render(c: Command): string
  {
    match c
    case Cd(name) => "$ cd " + name
    case Ls => "$ ls"
    case Dir(name) => "dir " + name
    case File(size, name) => NatToString(size) + " " + name
  }

  /** A command as a real log prints it: names are single words (a cd's is
      not empty) on one line, and sizes fit an int. */
  predicate Proper(c: Command)
  {
    match c
    case Cd(name) => name != [] && ' ' !in name && '\n' !in name
    case Ls => true
    case Dir(name) => '\n' !in name
    case File(size, name) => size < 0x8000_0000 && ' ' !in name && '\n' !in name
  }

  function Renders(cs: seq<Command>): (r: seq<string>)
    ensures |r| == |cs|
    ensures forall i :: 0 <= i < |cs| ==> r[i] == Render(cs[i])
  {
    if cs == [] then [] else Renders(cs[..|cs| - 1]) + [Render(cs[|cs| - 1])]
  }

  /** The first word of a line runs up to its first space. */
  lemma SplitWord(a: string, b: string)
    requires ' ' !in a
    ensures Split(a + " " + b, ' ') == [a] + Split(b, ' ')
  {
    var t := " " + b;
    assert t[..1] == [' '] && t[1..] == b;
    assert Split(t, ' ') == [[]] + Split(b, ' ');
    SplitPrefix(a, t, ' ');
    assert a + " " + b == a + t;
    assert Split(t, ' ')[0] == [] && Split(t, ' ')[1..] == Split(b, ' ');
    assert a + [] == a;
  }

  /** A line without a space is one word. */
  lemma OneWord(a: string)
    requires ' ' !in a
    ensures Split(a, ' ') == [a]
  {
    assert Split([], ' ') == [[]];
    SplitPrefix(a, [], ' ');
    assert a + [] == a;
  }

  /** Both solutions read a proper command alike. */
  lemma SameLine(w: Walk, c: Command)
    requires Proper(c)
    ensures Y2022D07.ReadLine(w, Render(c)) == ReadWords(w, Render(c))
  {
    match c
    case Cd(name) => SameCd(w, name);
    case Ls => SameLs(w);
    case Dir(name) => SameDir(w, name);
    case File(size, name) => SameFile(w, size, name);
  }

  lemma SameCd(w: Walk, name: string)
    requires name != [] && ' ' !in name && '\n' !in name
    ensures Y2022D07.ReadLine(w, Render(Cd(name))) == ReadWords(w, Render(Cd(name)))
  {
    var line := Render(Cd(name));
    assert line == "$" + " " + ("cd" + " " + name);
    SplitWord("$", "cd" + " " + name);
    SplitWord("cd", name);
    OneWord(name);
    assert line[..5] == "$ cd " && line[5..] == name;
  }

  lemma SameLs(w: Walk)
    ensures Y2022D07.ReadLine(w, Render(Ls)) == ReadWords(w, Render(Ls))
  {
    var line := Render(Ls);
    assert line == "$" + " " + "ls";
    SplitWord("$", "ls");
    OneWord("ls");
  }

  lemma SameDir(w: Walk, name: string)
    requires '\n' !in name
    ensures Y2022D07.ReadLine(w, Render(Dir(name))) == ReadWords(w, Render(Dir(name)))
  {
    var line := Render(Dir(name));
    assert line == "dir" + " " + name;
    SplitWord("dir", name);
    assert line[..4] == "dir ";
  }

  lemma SameFile(w: Walk, size: nat, name: string)
    requires size < 0x8000_0000 && ' ' !in name && '\n' !in name
    ensures Y2022D07.ReadLine(w, Render(File(size, name))) == ReadWords(w, Render(File(size, name)))
  {
    var line := Render(File(size, name));
    var digits := NatToString(size);
    assert IsDigit(digits[0]);
    assert ' ' !in digits by {
      forall i | 0 <= i < |digits|
        ensures digits[i] != ' '
      {
        assert IsDigit(digits[i]);
      }
    }
    SplitWord(digits, name);
    OneWord(name);
    assert line[0] == digits[0];
    assert ParseInt32(digits) == Some(size as int);
  }

  /** Both solutions walk a log of proper commands alike. */
  lemma {:induction false} SameWalk(cs: seq<Command>)
    requires forall i :: 0 <= i < |cs| ==> Proper(cs[i])
    ensures Y2022D07.Walked(Renders(cs)) == WalkedWords(Renders(cs))
  {
    if cs != [] {
      var init := cs[..|cs| - 1];
      var lines := Renders(cs);
      assert lines[..|lines| - 1] == Renders(init);
      SameWalk(init);
      match WalkedWords(Renders(init))
      case None =>
      case Some(w) => SameLine(w, cs[|cs| - 1]);
    }
  }

  /** A proper command renders on one line. */
  lemma OneLine(c: Command)
    requires Proper(c)
    ensures '\n' !in Render(c)
  {
    if c.File? {
      var digits := NatToString(c.size);
      forall j | 0 <= j < |digits|
        ensures digits[j] != '\n'
      {
        assert IsDigit(digits[j]);
      }
    }
  }

  /** On the input made of a nonempty log of proper commands, the two
      solutions find the same directory sizes. */
  lemma SameSizes(cs: seq<Command>)
    requires cs != [] && forall i :: 0 <= i < |cs| ==> Proper(cs[i])
    ensures Y2022D07.DirSizes(Join(Renders(cs), "\n")) == DirSizesWords(Join(Renders(cs), "\n"))
  {
    var lines := Renders(cs);
    forall i | 0 <= i < |lines|
      ensures '\n' !in lines[i]
    {
      OneLine(cs[i]);
    }
    SplitJoin(lines, '\n');
    assert InputHelpers.AsLines(Join(lines, "\n")) == lines;
    SameWalk(cs);
  }
}
