/** Haunted wasteland: a network of nodes with a left and a right exit, walked
    by a cyclic list of L/R instructions. Part one counts the moves from AAA
    to ZZZ; part two walks every node ending in A at once, notes when each
    first reaches a node ending in Z, and combines those counts with the least
    common multiple. */
module Y2023D08 {
  import opened Wrappers
  import opened Strings
  import InputHelpers

  datatype Node = Node(id: string, left: string, right: string)

  /** The parsed puzzle: the instruction characters, the node names in input
      order and the nodes by name. */
  datatype Network = Network(steps: string, keys: seq<string>, nodes: map<string, Node>)

  // ---------------------------------------------------------------------------
  // Parsing
  // ---------------------------------------------------------------------------

  /** The input with " = " turned into a blank and the punctuation removed, so
      that "AAA = (BBB, CCC)" reads "AAA BBB CCC". */
  function Clean(input: string): string
  {
    Replace(Replace(Replace(Replace(input, " = ", " "), "(", ""), ")", ""), ",", "")
  }

  /** One node line split on blanks; None (an index out of range) when it has
      fewer than three fields. Extra fields are ignored. */
  function ParseNode(line: string): (r: Option<Node>)
    ensures r.Some? <==> |Split(line, ' ')| >= 3
    ensures r.Some? ==> r.value == Node(Split(line, ' ')[0], Split(line, ' ')[1], Split(line, ' ')[2])
  {
    var fields := Split(line, ' ');
    if |fields| < 3 then None else Some(Node(fields[0], fields[1], fields[2]))
  }

  /** `keys` are the names of the node lines in order, pairwise distinct, and
      `nodes` maps each of them to its line's node. */
  predicate Indexed(lines: seq<string>, keys: seq<string>, nodes: map<string, Node>)
  {
    |keys| == |lines| && nodes.Keys == (set k | k in keys) &&
    (forall i :: 0 <= i < |lines| ==>
      ParseNode(lines[i]).Some? && keys[i] == ParseNode(lines[i]).value.id &&
      keys[i] in nodes && nodes[keys[i]] == ParseNode(lines[i]).value) &&
    (forall i, j :: 0 <= i < j < |keys| ==> keys[i] != keys[j])
  }

  /** ToDictionary over the node lines: the names in order and the map from
      name to node; None when a line is short or a name repeats. */
  function ParseNodes(lines: seq<string>): (r: Option<(seq<string>, map<string, Node>)>)
    ensures r.Some? ==> Indexed(lines, r.value.0, r.value.1)
  {
    if lines == [] then Some(([], map[]))
    else
      var init := lines[..|lines| - 1];
      var prev := ParseNodes(init);
      var node := ParseNode(lines[|lines| - 1]);
      if prev.None? || node.None? || node.value.id in prev.value.1 then None
      else
        IndexedAdd(lines, prev.value.0, prev.value.1, node.value);
        Some((prev.value.0 + [node.value.id], prev.value.1[node.value.id := node.value]))
  }

  /** Adding the last line's node to the dictionary of the others. */
  lemma IndexedAdd(lines: seq<string>, keys: seq<string>, nodes: map<string, Node>, node: Node)
    requires lines != [] && Indexed(lines[..|lines| - 1], keys, nodes)
    requires ParseNode(lines[|lines| - 1]) == Some(node) && node.id !in nodes
    ensures Indexed(lines, keys + [node.id], nodes[node.id := node])
  {
    var n := |lines| - 1;
    var keys', nodes' := keys + [node.id], nodes[node.id := node];
    assert nodes'.Keys == (set k | k in keys');
    forall i | 0 <= i < n
      ensures ParseNode(lines[i]).Some? && keys'[i] == ParseNode(lines[i]).value.id &&
        keys'[i] in nodes' && nodes'[keys'[i]] == ParseNode(lines[i]).value
    {
      assert lines[..n][i] == lines[i];
      assert keys'[i] == keys[i] && keys[i] in nodes;
    }
    forall i, j | 0 <= i < j < |keys'|
      ensures keys'[i] != keys'[j]
    {
      if j < n {
        assert keys'[i] == keys[i] && keys'[j] == keys[j];
      } else {
        assert keys'[i] == keys[i] && keys[i] in nodes;
      }
    }
  }

  /** ToDictionary throws only for a short line or a repeated name. */
  lemma {:induction false} ParseNodesFails(lines: seq<string>)
    requires ParseNodes(lines).None?
    ensures (exists i :: 0 <= i < |lines| && ParseNode(lines[i]).None?) ||
      exists i, j :: 0 <= i < j < |lines| && ParseNode(lines[i]).Some? && ParseNode(lines[j]).Some? &&
        ParseNode(lines[i]).value.id == ParseNode(lines[j]).value.id
  {
    var n := |lines| - 1;
    var init := lines[..n];
    assert forall i :: 0 <= i < n ==> init[i] == lines[i];
    if ParseNode(lines[n]).None? {
    } else if ParseNodes(init).None? {
      ParseNodesFails(init);
    } else {
      var keys := ParseNodes(init).value.0;
      var id := ParseNode(lines[n]).value.id;
      assert id in ParseNodes(init).value.1;
      var i :| 0 <= i < |keys| && keys[i] == id;
      assert ParseNode(lines[i]).value.id == ParseNode(lines[n]).value.id;
    }
  }

  /** The first line gives the instructions; the nodes start at the third line. */
  function Parse(input: string): (r: Option<Network>)
    ensures r.Some? ==> r.value.steps == InputHelpers.AsLines(Clean(input))[0]
    ensures r.Some? ==> r.value.nodes.Keys == set k | k in r.value.keys
  {
    var lines := InputHelpers.AsLines(Clean(input));
    match ParseNodes(if |lines| >= 2 then lines[2..] else [])
    case Some((keys, nodes)) => Some(Network(lines[0], keys, nodes))
    case None => None
  }

  // ---------------------------------------------------------------------------
  // Walking the network
  // ---------------------------------------------------------------------------

  /** Move number `m` (counting from 1) from `node`: it follows instruction
      (m - 1) mod the instruction count, 'L' to the left exit and anything else
      to the right; None when the node is not in the network. */
  function Move(net: Network, node: string, m: nat): (r: Option<string>)
    requires net.steps != [] && m >= 1
    ensures r.None? <==> node !in net.nodes
    ensures r.Some? && net.steps[(m - 1) % |net.steps|] == 'L' ==> r.value == net.nodes[node].left
    ensures r.Some? && net.steps[(m - 1) % |net.steps|] != 'L' ==> r.value == net.nodes[node].right
  {
    if node !in net.nodes then None
    else if net.steps[(m - 1) % |net.steps|] == 'L' then Some(net.nodes[node].left)
    else Some(net.nodes[node].right)
  }

  /** Where `k` moves from `start` lead; None once a move leaves the network. */
  function Walk(net: Network, start: string, k: nat): Option<string>
    requires net.steps != []
  {
    if k == 0 then Some(start)
    else
      match Walk(net, start, k - 1)
      case None => None
      case Some(node) => Move(net, node, k)
  }

  /** Leaving the network ends the walk for good. */
  lemma {:induction false} WalkStaysBroken(net: Network, start: string, j: nat, k: nat)
    requires net.steps != [] && j <= k && Walk(net, start, j).None?
    ensures Walk(net, start, k).None?
    decreases k - j
  {
    if j < k {
      WalkStaysBroken(net, start, j, k - 1);
    }
  }

  // ---------------------------------------------------------------------------
  // Part one
  // ---------------------------------------------------------------------------

  function Start(): string { "AAA" }
  function Goal(): string { "ZZZ" }

  /** The walk from AAA reaches ZZZ or leaves the network after `k` moves. */
  predicate PartOneEndsAt(net: Network, k: nat)
    requires net.steps != []
  {
    Walk(net, Start(), k).None? || Walk(net, Start(), k) == Some(Goal())
  }

  /** The inputs on which part one finishes: a parse failure, no instructions
      (First throws) or a walk from AAA that reaches ZZZ or a missing node.
      On any other input the loop of the source never ends. */
  ghost predicate PartOneFinishes(input: string)
  {
    match Parse(input)
    case None => true
    case Some(net) => net.steps == [] || exists k: nat :: PartOneEndsAt(net, k)
  }

  /** The walk from AAA first stands on ZZZ after `k` moves. */
  predicate ArrivesAt(net: Network, k: nat)
    requires net.steps != []
  {
    Walk(net, Start(), k) == Some(Goal()) &&
    forall i :: 0 <= i < k ==> Walk(net, Start(), i).Some? && Walk(net, Start(), i) != Some(Goal())
  }

  /** The walk from AAA meets a node that is not in the network before ZZZ. */
  ghost predicate FailsFirst(net: Network)
    requires net.steps != []
  {
    exists j: nat :: Walk(net, Start(), j).None? && forall i :: 0 <= i < j ==> Walk(net, Start(), i) != Some(Goal())
  }

  /** An arrival and an earlier failure exclude each other. */
  lemma ArrivalExcludesFailure(net: Network, k: nat)
    requires net.steps != [] && ArrivesAt(net, k)
    ensures !FailsFirst(net)
  {
    forall j: nat | Walk(net, Start(), j).None?
      ensures exists i :: 0 <= i < j && Walk(net, Start(), i) == Some(Goal())
    {
      assert k < j;
    }
  }

  /** The loop of part one over a parsed network: the number of moves of the
      first arrival at ZZZ, or None when a node on the way is missing. */
  method WalkToGoal(net: Network) returns (r: Option<nat>)
    requires net.steps != [] && exists k: nat :: PartOneEndsAt(net, k)
    ensures r.Some? ==> ArrivesAt(net, r.value)
    ensures r.None? <==> FailsFirst(net)
  {
    ghost var bound: nat :| PartOneEndsAt(net, bound);
    var moveCount := 0;
    var step := net.steps[0];
    var currentNode := Start();
    while currentNode != Goal()
      invariant moveCount <= bound
      invariant Walk(net, Start(), moveCount) == Some(currentNode)
      invariant forall i :: 0 <= i < moveCount ==> Walk(net, Start(), i).Some? && Walk(net, Start(), i) != Some(Goal())
      invariant step == net.steps[moveCount % |net.steps|]
      decreases bound - moveCount
    {
      if currentNode !in net.nodes {
        assert Walk(net, Start(), moveCount + 1).None?;
        return None;
      }
      moveCount := moveCount + 1;
      currentNode := if step == 'L' then net.nodes[currentNode].left else net.nodes[currentNode].right;
      step := net.steps[moveCount % |net.steps|];
    }
    r := Some(moveCount);
    ArrivalExcludesFailure(net, moveCount);
  }

  /** Part one: the number of moves of the first arrival at ZZZ; None when the
      input does not parse, there are no instructions or the walk reaches a
      node that is not in the network before ZZZ. */
  method SolvePartOne(input: string) returns (r: Option<nat>)
    requires PartOneFinishes(input)
    ensures r.Some? ==> Parse(input).Some? && Parse(input).value.steps != [] && ArrivesAt(Parse(input).value, r.value)
    ensures r.None? <==> (Parse(input).None? || Parse(input).value.steps == [] || FailsFirst(Parse(input).value))
  {
    var parsed := Parse(input);
    if parsed.None? {
      return None;
    }
    var net := parsed.value;
    if |net.steps| == 0 {
      return None;
    }
    r := WalkToGoal(net);
  }

  // ---------------------------------------------------------------------------
  // Part two
  // ---------------------------------------------------------------------------

  /** Character 2 of a node name (`name[2]`), None when the name is shorter. */
  function Third(name: string): (r: Option<char>)
    ensures r.Some? <==> |name| >= 3
  {
    if |name| >= 3 then Some(name[2]) else None
  }

  /** The part two start nodes, in input order: the names whose third
      character is 'A'; None when a name is too short to have one. */
  function Starts(keys: seq<string>): (r: Option<seq<string>>)
    ensures r.Some? <==> forall i :: 0 <= i < |keys| ==> |keys[i]| >= 3
    ensures r.Some? ==> forall k :: k in r.value <==> k in keys && k[2] == 'A'
  {
    if keys == [] then Some([])
    else
      match (Starts(keys[..|keys| - 1]), Third(keys[|keys| - 1]))
      case (Some(s), Some(c)) =>
        assert forall i :: 0 <= i < |keys| - 1 ==> keys[..|keys| - 1][i] == keys[i];
        assert keys == keys[..|keys| - 1] + [keys[|keys| - 1]];
        Some(if c == 'A' then s + [keys[|keys| - 1]] else s)
      case (_, _) =>
        assert forall i :: 0 <= i < |keys| - 1 ==> keys[..|keys| - 1][i] == keys[i];
        None
  }

  /** After move `k` the walk from `start` stands on a node ending in Z. */
  predicate Hit(net: Network, start: string, k: nat)
    requires net.steps != []
  {
    Walk(net, start, k).Some? && Third(Walk(net, start, k).value) == Some('Z')
  }

  /** Move `k` fails: the node moved from is missing, or the node reached has
      a name too short to test. */
  predicate Broken(net: Network, start: string, k: nat)
    requires net.steps != []
  {
    Walk(net, start, k).None? || Third(Walk(net, start, k).value).None?
  }

  /** Move `k` (from 1 on) is the last one the walk from `start` makes. */
  predicate Stop(net: Network, start: string, k: nat)
    requires net.steps != []
  {
    k >= 1 && (Hit(net, start, k) || Broken(net, start, k))
  }

  /** `z` is the first move after which the walk from `start` is on a Z node,
      and nothing failed before. */
  predicate FirstHit(net: Network, start: string, z: nat)
    requires net.steps != []
  {
    z >= 1 && Hit(net, start, z) && forall j :: 1 <= j < z ==> !Stop(net, start, j)
  }

  /** The walk from `start` fails before it reaches a Z node. */
  ghost predicate Fails(net: Network, start: string)
    requires net.steps != []
  {
    exists j: nat :: j >= 1 && Broken(net, start, j) && forall i :: 1 <= i < j ==> !Stop(net, start, i)
  }

  /** The inputs on which part two finishes: every start's walk stops. */
  ghost predicate PartTwoFinishes(input: string)
  {
    match Parse(input)
    case None => true
    case Some(net) =>
      net.steps == [] || Starts(net.keys).None? ||
      forall s :: s in Starts(net.keys).value ==> exists k: nat :: Stop(net, s, k)
  }

  /** The walk from `start` has stopped by move `bound`. */
  ghost predicate StopsBy(net: Network, start: string, bound: nat)
    requires net.steps != []
  {
    exists k: nat :: k <= bound && Stop(net, start, k)
  }

  /** A move count by which every start has stopped. */
  lemma {:induction false} StopBound(net: Network, starts: seq<string>) returns (bound: nat)
    requires net.steps != []
    requires forall s :: s in starts ==> exists k: nat :: Stop(net, s, k)
    ensures forall i :: 0 <= i < |starts| ==> StopsBy(net, starts[i], bound)
  {
    if starts == [] {
      bound := 0;
    } else {
      assert forall s :: s in starts[1..] ==> s in starts;
      var rest := StopBound(net, starts[1..]);
      assert starts[0] in starts;
      var first: nat :| Stop(net, starts[0], first);
      bound := if first < rest then rest else first;
      forall i | 0 <= i < |starts| ensures StopsBy(net, starts[i], bound) {
        if i == 0 {
          assert first <= bound && Stop(net, starts[i], first);
        } else {
          assert starts[i] == starts[1..][i - 1];
          assert StopsBy(net, starts[1..][i - 1], rest);
          var k: nat :| k <= rest && Stop(net, starts[i], k);
          assert k <= bound && Stop(net, starts[i], k);
        }
      }
    }
  }

  /** What the lockstep walk knows about one start after `moves` moves:
      either it has not stopped yet and stands where its walk leads, or it
      first hit a Z node after move `z` and stays there. */
  predicate TrackedAt(net: Network, start: string, current: string, z: nat, moves: nat)
    requires net.steps != []
  {
    (z == 0 ==> Walk(net, start, moves) == Some(current) && forall j :: 1 <= j <= moves ==> !Stop(net, start, j)) &&
    (z != 0 ==> z <= moves && FirstHit(net, start, z))
  }

  /** TrackedAt for every start. */
  predicate Tracked(net: Network, starts: seq<string>, current: seq<string>, zFinds: seq<nat>, moves: nat)
    requires net.steps != []
  {
    |current| == |starts| && |zFinds| == |starts| &&
    forall i :: 0 <= i < |starts| ==> TrackedAt(net, starts[i], current[i], zFinds[i], moves)
  }

  /** One pass of the inner loop of the source: every start not yet at a Z
      node makes move `moveCount`; a node that reaches a Z node records the
      move count in zFinds. `ok` is false where the source throws. */
  method MoveAll(net: Network, starts: seq<string>, current: seq<string>, zFinds: array<nat>,
                 moveCount: nat, step: char) returns (ok: bool, current': seq<string>)
    requires net.steps != [] && moveCount >= 1
    requires step == net.steps[(moveCount - 1) % |net.steps|]
    requires Tracked(net, starts, current, zFinds[..], moveCount - 1)
    modifies zFinds
    ensures ok ==> Tracked(net, starts, current', zFinds[..], moveCount)
    ensures !ok ==> exists s :: s in starts && Fails(net, s)
  {
    current' := current;
    ok := true;
    for i := 0 to |current|
      invariant |current'| == |starts| && zFinds.Length == |starts|
      invariant forall k :: 0 <= k < i ==> TrackedAt(net, starts[k], current'[k], zFinds[k], moveCount)
      invariant forall k :: i <= k < |starts| ==> current'[k] == current[k] && zFinds[k] == old(zFinds[k])
    {
      assert TrackedAt(net, starts[i], current[i], zFinds[i], moveCount - 1);
      if zFinds[i] != 0 {
        continue;
      }
      var currentNode := current'[i];
      if currentNode !in net.nodes {
        assert Broken(net, starts[i], moveCount);
        assert Fails(net, starts[i]);
        return false, current';
      }
      current' := current'[i := if step == 'L' then net.nodes[currentNode].left else net.nodes[currentNode].right];
      assert Walk(net, starts[i], moveCount) == Some(current'[i]);
      if |current'[i]| < 3 {
        assert Broken(net, starts[i], moveCount);
        assert Fails(net, starts[i]);
        return false, current';
      }
      if current'[i][2] == 'Z' {
        zFinds[i] := moveCount;
      }
    }
  }

  /** The loop of part two over a parsed network: the first Z hit of every
      start, or None when the source throws first. */
  method FirstZs(net: Network, starts: seq<string>) returns (r: Option<seq<nat>>)
    requires net.steps != []
    requires forall s :: s in starts ==> exists k: nat :: Stop(net, s, k)
    ensures r.Some? ==> FirstHits(net, starts, r.value)
    ensures r.None? ==> exists s :: s in starts && Fails(net, s)
  {
    ghost var bound := StopBound(net, starts);
    var currentNodes := starts;
    var zFinds := new nat[|starts|](_ => 0);
    var moveCount := 0;
    var step := net.steps[0];
    while true
      invariant moveCount <= bound
      invariant Tracked(net, starts, currentNodes, zFinds[..], moveCount)
      invariant step == net.steps[moveCount % |net.steps|]
      decreases bound - moveCount
    {
      moveCount := moveCount + 1;
      var ok;
      ok, currentNodes := MoveAll(net, starts, currentNodes, zFinds, moveCount, step);
      if !ok {
        return None;
      }
      if forall i :: 0 <= i < zFinds.Length ==> zFinds[i] != 0 {
        break;
      }
      ghost var i :| 0 <= i < zFinds.Length && zFinds[i] == 0;
      assert TrackedAt(net, starts[i], currentNodes[i], zFinds[i], moveCount);
      assert StopsBy(net, starts[i], bound);
      ghost var k: nat :| k <= bound && Stop(net, starts[i], k);
      step := net.steps[moveCount % |net.steps|];
    }
    return Some(zFinds[..]);
  }

  /** Part two: the least common multiple of the first Z hit of every start;
      None when the input does not parse, there are no instructions, a name is
      too short or some walk fails before it reaches a Z node. */
  method SolvePartTwo(input: string) returns (r: Option<nat>)
    requires PartTwoFinishes(input)
    ensures r.Some? ==> (Parse(input).Some? && Parse(input).value.steps != [] &&
      Starts(Parse(input).value.keys).Some?)
    ensures r.Some? ==> exists zs :: (FirstHits(Parse(input).value, Starts(Parse(input).value.keys).value, zs) &&
      r.value == LcmAll(zs) && IsLeastCommonMultiple(zs, r.value))
    ensures r.None? ==> (Parse(input).None? || Parse(input).value.steps == [] ||
      Starts(Parse(input).value.keys).None? ||
      exists s :: s in Starts(Parse(input).value.keys).value && Fails(Parse(input).value, s))
  {
    var parsed := Parse(input);
    if parsed.None? {
      return None;
    }
    var net := parsed.value;
    if |net.steps| == 0 {
      return None;
    }
    var startsFound := Starts(net.keys);
    if startsFound.None? {
      return None;
    }
    var zs := FirstZs(net, startsFound.value);
    if zs.None? {
      return None;
    }
    var lcm := LowestCommonMultipleOf(zs.value);
    return Some(lcm);
  }

  /** `zs` lists the first Z hit of each start. */
  predicate FirstHits(net: Network, starts: seq<string>, zs: seq<nat>)
    requires net.steps != []
  {
    |zs| == |starts| && forall i :: 0 <= i < |starts| ==> FirstHit(net, starts[i], zs[i])
  }

  // ---------------------------------------------------------------------------
  // Greatest common factor and least common multiple
  // ---------------------------------------------------------------------------

  /** `d` divides `n`. */
  ghost predicate Divides(d: nat, n: nat)
  {
    exists k: nat :: n == d * k
  }

  /** Euclid's algorithm, as a recursive definition. */
  function Gcd(a: nat, b: nat): nat
    decreases b
  {
    if b == 0 then a else Gcd(b, a % b)
  }

  /** The loop of the source computes Euclid's greatest common factor. */
  method GreatestCommonFactor(a: nat, b: nat) returns (r: nat)
    ensures r == Gcd(a, b)
    ensures Divides(r, a) && Divides(r, b)
    ensures r == 0 <==> a == 0 && b == 0
    ensures forall d :: Divides(d, a) && Divides(d, b) ==> Divides(d, r)
  {
    var x, y := a, b;
    while y != 0
      invariant Gcd(x, y) == Gcd(a, b)
      decreases y
    {
      var temp := y;
      y := x % y;
      x := temp;
    }
    r := x;
    GcdDivides(a, b);
    GcdZero(a, b);
    forall d | Divides(d, a) && Divides(d, b) ensures Divides(d, r) {
      GcdGreatest(a, b, d);
    }
  }

  /** Every common divisor divides the greatest common factor. */
  lemma {:induction false} GcdGreatest(a: nat, b: nat, d: nat)
    requires Divides(d, a) && Divides(d, b)
    ensures Divides(d, Gcd(a, b))
    decreases b
  {
    if b != 0 {
      DividesRemainder(a, b, d);
      GcdGreatest(b, a % b, d);
    }
  }

  /** A common divisor of a and b divides a % b. */
  lemma DividesRemainder(a: nat, b: nat, d: nat)
    requires b != 0 && Divides(d, a) && Divides(d, b)
    ensures Divides(d, a % b)
  {
    var p: nat :| a == d * p;
    var s: nat :| b == d * s;
    var q := a / b;
    QuotientRemainder(a, b);
    MulAssoc(d, s, q);
    MulDistribSub(d, p, s * q);
    assert a % b == d * (p - s * q);
    MulSign(d, p - s * q);
    var k: nat := p - s * q;
    assert a % b == d * k;
  }

  lemma MulDistribSub(a: int, b: int, c: int)
    ensures a * (b - c) == a * b - a * c
  {
  }

  /** A non-negative product with a positive factor has a non-negative other factor. */
  lemma MulSign(d: int, k: int)
    ensures d > 0 && d * k >= 0 ==> k >= 0
  {
    if d > 0 && k < 0 {
      MulAtLeast(d, -k);
    }
  }

  /** Scaling both arguments scales the greatest common factor. */
  lemma {:induction false} GcdScale(a: nat, b: nat, m: nat)
    ensures Gcd(m * a, m * b) == m * Gcd(a, b)
    decreases b
  {
    if b == 0 {
      assert m * b == 0;
    } else if m == 0 {
      assert m * a == 0 && m * b == 0;
    } else {
      ModScale(a, b, m);
      GcdScale(b, a % b, m);
    }
  }

  /** Scaling both arguments scales the remainder. */
  lemma ModScale(a: nat, b: nat, m: nat)
    requires b > 0 && m > 0
    ensures (m * a) % (m * b) == m * (a % b)
  {
    var q, r := a / b, a % b;
    QuotientRemainder(a, b);
    MulDistrib(m, b * q, r);
    MulAssoc(m, b, q);
    assert m * a == (m * b) * q + m * r;
    MulStrict(m, r, b);
    DivModUnique(m * a, m * b, q, m * r);
  }

  lemma MulStrict(m: nat, r: nat, b: nat)
    requires m > 0 && r < b
    ensures m * r < m * b
  {
    MulDistribSub(m, b, r);
    MulAtLeast(m, b - r);
  }

  /** Euclidean division is unique. */
  lemma DivModUnique(x: nat, y: nat, q: int, r: int)
    requires y > 0 && x == y * q + r && 0 <= r < y
    ensures x % y == r
  {
    var q', r' := x / y, x % y;
    assert x == y * q' + r' && 0 <= r' < y;
    MulDistribSub(y, q, q');
    assert y * (q - q') == r' - r;
    if q - q' >= 1 {
      MulAtLeast(y, q - q');
    } else if q - q' <= -1 {
      MulAtLeast(y, q' - q);
    }
  }

  /** The greatest common factor divides both arguments. */
  lemma {:induction false} GcdDivides(a: nat, b: nat)
    ensures Divides(Gcd(a, b), a) && Divides(Gcd(a, b), b)
    decreases b
  {
    if b == 0 {
      assert a == a * 1 && b == a * 0;
    } else {
      var g, q, m := Gcd(a, b), a / b, a % b;
      assert g == Gcd(b, m);
      GcdDivides(b, m);
      DividesCombination(g, b, q, m);
      QuotientRemainder(a, b);
    }
  }

  /** Euclidean division splits a into quotient and remainder. */
  lemma QuotientRemainder(a: nat, b: nat)
    requires b != 0
    ensures a == b * (a / b) + a % b
  {
  }

  /** A common divisor of `b` and `x` divides b * d + x. */
  lemma DividesCombination(g: nat, b: nat, d: nat, x: nat)
    requires Divides(g, b) && Divides(g, x)
    ensures Divides(g, b * d + x)
  {
    var p: nat :| b == g * p;
    var q: nat :| x == g * q;
    MulAssoc(g, p, d);
    MulDistrib(g, p * d, q);
    assert b * d + x == g * (p * d + q);
  }

  lemma MulAssoc(a: int, b: int, c: int)
    ensures (a * b) * c == a * (b * c)
  {
  }

  lemma MulDistrib(a: int, b: int, c: int)
    ensures a * (b + c) == a * b + a * c
  {
  }

  /** The greatest common factor is 0 only for (0, 0); Gcd(a, 0) is a. */
  lemma {:induction false} GcdZero(a: nat, b: nat)
    ensures Gcd(a, b) == 0 <==> a == 0 && b == 0
    ensures Gcd(a, 0) == a
    decreases b
  {
    if b != 0 {
      GcdZero(b, a % b);
    }
  }

  /** The least common multiple of two counts, as a / gcd * b. */
  function Lcm(a: nat, b: nat): (r: nat)
    requires a != 0 || b != 0
  {
    GcdZero(a, b);
    var q: nat := a / Gcd(a, b);
    q * b
  }

  /** Dividing an exact multiple gives back the factor. */
  lemma DivExact(g: nat, p: nat)
    requires g > 0
    ensures (g * p) / g == p
  {
    var d := (g * p) / g;
    var m := (g * p) % g;
    assert g * p == g * d + m && 0 <= m < g;
    assert g * (p - d) == m;
    if p - d >= 1 {
      MulAtLeast(g, p - d);
    } else if p - d <= -1 {
      MulAtLeast(g, d - p);
    }
  }

  lemma MulAtLeast(g: nat, k: int)
    requires k >= 1
    ensures g * k >= g
  {
  }

  /** The least common multiple is a multiple of both arguments, and positive
      when both are. */
  lemma LcmCommonMultiple(a: nat, b: nat)
    requires a != 0 || b != 0
    ensures Divides(a, Lcm(a, b)) && Divides(b, Lcm(a, b))
    ensures a > 0 && b > 0 ==> Lcm(a, b) > 0
  {
    var g := Gcd(a, b);
    GcdZero(a, b);
    GcdDivides(a, b);
    var p: nat :| a == g * p;
    var q: nat :| b == g * q;
    DivExact(g, p);
    assert a / g == p;
    assert Lcm(a, b) == p * b;
    assert Lcm(a, b) == b * p;
    assert Lcm(a, b) == a * q by {
      calc {
        p * b;
        p * (g * q);
        { MulAssoc(p, g, q); }
        (p * g) * q;
        (g * p) * q;
      }
    }
    if a > 0 && b > 0 {
      assert p > 0;
      MulAtLeast(b, p);
    }
  }

  /** The least common multiple divides every common multiple. */
  lemma LcmLeast(a: nat, b: nat, m: nat)
    requires a > 0 && b > 0 && Divides(a, m) && Divides(b, m)
    ensures Divides(Lcm(a, b), m)
  {
    var g := Gcd(a, b);
    GcdZero(a, b);
    GcdDivides(a, b);
    var x: nat :| m == a * x;
    var y: nat :| m == b * y;
    assert m * a == (a * b) * y by {
      MulAssoc(a, b, y);
    }
    assert m * b == (a * b) * x by {
      MulAssoc(a, x, b);
      MulAssoc(a, b, x);
    }
    GcdGreatest(m * a, m * b, a * b);
    GcdScale(a, b, m);
    var t: nat :| m * g == (a * b) * t;
    var p: nat :| a == g * p;
    DivExact(g, p);
    var l := Lcm(a, b);
    assert l == p * b;
    assert m * g == g * (l * t) by {
      MulAssoc(g, p, b);
      MulAssoc(g, l, t);
    }
    CancelFactor(g, m, l * t);
  }

  lemma CancelFactor(g: nat, x: int, y: int)
    requires g > 0 && x * g == g * y
    ensures x == y
  {
    MulDistribSub(g, x, y);
    if x - y >= 1 {
      MulAtLeast(g, x - y);
    } else if x - y <= -1 {
      MulAtLeast(g, y - x);
    }
  }

  /** Multiples of multiples. */
  lemma DividesTransitive(a: nat, b: nat, c: nat)
    requires Divides(a, b) && Divides(b, c)
    ensures Divides(a, c)
  {
    var k: nat :| b == a * k;
    var l: nat :| c == b * l;
    MulAssoc(a, k, l);
    assert c == a * (k * l);
  }

  /** The fold of the source from 1 over the hits: their least common
      multiple; the empty fold is 1. */
  function LcmAll(xs: seq<nat>): (r: nat)
    requires forall i :: 0 <= i < |xs| ==> xs[i] > 0
    ensures r > 0
  {
    if xs == [] then 1
    else
      var init := xs[..|xs| - 1];
      assert forall i :: 0 <= i < |init| ==> init[i] == xs[i];
      var acc := LcmAll(init);
      LcmCommonMultiple(acc, xs[|xs| - 1]);
      Lcm(acc, xs[|xs| - 1])
  }

  /** Every hit divides the combined count, and no hits combine to 1. */
  lemma {:induction false} LcmAllCommonMultiple(xs: seq<nat>)
    requires forall i :: 0 <= i < |xs| ==> xs[i] > 0
    ensures forall i :: 0 <= i < |xs| ==> Divides(xs[i], LcmAll(xs))
    ensures xs == [] ==> LcmAll(xs) == 1
  {
    if xs != [] {
      var init := xs[..|xs| - 1];
      var last := xs[|xs| - 1];
      assert forall i :: 0 <= i < |init| ==> init[i] == xs[i];
      LcmAllCommonMultiple(init);
      var acc := LcmAll(init);
      LcmCommonMultiple(acc, last);
      forall i | 0 <= i < |xs| ensures Divides(xs[i], LcmAll(xs)) {
        if i < |init| {
          DividesTransitive(xs[i], acc, LcmAll(xs));
        }
      }
    }
  }

  /** One more hit folds into the combined count with Lcm. */
  lemma LcmAllSnoc(xs: seq<nat>, x: nat)
    requires forall i :: 0 <= i < |xs| ==> xs[i] > 0
    requires x > 0
    ensures LcmAll(xs + [x]) == Lcm(LcmAll(xs), x)
  {
    assert (xs + [x])[..|xs|] == xs;
  }

  /** Every listed number divides `m`. */
  ghost predicate CommonMultiple(xs: seq<nat>, m: nat) {
    forall i :: 0 <= i < |xs| ==> Divides(xs[i], m)
  }

  /** `n` is a common multiple of `xs` that divides, and so is at most,
      every positive common multiple. */
  ghost predicate IsLeastCommonMultiple(xs: seq<nat>, n: nat) {
    CommonMultiple(xs, n) &&
    (forall m :: CommonMultiple(xs, m) ==> Divides(n, m)) &&
    (forall m :: m > 0 && CommonMultiple(xs, m) ==> n <= m)
  }

  /** The fold divides every common multiple of the hits. */
  lemma {:induction false} LcmAllLeast(xs: seq<nat>, m: nat)
    requires forall i :: 0 <= i < |xs| ==> xs[i] > 0
    requires CommonMultiple(xs, m)
    ensures Divides(LcmAll(xs), m)
  {
    if xs == [] {
      assert m == 1 * m;
    } else {
      var init := xs[..|xs| - 1];
      assert forall i :: 0 <= i < |init| ==> init[i] == xs[i];
      LcmAllLeast(init, m);
      LcmLeast(LcmAll(init), xs[|xs| - 1], m);
    }
  }

  /** A positive multiple is at least the divisor. */
  lemma DividesAtMost(n: nat, m: nat)
    requires Divides(n, m) && m > 0
    ensures n <= m
  {
    var k: nat :| m == n * k;
    MulAtLeast(n, k);
  }

  /** LcmAll is the least common multiple of the hits. */
  lemma LcmAllIsLeast(xs: seq<nat>)
    requires forall i :: 0 <= i < |xs| ==> xs[i] > 0
    ensures IsLeastCommonMultiple(xs, LcmAll(xs))
  {
    LcmAllCommonMultiple(xs);
    forall m | CommonMultiple(xs, m) ensures Divides(LcmAll(xs), m) {
      LcmAllLeast(xs, m);
    }
    forall m | m > 0 && CommonMultiple(xs, m) ensures LcmAll(xs) <= m {
      LcmAllLeast(xs, m);
      DividesAtMost(LcmAll(xs), m);
    }
  }

  /** The array fold of the source, with GreatestCommonFactor inside. */
  method LowestCommonMultipleOf(ints: seq<nat>) returns (r: nat)
    requires forall i :: 0 <= i < |ints| ==> ints[i] > 0
    ensures r == LcmAll(ints)
    ensures IsLeastCommonMultiple(ints, r)
  {
    r := 1;
    for i := 0 to |ints|
      invariant r == LcmAll(ints[..i])
    {
      var g := GreatestCommonFactor(r, ints[i]);
      LcmAllSnoc(ints[..i], ints[i]);
      assert ints[..i + 1] == ints[..i] + [ints[i]];
      r := r / g * ints[i];
    }
    assert ints[..|ints|] == ints;
    LcmAllIsLeast(ints);
  }
}
