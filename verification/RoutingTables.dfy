/**
The routing tables of a node hold the nodes of its level at the distances d * m^i with
0 < d < m.  The tables are computed by stopping at the first distance that overruns the level.
*/
module RoutingTables {
  import opened Arith
  import opened Results
  import opened Positions

  /** x is one of the distances d * m^i, 0 < d < m: strip factors m until a digit remains. */
  predicate IsStep(x: nat, m: nat)
    requires m >= 2
  {
    0 < x && (x < m || (x % m == 0 && IsStep(x / m, m)))
  }

  /** The distances of one power of m. */
  function Block(i: nat, m: nat): seq<nat>
    requires m >= 2
  {
    seq(m - 1, (d: nat) => (d + 1) * Pow(m, i))
  }

  /** The distances of the first n powers of m, in the order in which they are generated. */
  function Steps(n: nat, m: nat): seq<nat>
    requires m >= 2
  {
    if n == 0 then [] else Steps(n - 1, m) + Block(n - 1, m)
  }

  function RoutingSequence(level: nat, m: nat): seq<nat>
    requires m >= 2
  {
    Steps((m - 1) * level, m)
  }

  /** calcRoutingSequence. */
  method CalcRoutingSequence(level: nat, m: nat) returns (r: Result<seq<nat>>)
    ensures r.Ok? <==> FanoutValid(m)
    ensures r.Ok? ==> r.value == RoutingSequence(level, m)
  {
    if !FanoutValid(m) {
      return Err("Invalid Fanout");
    }
    var s := [];
    for i := 0 to (m - 1) * level
      invariant s == Steps(i, m)
    {
      for d := 1 to m
        invariant s == Steps(i, m) + Block(i, m)[..d - 1]
      {
        s := s + [d * Pow(m, i)];
      }
    }
    return Ok(s);
  }

  ghost predicate Increasing(s: seq<nat>)
  {
    forall a, b :: 0 <= a < b < |s| ==> s[a] < s[b]
  }

  lemma {:induction false} BlockBounds(i: nat, m: nat)
    requires m >= 2
    ensures Increasing(Block(i, m))
    ensures forall x :: x in Block(i, m) ==> Pow(m, i) <= x < Pow(m, i + 1)
  {
    PowPositive(m, i);
    var b := Pow(m, i);
    forall d | 0 <= d < m - 1
      ensures b <= Block(i, m)[d] < m * b
    {
      MulMono(1, d + 1, b);
      MulStrict(d + 1, m, b);
    }
    forall a, c | 0 <= a < c < m - 1
      ensures Block(i, m)[a] < Block(i, m)[c]
    {
      MulStrict(a + 1, c + 1, b);
    }
  }

  /** The routing sequence is strictly increasing. */
  lemma {:induction false} StepsIncreasing(n: nat, m: nat)
    requires m >= 2
    ensures Increasing(Steps(n, m))
    ensures forall x :: x in Steps(n, m) ==> x < Pow(m, n)
  {
    if n > 0 {
      StepsIncreasing(n - 1, m);
      BlockBounds(n - 1, m);
      PowMono(m, n - 1, n);
      var s, t := Steps(n - 1, m), Block(n - 1, m);
      forall a, b | 0 <= a < b < |s + t|
        ensures (s + t)[a] < (s + t)[b]
      {
        if a < |s| <= b { assert s[a] in s && t[b - |s|] in t; }
      }
    }
  }

  lemma {:induction false} DigitTimesPowIsStep(d: nat, i: nat, m: nat)
    requires m >= 2 && 0 < d < m
    ensures IsStep(d * Pow(m, i), m)
  {
    if i == 0 {
      assert d * Pow(m, 0) == d;
    } else {
      DigitTimesPowIsStep(d, i - 1, m);
      var y := d * Pow(m, i - 1);
      assert d * Pow(m, i) == y * m;
      DivModUnique(y * m, m, y, 0);
      MulPositive(y, m);
    }
  }

  lemma {:induction false} ScaleDigit(x: nat, m: nat, d: nat, b: nat)
    requires m >= 2 && x % m == 0 && x / m == d * b
    ensures x == d * (m * b)
  {
    assert x == (d * b) * m;
  }

  /** A distance between two neighbouring powers of m is a digit times the lower one. */
  lemma {:induction false} StepDigit(x: nat, i: nat, m: nat) returns (d: nat)
    requires m >= 2 && IsStep(x, m) && Pow(m, i) <= x < Pow(m, i + 1)
    ensures 0 < d < m && x == d * Pow(m, i)
  {
    if i == 0 {
      assert Pow(m, 1) == m * Pow(m, 0) == m;
      d := x;
    } else {
      PowPositive(m, i - 1);
      DivBounds(x, m, Pow(m, i - 1), Pow(m, i));
      d := StepDigit(x / m, i - 1, m);
      ScaleDigit(x, m, d, Pow(m, i - 1));
    }
  }

  /** The digit and the exponent of a distance. */
  function Digit(x: nat, m: nat): nat
    requires m >= 2
  {
    if x < m then x else (QuotientShrinks(x, m); Digit(x / m, m))
  }

  function Exponent(x: nat, m: nat): nat
    requires m >= 2
  {
    if x < m then 0 else (QuotientShrinks(x, m); 1 + Exponent(x / m, m))
  }

  lemma {:induction false} StepForm(x: nat, m: nat)
    requires m >= 2 && IsStep(x, m)
    ensures 0 < Digit(x, m) < m && x == Digit(x, m) * Pow(m, Exponent(x, m))
  {
    if x >= m {
      StepForm(x / m, m);
      ScaleDigit(x, m, Digit(x / m, m), Pow(m, Exponent(x / m, m)));
    }
  }

  lemma {:induction false} ScaledQuotient(d: nat, m: nat, b: nat)
    requires m >= 2 && d > 0 && b > 0
    ensures d * (m * b) >= m && (d * (m * b)) / m == d * b
  {
    var y := d * b;
    assert d * (m * b) == y * m;
    MulPositive(d, b);
    MulMono(1, y, m);
    ExactDiv(y * m, m, y);
  }

  lemma {:induction false} StepFormUnique(d: nat, j: nat, m: nat)
    requires m >= 2 && 0 < d < m
    ensures Digit(d * Pow(m, j), m) == d && Exponent(d * Pow(m, j), m) == j
  {
    if j == 0 {
      assert d * Pow(m, 0) == d;
    } else {
      StepFormUnique(d, j - 1, m);
      PowPositive(m, j - 1);
      ScaledQuotient(d, m, Pow(m, j - 1));
    }
  }

  /** The sequence holds exactly the distances below its last power. */
  lemma {:induction false} StepsIff(n: nat, m: nat, x: nat)
    requires m >= 2
    ensures x in Steps(n, m) <==> IsStep(x, m) && x < Pow(m, n)
  {
    if n == 0 {
    } else {
      StepsIff(n - 1, m, x);
      PowMono(m, n - 1, n);
      if x in Block(n - 1, m) {
        var d :| 0 <= d < m - 1 && x == Block(n - 1, m)[d];
        DigitTimesPowIsStep(d + 1, n - 1, m);
        BlockBounds(n - 1, m);
      }
      if IsStep(x, m) && Pow(m, n - 1) <= x < Pow(m, n) {
        var d := StepDigit(x, n - 1, m);
        assert x == Block(n - 1, m)[d - 1];
      }
    }
  }

  /** Within a level the sequence holds every distance. */
  lemma {:induction false} RoutingSequenceIff(level: nat, m: nat, x: nat)
    requires m >= 2 && x < Pow(m, level)
    ensures x in RoutingSequence(level, m) <==> IsStep(x, m)
  {
    MulMono(1, m - 1, level);
    PowMono(m, level, (m - 1) * level);
    StepsIff((m - 1) * level, m, x);
  }

  /** The validator's list of left neighbours: every distance that stays on the level. */
  function LeftNumbers(s: seq<nat>, n: nat): seq<nat>
  {
    if s == [] then []
    else
      var x := s[|s| - 1];
      LeftNumbers(s[..|s| - 1], n) + (if n - x >= 0 then [n - x] else [])
  }

  /** The validator's list of right neighbours on a level with `bound` nodes. */
  function RightNumbers(s: seq<nat>, n: nat, bound: nat): seq<nat>
  {
    if s == [] then []
    else
      var x := s[|s| - 1];
      RightNumbers(s[..|s| - 1], n, bound) + (if n + x < bound then [n + x] else [])
  }

  function OnLevel(level: nat, numbers: seq<nat>): (ps: seq<Position>)
    ensures |ps| == |numbers| && forall i :: 0 <= i < |numbers| ==> ps[i] == Position(level, numbers[i])
  {
    seq(|numbers|, (i: nat) requires i < |numbers| => Position(level, numbers[i]))
  }

  lemma {:induction false} OnLevelIff(level: nat, numbers: seq<nat>, q: Position)
    ensures q in OnLevel(level, numbers) <==> q.level == level && q.number in numbers
  {
    if q.level == level && q.number in numbers {
      var i :| 0 <= i < |numbers| && numbers[i] == q.number;
      assert OnLevel(level, numbers)[i] == q;
    }
  }

  function LeftTable(p: Position, m: nat): seq<Position>
    requires m >= 2
  {
    OnLevel(p.level, LeftNumbers(RoutingSequence(p.level, m), p.number))
  }

  function RightTable(p: Position, m: nat): seq<Position>
    requires m >= 2
  {
    OnLevel(p.level, RightNumbers(RoutingSequence(p.level, m), p.number, Pow(m, p.level)))
  }

  /** Beyond the first overrun of an increasing sequence nothing is left to add. */
  lemma {:induction false} LeftOverrun(s: seq<nat>, n: nat, k: nat)
    requires Increasing(s) && k < |s| && s[k] > n
    ensures LeftNumbers(s, n) == LeftNumbers(s[..k], n)
    decreases |s|
  {
    if k + 1 < |s| {
      var t := s[..|s| - 1];
      assert t[..k] == s[..k];
      LeftOverrun(t, n, k);
    }
  }

  lemma {:induction false} RightOverrun(s: seq<nat>, n: nat, bound: nat, k: nat)
    requires Increasing(s) && k < |s| && n + s[k] >= bound
    ensures RightNumbers(s, n, bound) == RightNumbers(s[..k], n, bound)
    decreases |s|
  {
    if k + 1 < |s| {
      var t := s[..|s| - 1];
      assert t[..k] == s[..k];
      RightOverrun(t, n, bound, k);
    }
  }

  lemma {:induction false} NextLeft(s: seq<nat>, n: nat, level: nat, k: nat)
    requires k < |s| && s[k] <= n
    ensures OnLevel(level, LeftNumbers(s[..k + 1], n)) ==
      OnLevel(level, LeftNumbers(s[..k], n)) + [Position(level, n - s[k])]
  {
    assert s[..k + 1][..k] == s[..k];
    assert LeftNumbers(s[..k + 1], n) == LeftNumbers(s[..k], n) + [n - s[k]];
  }

  lemma {:induction false} NextRight(s: seq<nat>, n: nat, level: nat, bound: nat, k: nat)
    requires k < |s| && n + s[k] < bound
    ensures OnLevel(level, RightNumbers(s[..k + 1], n, bound)) ==
      OnLevel(level, RightNumbers(s[..k], n, bound)) + [Position(level, n + s[k])]
  {
    assert s[..k + 1][..k] == s[..k];
    assert RightNumbers(s[..k + 1], n, bound) == RightNumbers(s[..k], n, bound) + [n + s[k]];
  }

  /** calcLeftRT: stops at the first overrun and loses no entry of the filtered list. */
  method CalcLeftRT(p: Position, m: nat) returns (r: Result<seq<Position>>)
    ensures r.Ok? <==> PositionValid(p, m)
    ensures r.Ok? ==> r.value == LeftTable(p, m)
  {
    if !PositionValid(p, m) {
      return Err("Invalid Position");
    }
    var sequence := CalcRoutingSequence(p.level, m);
    var s := sequence.value;
    StepsIncreasing((m - 1) * p.level, m);
    var lrt := [];
    for k := 0 to |s|
      invariant lrt == OnLevel(p.level, LeftNumbers(s[..k], p.number))
    {
      if s[k] > p.number {
        LeftOverrun(s, p.number, k);
        return Ok(lrt);
      }
      NextLeft(s, p.number, p.level, k);
      lrt := lrt + [Position(p.level, p.number - s[k])];
    }
    assert s[..|s|] == s;
    return Ok(lrt);
  }

  /** calcRightRT. */
  method CalcRightRT(p: Position, m: nat) returns (r: Result<seq<Position>>)
    ensures r.Ok? <==> PositionValid(p, m)
    ensures r.Ok? ==> r.value == RightTable(p, m)
  {
    if !PositionValid(p, m) {
      return Err("Invalid Position");
    }
    var sequence := CalcRoutingSequence(p.level, m);
    var s := sequence.value;
    StepsIncreasing((m - 1) * p.level, m);
    var maxNumber := Pow(m, p.level);
    var rrt := [];
    for k := 0 to |s|
      invariant rrt == OnLevel(p.level, RightNumbers(s[..k], p.number, maxNumber))
    {
      var x := p.number + s[k];
      if x >= maxNumber {
        RightOverrun(s, p.number, maxNumber, k);
        return Ok(rrt);
      }
      NextRight(s, p.number, p.level, maxNumber, k);
      rrt := rrt + [Position(p.level, x)];
    }
    assert s[..|s|] == s;
    return Ok(rrt);
  }

  lemma {:induction false} LeftNumbersIff(s: seq<nat>, n: nat, x: nat)
    ensures x in LeftNumbers(s, n) <==> x <= n && n - x in s
  {
    if s != [] {
      var t := s[..|s| - 1];
      LeftNumbersIff(t, n, x);
      assert s == t + [s[|s| - 1]];
    }
  }

  lemma {:induction false} RightNumbersIff(s: seq<nat>, n: nat, bound: nat, x: nat)
    ensures x in RightNumbers(s, n, bound) <==> n <= x < bound && x - n in s
  {
    if s != [] {
      var t := s[..|s| - 1];
      RightNumbersIff(t, n, bound, x);
      assert s == t + [s[|s| - 1]];
    }
  }

  /** Two nodes of one level whose distance is a digit times a power of the fanout. */
  predicate Neighbors(p: Position, q: Position, m: nat)
    requires m >= 2
  {
    && p.level == q.level && p != q
    && IsStep(if p.number < q.number then q.number - p.number else p.number - q.number, m)
  }

  /** The left table holds exactly the neighbours to the left. */
  lemma {:induction false} LeftTableIff(p: Position, m: nat, q: Position)
    requires m >= 2 && OnTree(p, m)
    ensures q in LeftTable(p, m) <==> Neighbors(p, q, m) && q.number < p.number
  {
    OnLevelIff(p.level, LeftNumbers(RoutingSequence(p.level, m), p.number), q);
    LeftNumbersIff(RoutingSequence(p.level, m), p.number, q.number);
    if q.number <= p.number {
      RoutingSequenceIff(p.level, m, p.number - q.number);
    }
  }

  /** The right table holds exactly the neighbours to the right that are on the tree. */
  lemma {:induction false} RightTableIff(p: Position, m: nat, q: Position)
    requires m >= 2 && OnTree(p, m)
    ensures q in RightTable(p, m) <==> Neighbors(p, q, m) && p.number < q.number && OnTree(q, m)
  {
    OnLevelIff(p.level, RightNumbers(RoutingSequence(p.level, m), p.number, Pow(m, p.level)), q);
    RightEntry(p.level, p.number, m, q.number);
  }

  lemma {:induction false} RightEntry(level: nat, n: nat, m: nat, y: nat)
    requires m >= 2
    ensures y in RightNumbers(RoutingSequence(level, m), n, Pow(m, level)) <==>
      n < y < Pow(m, level) && IsStep(y - n, m)
  {
    RightNumbersIff(RoutingSequence(level, m), n, Pow(m, level), y);
    if n <= y < Pow(m, level) { RoutingSequenceIff(level, m, y - n); }
  }

  /** q is a left neighbour of p exactly when p is a right neighbour of q. */
  lemma {:induction false} TablesMirror(p: Position, q: Position, m: nat)
    requires m >= 2 && OnTree(p, m) && OnTree(q, m)
    ensures q in LeftTable(p, m) <==> p in RightTable(q, m)
  {
    LeftTableIff(p, m, q);
    RightTableIff(q, m, p);
  }

  /** The routing table: left entries, then right entries. */
  function Table(p: Position, m: nat): seq<Position>
    requires m >= 2
  {
    LeftTable(p, m) + RightTable(p, m)
  }

  lemma {:induction false} TableIff(p: Position, m: nat, q: Position)
    requires m >= 2 && OnTree(p, m)
    ensures q in Table(p, m) <==> Neighbors(p, q, m) && OnTree(q, m)
  {
    LeftTableIff(p, m, q);
    RightTableIff(p, m, q);
  }

  /** c is a child of a routing table neighbour of p. */
  predicate NeighborChild(c: Position, p: Position, m: nat)
    requires m >= 2
  {
    c.level > 0 && Parent(c, m) in Table(p, m)
  }

  /** calcRoutingTableNeighborParents. */
  method CalcRoutingTableNeighborParents(node: Position, m: nat) returns (r: Result<seq<Position>>)
    ensures node.level == 0 ==> r == Ok([])
    ensures node.level > 0 ==> (r.Ok? <==> PositionValid(node, m))
    ensures node.level > 0 && r.Ok? ==> r.value == Table(Parent(node, m), m)
  {
    if node.level == 0 { return Ok([]); }
    var parent := CalcParent(node, m);
    if parent.Err? { return Err(parent.message); }
    var left := CalcLeftRT(parent.value, m);
    var right := CalcRightRT(parent.value, m);
    return Ok(left.value + right.value);
  }

  /** The table of the parent lists exactly the nodes that have `node` as a neighbour child. */
  lemma {:induction false} NeighborParentsInverse(node: Position, p: Position, m: nat)
    requires m >= 2 && node.level > 0 && OnTree(node, m) && OnTree(p, m)
    ensures p in Table(Parent(node, m), m) <==> NeighborChild(node, p, m)
  {
    ParentOnTree(node, m);
    TableIff(Parent(node, m), m, p);
    TableIff(p, m, Parent(node, m));
  }

  /** The test removeRoutingTableNeighborChildrenFromVector applies to each entry. */
  predicate LooksLikeNeighborChild(c: Position, p: Position, m: nat)
    requires m >= 2
  {
    var x, y := c.number / m, p.number;
    c.level == p.level + 1 && (if x < y then y - x else x - y) in RoutingSequence(p.level, m)
  }

  lemma {:induction false} LooksLikeIff(c: Position, p: Position, m: nat)
    requires m >= 2 && OnTree(c, m) && OnTree(p, m)
    ensures LooksLikeNeighborChild(c, p, m) <==> NeighborChild(c, p, m)
  {
    if c.level == p.level + 1 {
      ParentOnTree(c, m);
      TableIff(p, m, Parent(c, m));
      var x, y := c.number / m, p.number;
      RoutingSequenceIff(p.level, m, if x < y then y - x else x - y);
    } else if c.level > 0 {
      ParentOnTree(c, m);
      TableIff(p, m, Parent(c, m));
    }
  }

  /** The entries that are not children of table neighbours, in their order. */
  function OtherThanNeighborChildren(p: Position, ns: seq<Position>, m: nat): (r: seq<Position>)
    requires m >= 2
    ensures forall n :: n in r <==> n in ns && !NeighborChild(n, p, m)
  {
    if ns == [] then []
    else
      var front, n := OtherThanNeighborChildren(p, ns[..|ns| - 1], m), ns[|ns| - 1];
      if NeighborChild(n, p, m) then front else front + [n]
  }

  /** removeRoutingTableNeighborChildrenFromVector. */
  method RemoveNeighborChildren(p: Position, ns: seq<Position>, m: nat) returns (r: seq<Position>)
    requires m >= 2 && OnTree(p, m) && forall n :: n in ns ==> OnTree(n, m)
    ensures r == OtherThanNeighborChildren(p, ns, m)
  {
    r := [];
    for i := 0 to |ns|
      invariant r == OtherThanNeighborChildren(p, ns[..i], m)
    {
      LooksLikeIff(ns[i], p, m);
      assert ns[..i + 1][..i] == ns[..i];
      if !LooksLikeNeighborChild(ns[i], p, m) {
        r := r + [ns[i]];
      }
    }
    assert ns[..|ns|] == ns;
  }

  /** The largest power of m that is at most x. */
  function TopPower(x: nat, m: nat): (b: nat)
    requires m >= 2 && x > 0
    ensures 0 < b <= x < m * b
  {
    if x < m then 1
    else
      QuotientShrinks(x, m);
      var y := TopPower(x / m, m);
      PowerStep(x, m, y);
      m * y
  }

  lemma {:induction false} PowerStep(x: nat, m: nat, y: nat)
    requires m >= 2 && 0 < y <= x / m < m * y
    ensures 0 < m * y <= x < m * (m * y)
  {
    DivBounds(x, m, y, m * y);
    MulPositive(m, y);
  }

  /** The largest distance that does not overshoot x. */
  function TopStep(x: nat, m: nat): nat
    requires m >= 2 && x > 0
  {
    var b := TopPower(x, m);
    MulNatural(x / b, b);
    (x / b) * b
  }

  lemma {:induction false} TopPowerIsPow(x: nat, m: nat) returns (i: nat)
    requires m >= 2 && x > 0
    ensures TopPower(x, m) == Pow(m, i)
  {
    if x < m {
      i := 0;
    } else {
      var j := TopPowerIsPow(x / m, m);
      i := j + 1;
    }
  }

  /** Removing the top distance removes the top digit. */
  lemma {:induction false} TopStepIsLargest(x: nat, m: nat, t: nat)
    requires m >= 2 && x > 0
    ensures 0 < TopStep(x, m) <= x && IsStep(TopStep(x, m), m) && x - TopStep(x, m) < TopPower(x, m)
    ensures IsStep(t, m) && t <= x ==> t <= TopStep(x, m)
  {
    var b := TopPower(x, m);
    var i := TopPowerIsPow(x, m);
    var d := x / b;
    DivBlock(x, b, d);
    MulCancel(d, m, b) by { assert d * b <= x < m * b; }
    assert (d + 1) * b == d * b + b;
    DigitTimesPowIsStep(d, i, m);
    MulMono(1, d, b);
    if IsStep(t, m) && d * b < t <= x {
      var e := StepDigit(t, i, m) by { assert Pow(m, i + 1) == m * b; }
      MulCancel(d, e, b);
      MulMono(d + 1, e, b);
      assert false;
    }
  }

  /** Greedy routing on a level: always take the largest distance that does not overshoot. */
  function GreedyPath(n: nat, target: nat, m: nat): seq<nat>
    requires m >= 2
    decreases if n < target then target - n else n - target
  {
    if n == target then [n]
    else if n < target then
      TopStepIsLargest(target - n, m, 0);
      [n] + GreedyPath(n + TopStep(target - n, m), target, m)
    else
      TopStepIsLargest(n - target, m, 0);
      [n] + GreedyPath(n - TopStep(n - target, m), target, m)
  }

  /** Every hop of a greedy path goes to an entry of the current node's routing table. */
  ghost predicate IsTablePath(path: seq<nat>, level: nat, m: nat)
    requires m >= 2
  {
    forall i :: 0 <= i < |path| - 1 ==> Position(level, path[i + 1]) in Table(Position(level, path[i]), m)
  }

  /** On a full level, greedy routing reaches every node of the level within `level` hops. */
  lemma {:induction false} GreedyReaches(n: nat, target: nat, level: nat, m: nat)
    requires m >= 2 && n < Pow(m, level) && target < Pow(m, level)
    ensures var path := GreedyPath(n, target, m);
      && path[0] == n && path[|path| - 1] == target
      && IsTablePath(path, level, m)
      && |path| - 1 <= level
  {
    GreedyWithin(n, target, level, level, m);
  }

  function Distance(n: nat, target: nat): nat
  {
    if n < target then target - n else n - target
  }

  function NextHop(n: nat, target: nat, m: nat): nat
    requires m >= 2 && n != target
  {
    TopStepIsLargest(Distance(n, target), m, 0);
    if n < target then n + TopStep(Distance(n, target), m) else n - TopStep(Distance(n, target), m)
  }

  /** A hop stays on the level, is in the routing table and removes the top digit of the distance. */
  lemma {:induction false} HopIsTabled(n: nat, target: nat, level: nat, k: nat, m: nat)
    requires m >= 2 && n < Pow(m, level) && target < Pow(m, level) && n != target && Distance(n, target) < Pow(m, k)
    ensures var next := NextHop(n, target, m);
      && k > 0 && next < Pow(m, level) && Distance(next, target) < Pow(m, k - 1)
      && Position(level, next) in Table(Position(level, n), m)
  {
    var x, next := Distance(n, target), NextHop(n, target, m);
    TopStepIsLargest(x, m, 0);
    TopPowerBelow(x, k, m);
    TableIff(Position(level, n), m, Position(level, next));
  }

  lemma {:induction false} PathFrom(n: nat, rest: seq<nat>, level: nat, m: nat)
    requires m >= 2 && rest != [] && IsTablePath(rest, level, m)
    requires Position(level, rest[0]) in Table(Position(level, n), m)
    ensures IsTablePath([n] + rest, level, m)
  {
    var path := [n] + rest;
    forall i | 0 <= i < |path| - 1
      ensures Position(level, path[i + 1]) in Table(Position(level, path[i]), m)
    {
      if i > 0 { assert path[i] == rest[i - 1] && path[i + 1] == rest[i - 1 + 1]; }
    }
  }

  lemma {:induction false} GreedyWithin(n: nat, target: nat, level: nat, k: nat, m: nat)
    requires m >= 2 && n < Pow(m, level) && target < Pow(m, level) && Distance(n, target) < Pow(m, k)
    ensures var path := GreedyPath(n, target, m);
      && |path| >= 1 && path[0] == n && path[|path| - 1] == target
      && IsTablePath(path, level, m)
      && |path| - 1 <= k
    decreases k
  {
    if n != target {
      var next := NextHop(n, target, m);
      HopIsTabled(n, target, level, k, m);
      GreedyWithin(next, target, level, k - 1, m);
      var rest := GreedyPath(next, target, m);
      assert GreedyPath(n, target, m) == [n] + rest;
      PathFrom(n, rest, level, m);
    }
  }

  lemma {:induction false} TopPowerBelow(x: nat, k: nat, m: nat)
    requires m >= 2 && 0 < x < Pow(m, k)
    ensures k > 0 && TopPower(x, m) <= Pow(m, k - 1)
  {
    var i := TopPowerIsPow(x, m);
    if k <= i { PowMono(m, k, i); }
    PowMono(m, i, k - 1);
  }
}
