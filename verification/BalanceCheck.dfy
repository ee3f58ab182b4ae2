/** The evaluation's check that a network has no gaps: it only counts the nodes of each level. */
module BalanceCheck {
  import opened Arith
  import opened Positions
  import opened Sorting

  /** number_nodes_perfect_tree by the geometric sum formula. */
  function PerfectSize(m: nat, height: nat): real
    requires m >= 2
  {
    (1 - Pow(m, height + 1)) as real / (1 - m) as real
  }

  function Expected(m: nat, level: nat): real
    requires m >= 2
  {
    if level == 0 then 1.0
    else if level == 1 then PerfectSize(m, level) - 1.0
    else PerfectSize(m, level) - PerfectSize(m, level - 1)
  }

  function AtLevel(nodes: seq<Position>, level: nat): seq<Position>
  {
    if nodes == [] then []
    else AtLevel(nodes[..|nodes| - 1], level) + (if nodes[|nodes| - 1].level == level then [nodes[|nodes| - 1]] else [])
  }

  /** validate_number_of_nodes_at_level. */
  predicate CountFits(nodes: seq<Position>, m: nat, level: nat)
    requires m >= 2
  {
    |AtLevel(nodes, level)| as real == Expected(m, level)
  }

  // ----- the expected numbers -----

  lemma {:induction false} PerfectSizeIsGeo(m: nat, height: nat)
    requires m >= 2
    ensures PerfectSize(m, height) == Geo(m, height + 1) as real
  {
    GeoClosed(m, height + 1);
    var g, x := Geo(m, height + 1), 1 - Pow(m, height + 1);
    assert x == g * (1 - m);
    RealQuotient(x, 1 - m, g);
  }

  lemma {:induction false} RealQuotient(x: int, d: int, q: int)
    requires d != 0 && x == q * d
    ensures x as real / d as real == q as real
  {
    assert x as real == q as real * d as real;
  }

  /** On every level as many nodes are expected as the level has positions. */
  lemma {:induction false} ExpectedIsPow(m: nat, level: nat)
    requires m >= 2
    ensures Expected(m, level) == Pow(m, level) as real
  {
    if level > 0 {
      PerfectSizeIsGeo(m, level);
      PerfectSizeIsGeo(m, level - 1);
      assert Geo(m, 1) == 1;
    }
  }

  // ----- counting suffices -----

  /** The nodes are distinct positions of the tree, none below the last level. */
  ghost predicate Network(nodes: seq<Position>, m: nat, last: nat)
  {
    Distinct(nodes) && forall k :: 0 <= k < |nodes| ==> OnTree(nodes[k], m) && nodes[k].level <= last
  }

  ghost predicate Present(nodes: seq<Position>, m: nat, level: nat)
  {
    forall x: nat :: x < Pow(m, level) ==> Position(level, x) in nodes
  }

  /** No position above the last level is missing. */
  ghost predicate NullBalanced(nodes: seq<Position>, m: nat, last: nat)
  {
    forall level: nat :: level < last ==> Present(nodes, m, level)
  }

  lemma {:induction false} AtLevelIff(nodes: seq<Position>, level: nat, p: Position)
    ensures p in AtLevel(nodes, level) <==> p in nodes && p.level == level
  {
    if nodes != [] {
      var front, n := nodes[..|nodes| - 1], nodes[|nodes| - 1];
      AtLevelIff(front, level, p);
      assert nodes == front + [n];
    }
  }

  lemma {:induction false} AtLevelDistinct(nodes: seq<Position>, level: nat)
    requires Distinct(nodes)
    ensures Distinct(AtLevel(nodes, level))
  {
    if nodes != [] {
      var front, n := nodes[..|nodes| - 1], nodes[|nodes| - 1];
      AtLevelDistinct(front, level);
      AtLevelIff(front, level, n);
    }
  }

  function Without<T>(s: seq<T>, k: nat): seq<T>
    requires k < |s|
  {
    s[..k] + s[k + 1..]
  }

  ghost predicate Below(s: seq<Position>, level: nat, n: nat)
  {
    forall k :: 0 <= k < |s| ==> s[k].level == level && s[k].number < n
  }

  ghost predicate AllBelow(s: seq<Position>, level: nat, n: nat)
  {
    forall x: nat :: x < n ==> Position(level, x) in s
  }

  lemma {:induction false} WithoutOne(s: seq<Position>, k: nat, level: nat, n: nat)
    requires Distinct(s) && Below(s, level, n + 1) && k < |s| && s[k] == Position(level, n)
    ensures Distinct(Without(s, k)) && Below(Without(s, k), level, n)
    ensures forall p :: p in s <==> p in Without(s, k) || p == s[k]
  {
    var r := Without(s, k);
    assert forall i :: 0 <= i < |r| ==> r[i] == s[if i < k then i else i + 1];
    forall i | 0 <= i < |r|
      ensures r[i].level == level && r[i].number < n
    {
      var j := if i < k then i else i + 1;
      assert s[j] != s[k];
    }
    assert s == s[..k] + [s[k]] + s[k + 1..];
  }

  /** n different numbers below n are all of them. */
  lemma {:induction false} FullIffAll(s: seq<Position>, level: nat, n: nat)
    requires Distinct(s) && Below(s, level, n)
    ensures |s| <= n && (|s| == n <==> AllBelow(s, level, n))
    decreases n
  {
    assert s == [] || s[0].number < n;
    if n > 0 {
      var p := Position(level, n - 1);
      if p in s {
        var k :| 0 <= k < |s| && s[k] == p;
        WithoutOne(s, k, level, n - 1);
        FullIffAll(Without(s, k), level, n - 1);
        AllBelowStep(s, Without(s, k), level, n - 1);
      } else {
        forall k | 0 <= k < |s|
          ensures s[k].number < n - 1
        {
          assert s[k] in s;
        }
        FullIffAll(s, level, n - 1);
      }
    }
  }

  lemma {:induction false} AllBelowStep(s: seq<Position>, r: seq<Position>, level: nat, n: nat)
    requires forall p :: p in s <==> p in r || p == Position(level, n)
    ensures AllBelow(s, level, n + 1) <==> AllBelow(r, level, n)
  {
    if AllBelow(s, level, n + 1) {
      forall x: nat | x < n
        ensures Position(level, x) in r
      {
        assert Position(level, x) in s;
      }
    }
  }

  /** A level has the expected number of nodes exactly when none of its positions is missing. */
  lemma {:induction false} CountFitsIff(nodes: seq<Position>, m: nat, last: nat, level: nat)
    requires m >= 2 && Network(nodes, m, last)
    ensures CountFits(nodes, m, level) <==> Present(nodes, m, level)
    ensures |AtLevel(nodes, level)| <= Pow(m, level)
  {
    var s := AtLevel(nodes, level);
    ExpectedIsPow(m, level);
    AtLevelDistinct(nodes, level);
    forall k | 0 <= k < |s|
      ensures s[k].level == level && s[k].number < Pow(m, level)
    {
      assert s[k] in s;
      AtLevelIff(nodes, level, s[k]);
    }
    FullIffAll(s, level, Pow(m, level));
    forall x: nat
      ensures Position(level, x) in s <==> Position(level, x) in nodes
    {
      AtLevelIff(nodes, level, Position(level, x));
    }
  }

  // ----- the checks -----

  /** validate_null_balanced: which levels above the last one have gaps. */
  method ValidateNullBalanced(nodes: seq<Position>, m: nat, last: nat) returns (balanced: bool, invalid: seq<nat>)
    requires m >= 2 && Network(nodes, m, last)
    ensures balanced <==> NullBalanced(nodes, m, last)
    ensures forall level: nat :: level in invalid <==> level < last && !Present(nodes, m, level)
  {
    balanced, invalid := true, [];
    for i := 0 to last
      invariant balanced <==> invalid == []
      invariant forall level: nat :: level in invalid <==> level < i && !Present(nodes, m, level)
    {
      CountFitsIff(nodes, m, last, i);
      if !CountFits(nodes, m, i) {
        balanced, invalid := false, invalid + [i];
      }
    }
    if !balanced {
      assert invalid[0] in invalid;
    }
  }

  /** validate_perfectly_balanced. */
  method ValidatePerfectlyBalanced(nodes: seq<Position>, m: nat, last: nat) returns (perfect: bool, invalid: seq<nat>)
    requires m >= 2 && Network(nodes, m, last)
    ensures perfect <==> NullBalanced(nodes, m, last) && Present(nodes, m, last)
  {
    perfect := true;
    var balanced;
    balanced, invalid := ValidateNullBalanced(nodes, m, last);
    CountFitsIff(nodes, m, last, last);
    if !(balanced && CountFits(nodes, m, last)) {
      perfect, invalid := false, invalid + [last];
    }
  }

  /** The nodes of the levels below a bound. */
  function CountUpTo(nodes: seq<Position>, levels: nat): nat
  {
    if levels == 0 then 0 else CountUpTo(nodes, levels - 1) + |AtLevel(nodes, levels - 1)|
  }

  lemma {:induction false} CountStep(nodes: seq<Position>, n: Position, levels: nat)
    ensures CountUpTo(nodes + [n], levels) == CountUpTo(nodes, levels) + if n.level < levels then 1 else 0
  {
    if levels > 0 {
      CountStep(nodes, n, levels - 1);
      assert (nodes + [n])[..|nodes|] == nodes;
    }
  }

  lemma {:induction false} CountEmpty(levels: nat)
    ensures CountUpTo([], levels) == 0
  {
    if levels > 0 { CountEmpty(levels - 1); }
  }

  /** Every node is on one level. */
  lemma {:induction false} CountAll(nodes: seq<Position>, levels: nat)
    requires forall k :: 0 <= k < |nodes| ==> nodes[k].level < levels
    ensures CountUpTo(nodes, levels) == |nodes|
  {
    if nodes == [] {
      CountEmpty(levels);
    } else {
      var front, n := nodes[..|nodes| - 1], nodes[|nodes| - 1];
      CountAll(front, levels);
      CountStep(front, n, levels);
      assert nodes == front + [n];
    }
  }

  lemma {:induction false} CountBalanced(nodes: seq<Position>, m: nat, last: nat, levels: nat)
    requires m >= 2 && Network(nodes, m, last) && levels <= last && NullBalanced(nodes, m, last)
    ensures CountUpTo(nodes, levels) == Geo(m, levels)
  {
    if levels > 0 {
      CountBalanced(nodes, m, last, levels - 1);
      CountFitsIff(nodes, m, last, levels - 1);
      ExpectedIsPow(m, levels - 1);
    }
  }

  /** A network without gaps above the last level has the perfect size exactly when its last level is full. */
  lemma {:induction false} PerfectSizeIff(nodes: seq<Position>, m: nat, last: nat)
    requires m >= 2 && Network(nodes, m, last) && NullBalanced(nodes, m, last)
    ensures |nodes| as real == PerfectSize(m, last) <==> Present(nodes, m, last)
  {
    CountAll(nodes, last + 1);
    CountBalanced(nodes, m, last, last);
    PerfectSizeIsGeo(m, last);
    CountFitsIff(nodes, m, last, last);
    ExpectedIsPow(m, last);
  }

  lemma {:induction false} PerfectIfBalanced(nodes: seq<Position>, m: nat, last: nat)
    requires m >= 2 && Network(nodes, m, last) && |nodes| as real == PerfectSize(m, last)
    ensures NullBalanced(nodes, m, last) ==> Present(nodes, m, last)
  {
    if NullBalanced(nodes, m, last) { PerfectSizeIff(nodes, m, last); }
  }

  /** validate_tree_structure accepts a network exactly when it has no gaps above its last level. */
  method ValidateTreeStructure(nodes: seq<Position>, m: nat, last: nat) returns (valid: bool)
    requires m >= 2 && Network(nodes, m, last)
    ensures valid <==> NullBalanced(nodes, m, last)
  {
    valid := true;
    if |nodes| as real == PerfectSize(m, last) {
      var perfect, _ := ValidatePerfectlyBalanced(nodes, m, last);
      PerfectIfBalanced(nodes, m, last);
      if !perfect { valid := false; }
    } else {
      var balanced, _ := ValidateNullBalanced(nodes, m, last);
      if !balanced { valid := false; }
    }
  }
}
