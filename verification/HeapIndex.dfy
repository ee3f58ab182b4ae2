/**
Level-order indices.  NATTER numbers nodes 0, 1, 2, ... in level order; MINHTON addresses them
by level and number.  The two addressings are proved to be a bijection that carries parents,
children and levels over.
*/
module HeapIndex {
  import opened Arith
  import opened Positions

  /** The level-order index of a position. */
  function Index(p: Position, m: nat): nat
  {
    Geo(m, p.level) + p.number
  }

  /** calc_index of the static network build, with its geometric-sum quotient. */
  function CalcIndex(p: Position, m: nat): (i: nat)
    requires m >= 2
    ensures OnTree(p, m) ==> i == Index(p, m)
  {
    if p.level == 0 then 0
    else
      PowPositive(m, p.level);
      GeoQuotient(m, p.level);
      (Pow(m, p.level) - 1) / (m - 1) + p.number
  }

  lemma {:induction false} GeoQuotient(m: nat, k: nat)
    requires m >= 2
    ensures Pow(m, k) >= 1 && (Pow(m, k) - 1) / (m - 1) == Geo(m, k)
  {
    PowPositive(m, k);
    GeoClosed(m, k);
    ExactDiv(Pow(m, k) - 1, m - 1, Geo(m, k));
  }

  /** ceil(i / m) - 1, the parent of index i. */
  function ParentIndex(i: nat, m: nat): (p: int)
    requires m >= 2
    ensures i == 0 ==> p == -1
    ensures i > 0 ==> 0 <= p < i && p == (i - 1) / m
  {
    CeilDivision(i, m);
    (i + m - 1) / m - 1
  }

  lemma {:induction false} CeilDivision(i: nat, m: nat)
    requires m >= 2
    ensures i == 0 ==> (i + m - 1) / m == 0
    ensures i > 0 ==> (i + m - 1) / m == (i - 1) / m + 1 && (i - 1) / m < i
  {
    if i == 0 {
      DivModUnique(m - 1, m, 0, m - 1);
    } else {
      var q, r := (i - 1) / m, (i - 1) % m;
      assert (q + 1) * m == q * m + m;
      DivModUnique(i + m - 1, m, q + 1, r);
      if q >= i { MulMono(i, q, m); MulMono(2, m, i); }
    }
  }

  /** calculateLevel: climbs to the root and counts the steps. */
  method CalculateLevel(i: nat, m: nat) returns (level: nat)
    requires m >= 2
    ensures level == LevelOf(i, m)
  {
    level := 0;
    var node: nat := i;
    while node != 0
      invariant level + LevelOf(node, m) == LevelOf(i, m)
    {
      node := ParentIndex(node, m);
      level := level + 1;
    }
  }

  function LevelOf(i: nat, m: nat): nat
    requires m >= 2
  {
    if i == 0 then 0 else 1 + LevelOf(ParentIndex(i, m), m)
  }

  /** The level is the one whose index range holds i. */
  lemma {:induction false} LevelRange(i: nat, m: nat)
    requires m >= 2
    ensures Geo(m, LevelOf(i, m)) <= i < Geo(m, LevelOf(i, m) + 1)
    decreases i
  {
    if i > 0 {
      var q := ParentIndex(i, m);
      LevelRange(q, m);
      var l := LevelOf(q, m);
      GeoShift(m, l);
      GeoShift(m, l + 1);
      DivBlock(i - 1, m, q);
      MulMono(Geo(m, l), q, m);
      MulMono(q + 1, Geo(m, l + 1), m);
    }
  }

  lemma {:induction false} LevelUnique(i: nat, m: nat, l: nat)
    requires m >= 2 && Geo(m, l) <= i < Geo(m, l + 1)
    ensures LevelOf(i, m) == l
  {
    LevelRange(i, m);
    var k := LevelOf(i, m);
    if k < l { GeoMono(m, k + 1, l); }
    if l < k { GeoMono(m, l + 1, k); }
  }

  /** calculateNumber. */
  function CalculateNumber(i: nat, m: nat, level: nat): int
    requires m >= 2
  {
    if level == 0 then 0
    else
      GeoQuotient(m, level);
      i - (Pow(m, level) - 1) / (m - 1)
  }

  /** The position NATTER computes for index i from calculateLevel and calculateNumber. */
  function AtIndex(i: nat, m: nat): (p: Position)
    requires m >= 2
    ensures OnTree(p, m) && Index(p, m) == i
  {
    var level := LevelOf(i, m);
    LevelRange(i, m);
    GeoQuotient(m, level);
    assert Geo(m, 1) == Geo(m, 0) + Pow(m, 0) == 1;
    Position(level, CalculateNumber(i, m, level))
  }

  /** Converting a position to its index and back is the identity. */
  lemma {:induction false} AtIndexOfIndex(p: Position, m: nat)
    requires m >= 2 && OnTree(p, m)
    ensures AtIndex(Index(p, m), m) == p
  {
    LevelUnique(Index(p, m), m, p.level);
  }

  lemma {:induction false} IndexInjective(p: Position, q: Position, m: nat)
    requires m >= 2 && OnTree(p, m) && OnTree(q, m) && Index(p, m) == Index(q, m)
    ensures p == q
  {
    AtIndexOfIndex(p, m);
    AtIndexOfIndex(q, m);
  }

  /** Child j of a position has index i * m + j + 1. */
  lemma {:induction false} ChildIndex(p: Position, m: nat, j: nat)
    requires m >= 2 && OnTree(p, m) && j < m
    ensures OnTree(Children(p, m)[j], m)
    ensures Index(Children(p, m)[j], m) == Index(p, m) * m + j + 1
  {
    ChildIffParent(Children(p, m)[j], p, m);
    NextLevelIndex(m, p.level, p.number, j);
  }

  lemma {:induction false} NextLevelIndex(m: nat, level: nat, n: nat, j: nat)
    ensures Geo(m, level + 1) + (n * m + j) == (Geo(m, level) + n) * m + j + 1
  {
    GeoShift(m, level);
    MulDistribute(Geo(m, level), n, m);
  }

  lemma {:induction false} IndexQuotient(i: nat, m: nat, q: nat, r: nat)
    requires m >= 2 && r < m && i == q * m + r + 1
    ensures ParentIndex(i, m) == q
  {
    DivModUnique(i - 1, m, q, r);
  }

  /** The parent of a position has index ceil(i / m) - 1. */
  lemma {:induction false} ParentIndexIsParent(p: Position, m: nat)
    requires m >= 2 && OnTree(p, m)
    ensures p.level == 0 <==> Index(p, m) == 0
    ensures p.level > 0 ==> Index(Parent(p, m), m) == ParentIndex(Index(p, m), m)
  {
    if p.level == 0 {
    } else {
      GeoMono(m, 1, p.level);
      ParentOnTree(p, m);
      var q, r := Parent(p, m), p.number % m;
      ChildIndex(q, m, r);
      assert Children(q, m)[r] == p;
      IndexQuotient(Index(p, m), m, Index(q, m), r);
    }
  }
}
