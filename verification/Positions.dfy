/** Outcomes of operations that may throw or find nothing. */
module Results {
  datatype Option<+T> = None | Some(value: T)

  datatype Result<+T> = Ok(value: T) | Err(message: string)
}

/** Positions of an m-ary tree and the parent/child relation between them. */
module Positions {
  import opened Arith
  import opened Results

  datatype Position = Position(level: nat, number: nat)

  const FANOUT_MINIMUM: nat := 2
  const FANOUT_MAXIMUM: nat := 255

  predicate FanoutValid(m: nat)
  {
    FANOUT_MINIMUM <= m <= FANOUT_MAXIMUM
  }

  /** The position lies on its level of the infinite m-ary tree. */
  predicate OnTree(p: Position, m: nat)
  {
    p.number < Pow(m, p.level)
  }

  predicate PositionValid(p: Position, m: nat)
  {
    FanoutValid(m) && OnTree(p, m)
  }

  /** The parent of a non-root position as plain division. */
  function Parent(p: Position, m: nat): Position
    requires m >= 2 && p.level > 0
  {
    Position(p.level - 1, p.number / m)
  }

  /** calcParent: rounds the number down to a multiple of the fanout, then divides upwards. */
  function CalcParent(p: Position, m: nat): (r: Result<Position>)
    ensures r.Ok? <==> PositionValid(p, m) && p.level > 0
    ensures r.Ok? ==> r.value == Parent(p, m) && PositionValid(r.value, m)
    ensures r.Ok? ==> r.value.number * m <= p.number < (r.value.number + 1) * m
  {
    if !PositionValid(p, m) then Err("Invalid Position")
    else if p.level == 0 then Err("Cannot get the parent of root")
    else
      var t := p.number - p.number % m;
      var offset := if t % m != 0 then 1 else 0;
      RoundedDivision(p.number, m);
      ParentOnTree(p, m);
      DivBlock(p.number, m, p.number / m);
      Ok(Position(p.level - 1, t / m + offset))
  }

  lemma {:induction false} RoundedDivision(x: nat, m: nat)
    requires m >= 2
    ensures x - x % m >= 0
    ensures (x - x % m) % m == 0 && (x - x % m) / m == x / m
  {
    assert x == (x / m) * m + x % m;
    DivModUnique(x - x % m, m, x / m, 0);
  }

  lemma {:induction false} ParentOnTree(p: Position, m: nat)
    requires m >= 2 && p.level > 0 && OnTree(p, m)
    ensures OnTree(Parent(p, m), m)
  {
    var q, b := p.number / m, Pow(m, p.level - 1);
    DivBlock(p.number, m, q);
    if b <= q { MulMono(b, q, m); }
  }

  /** The positions calcChildren lists, from left to right. */
  function Children(p: Position, m: nat): (cs: seq<Position>)
  {
    seq(m, (j: nat) => Position(p.level + 1, p.number * m + j))
  }

  /** calcChildren. */
  method CalcChildren(p: Position, m: nat) returns (r: Result<seq<Position>>)
    ensures r.Ok? <==> PositionValid(p, m)
    ensures r.Ok? ==> r.value == Children(p, m)
  {
    if !PositionValid(p, m) {
      return Err("Invalid Position");
    }
    var cs := [];
    for i := 0 to m
      invariant cs == Children(p, m)[..i]
    {
      cs := cs + [Position(p.level + 1, p.number * m + i)];
    }
    return Ok(cs);
  }

  /** Being listed among the children is the inverse of taking the parent. */
  lemma {:induction false} ChildIffParent(c: Position, p: Position, m: nat)
    requires m >= 2
    ensures c in Children(p, m) <==> c.level > 0 && Parent(c, m) == p
    ensures OnTree(p, m) && c in Children(p, m) ==> OnTree(c, m)
  {
    if c in Children(p, m) {
      var j :| 0 <= j < m && c == Children(p, m)[j];
      DivModUnique(c.number, m, p.number, j);
      if OnTree(p, m) { MulMono(p.number + 1, Pow(m, p.level), m); }
    }
    if c.level > 0 && Parent(c, m) == p {
      assert c == Children(p, m)[c.number % m];
    }
  }

  /** The j-th entry is the child with remainder j, so no child is listed twice. */
  lemma {:induction false} ChildAt(p: Position, m: nat, j: nat)
    requires m >= 2 && j < m
    ensures Children(p, m)[j].number % m == j
    ensures Parent(Children(p, m)[j], m) == p
  {
    DivModUnique(p.number * m + j, m, p.number, j);
  }

  /** The k-fold parent. */
  function Ancestor(p: Position, m: nat, k: nat): Position
    requires m >= 2 && k <= p.level
    decreases k
  {
    if k == 0 then p else Ancestor(Parent(p, m), m, k - 1)
  }

  /** The transitive closure of the parent relation. */
  predicate Descends(p: Position, a: Position, m: nat)
    requires m >= 2
  {
    a.level < p.level && Ancestor(p, m, p.level - a.level) == a
  }

  /** A block of b blocks of length m is a block of length m * b. */
  lemma {:induction false} BlockNest(x: int, m: nat, q: int, b: nat, a: int)
    requires q * m <= x < (q + 1) * m
    requires a * b <= q < (a + 1) * b
    ensures a * (m * b) <= x < (a + 1) * (m * b)
  {
    MulMono(a * b, q, m);
    MulMono(q + 1, (a + 1) * b, m);
    assert (a * b) * m == a * (m * b);
    assert ((a + 1) * b) * m == (a + 1) * (m * b);
  }

  /** The k-fold parent is the block of length m^k that holds the number. */
  lemma {:induction false} AncestorBlock(p: Position, m: nat, k: nat)
    requires m >= 2 && k <= p.level
    ensures var a := Ancestor(p, m, k);
      a.level == p.level - k && a.number * Pow(m, k) <= p.number < (a.number + 1) * Pow(m, k)
    decreases k
  {
    if k > 0 {
      var q, b := Parent(p, m), Pow(m, k - 1);
      AncestorBlock(q, m, k - 1);
      DivBlock(p.number, m, q.number);
      BlockNest(p.number, m, q.number, b, Ancestor(p, m, k).number);
    }
  }

  /** Only the k-fold parent has a block that holds the number. */
  lemma {:induction false} AncestorUnique(p: Position, m: nat, k: nat, x: nat)
    requires m >= 2 && k <= p.level
    requires x * Pow(m, k) <= p.number < (x + 1) * Pow(m, k)
    ensures Ancestor(p, m, k) == Position(p.level - k, x)
  {
    AncestorBlock(p, m, k);
    PowPositive(m, k);
    DivBlock(p.number, Pow(m, k), x);
    DivBlock(p.number, Pow(m, k), Ancestor(p, m, k).number);
  }

  lemma {:induction false} AncestorStep(p: Position, m: nat, k: nat)
    requires m >= 2 && k < p.level
    ensures Ancestor(p, m, k).level > 0
    ensures Ancestor(p, m, k + 1) == Parent(Ancestor(p, m, k), m)
    decreases k
  {
    AncestorBlock(p, m, k);
    if k > 0 { AncestorStep(Parent(p, m), m, k - 1); }
  }

  /** childFromNode: divides level by level until the level of the initial node is reached. */
  method ChildFromNode(own: Position, initial: Position, m: nat) returns (b: bool)
    requires m >= 2
    ensures b <==> Descends(own, initial, m)
  {
    var parent: nat := own.number;
    if own.level <= initial.level { return false; }
    var current: nat := own.level;
    while current > initial.level
      invariant initial.level <= current <= own.level
      invariant Position(current, parent) == Ancestor(own, m, own.level - current)
      invariant current == initial.level ==> parent != initial.number
    {
      AncestorStep(own, m, own.level - current);
      parent := parent / m;
      if current - 1 == initial.level && parent == initial.number { return true; }
      current := current - 1;
    }
    return false;
  }
}
