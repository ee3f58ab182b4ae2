/**
The tree mapper gives every position a horizontal value: the point at which an in-order
traversal of the tree meets it.  Values are exact reals here; the code computes in doubles.
*/
module InOrderMap {
  import opened Arith
  import opened Positions

  /** Lower bound, upper bound and center of the interval that belongs to a position. */
  datatype Interval = Interval(lower: real, upper: real, center: real)

  /** The interval of the root; its center is K. */
  function RootInterval(m: nat, K: real): Interval
    requires m >= 2
  {
    var c, f := CeilHalf(m) as real, m as real;
    var upper := (K / c) * f;
    Interval(0.0, upper, 0.0 + ((upper - 0.0) / f) * c)
  }

  /** Part r of the m equal parts of the parent's interval. */
  function Split(parent: Interval, m: nat, r: nat): Interval
    requires m >= 2
  {
    var c, f := CeilHalf(m) as real, m as real;
    var width := (parent.upper - parent.lower) / f;
    var lower := parent.lower + width * r as real;
    var upper := lower + width;
    Interval(lower, upper, lower + ((upper - lower) / f) * c)
  }

  /** treeMapperInternal. */
  function TreeMapperInternal(p: Position, m: nat, K: real): Interval
    requires m >= 2
    decreases p.level
  {
    if p.level == 0 then RootInterval(m, K)
    else
      RoundedDivision(p.number, m);
      var parent := Position(p.level - 1, (p.number - p.number % m) / m);
      Split(TreeMapperInternal(parent, m, K), m, p.number % m)
  }

  /** The interval width at the root that is used throughout. */
  const ROOT_VALUE: real := 100.0

  function TreeMapper(p: Position, m: nat, K: real): real
    requires m >= 2
  {
    TreeMapperInternal(p, m, K).center
  }

  /** The interval width on a level. */
  function Width(level: nat, m: nat, K: real): real
    requires m >= 2
  {
    if level == 0 then (K / CeilHalf(m) as real) * m as real else Width(level - 1, m, K) / m as real
  }

  lemma {:induction false} WidthPositive(level: nat, m: nat, K: real)
    requires m >= 2 && K > 0.0
    ensures Width(level, m, K) > 0.0
  {
    if level > 0 { WidthPositive(level - 1, m, K); }
  }

  /** The x-fold of w. */
  function Times(x: nat, w: real): real
  {
    if x == 0 then 0.0 else Times(x - 1, w) + w
  }

  lemma {:induction false} TimesIsProduct(x: nat, w: real)
    ensures Times(x, w) == x as real * w
  {
    if x > 0 {
      TimesIsProduct(x - 1, w);
      assert x as real * w == (x - 1) as real * w + w by {
        assert x as real == (x - 1) as real + 1.0;
      }
    }
  }

  lemma {:induction false} TimesAdd(x: nat, y: nat, w: real)
    ensures Times(x + y, w) == Times(x, w) + Times(y, w)
  {
    if y > 0 { TimesAdd(x, y - 1, w); }
  }

  lemma {:induction false} TimesTimes(x: nat, y: nat, w: real)
    ensures Times(x * y, w) == Times(x, Times(y, w))
  {
    if x > 0 {
      TimesTimes(x - 1, y, w);
      TimesAdd((x - 1) * y, y, w);
      assert (x - 1) * y + y == x * y;
    }
  }

  lemma {:induction false} TimesStrict(a: nat, b: nat, w: real)
    requires a < b && w > 0.0
    ensures Times(a, w) < Times(b, w)
  {
    if a + 1 < b { TimesStrict(a, b - 1, w); }
  }

  lemma {:induction false} TimesOrder(a: nat, b: nat, w: real)
    requires w > 0.0
    ensures Times(a, w) < Times(b, w) <==> a < b
    ensures Times(a, w) == Times(b, w) <==> a == b
  {
    if a < b { TimesStrict(a, b, w); } else if b < a { TimesStrict(b, a, w); }
  }

  lemma {:induction false} TimesOfPart(w: real, m: nat)
    requires m >= 2
    ensures Times(m, w / m as real) == w
  {
    TimesIsProduct(m, w / m as real);
  }

  /** Part r of the m parts of the interval from q * w to (q + 1) * w. */
  lemma {:induction false} PartOfInterval(q: nat, m: nat, r: nat, w: real, lower: real, upper: real)
    requires m >= 2 && lower == Times(q, w) && upper == Times(q + 1, w)
    ensures lower + ((upper - lower) / m as real) * r as real == Times(q * m + r, w / m as real)
    ensures (upper - lower) / m as real == w / m as real
  {
    var part := w / m as real;
    assert upper - lower == w;
    TimesOfPart(w, m);
    TimesTimes(q, m, part);
    TimesAdd(q * m, r, part);
    TimesIsProduct(r, part);
    assert Times(q * m + r, part) == lower + part * r as real;
  }

  /** The bounds of part r. */
  lemma {:induction false} SplitBounds(parent: Interval, q: nat, m: nat, r: nat, w: real)
    requires m >= 2 && parent.lower == Times(q, w) && parent.upper == Times(q + 1, w)
    ensures var i, n, v := Split(parent, m, r), q * m + r, w / m as real;
      i.lower == Times(n, v) && i.upper == Times(n + 1, v)
  {
    PartOfInterval(q, m, r, w, parent.lower, parent.upper);
  }

  /** The center of part r divides it like the root is divided. */
  lemma {:induction false} SplitCenter(parent: Interval, m: nat, r: nat, n: nat, v: real)
    requires m >= 2
    requires Split(parent, m, r).lower == Times(n, v) && Split(parent, m, r).upper == Times(n + 1, v)
    ensures Split(parent, m, r).center == Times(n * m + CeilHalf(m), v / m as real)
  {
    var i := Split(parent, m, r);
    PartOfInterval(n, m, CeilHalf(m), v, i.lower, i.upper);
  }

  /** i is the n-th of the intervals of width w, with its center where the root has it. */
  ghost predicate IsPart(i: Interval, n: nat, m: nat, w: real)
    requires m >= 2
  {
    i.lower == Times(n, w) && i.upper == Times(n + 1, w) && i.center == Times(n * m + CeilHalf(m), w / m as real)
  }

  lemma {:induction false} SplitClosed(parent: Interval, q: nat, m: nat, r: nat, w: real, n: nat, v: real)
    requires m >= 2 && IsPart(parent, q, m, w) && n == q * m + r && v == w / m as real
    ensures IsPart(Split(parent, m, r), n, m, v)
  {
    SplitBounds(parent, q, m, r, w);
    SplitCenter(parent, m, r, n, v);
  }

  lemma {:induction false} RootClosed(m: nat, K: real)
    requires m >= 2
    ensures var i, w := RootInterval(m, K), Width(0, m, K);
      i.lower == 0.0 && i.upper == Times(1, w) && i.center == Times(CeilHalf(m), w / m as real)
  {
    var w := Width(0, m, K);
    assert Times(1, w) == Times(0, w) + w;
    RootCenter(m, w);
  }

  lemma {:induction false} RootCenter(m: nat, w: real)
    requires m >= 2
    ensures 0.0 + ((w - 0.0) / m as real) * CeilHalf(m) as real == Times(CeilHalf(m), w / m as real)
  {
    TimesIsProduct(CeilHalf(m), w / m as real);
  }

  lemma {:induction false} SplitOfParent(p: Position, m: nat, K: real)
    requires m >= 2 && p.level > 0
    ensures TreeMapperInternal(p, m, K) == Split(TreeMapperInternal(Parent(p, m), m, K), m, p.number % m)
  {
    RoundedDivision(p.number, m);
  }

  lemma {:induction false} ChildClosed(p: Position, q: Position, m: nat, K: real)
    requires m >= 2 && p.level > 0 && q == Parent(p, m)
    requires IsPart(TreeMapperInternal(q, m, K), q.number, m, Width(q.level, m, K))
    ensures IsPart(TreeMapperInternal(p, m, K), p.number, m, Width(p.level, m, K))
  {
    SplitOfParent(p, m, K);
    assert p.number == q.number * m + p.number % m;
    SplitClosed(TreeMapperInternal(q, m, K), q.number, m, p.number % m, Width(q.level, m, K),
                p.number, Width(p.level, m, K));
  }

  /** The recursion has a closed form: position n of a level owns the n-th interval. */
  lemma {:induction false} IntervalClosed(p: Position, m: nat, K: real)
    requires m >= 2 && OnTree(p, m)
    ensures IsPart(TreeMapperInternal(p, m, K), p.number, m, Width(p.level, m, K))
    decreases p.level
  {
    if p.level == 0 {
      RootClosed(m, K);
    } else {
      ParentOnTree(p, m);
      IntervalClosed(Parent(p, m), m, K);
      ChildClosed(p, Parent(p, m), m, K);
    }
  }

  /** The closed form of the horizontal value. */
  function Center(p: Position, m: nat, K: real): real
    requires m >= 2
  {
    Times(p.number * m + CeilHalf(m), Width(p.level + 1, m, K))
  }

  lemma {:induction false} TreeMapperClosed(p: Position, m: nat, K: real)
    requires m >= 2 && OnTree(p, m)
    ensures TreeMapper(p, m, K) == Center(p, m, K)
  {
    IntervalClosed(p, m, K);
  }

  lemma {:induction false} WidthScaled(level: nat, m: nat, K: real, k: nat)
    requires m >= 2
    ensures Width(level, m, K) == Times(Pow(m, k), Width(level + k, m, K))
  {
    if k > 0 {
      var w := Width(level + k - 1, m, K);
      WidthScaled(level, m, K, k - 1);
      TimesOfPart(w, m);
      TimesTimes(Pow(m, k - 1), m, w / m as real);
      assert Pow(m, k - 1) * m == Pow(m, k);
    } else {
      assert Times(1, Width(level, m, K)) == Times(0, Width(level, m, K)) + Width(level, m, K);
    }
  }

  lemma {:induction false} TimesScaled(x: nat, level: nat, m: nat, K: real, k: nat)
    requires m >= 2
    ensures Times(x, Width(level, m, K)) == Times(x * Pow(m, k), Width(level + k, m, K))
  {
    WidthScaled(level, m, K, k);
    TimesTimes(x, Pow(m, k), Width(level + k, m, K));
  }

  /** The in-order rank of a position among all positions down to level `depth`. */
  function Rank(p: Position, m: nat, depth: nat): nat
    requires p.level <= depth
  {
    (p.number * m + CeilHalf(m)) * Pow(m, depth - p.level)
  }

  /** Comparing horizontal values is comparing integer ranks. */
  lemma {:induction false} OrderIsRank(p: Position, q: Position, m: nat, K: real, depth: nat)
    requires m >= 2 && K > 0.0 && OnTree(p, m) && OnTree(q, m)
    requires p.level <= depth && q.level <= depth
    ensures TreeMapper(p, m, K) < TreeMapper(q, m, K) <==> Rank(p, m, depth) < Rank(q, m, depth)
    ensures TreeMapper(p, m, K) == TreeMapper(q, m, K) <==> Rank(p, m, depth) == Rank(q, m, depth)
  {
    TreeMapperClosed(p, m, K);
    TreeMapperClosed(q, m, K);
    TimesScaled(p.number * m + CeilHalf(m), p.level + 1, m, K, depth - p.level);
    TimesScaled(q.number * m + CeilHalf(m), q.level + 1, m, K, depth - q.level);
    WidthPositive(depth + 1, m, K);
    TimesOrder(Rank(p, m, depth), Rank(q, m, depth), Width(depth + 1, m, K));
  }

  /** On one level the horizontal order is the order of the numbers. */
  lemma {:induction false} OrderOnLevel(p: Position, q: Position, m: nat, K: real)
    requires m >= 2 && K > 0.0 && OnTree(p, m) && OnTree(q, m) && p.level == q.level
    ensures TreeMapper(p, m, K) < TreeMapper(q, m, K) <==> p.number < q.number
  {
    OrderIsRank(p, q, m, K, p.level);
    assert Pow(m, 0) == 1;
    if p.number < q.number { MulStrict(p.number, q.number, m); }
    if q.number <= p.number { MulMono(q.number, p.number, m); }
  }

  /** Two different positions never share a horizontal value. */
  lemma {:induction false} TreeMapperInjective(p: Position, q: Position, m: nat, K: real)
    requires m >= 2 && K > 0.0 && OnTree(p, m) && OnTree(q, m)
    requires TreeMapper(p, m, K) == TreeMapper(q, m, K)
    ensures p == q
  {
    if p.level == q.level {
      OrderOnLevel(p, q, m, K);
      OrderOnLevel(q, p, m, K);
    } else if p.level < q.level {
      RanksDiffer(p, q, m);
      OrderIsRank(p, q, m, K, q.level);
    } else {
      RanksDiffer(q, p, m);
      OrderIsRank(p, q, m, K, p.level);
    }
  }

  /** A shallower rank is a multiple of m, a rank on the reference level is not. */
  lemma {:induction false} RanksDiffer(p: Position, q: Position, m: nat)
    requires m >= 2 && p.level < q.level
    ensures Rank(p, m, q.level) != Rank(q, m, q.level)
  {
    var k := q.level - p.level;
    var y, b := p.number * m + CeilHalf(m), Pow(m, k - 1);
    assert y * (m * b) == (y * b) * m;
    HalfBounds(m);
    DivModUnique((y * b) * m, m, y * b, 0);
    assert Pow(m, 0) == 1;
    DivModUnique(q.number * m + CeilHalf(m), m, q.number, CeilHalf(m));
  }

  /** The interval of q lies within the interval of p. */
  ghost predicate Nested(q: Position, p: Position, m: nat, K: real)
    requires m >= 2
  {
    var i, j := TreeMapperInternal(q, m, K), TreeMapperInternal(p, m, K);
    j.lower <= i.lower && i.upper <= j.upper
  }

  /** Nesting measured in the interval widths of any level at least as deep as both. */
  lemma {:induction false} NestedScaled(q: Position, p: Position, m: nat, K: real, depth: nat)
    requires m >= 2 && K > 0.0 && OnTree(p, m) && OnTree(q, m) && p.level <= depth && q.level <= depth
    ensures var s, t := Pow(m, depth - p.level), Pow(m, depth - q.level);
      Nested(q, p, m, K) <==> p.number * s <= q.number * t && (q.number + 1) * t <= (p.number + 1) * s
  {
    IntervalClosed(p, m, K);
    IntervalClosed(q, m, K);
    BorderOrder(p.number, p.level, q.number, q.level, m, K, depth);
    BorderOrder(q.number + 1, q.level, p.number + 1, p.level, m, K, depth);
  }

  lemma {:induction false} BorderOrder(x: nat, i: nat, y: nat, j: nat, m: nat, K: real, depth: nat)
    requires m >= 2 && K > 0.0 && i <= depth && j <= depth
    ensures Times(x, Width(i, m, K)) <= Times(y, Width(j, m, K))
       <==> x * Pow(m, depth - i) <= y * Pow(m, depth - j)
  {
    TimesScaled(x, i, m, K, depth - i);
    TimesScaled(y, j, m, K, depth - j);
    WidthPositive(depth, m, K);
    TimesOrder(y * Pow(m, depth - j), x * Pow(m, depth - i), Width(depth, m, K));
  }

  /** Intervals nest exactly along the transitive closure of the parent relation. */
  lemma {:induction false} NestedIffDescends(q: Position, p: Position, m: nat, K: real)
    requires m >= 2 && K > 0.0 && OnTree(p, m) && OnTree(q, m) && p != q
    ensures Nested(q, p, m, K) <==> Descends(q, p, m)
  {
    assert Pow(m, 0) == 1;
    if p.level < q.level {
      var k := q.level - p.level;
      NestedScaled(q, p, m, K, q.level);
      AncestorBlock(q, m, k);
      if Nested(q, p, m, K) { AncestorUnique(q, m, k, p.number); }
    } else {
      NestedScaled(q, p, m, K, p.level);
      var t := Pow(m, p.level - q.level);
      assert (q.number + 1) * t == q.number * t + t;
      if q.level < p.level { PowMono(m, 0, p.level - q.level); }
    }
  }

  lemma {:induction false} CenterBetweenBorders(n: nat, level: nat, m: nat, K: real)
    requires m >= 2 && K > 0.0
    ensures Times(n, Width(level, m, K)) < Times(n * m + CeilHalf(m), Width(level + 1, m, K))
         < Times(n + 1, Width(level, m, K))
  {
    var x, w := n * m + CeilHalf(m), Width(level + 1, m, K);
    assert Pow(m, 1) == m * Pow(m, 0) == m;
    TimesScaled(n, level, m, K, 1);
    TimesScaled(n + 1, level, m, K, 1);
    HalfBounds(m);
    assert (n + 1) * m == n * m + m;
    WidthPositive(level + 1, m, K);
    TimesOrder(n * m, x, w);
    TimesOrder(x, (n + 1) * m, w);
  }

  /** The value of a position lies strictly inside its interval. */
  lemma {:induction false} CenterInside(p: Position, m: nat, K: real)
    requires m >= 2 && K > 0.0 && OnTree(p, m)
    ensures var i := TreeMapperInternal(p, m, K); i.lower < i.center < i.upper
  {
    IntervalClosed(p, m, K);
    CenterBetweenBorders(p.number, p.level, m, K);
  }

  /** The value of every descendant lies strictly inside the interval of its ancestor. */
  lemma {:induction false} DescendantInside(q: Position, p: Position, m: nat, K: real)
    requires m >= 2 && K > 0.0 && OnTree(p, m) && OnTree(q, m) && Descends(q, p, m)
    ensures var i := TreeMapperInternal(p, m, K); i.lower < TreeMapper(q, m, K) < i.upper
  {
    NestedIffDescends(q, p, m, K);
    CenterInside(q, m, K);
  }

  /** The interval of a child lies wholly below or wholly above the value of its parent. */
  lemma {:induction false} ChildBesideParent(child: Position, p: Position, m: nat, K: real)
    requires m >= 2 && K > 0.0 && OnTree(p, m) && child in Children(p, m)
    ensures var i := TreeMapperInternal(child, m, K);
      if child.number % m < CeilHalf(m) then i.upper <= TreeMapper(p, m, K) else TreeMapper(p, m, K) <= i.lower
  {
    ChildIffParent(child, p, m);
    TreeMapperClosed(p, m, K);
    IntervalClosed(child, m, K);
    CenterBesideBorders(p.number, child.number, p.level, m, K);
  }

  lemma {:induction false} CenterBesideBorders(n: nat, x: nat, level: nat, m: nat, K: real)
    requires m >= 2 && K > 0.0 && x / m == n
    ensures var w := Width(level + 1, m, K);
      if x % m < CeilHalf(m) then Times(x + 1, w) <= Times(n * m + CeilHalf(m), w)
      else Times(n * m + CeilHalf(m), w) <= Times(x, w)
  {
    WidthPositive(level + 1, m, K);
    assert x == n * m + x % m;
    TimesOrder(n * m + CeilHalf(m), x + 1, Width(level + 1, m, K));
    TimesOrder(x, n * m + CeilHalf(m), Width(level + 1, m, K));
  }

  /**
  In-order: with `child` the child of p that q descends from (or is), q comes before p exactly
  when that child is one of the first ceil(m/2) children, and after p otherwise.
  */
  lemma {:induction false} InOrder(q: Position, p: Position, m: nat, K: real)
    requires m >= 2 && K > 0.0 && OnTree(p, m) && OnTree(q, m) && Descends(q, p, m)
    ensures var child := Ancestor(q, m, q.level - p.level - 1);
      && child in Children(p, m)
      && TreeMapper(q, m, K) != TreeMapper(p, m, K)
      && (TreeMapper(q, m, K) < TreeMapper(p, m, K) <==> child.number % m < CeilHalf(m))
  {
    var k := q.level - p.level - 1;
    var child := Ancestor(q, m, k);
    AncestorStep(q, m, k);
    ChildIffParent(child, p, m);
    ChildBesideParent(child, p, m, K);
    if k == 0 { CenterInside(q, m, K); } else { DescendantInside(q, child, m, K); }
  }
}
