/**
Dominating set nodes (DSNs).  Every even level has a set of DSNs; each DSN covers a stretch of
its level and the children of that stretch.  getCoverArea and getCoveringDSN compute the two
directions of this relation independently of each other; they are proved to agree, and the
areas to partition the tree.
*/
module DsnCover {
  import opened Arith
  import opened Results
  import opened Positions
  import opened Sorting

  /** start, start + 2m, start + 4m, ... up to max. */
  function Spaced(start: nat, max: int, m: nat): seq<nat>
    requires m >= 2
    decreases max - start
  {
    if start > max then [] else [start] + Spaced(start + 2 * m, max, m)
  }

  function MaxNumber(level: nat, m: nat): int
  {
    Pow(m, level) - 1
  }

  /** The DSNs of a level with numbers up to max: m, 3m, 5m, ..., and one more near the end. */
  function DsnList(max: int, m: nat): (s: seq<nat>)
    requires m >= 2 && m <= max
  {
    var s := Spaced(m, max, m);
    if s[|s| - 1] < max - m then s + [max - m] else s
  }

  function DsnSet(level: nat, m: nat): seq<nat>
    requires m >= 2
  {
    if level % 2 == 1 then []
    else if level == 0 then [0]
    else
      FirstDsnOnLevel(level, m);
      DsnList(MaxNumber(level, m), m)
  }

  lemma {:induction false} FirstDsnOnLevel(level: nat, m: nat)
    requires m >= 2 && level >= 2
    ensures 2 * m - 1 <= MaxNumber(level, m)
  {
    PowMono(m, 1, level - 1);
    assert Pow(m, 1) == m * Pow(m, 0) == m;
    MulMono(2, Pow(m, level - 1), m);
  }

  /** getDSNSet lists exactly the DSNs, in increasing order. */
  method GetDsnSet(level: nat, m: nat) returns (dsns: seq<nat>)
    requires m >= 2
    ensures forall x: nat :: x in dsns <==> IsDsnNumber(level, m, x)
    ensures forall a, b :: 0 <= a < b < |dsns| ==> dsns[a] < dsns[b]
    ensures dsns == DsnSet(level, m)
  {
    forall x: nat
      ensures x in DsnSet(level, m) <==> IsDsnNumber(level, m, x)
    {
      DsnSetIff(level, m, x);
    }
    if level % 2 == 1 { return []; }
    DsnLayout(level, m);
    if level == 0 { return [0]; }
    var maxNumber := MaxNumber(level, m);
    FirstDsnOnLevel(level, m);
    dsns := ListDsns(maxNumber, m);
  }

  lemma {:induction false} SpacedSnoc(all: seq<nat>, max: int, m: nat, next: nat, s: seq<nat>)
    requires m >= 2 && s + Spaced(next, max, m) == all && next <= max
    ensures (s + [next]) + Spaced(next + 2 * m, max, m) == all
  {
    var rest := Spaced(next + 2 * m, max, m);
    assert s + ([next] + rest) == (s + [next]) + rest;
  }

  /** The loop of getDSNSet. */
  method ListDsns(maxNumber: int, m: nat) returns (dsns: seq<nat>)
    requires m >= 2 && m <= maxNumber
    ensures dsns == DsnList(maxNumber, m)
  {
    ghost var all := Spaced(m, maxNumber, m);
    dsns := [];
    var i: nat := m;
    while i <= maxNumber
      invariant dsns + Spaced(i, maxNumber, m) == all
      decreases maxNumber - i
    {
      SpacedSnoc(all, maxNumber, m, i, dsns);
      dsns := dsns + [i];
      i := i + 2 * m;
    }
    assert dsns == all;
    if dsns[|dsns| - 1] < maxNumber - m {
      dsns := dsns + [maxNumber - m];
    }
  }

  /** Consecutive entries differ by a positive even number. */
  ghost predicate EvenGaps(s: seq<nat>)
  {
    forall k :: 0 <= k < |s| - 1 ==> s[k] < s[k + 1] && (s[k + 1] - s[k]) % 2 == 0
  }

  /** A non-empty increasing list with even gaps that stays on the level. */
  ghost predicate Layout(s: seq<nat>, max: int)
  {
    && |s| > 0 && EvenGaps(s)
    && (forall a, b :: 0 <= a < b < |s| ==> s[a] < s[b])
    && (forall k :: 0 <= k < |s| ==> s[k] <= max)
  }

  lemma {:induction false} SpacedLast(start: nat, max: int, m: nat)
    requires m >= 2 && start <= max
    ensures var s := Spaced(start, max, m); |s| > 0 && s[|s| - 1] <= max < s[|s| - 1] + 2 * m
    decreases max - start
  {
    var s, t := Spaced(start, max, m), Spaced(start + 2 * m, max, m);
    if start + 2 * m <= max {
      SpacedLast(start + 2 * m, max, m);
      assert s[|s| - 1] == t[|t| - 1];
    }
  }

  lemma {:induction false} SpacedGaps(start: nat, max: int, m: nat)
    requires m >= 2
    ensures EvenGaps(Spaced(start, max, m))
    ensures start <= max ==> |Spaced(start, max, m)| > 0 && Spaced(start, max, m)[0] == start
    decreases max - start
  {
    if start <= max {
      var s, t := Spaced(start, max, m), Spaced(start + 2 * m, max, m);
      SpacedGaps(start + 2 * m, max, m);
      assert s == [start] + t;
      forall k | 0 <= k < |s| - 1
        ensures s[k] < s[k + 1] && (s[k + 1] - s[k]) % 2 == 0
      {
        if k > 0 { assert s[k] == t[k - 1] && s[k + 1] == t[k - 1 + 1]; }
      }
    }
  }

  lemma {:induction false} EvenGapsSorted(s: seq<nat>, a: nat, b: nat)
    requires EvenGaps(s) && a < b < |s|
    ensures s[a] < s[b]
    decreases b - a
  {
    if a + 1 < b { EvenGapsSorted(s, a, b - 1); }
  }

  lemma {:induction false} LayoutFromGaps(s: seq<nat>, max: int)
    requires |s| > 0 && EvenGaps(s) && s[|s| - 1] <= max
    ensures Layout(s, max)
  {
    forall a, b | 0 <= a < b < |s|
      ensures s[a] < s[b]
    {
      EvenGapsSorted(s, a, b);
    }
  }

  lemma {:induction false} LayoutAppend(s: seq<nat>, x: nat, max: int)
    requires |s| > 0 && EvenGaps(s) && s[|s| - 1] < x <= max && (x - s[|s| - 1]) % 2 == 0
    ensures Layout(s + [x], max)
  {
    LayoutFromGaps(s + [x], max);
  }

  // Which numbers are DSNs.

  predicate OddMultiple(x: nat, m: nat)
    requires m >= 2
  {
    x % m == 0 && (x / m) % 2 == 1
  }

  /** On an even level the odd multiples of m are DSNs and, for odd m, the number m before the last one. */
  predicate IsDsnNumber(level: nat, m: nat, x: nat)
    requires m >= 2
  {
    && level % 2 == 0 && x < Pow(m, level)
    && (level == 0 || OddMultiple(x, m) || (m % 2 == 1 && x == Pow(m, level) - 1 - m))
  }

  lemma {:induction false} OddMultipleStep(x: nat, m: nat)
    requires m >= 2 && x >= 2 * m
    ensures OddMultiple(x, m) <==> OddMultiple(x - 2 * m, m)
  {
    var q, r := x / m, x % m;
    assert x == q * m + r;
    assert x - 2 * m == (q - 2) * m + r;
    DivBlock(x, m, q);
    DivModUnique(x - 2 * m, m, q - 2, r);
  }

  lemma {:induction false} SmallOddMultiple(x: nat, m: nat)
    requires m >= 2 && x < 2 * m
    ensures OddMultiple(x, m) <==> x == m
  {
    if x < m { DivModUnique(x, m, 0, x); } else { DivModUnique(x, m, 1, x - m); }
  }

  lemma {:induction false} SpacedIff(start: nat, max: int, m: nat, x: nat)
    requires m >= 2 && OddMultiple(start, m)
    ensures x in Spaced(start, max, m) <==> start <= x <= max && OddMultiple(x, m)
    decreases max - start
  {
    if start <= max {
      NextOddMultiple(start, m);
      SpacedIff(start + 2 * m, max, m, x);
      if start <= x < start + 2 * m { OddMultipleBetween(start, x, m); }
    }
  }

  lemma {:induction false} NextOddMultiple(start: nat, m: nat)
    requires m >= 2 && OddMultiple(start, m)
    ensures OddMultiple(start + 2 * m, m)
  {
    OddMultipleStep(start + 2 * m, m);
  }

  lemma {:induction false} OddMultipleBetween(start: nat, x: nat, m: nat)
    requires m >= 2 && OddMultiple(start, m) && start <= x < start + 2 * m
    ensures OddMultiple(x, m) <==> x == start
    decreases start
  {
    if start < 2 * m {
      SmallOddMultiple(start, m);
      if x < 2 * m {
        SmallOddMultiple(x, m);
      } else {
        OddMultipleStep(x, m);
        SmallOddMultiple(x - 2 * m, m);
      }
    } else {
      OddMultipleStep(start, m);
      OddMultipleStep(x, m);
      OddMultipleBetween(start - 2 * m, x - 2 * m, m);
    }
  }

  /** The extra DSN is listed exactly if m is odd, and then its gap is m - 1. */
  lemma {:induction false} ExtraDsnGap(max: int, m: nat, b: nat, last: nat)
    requires m >= 2 && b >= 2 && max + 1 == b * m && b % 2 == m % 2
    requires OddMultiple(last, m) && last <= max < last + 2 * m
    ensures last < max - m <==> m % 2 == 1
    ensures m % 2 == 1 ==> max - m - last == m - 1
  {
    var q := last / m;
    assert last == q * m;
    assert (q + 1) * m == last + m && (q + 2) * m == last + 2 * m;
    if b <= q { MulMono(b, q, m); }
    assert (q + 3) * m == last + 3 * m;
    if q + 3 <= b { MulMono(q + 3, b, m); }
    assert b == q + 1 || b == q + 2;
  }

  lemma {:induction false} LastSpaced(max: int, m: nat) returns (last: nat)
    requires m >= 2 && m <= max
    ensures var s := Spaced(m, max, m); |s| > 0 && last == s[|s| - 1]
    ensures OddMultiple(last, m) && last <= max < last + 2 * m
  {
    var s := Spaced(m, max, m);
    SpacedLast(m, max, m);
    last := s[|s| - 1];
    assert last in s;
    SmallOddMultiple(m, m);
    SpacedIff(m, max, m, last);
  }

  lemma {:induction false} OddMultiplesListed(max: int, m: nat, x: nat)
    requires m >= 2 && m <= max
    ensures x in Spaced(m, max, m) <==> x <= max && OddMultiple(x, m)
  {
    SmallOddMultiple(m, m);
    SpacedIff(m, max, m, x);
    if x < m { SmallOddMultiple(x, m); }
  }

  lemma {:induction false} DsnListIff(max: int, m: nat, b: nat, x: nat)
    requires m >= 2 && b >= 2 && m <= max && max + 1 == b * m && b % 2 == m % 2
    ensures x in DsnList(max, m) <==> x <= max && (OddMultiple(x, m) || (m % 2 == 1 && x == max - m))
  {
    OddMultiplesListed(max, m, x);
    var last := LastSpaced(max, m);
    ExtraDsnGap(max, m, b, last);
  }

  /** Which numbers getDSNSet lists. */
  lemma {:induction false} DsnSetIff(level: nat, m: nat, x: nat)
    requires m >= 2
    ensures x in DsnSet(level, m) <==> IsDsnNumber(level, m, x)
  {
    if level == 0 {
      assert Pow(m, 0) == 1;
    } else if level % 2 == 0 {
      FirstDsnOnLevel(level, m);
      PowParity(m, level - 1);
      PowMono(m, 1, level - 1);
      assert Pow(m, 1) == m * Pow(m, 0) == m;
      DsnListIff(MaxNumber(level, m), m, Pow(m, level - 1), x);
    }
  }

  lemma {:induction false} DsnListLayout(max: int, m: nat, b: nat)
    requires m >= 2 && b >= 2 && m <= max && max + 1 == b * m && b % 2 == m % 2
    ensures Layout(DsnList(max, m), max)
  {
    var s := Spaced(m, max, m);
    SpacedGaps(m, max, m);
    var last := LastSpaced(max, m);
    ExtraDsnGap(max, m, b, last);
    if last < max - m { LayoutAppend(s, max - m, max); } else { LayoutFromGaps(s, max); }
  }

  /** On every even level all gaps between neighbouring DSNs are even. */
  lemma {:induction false} DsnLayout(level: nat, m: nat)
    requires m >= 2 && level % 2 == 0
    ensures Layout(DsnSet(level, m), MaxNumber(level, m))
  {
    if level > 0 {
      FirstDsnOnLevel(level, m);
      PowParity(m, level - 1);
      PowMono(m, 1, level - 1);
      assert Pow(m, 1) == m * Pow(m, 0) == m;
      DsnListLayout(MaxNumber(level, m), m, Pow(m, level - 1));
    }
  }

  /** The first number of its level that DSN k covers. */
  function FirstCovered(s: seq<nat>, k: nat): int
    requires k < |s|
  {
    if k == 0 then 0 else s[k] - (s[k] as int - s[k - 1] as int) / 2 + 1
  }

  /** The last number of its level that DSN k covers. */
  function LastCovered(s: seq<nat>, k: nat, max: int): int
    requires k < |s|
  {
    if k == |s| - 1 then max else s[k] + (s[k + 1] as int - s[k] as int) / 2
  }

  predicate Covers(s: seq<nat>, k: nat, max: int, n: int)
    requires k < |s|
  {
    FirstCovered(s, k) <= n <= LastCovered(s, k, max)
  }

  /** Two neighbouring stretches meet without a hole exactly when the gap between them is even. */
  lemma {:induction false} StretchesMeetIffEven(s: seq<nat>, k: nat, max: int)
    requires k + 1 < |s| && s[k] < s[k + 1]
    ensures LastCovered(s, k, max) + 1 == FirstCovered(s, k + 1) <==> (s[k + 1] - s[k]) % 2 == 0
    ensures (s[k + 1] - s[k]) % 2 == 1 ==> LastCovered(s, k, max) + 2 == FirstCovered(s, k + 1)
  {
    var gap: int := s[k + 1] - s[k];
    assert gap == 2 * (gap / 2) + gap % 2;
  }

  function Apart(x: int, y: int): nat
  {
    if x < y then y - x else x - y
  }

  /** s[k] is the entry nearest to n, the smaller one of two that are equally near. */
  ghost predicate Nearest(s: seq<nat>, k: nat, n: int)
    requires k < |s|
  {
    && (forall j :: 0 <= j < k ==> Apart(n, s[k]) < Apart(n, s[j]))
    && (forall j :: k < j < |s| ==> Apart(n, s[k]) <= Apart(n, s[j]))
  }

  /** A DSN covers exactly the numbers of its level to which it is the nearest. */
  lemma {:induction false} CoversNearest(s: seq<nat>, k: nat, max: int, n: int)
    requires Layout(s, max) && k < |s| && 0 <= n <= max
    ensures Covers(s, k, max, n) <==> Nearest(s, k, n)
  {
    if k > 0 { assert s[k - 1] < s[k - 1 + 1] && (s[k - 1 + 1] - s[k - 1]) % 2 == 0; }
    if k + 1 < |s| { assert s[k] < s[k + 1] && (s[k + 1] - s[k]) % 2 == 0; }
    if Nearest(s, k, n) {
      if k > 0 { assert Apart(n, s[k]) < Apart(n, s[k - 1]); }
      if k + 1 < |s| { assert Apart(n, s[k]) <= Apart(n, s[k + 1]); }
    }
    if Covers(s, k, max, n) {
      forall j | 0 <= j < k
        ensures Apart(n, s[k]) < Apart(n, s[j])
      {
        assert j < k - 1 ==> s[j] < s[k - 1];
      }
      forall j | k < j < |s|
        ensures Apart(n, s[k]) <= Apart(n, s[j])
      {
        assert k + 1 < j ==> s[k + 1] < s[j];
      }
    }
  }

  /** A DSN lies on its own stretch, which stays on the level. */
  lemma {:induction false} StretchBounds(s: seq<nat>, k: nat, max: int)
    requires Layout(s, max) && k < |s|
    ensures 0 <= FirstCovered(s, k) <= s[k] <= LastCovered(s, k, max) <= max
  {
    if k > 0 { assert s[k - 1] < s[k - 1 + 1] && (s[k - 1 + 1] - s[k - 1]) % 2 == 0; }
  }

  lemma {:induction false} LaterCoversLater(s: seq<nat>, a: nat, b: nat, max: int)
    requires Layout(s, max) && a < b < |s|
    ensures LastCovered(s, a, max) < FirstCovered(s, b)
    decreases b - a
  {
    StretchesMeetIffEven(s, b - 1, max);
    StretchBounds(s, b - 1, max);
    if a + 1 < b { LaterCoversLater(s, a, b - 1, max); }
  }

  /** With even gaps no number is covered by two DSNs. */
  lemma {:induction false} CoveredOnce(s: seq<nat>, a: nat, b: nat, max: int, n: int)
    requires Layout(s, max) && a < |s| && b < |s|
    requires Covers(s, a, max, n) && Covers(s, b, max, n)
    ensures a == b
  {
    if a < b { LaterCoversLater(s, a, b, max); }
    if b < a { LaterCoversLater(s, b, a, max); }
  }

  predicate IsDsn(d: Position, m: nat)
    requires m >= 2
  {
    d.number in DsnSet(d.level, m)
  }

  /** q lies on the stretch of DSN k of a level, or below that stretch. */
  predicate OnStretch(q: Position, level: nat, s: seq<nat>, k: nat, max: int, m: nat)
    requires m >= 2 && k < |s|
  {
    || (q.level == level && Covers(s, k, max, q.number))
    || (q.level == level + 1 && Covers(s, k, max, q.number / m))
  }

  /** q lies in the block of the DSN d. */
  ghost predicate InBlock(q: Position, d: Position, m: nat)
    requires m >= 2
  {
    var s := DsnSet(d.level, m);
    exists k :: 0 <= k < |s| && s[k] == d.number && OnStretch(q, d.level, s, k, MaxNumber(d.level, m), m)
  }

  /** The block of DSN k, without the search for k. */
  lemma {:induction false} BlockIff(q: Position, d: Position, m: nat, s: seq<nat>, k: nat)
    requires m >= 2 && s == DsnSet(d.level, m) && Layout(s, MaxNumber(d.level, m)) && k < |s| && s[k] == d.number
    ensures InBlock(q, d, m) <==> OnStretch(q, d.level, s, k, MaxNumber(d.level, m), m)
  {
  }

  /** d is the DSN nearest to n on its level, the smaller one of two that are equally near. */
  ghost predicate NearestOnLevel(d: Position, n: int, m: nat)
    requires m >= 2
  {
    && IsDsnNumber(d.level, m, d.number)
    && (forall e: nat :: IsDsnNumber(d.level, m, e) && e < d.number ==> Apart(n, d.number) < Apart(n, e))
    && (forall e: nat :: IsDsnNumber(d.level, m, e) && e > d.number ==> Apart(n, d.number) <= Apart(n, e))
  }

  lemma {:induction false} NearestIs(d: Position, n: int, m: nat, s: seq<nat>, k: nat)
    requires m >= 2 && s == DsnSet(d.level, m) && Layout(s, MaxNumber(d.level, m)) && k < |s| && s[k] == d.number
    ensures Nearest(s, k, n) <==> NearestOnLevel(d, n, m)
  {
    forall e: nat
      ensures e in s <==> IsDsnNumber(d.level, m, e)
    {
      DsnSetIff(d.level, m, e);
    }
    assert s[k] in s;
    if Nearest(s, k, n) {
      forall e: nat | IsDsnNumber(d.level, m, e) && e != d.number
        ensures if e < d.number then Apart(n, d.number) < Apart(n, e) else Apart(n, d.number) <= Apart(n, e)
      {
        var j :| 0 <= j < |s| && s[j] == e;
      }
    }
    if NearestOnLevel(d, n, m) {
      forall j | 0 <= j < |s| && j != k
        ensures if j < k then Apart(n, s[k]) < Apart(n, s[j]) else Apart(n, s[k]) <= Apart(n, s[j])
      {
        assert s[j] in s && IsDsnNumber(d.level, m, s[j]);
      }
    }
  }

  /** A position is in the block of the DSN nearest to it, or to its parent if it is on an odd level. */
  lemma {:induction false} BlockIsNearest(q: Position, d: Position, m: nat)
    requires m >= 2 && OnTree(q, m)
    ensures InBlock(q, d, m) <==>
      || (q.level == d.level && NearestOnLevel(d, q.number, m))
      || (q.level == d.level + 1 && NearestOnLevel(d, q.number / m, m))
  {
    var s := DsnSet(d.level, m);
    DsnSetIff(d.level, m, d.number);
    if d.number in s {
      var k :| 0 <= k < |s| && s[k] == d.number;
      DsnLayout(d.level, m);
      BlockIff(q, d, m, s, k);
      var n := if q.level == d.level then q.number else q.number / m;
      if q.level == d.level + 1 { ParentOnTree(q, m); }
      NearestIs(d, n, m, s, k);
      if q.level == d.level || q.level == d.level + 1 { CoversNearest(s, k, MaxNumber(d.level, m), n); }
    }
  }

  /** std::find. */
  method FindIndex(s: seq<nat>, x: nat) returns (k: nat)
    ensures k <= |s|
    ensures k < |s| ==> s[k] == x
    ensures k == |s| ==> x !in s
  {
    k := 0;
    while k < |s| && s[k] != x
      invariant 0 <= k <= |s| && x !in s[..k]
    {
      k := k + 1;
    }
  }

  /** The positions with numbers from low to high - 1 of a level, in order. */
  function Stretch(level: nat, low: nat, high: int): (ps: seq<Position>)
    ensures forall q: Position :: q in ps <==> q.level == level && low <= q.number < high
    decreases high - low
  {
    if low >= high then [] else [Position(level, low)] + Stretch(level, low + 1, high)
  }

  method AddStretch(area: seq<Position>, level: nat, low: nat, high: int) returns (r: seq<Position>)
    ensures r == area + Stretch(level, low, high)
  {
    r := area;
    var i: nat := low;
    while i < high
      invariant r + Stretch(level, i, high) == area + Stretch(level, low, high)
      decreases high - i
    {
      r := r + [Position(level, i)];
      i := i + 1;
    }
  }

  method AllChildren(ps: seq<Position>, m: nat) returns (cs: seq<Position>)
    requires FanoutValid(m) && forall p :: p in ps ==> OnTree(p, m)
    ensures forall q: Position :: q in cs <==> q.level > 0 && Parent(q, m) in ps
  {
    cs := [];
    for i := 0 to |ps|
      invariant forall q: Position :: q in cs <==> q.level > 0 && Parent(q, m) in ps[..i]
    {
      var children := CalcChildren(ps[i], m);
      forall q: Position
        ensures q in children.value <==> q.level > 0 && Parent(q, m) == ps[i]
      {
        ChildIffParent(q, ps[i], m);
      }
      assert ps[..i + 1] == ps[..i] + [ps[i]];
      cs := cs + children.value;
    }
  }

  /** The part of getCoverArea that walks along the level: the stretch of DSN k without the DSN. */
  method CoverLevel(level: nat, s: seq<nat>, k: nat, maxNumber: int) returns (area: seq<Position>)
    requires Layout(s, maxNumber) && k < |s|
    ensures forall q: Position ::
      q in area <==> q.level == level && Covers(s, k, maxNumber, q.number) && q.number != s[k]
  {
    StretchBounds(s, k, maxNumber);
    var number := s[k];
    if k == 0 {
      area := AddStretch([], level, 0, number);
    } else {
      var ourGap: int := (number - s[k - 1]) / 2;
      area := AddStretch([], level, number - ourGap + 1, number);
    }
    if k == |s| - 1 {
      area := AddStretch(area, level, number + 1, maxNumber + 1);
    } else {
      var ourGap: int := (s[k + 1] - number) / 2;
      area := AddStretch(area, level, number + 1, number + ourGap + 1);
    }
  }

  /** getCoverArea: everything in the block of a DSN except the DSN itself; calcChildren refuses invalid fanouts. */
  method GetCoverArea(d: Position, m: nat) returns (r: Result<seq<Position>>)
    requires m >= 2
    ensures r.Ok? <==> FanoutValid(m) || !IsDsn(d, m) || d == Position(0, 0)
    ensures r.Ok? && IsDsn(d, m) ==> forall q: Position :: q in r.value <==> InBlock(q, d, m) && q != d
    ensures r.Ok? && !IsDsn(d, m) ==> r.value == []
  {
    if d.level == 0 && d.number == 0 {
      var area := AddStretch([], 1, 0, m);
      RootBlock(m);
      return Ok(area);
    }
    var dsns := GetDsnSet(d.level, m);
    if dsns == [] { return Ok([]); }
    var k := FindIndex(dsns, d.number);
    if k == |dsns| { return Ok([]); }
    var maxNumber := MaxNumber(d.level, m);
    DsnLayout(d.level, m);
    var stretch := CoverLevel(d.level, dsns, k, maxNumber);
    if !FanoutValid(m) { return Err("Invalid Position"); }
    StretchBounds(dsns, k, maxNumber);
    var coveredChildren := AllChildren(stretch, m);
    var dsnChildren := AllChildren([d], m);
    var area := stretch + coveredChildren + dsnChildren;
    forall q: Position
      ensures q in area <==> InBlock(q, d, m) && q != d
    {
      BlockIff(q, d, m, dsns, k);
    }
    return Ok(area);
  }

  lemma {:induction false} RootBlock(m: nat)
    requires m >= 2
    ensures forall q: Position :: InBlock(q, Position(0, 0), m) && q != Position(0, 0) <==> q.level == 1 && q.number < m
  {
    DsnLayout(0, m);
    forall q: Position
      ensures InBlock(q, Position(0, 0), m) && q != Position(0, 0) <==> q.level == 1 && q.number < m
    {
      BlockIff(q, Position(0, 0), m, [0], 0);
      DivBlock(q.number, m, 0);
    }
  }

  /** The DSN after a number covers it, or the one before does: the nearer of the two. */
  lemma {:induction false} NearerCovers(s: seq<nat>, max: int, k: nat, number: nat)
    requires Layout(s, max) && 0 < k < |s| && s[k - 1] < number < s[k]
    ensures if s[k] - number < number - s[k - 1] then Covers(s, k, max, number) else Covers(s, k - 1, max, number)
  {
    assert s[k - 1] < s[k - 1 + 1] && (s[k - 1 + 1] - s[k - 1]) % 2 == 0;
    StretchBounds(s, k, max);
    StretchBounds(s, k - 1, max);
  }

  /** The search of getCoveringDSN on one level. */
  method NearestDsn(s: seq<nat>, ghost max: int, number: nat) returns (k: nat)
    requires Layout(s, max)
    ensures k < |s|
    ensures number <= max ==> Covers(s, k, max, number)
  {
    var lower := FirstFrom(s, number);
    if lower == |s| {
      // number > lastDsn
      StretchBounds(s, |s| - 1, max);
      return |s| - 1;
    }
    StretchBounds(s, lower, max);
    if s[lower] == number || lower == 0 {
      return lower;
    }
    var after, prior := s[lower], s[lower - 1];
    NearerCovers(s, max, lower, number);
    var lowerDist, upperDist := number - prior, after - number;
    if upperDist < lowerDist {
      return lower;
    }
    return lower - 1;
  }

  method FirstFrom(s: seq<nat>, number: nat) returns (k: nat)
    requires forall a, b :: 0 <= a < b < |s| ==> s[a] < s[b]
    ensures k <= |s| && forall i :: 0 <= i < |s| ==> (i < k <==> s[i] < number)
  {
    var below := (n: nat) => n < number;
    k := LowerBound(s, below);
    assert forall i :: 0 <= i < k ==> below(s[i]);
    assert forall i :: k <= i < |s| ==> !below(s[i]);
  }

  /** getCoveringDSN: the nearest DSN of the level (of the parent's level on odd levels). */
  method GetCoveringDsn(p: Position, m: nat) returns (r: Result<Position>)
    requires m >= 2
    ensures p.level % 2 == 1 ==> (r.Ok? <==> PositionValid(p, m))
    ensures p.level % 2 == 0 ==> r.Ok?
    ensures r.Ok? ==> IsDsn(r.value, m)
    ensures r.Ok? && OnTree(p, m) ==> InBlock(p, r.value, m)
  {
    var level, number := p.level, p.number;
    if p.level % 2 == 1 {
      var parent := CalcParent(p, m);
      if parent.Err? { return parent; }
      level, number := parent.value.level, parent.value.number;
    }
    var dsns := GetDsnSet(level, m);
    DsnLayout(level, m);
    var k := NearestDsn(dsns, MaxNumber(level, m), number);
    var d := Position(level, dsns[k]);
    BlockIff(p, d, m, dsns, k);
    return Ok(d);
  }

  lemma {:induction false} BlockIndex(p: Position, d: Position, m: nat, s: seq<nat>) returns (k: nat)
    requires m >= 2 && s == DsnSet(d.level, m) && InBlock(p, d, m)
    ensures k < |s| && s[k] == d.number && OnStretch(p, d.level, s, k, MaxNumber(d.level, m), m)
  {
    k :| 0 <= k < |s| && s[k] == d.number && OnStretch(p, d.level, s, k, MaxNumber(d.level, m), m);
  }

  lemma {:induction false} SameLevelDisjoint(p: Position, level: nat, s: seq<nat>, a: nat, b: nat, max: int, m: nat)
    requires m >= 2 && Layout(s, max) && a < |s| && b < |s|
    requires OnStretch(p, level, s, a, max, m) && OnStretch(p, level, s, b, max, m)
    ensures a == b
  {
    CoveredOnce(s, a, b, max, if p.level == level then p.number else p.number / m);
  }

  lemma {:induction false} BlockIsEven(p: Position, d: Position, m: nat)
    requires m >= 2 && InBlock(p, d, m)
    ensures d.level % 2 == 0 && (p.level == d.level || p.level == d.level + 1)
  {
  }

  /** No position lies in the blocks of two DSNs; with GetCoveringDsn, the blocks partition the tree. */
  lemma {:induction false} BlocksDisjoint(p: Position, d: Position, e: Position, m: nat)
    requires m >= 2 && InBlock(p, d, m) && InBlock(p, e, m)
    ensures d == e
  {
    BlockIsEven(p, d, m);
    BlockIsEven(p, e, m);
    DsnLayout(d.level, m);
    var a := BlockIndex(p, d, m, DsnSet(d.level, m));
    var b := BlockIndex(p, e, m, DsnSet(d.level, m));
    SameLevelDisjoint(p, d.level, DsnSet(d.level, m), a, b, MaxNumber(d.level, m), m);
  }

  /** Every number of a level is covered by one of its DSNs. */
  lemma {:induction false} SomeDsnCovers(s: seq<nat>, max: int, n: nat, from: nat) returns (k: nat)
    requires Layout(s, max) && n <= max && from < |s| && FirstCovered(s, from) <= n
    ensures k < |s| && Covers(s, k, max, n)
    decreases |s| - from
  {
    if n <= LastCovered(s, from, max) {
      k := from;
    } else {
      StretchesMeetIffEven(s, from, max);
      k := SomeDsnCovers(s, max, n, from + 1);
    }
  }

  /** Every position of the tree lies in the block of exactly one DSN. */
  lemma {:induction false} BlocksPartition(p: Position, m: nat) returns (d: Position)
    requires m >= 2 && OnTree(p, m)
    ensures IsDsn(d, m) && InBlock(p, d, m)
    ensures forall e: Position :: InBlock(p, e, m) ==> e == d
  {
    var q := if p.level % 2 == 0 then p else Parent(p, m);
    if p.level % 2 == 1 { ParentOnTree(p, m); }
    DsnLayout(q.level, m);
    var s := DsnSet(q.level, m);
    var k := SomeDsnCovers(s, MaxNumber(q.level, m), q.number, 0);
    d := Position(q.level, s[k]);
    BlockIff(p, d, m, s, k);
    forall e: Position | InBlock(p, e, m)
      ensures e == d
    {
      BlocksDisjoint(p, d, e, m);
    }
  }

  /** Blocks hold positions of the tree only, and a DSN lies in its own block. */
  lemma {:induction false} BlockOnTree(p: Position, d: Position, m: nat)
    requires m >= 2 && IsDsn(d, m)
    ensures InBlock(d, d, m)
    ensures InBlock(p, d, m) ==> OnTree(p, m)
  {
    var s, max := DsnSet(d.level, m), MaxNumber(d.level, m);
    assert d.level % 2 == 0;
    DsnLayout(d.level, m);
    var k :| 0 <= k < |s| && s[k] == d.number;
    StretchBounds(s, k, max);
    BlockIff(d, d, m, s, k);
    BlockIff(p, d, m, s, k);
    if p.level == d.level + 1 && Covers(s, k, max, p.number / m) {
      DivBounds(p.number, m, 0, Pow(m, d.level));
    }
  }
}
