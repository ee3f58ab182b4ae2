/**
NATTER's linear projection lists the level-order indices of a tree with N nodes in in-order.
It is proved to list every index once, sorted by MINHTON's horizontal value, which makes its
list neighbours the adjacents that MINHTON finds by sorting.
*/
module LinearProjection {
  import opened Arith
  import opened Positions
  import opened InOrderMap
  import opened HeapIndex

  /** The in-order list of the subtree below index i. */
  function Projection(N: nat, m: nat, i: nat): seq<nat>
    requires m >= 2
    decreases if i < N then N - i else 0, m + 2
  {
    ProjectedChildren(N, m, i, 1, CeilHalf(m) + 1) + [i] + ProjectedChildren(N, m, i, CeilHalf(m) + 1, m + 1)
  }

  /** The in-order lists of children j to k - 1 of index i, those that exist. */
  function ProjectedChildren(N: nat, m: nat, i: nat, j: nat, k: nat): seq<nat>
    requires m >= 2 && 1 <= j <= k <= m + 1
    decreases if i < N then N - i else 0, k - j
  {
    if j == k then []
    else
      var child := i * m + j;
      MulMono(1, m, i);
      (if child < N then Projection(N, m, child) else []) + ProjectedChildren(N, m, i, j + 1, k)
  }

  /** What child j of index i adds to the list: its own list if it exists. */
  function ProjectedChild(N: nat, m: nat, i: nat, j: nat): seq<nat>
    requires m >= 2
  {
    if i * m + j < N then Projection(N, m, i * m + j) else []
  }

  lemma {:induction false} ChildrenSnoc(N: nat, m: nat, i: nat, j: nat, k: nat)
    requires m >= 2 && 1 <= j <= k <= m
    ensures ProjectedChildren(N, m, i, j, k + 1) == ProjectedChildren(N, m, i, j, k) + ProjectedChild(N, m, i, k)
    decreases k - j
  {
    if j < k { ChildrenSnoc(N, m, i, j + 1, k); }
  }

  /** createLinearProjection. */
  method CreateLinearProjection(N: nat, m: nat, own: nat) returns (proj: seq<nat>)
    requires m >= 2
    ensures proj == Projection(N, m, own)
    decreases if own < N then N - own else 0, 1
  {
    var c := CeilHalf(m);
    proj := ProjectChildren(N, m, own, 1, c + 1);
    proj := proj + [own];
    var right := ProjectChildren(N, m, own, c + 1, m + 1);
    proj := proj + right;
  }

  /** The loop over the children from number low up to, not including, number high. */
  method ProjectChildren(N: nat, m: nat, own: nat, low: nat, high: nat) returns (proj: seq<nat>)
    requires m >= 2 && 1 <= low <= high <= m + 1
    ensures proj == ProjectedChildren(N, m, own, low, high)
    decreases if own < N then N - own else 0, 0
  {
    proj := [];
    MulMono(1, m, own);
    for i := low to high
      invariant proj == ProjectedChildren(N, m, own, low, i)
    {
      ChildrenSnoc(N, m, own, low, i);
      var child := own * m + i;
      if child < N {
        var other := CreateLinearProjection(N, m, child);
        proj := proj + other;
      }
    }
  }

  /** The horizontal value of the position with index i. */
  function Value(i: nat, m: nat, K: real): real
    requires m >= 2
  {
    TreeMapper(AtIndex(i, m), m, K)
  }

  ghost predicate SortedByValue(s: seq<nat>, m: nat, K: real)
    requires m >= 2
  {
    forall a, b :: 0 <= a < b < |s| ==> Value(s[a], m, K) < Value(s[b], m, K)
  }

  /** Sorted by value, with all values strictly between the two bounds. */
  ghost predicate SortedWithin(s: seq<nat>, m: nat, K: real, lower: real, upper: real)
    requires m >= 2
  {
    && SortedByValue(s, m, K)
    && forall a :: 0 <= a < |s| ==> lower < Value(s[a], m, K) < upper
  }

  lemma {:induction false} SortedConcat(
      s: seq<nat>, t: seq<nat>, m: nat, K: real, lower: real, middle: real, upper: real)
    requires m >= 2 && lower <= middle <= upper
    requires SortedWithin(s, m, K, lower, middle) && SortedWithin(t, m, K, middle, upper)
    ensures SortedWithin(s + t, m, K, lower, upper)
  {
  }

  /** The lower border of child j + 1, which is the upper border of child j. */
  function Border(i: nat, m: nat, K: real, j: nat): real
    requires m >= 2
  {
    BorderAt(AtIndex(i, m), m, K, j)
  }

  function BorderAt(p: Position, m: nat, K: real, j: nat): real
    requires m >= 2
  {
    MulNatural(p.number, m);
    Times(p.number * m + j, Width(p.level + 1, m, K))
  }

  lemma {:induction false} BorderMono(i: nat, m: nat, K: real, j: nat, k: nat)
    requires m >= 2 && K > 0.0 && j <= k
    ensures Border(i, m, K, j) <= Border(i, m, K, k)
  {
    var p := AtIndex(i, m);
    WidthPositive(p.level + 1, m, K);
    TimesOrder(p.number * m + k, p.number * m + j, Width(p.level + 1, m, K));
  }

  /** The index arithmetic of the projection addresses the children of the position. */
  lemma {:induction false} ChildInterval(i: nat, m: nat, K: real, j: nat)
    requires m >= 2 && 1 <= j <= m
    ensures AtIndex(i * m + j, m) == Children(AtIndex(i, m), m)[j - 1]
    ensures var I := TreeMapperInternal(AtIndex(i * m + j, m), m, K);
      I.lower == Border(i, m, K, j - 1) && I.upper == Border(i, m, K, j)
  {
    var p := AtIndex(i, m);
    ChildIndex(p, m, j - 1);
    var q := Children(p, m)[j - 1];
    AtIndexOfIndex(q, m);
    IntervalClosed(q, m, K);
  }

  /** A node's own interval runs from its first to its last border, with its value at ceil(m/2). */
  lemma {:induction false} OwnInterval(i: nat, m: nat, K: real)
    requires m >= 2
    ensures var I := TreeMapperInternal(AtIndex(i, m), m, K);
      && I.lower == Border(i, m, K, 0) && I.upper == Border(i, m, K, m)
      && Value(i, m, K) == Border(i, m, K, CeilHalf(m))
  {
    var p := AtIndex(i, m);
    IntervalClosed(p, m, K);
    FirstAndLastBorder(p.number, p.level, m, K);
  }

  lemma {:induction false} FirstAndLastBorder(n: nat, level: nat, m: nat, K: real)
    requires m >= 2
    ensures Times(n, Width(level, m, K)) == Times(n * m + 0, Width(level + 1, m, K))
    ensures Times(n + 1, Width(level, m, K)) == Times(n * m + m, Width(level + 1, m, K))
  {
    assert Pow(m, 1) == m * Pow(m, 0) == m;
    TimesScaled(n, level, m, K, 1);
    TimesScaled(n + 1, level, m, K, 1);
    assert (n + 1) * m == n * m + m;
  }

  /** The projection of a subtree is sorted and stays inside the subtree's interval. */
  lemma {:induction false} ProjectionSorted(N: nat, m: nat, i: nat, K: real)
    requires m >= 2 && K > 0.0
    ensures var I := TreeMapperInternal(AtIndex(i, m), m, K);
      SortedWithin(Projection(N, m, i), m, K, I.lower, I.upper)
    decreases if i < N then N - i else 0, m + 2
  {
    var c := CeilHalf(m);
    HalfBounds(m);
    ChildrenSorted(N, m, i, 1, c + 1, K);
    ChildrenSorted(N, m, i, c + 1, m + 1, K);
    OwnInterval(i, m, K);
    var left, right := ProjectedChildren(N, m, i, 1, c + 1), ProjectedChildren(N, m, i, c + 1, m + 1);
    CenterInside(AtIndex(i, m), m, K);
    CenterJoin(left, i, right, m, K, Border(i, m, K, 0), Border(i, m, K, m));
  }

  lemma {:induction false} CenterJoin(s: seq<nat>, i: nat, t: seq<nat>, m: nat, K: real, lower: real, upper: real)
    requires m >= 2 && lower < Value(i, m, K) < upper
    requires SortedWithin(s, m, K, lower, Value(i, m, K)) && SortedWithin(t, m, K, Value(i, m, K), upper)
    ensures SortedWithin(s + [i] + t, m, K, lower, upper)
  {
  }

  lemma {:induction false} ChildrenSorted(N: nat, m: nat, i: nat, j: nat, k: nat, K: real)
    requires m >= 2 && K > 0.0 && 1 <= j <= k <= m + 1
    ensures SortedWithin(ProjectedChildren(N, m, i, j, k), m, K, Border(i, m, K, j - 1), Border(i, m, K, k - 1))
    decreases if i < N then N - i else 0, k - j
  {
    if j < k {
      var child := i * m + j;
      MulMono(1, m, i);
      ChildrenSorted(N, m, i, j + 1, k, K);
      BorderMono(i, m, K, j - 1, j);
      BorderMono(i, m, K, j, k - 1);
      if child < N {
        ProjectionSorted(N, m, child, K);
        ChildInterval(i, m, K, j);
        SortedConcat(Projection(N, m, child), ProjectedChildren(N, m, i, j + 1, k), m, K,
                     Border(i, m, K, j - 1), Border(i, m, K, j), Border(i, m, K, k - 1));
      }
    }
  }

  /** Only existing indices are listed. */
  lemma {:induction false} ProjectionBelow(N: nat, m: nat, i: nat, x: nat)
    requires m >= 2 && i < N && x in Projection(N, m, i)
    ensures x < N
    decreases N - i, m + 2
  {
    if x != i {
      if x in ProjectedChildren(N, m, i, 1, CeilHalf(m) + 1) {
        ChildrenBelow(N, m, i, 1, CeilHalf(m) + 1, x);
      } else {
        ChildrenBelow(N, m, i, CeilHalf(m) + 1, m + 1, x);
      }
    }
  }

  lemma {:induction false} ChildrenBelow(N: nat, m: nat, i: nat, j: nat, k: nat, x: nat)
    requires m >= 2 && i < N && 1 <= j <= k <= m + 1 && x in ProjectedChildren(N, m, i, j, k)
    ensures x < N
    decreases N - i, k - j
  {
    var child := i * m + j;
    MulMono(1, m, i);
    if child < N && x in Projection(N, m, child) {
      ProjectionBelow(N, m, child, x);
    } else {
      ChildrenBelow(N, m, i, j + 1, k, x);
    }
  }

  lemma {:induction false} ProjectionIff(N: nat, m: nat, i: nat, x: nat)
    requires m >= 2
    ensures x in Projection(N, m, i) <==>
      || x == i
      || x in ProjectedChildren(N, m, i, 1, CeilHalf(m) + 1)
      || x in ProjectedChildren(N, m, i, CeilHalf(m) + 1, m + 1)
  {
  }

  lemma {:induction false} ListedWithChildren(N: nat, m: nat, i: nat, x: nat)
    requires m >= 2
    requires || x in ProjectedChildren(N, m, i, 1, CeilHalf(m) + 1)
             || x in ProjectedChildren(N, m, i, CeilHalf(m) + 1, m + 1)
    ensures x in Projection(N, m, i)
  {
    ProjectionIff(N, m, i, x);
  }

  /** What the subtree of child t lists is listed with the children from j on. */
  lemma {:induction false} SubtreeAmongChildren(N: nat, m: nat, i: nat, j: nat, k: nat, t: nat, child: nat, x: nat)
    requires m >= 2 && 1 <= j <= t < k <= m + 1 && child == i * m + t < N && x in Projection(N, m, child)
    ensures x in ProjectedChildren(N, m, i, j, k)
    decreases t - j
  {
    if j < t {
      SubtreeAmongChildren(N, m, i, j + 1, k, t, child, x);
      AmongMoreChildren(N, m, i, j, k, x);
    } else {
      FirstChildListed(N, m, i, j, k, child);
    }
  }

  lemma {:induction false} FirstChildListed(N: nat, m: nat, i: nat, j: nat, k: nat, child: nat)
    requires m >= 2 && 1 <= j < k <= m + 1 && child == i * m + j < N
    ensures ProjectedChildren(N, m, i, j, k) == Projection(N, m, child) + ProjectedChildren(N, m, i, j + 1, k)
  {
  }

  lemma {:induction false} AmongMoreChildren(N: nat, m: nat, i: nat, j: nat, k: nat, x: nat)
    requires m >= 2 && 1 <= j < k <= m + 1 && x in ProjectedChildren(N, m, i, j + 1, k)
    ensures x in ProjectedChildren(N, m, i, j, k)
  {
  }

  lemma {:induction false} ListedWithChild(N: nat, m: nat, i: nat, t: nat, child: nat, x: nat)
    requires m >= 2 && 1 <= t <= m && child == i * m + t < N && x in Projection(N, m, child)
    ensures x in Projection(N, m, i)
  {
    if t <= CeilHalf(m) { ListedLeft(N, m, i, t, child, x); } else { ListedRight(N, m, i, t, child, x); }
  }

  lemma {:induction false} ListedLeft(N: nat, m: nat, i: nat, t: nat, child: nat, x: nat)
    requires m >= 2 && 1 <= t <= CeilHalf(m) && child == i * m + t < N && x in Projection(N, m, child)
    ensures x in Projection(N, m, i)
  {
    var c := CeilHalf(m);
    assert x in ProjectedChildren(N, m, i, 1, c + 1) by {
      SubtreeAmongChildren(N, m, i, 1, c + 1, t, child, x);
    }
    ListedWithChildren(N, m, i, x);
  }

  lemma {:induction false} ListedRight(N: nat, m: nat, i: nat, t: nat, child: nat, x: nat)
    requires m >= 2 && CeilHalf(m) < t <= m && child == i * m + t < N && x in Projection(N, m, child)
    ensures x in Projection(N, m, i)
  {
    var c := CeilHalf(m);
    assert x in ProjectedChildren(N, m, i, c + 1, m + 1) by {
      SubtreeAmongChildren(N, m, i, c + 1, m + 1, t, child, x);
    }
    ListedWithChildren(N, m, i, x);
  }

  lemma {:induction false} ChildNumber(i: nat, m: nat, p: nat) returns (t: nat)
    requires m >= 2 && i > 0 && p == ParentIndex(i, m)
    ensures 1 <= t <= m && i == p * m + t
  {
    DivBlock(i - 1, m, p);
    MulDistribute(p, 1, m);
    t := i - p * m;
  }

  /** What an index lists its parent lists too. */
  lemma {:induction false} ListedByParent(N: nat, m: nat, i: nat, x: nat)
    requires m >= 2 && 0 < i < N && x in Projection(N, m, i)
    ensures x in Projection(N, m, ParentIndex(i, m))
  {
    var t := ChildNumber(i, m, ParentIndex(i, m));
    ListedWithChild(N, m, ParentIndex(i, m), t, i, x);
  }

  lemma {:induction false} ListedByRoot(N: nat, m: nat, i: nat, x: nat)
    requires m >= 2 && i < N && x in Projection(N, m, i)
    ensures x in Projection(N, m, 0)
    decreases i
  {
    if i > 0 {
      ListedByParent(N, m, i, x);
      ListedByRoot(N, m, ParentIndex(i, m), x);
    }
  }

  /** Every existing index is listed. */
  lemma {:induction false} ProjectionComplete(N: nat, m: nat, x: nat)
    requires m >= 2 && x < N
    ensures x in Projection(N, m, 0)
  {
    ProjectionIff(N, m, x, x);
    ListedByRoot(N, m, x, x);
  }

  /** s lists the indices 0 to N - 1, each once, by increasing horizontal value. */
  ghost predicate IsInOrder(s: seq<nat>, N: nat, m: nat, K: real)
    requires m >= 2
  {
    && SortedByValue(s, m, K)
    && forall x: nat :: x in s <==> x < N
  }

  /** The linear projection of a tree lists each index once, sorted by horizontal value. */
  lemma {:induction false} ProjectionInOrder(N: nat, m: nat, K: real)
    requires m >= 2 && K > 0.0 && N >= 1
    ensures IsInOrder(Projection(N, m, 0), N, m, K)
    ensures |Projection(N, m, 0)| == N
  {
    var s := Projection(N, m, 0);
    ProjectionSorted(N, m, 0, K);
    forall x: nat
      ensures x in s <==> x < N
    {
      if x in s { ProjectionBelow(N, m, 0, x); }
      if x < N { ProjectionComplete(N, m, x); }
    }
    InOrderLength(s, N, m, K);
  }

  lemma {:induction false} InOrderLength(s: seq<nat>, N: nat, m: nat, K: real)
    requires m >= 2 && IsInOrder(s, N, m, K)
    ensures |s| == N
  {
    NoRepeats(s, N);
  }

  lemma {:induction false} OneRemoved(s: seq<nat>, k: nat, t: seq<nat>)
    requires k < |s| && t == s[..k] + s[k + 1..] && (forall a, b :: 0 <= a < b < |s| ==> s[a] != s[b])
    ensures forall a, b :: 0 <= a < b < |t| ==> t[a] != t[b]
    ensures forall x :: x in t <==> x in s && x != s[k]
  {
    assert forall i :: 0 <= i < |t| ==> t[i] == s[if i < k then i else i + 1];
    forall x | x in s && x != s[k]
      ensures x in t
    {
      var a :| 0 <= a < |s| && s[a] == x;
      assert x == t[if a < k then a else a - 1];
    }
  }

  /** A list without repetitions of exactly the numbers below N has length N. */
  lemma {:induction false} NoRepeats(s: seq<nat>, N: nat)
    requires forall x: nat :: x in s <==> x < N
    requires forall a, b :: 0 <= a < b < |s| ==> s[a] != s[b]
    ensures |s| == N
    decreases N
  {
    assert s == [] || s[0] in s;
    if N > 0 {
      assert N - 1 in s;
      var k :| 0 <= k < |s| && s[k] == N - 1;
      var t := s[..k] + s[k + 1..];
      OneRemoved(s, k, t);
      NoRepeats(t, N - 1);
    }
  }

  /** There is only one such list, however it was produced. */
  lemma {:induction false} InOrderUnique(s: seq<nat>, t: seq<nat>, N: nat, m: nat, K: real)
    requires m >= 2 && IsInOrder(s, N, m, K) && IsInOrder(t, N, m, K)
    ensures s == t
  {
    InOrderLength(s, N, m, K);
    InOrderLength(t, N, m, K);
    forall k | 0 <= k < N
      ensures s[k] == t[k]
    {
      SameAt(s, t, N, m, K, k);
    }
  }

  lemma {:induction false} SameAt(s: seq<nat>, t: seq<nat>, N: nat, m: nat, K: real, k: nat)
    requires m >= 2 && IsInOrder(s, N, m, K) && IsInOrder(t, N, m, K) && k < |s| == |t|
    ensures s[k] == t[k]
    decreases k
  {
    forall h | 0 <= h < k
      ensures s[h] == t[h]
    {
      SameAt(s, t, N, m, K, h);
    }
    assert s[k] in s && t[k] in t;
    assert s[k] in t && t[k] in s;
    var a :| 0 <= a < |t| && t[a] == s[k];
    var b :| 0 <= b < |s| && s[b] == t[k];
    assert k <= a && k <= b;
  }
}
