/** Nodes as a node knows them, and the tables of nodes it keeps. */
module NodeTables {
  import opened Arith
  import opened Results
  import opened Positions
  import opened InOrderMap
  import opened RoutingTables
  import opened Sorting

  /** A NodeInfo: a position in a tree of some fanout, if it is placed, and a network address. */
  datatype Node = Node(position: Position, fanout: nat, placed: bool, address: Option<string>) {
    predicate Initialized()
    {
      placed && address.Some?
    }
  }

  const UNSET := Node(Position(0, 0), 0, false, None)

  function Empty(p: Position, m: nat): Node
  {
    Node(p, m, true, None)
  }

  /** Equality of LogicalNodeInfo. */
  predicate SameLogical(n: Node, o: Node)
  {
    n.position == o.position && n.fanout == o.fanout && n.placed == o.placed
  }

  /** No LogicalNodeInfo is placed at an invalid position. */
  predicate WellPlaced(n: Node)
  {
    n.placed ==> PositionValid(n.position, n.fanout)
  }

  function Horizontal(n: Node): real
    requires n.fanout >= 2
  {
    TreeMapper(n.position, n.fanout, ROOT_VALUE)
  }

  /** The table holds one slot for each of the positions, in their order. */
  ghost predicate SlotsAt(s: seq<Node>, ps: seq<Position>, m: nat)
  {
    |s| == |ps| && forall k :: 0 <= k < |s| ==> SameLogical(s[k], Empty(ps[k], m))
  }

  /** Linear search and update: every slot of n's position gets n's address. */
  function Store(s: seq<Node>, n: Node): (r: seq<Node>)
    ensures |r| == |s|
    ensures forall k :: 0 <= k < |s| ==> r[k] == if SameLogical(s[k], n) then s[k].(address := n.address) else s[k]
  {
    if s == [] then [] else [if SameLogical(s[0], n) then s[0].(address := n.address) else s[0]] + Store(s[1..], n)
  }

  /** The address of the first initialized slot at q. */
  function Find(s: seq<Node>, q: Position): Option<string>
  {
    if s == [] then None
    else if s[0].position == q && s[0].Initialized() then s[0].address
    else Find(s[1..], q)
  }

  predicate HasSlot(s: seq<Node>, q: Position)
  {
    exists k :: 0 <= k < |s| && s[k].position == q
  }

  /** Storing changes what is found at n's position and nothing else. */
  lemma {:induction false} FindAfterStore(s: seq<Node>, n: Node, q: Position)
    requires n.placed && forall k :: 0 <= k < |s| ==> s[k].placed && s[k].fanout == n.fanout
    ensures Find(Store(s, n), q) == if q == n.position && HasSlot(s, q) then n.address else Find(s, q)
  {
    if s != [] {
      FindAfterStore(s[1..], n, q);
      assert Store(s, n)[1..] == Store(s[1..], n);
      assert s == [s[0]] + s[1..];
      HasSlotCons(s, q);
      if q == n.position && !HasSlot(s[1..], q) { NoSlotFindsNothing(Store(s[1..], n), q); }
    }
  }

  lemma {:induction false} HasSlotCons(s: seq<Node>, q: Position)
    requires s != []
    ensures HasSlot(s, q) <==> s[0].position == q || HasSlot(s[1..], q)
  {
    if HasSlot(s[1..], q) {
      var k :| 0 <= k < |s[1..]| && s[1..][k].position == q;
      assert s[k + 1].position == q;
    }
    if HasSlot(s, q) && s[0].position != q {
      var k :| 0 <= k < |s| && s[k].position == q;
      assert s[1..][k - 1].position == q;
    }
  }

  lemma {:induction false} NoSlotFindsNothing(s: seq<Node>, q: Position)
    requires !HasSlot(s, q)
    ensures Find(s, q) == None
  {
    if s != [] {
      assert s[0].position != q;
      forall k | 0 <= k < |s[1..]|
        ensures s[1..][k].position != q
      {
        assert s[1..][k] == s[k + 1];
      }
      NoSlotFindsNothing(s[1..], q);
    }
  }

  lemma {:induction false} StoreElsewhere(s: seq<Node>, n: Node)
    requires forall k :: 0 <= k < |s| ==> !SameLogical(s[k], n)
    ensures Store(s, n) == s
  {
  }

  ghost predicate SortedByHorizontal(s: seq<Node>)
  {
    && (forall k :: 0 <= k < |s| ==> s[k].fanout >= 2)
    && (forall a, b :: 0 <= a < b < |s| ==> Horizontal(s[a]) < Horizontal(s[b]))
  }

  /** Binary search finds the slot that a linear search for n's position would find. */
  method FindSlot(s: seq<Node>, n: Node) returns (k: nat)
    requires SortedByHorizontal(s) && n.fanout >= 2
    ensures k <= |s|
    ensures k < |s| ==> SameLogical(s[k], n) && forall i :: 0 <= i < |s| && SameLogical(s[i], n) ==> i == k
    ensures k == |s| ==> forall i :: 0 <= i < |s| ==> !SameLogical(s[i], n)
  {
    var below := (o: Node) => o.fanout >= 2 && Horizontal(o) < Horizontal(n);
    k := LowerBound(s, below);
    assert forall i :: 0 <= i < k ==> below(s[i]);
    assert k < |s| ==> !below(s[k]);
    assert forall j :: k < j < |s| ==> Horizontal(s[k]) < Horizontal(s[j]);
    forall i | 0 <= i < |s| && SameLogical(s[i], n)
      ensures i == k
    {
      assert Horizontal(s[i]) == Horizontal(n);
      assert i <= k;
    }
    if k < |s| && !SameLogical(s[k], n) {
      k := |s|;
    }
  }

  /** The slot update of updateRoutingTableNeighbor and its relatives. */
  method StoreInTable(s: seq<Node>, n: Node) returns (r: seq<Node>)
    requires SortedByHorizontal(s) && n.fanout >= 2
    ensures r == Store(s, n)
  {
    r := s;
    var k := FindSlot(s, n);
    if k < |s| && s[k].address != n.address {
      r := s[k := s[k].(address := n.address)];
    }
  }

  /** The slot reset of resetRoutingTableNeighbor and its relatives. */
  method ClearInTable(s: seq<Node>, n: Node) returns (r: seq<Node>, changed: bool)
    requires SortedByHorizontal(s) && n.fanout >= 2
    ensures r == Store(s, n.(address := None))
    ensures changed <==> r != s
  {
    r, changed := s, false;
    var k := FindSlot(s, n);
    if k < |s| && s[k].address.Some? {
      r, changed := s[k := s[k].(address := None)], true;
      assert r[k] != s[k];
    }
  }

  function Reversed<T>(s: seq<T>): (r: seq<T>)
    ensures |r| == |s| && forall k :: 0 <= k < |s| ==> r[k] == s[|s| - 1 - k]
  {
    if s == [] then [] else Reversed(s[1..]) + [s[0]]
  }

  /** The routing table positions from left to right. */
  function Ascending(p: Position, m: nat): seq<Position>
    requires m >= 2
  {
    Reversed(LeftTable(p, m)) + RightTable(p, m)
  }

  /** The children of the positions, in order. */
  function ChildrenOf(ps: seq<Position>, m: nat): (cs: seq<Position>)
    ensures |cs| == |ps| * m
  {
    if ps == [] then [] else ChildrenOf(ps[..|ps| - 1], m) + Children(ps[|ps| - 1], m)
  }

  /** Entry k * m + j is child j of position k. */
  lemma {:induction false} ChildrenOfAt(ps: seq<Position>, m: nat, k: nat, j: nat)
    requires k < |ps| && j < m
    ensures k * m + j < |ps| * m
    ensures ChildrenOf(ps, m)[k * m + j] == Children(ps[k], m)[j]
  {
    var last := ps[..|ps| - 1];
    assert |ps| * m == |last| * m + m;
    if k == |ps| - 1 {
      assert |last| == k;
    } else {
      ChildrenOfAt(last, m, k, j);
    }
  }

  ghost predicate NumbersIncrease(ps: seq<Position>, level: nat)
  {
    && (forall k :: 0 <= k < |ps| ==> ps[k].level == level)
    && (forall a, b :: 0 <= a < b < |ps| ==> ps[a].number < ps[b].number)
  }

  lemma {:induction false} LeftNumbersDecrease(s: seq<nat>, n: nat)
    requires Increasing(s)
    ensures forall a, b :: 0 <= a < b < |LeftNumbers(s, n)| ==> LeftNumbers(s, n)[a] > LeftNumbers(s, n)[b]
  {
    if s != [] {
      var t, x := s[..|s| - 1], s[|s| - 1];
      LeftNumbersDecrease(t, n);
      if n - x >= 0 {
        forall a | 0 <= a < |LeftNumbers(t, n)|
          ensures LeftNumbers(t, n)[a] > n - x
        {
          LeftNumbersIff(t, n, LeftNumbers(t, n)[a]);
        }
      }
    }
  }

  lemma {:induction false} RightNumbersIncrease(s: seq<nat>, n: nat, bound: nat)
    requires Increasing(s)
    ensures Increasing(RightNumbers(s, n, bound))
  {
    if s != [] {
      var t, x := s[..|s| - 1], s[|s| - 1];
      RightNumbersIncrease(t, n, bound);
      if n + x < bound {
        forall a | 0 <= a < |RightNumbers(t, n, bound)|
          ensures RightNumbers(t, n, bound)[a] < n + x
        {
          RightNumbersIff(t, n, bound, RightNumbers(t, n, bound)[a]);
        }
      }
    }
  }

  lemma {:induction false} AscendingEntry(p: Position, m: nat, k: nat)
    requires m >= 2 && OnTree(p, m) && k < |Ascending(p, m)|
    ensures var q := Ascending(p, m)[k];
      q.level == p.level && OnTree(q, m) && if k < |LeftTable(p, m)| then q.number < p.number else p.number < q.number
  {
    var l, r, q := LeftTable(p, m), RightTable(p, m), Ascending(p, m)[k];
    if k < |l| {
      assert q == l[|l| - 1 - k] && q in l;
      LeftTableIff(p, m, q);
    } else {
      assert q == r[k - |l|] && q in r;
      RightTableIff(p, m, q);
    }
  }

  lemma {:induction false} SidesIncrease(p: Position, m: nat)
    requires m >= 2
    ensures forall a, b :: 0 <= a < b < |LeftTable(p, m)| ==> LeftTable(p, m)[a].number > LeftTable(p, m)[b].number
    ensures forall a, b :: 0 <= a < b < |RightTable(p, m)| ==> RightTable(p, m)[a].number < RightTable(p, m)[b].number
  {
    StepsIncreasing((m - 1) * p.level, m);
    LeftNumbersDecrease(RoutingSequence(p.level, m), p.number);
    RightNumbersIncrease(RoutingSequence(p.level, m), p.number, Pow(m, p.level));
  }

  /** The table read from left to right has increasing numbers, first those below, then those above the node's. */
  lemma {:induction false} AscendingIncreases(p: Position, m: nat)
    requires m >= 2 && OnTree(p, m)
    ensures NumbersIncrease(Ascending(p, m), p.level)
    ensures forall k :: 0 <= k < |Ascending(p, m)| ==>
      && OnTree(Ascending(p, m)[k], m)
      && if k < |LeftTable(p, m)| then Ascending(p, m)[k].number < p.number else p.number < Ascending(p, m)[k].number
  {
    var l, r, ps := LeftTable(p, m), RightTable(p, m), Ascending(p, m);
    SidesIncrease(p, m);
    forall k | 0 <= k < |ps|
      ensures ps[k].level == p.level && OnTree(ps[k], m)
      ensures if k < |l| then ps[k].number < p.number else p.number < ps[k].number
    {
      AscendingEntry(p, m, k);
    }
    forall a, b | 0 <= a < b < |ps|
      ensures ps[a].number < ps[b].number
    {
      if b < |l| {
        assert l[|l| - 1 - b].number > l[|l| - 1 - a].number;
      } else if |l| <= a {
        assert r[a - |l|].number < r[b - |l|].number;
      }
    }
  }

  /** The table lists the neighbours of the node, and nothing else. */
  lemma {:induction false} AscendingIff(p: Position, m: nat, q: Position)
    requires m >= 2 && OnTree(p, m)
    ensures q in Ascending(p, m) <==> q in Table(p, m)
  {
    var l, r := LeftTable(p, m), RightTable(p, m);
    if q in l {
      var k :| 0 <= k < |l| && l[k] == q;
      assert Reversed(l)[|l| - 1 - k] == q;
    }
    if q in Reversed(l) {
      var k :| 0 <= k < |l| && Reversed(l)[k] == q;
      assert q == l[|l| - 1 - k];
    }
  }

  /** The list of children holds exactly the positions whose parent is listed. */
  lemma {:induction false} ChildrenOfIff(ps: seq<Position>, m: nat, c: Position)
    requires m >= 2
    ensures c in ChildrenOf(ps, m) <==> c.level > 0 && Parent(c, m) in ps
  {
    if ps != [] {
      var front, last := ps[..|ps| - 1], ps[|ps| - 1];
      assert ps == front + [last];
      ChildrenOfIff(front, m, c);
      ChildIffParent(c, last, m);
    }
  }

  lemma {:induction false} ChildrenDistinct(ps: seq<Position>, m: nat)
    requires m >= 2 && Distinct(ps)
    ensures Distinct(ChildrenOf(ps, m))
  {
    if ps != [] {
      var front, last := ps[..|ps| - 1], ps[|ps| - 1];
      ChildrenDistinct(front, m);
      var cs, own := ChildrenOf(front, m), Children(last, m);
      forall a, b | 0 <= a < |cs| && 0 <= b < |own|
        ensures cs[a] != own[b]
      {
        assert cs[a] in cs;
        ChildrenOfIff(front, m, cs[a]);
        ChildAt(last, m, b);
      }
    }
  }

  /** Children of increasing positions increase. */
  lemma {:induction false} ChildrenIncrease(ps: seq<Position>, m: nat, level: nat)
    requires m >= 2 && NumbersIncrease(ps, level)
    ensures NumbersIncrease(ChildrenOf(ps, m), level + 1)
  {
    if ps != [] {
      var front, last := ps[..|ps| - 1], ps[|ps| - 1];
      ChildrenIncrease(front, m, level);
      var cs := ChildrenOf(front, m);
      forall a | 0 <= a < |cs|
        ensures cs[a].number < last.number * m
      {
        assert cs[a] in cs;
        ChildrenOfIff(front, m, cs[a]);
        var q := Parent(cs[a], m);
        var i :| 0 <= i < |front| && front[i] == q;
        assert ps[i].number < ps[|ps| - 1].number;
        DivBlock(cs[a].number, m, q.number);
        MulMono(q.number + 1, last.number, m);
      }
    }
  }

  lemma {:induction false} ChildrenOfOnTree(ps: seq<Position>, m: nat)
    requires m >= 2 && forall k :: 0 <= k < |ps| ==> OnTree(ps[k], m)
    ensures forall k :: 0 <= k < |ChildrenOf(ps, m)| ==> OnTree(ChildrenOf(ps, m)[k], m)
  {
    forall k | 0 <= k < |ChildrenOf(ps, m)|
      ensures OnTree(ChildrenOf(ps, m)[k], m)
    {
      var c := ChildrenOf(ps, m)[k];
      ChildrenOfIff(ps, m, c);
      var i :| 0 <= i < |ps| && ps[i] == Parent(c, m);
      ChildIffParent(c, ps[i], m);
    }
  }

  /** A table whose positions increase is sorted by horizontal value. */
  lemma {:induction false} TableSorted(s: seq<Node>, ps: seq<Position>, m: nat, level: nat)
    requires m >= 2 && SlotsAt(s, ps, m) && NumbersIncrease(ps, level) && forall k :: 0 <= k < |ps| ==> OnTree(ps[k], m)
    ensures SortedByHorizontal(s)
  {
    forall a, b | 0 <= a < b < |s|
      ensures Horizontal(s[a]) < Horizontal(s[b])
    {
      OrderOnLevel(ps[a], ps[b], m, ROOT_VALUE);
    }
  }

  /** std::sort of nodes with different horizontal values. */
  method SortNodes(nodes: seq<Node>) returns (r: seq<Node>)
    requires forall k :: 0 <= k < |nodes| ==> nodes[k].fanout >= 2
    requires forall a, b :: 0 <= a < b < |nodes| ==> Horizontal(nodes[a]) != Horizontal(nodes[b])
    ensures SortedByHorizontal(r) && SameMembers(r, nodes)
  {
    var value := (n: Node) => if n.fanout >= 2 then Horizontal(n) else 0.0;
    r := Sort(nodes, value);
    forall a | 0 <= a < |r|
      ensures r[a].fanout >= 2 && Horizontal(r[a]) == value(r[a])
    {
      assert r[a] in nodes;
    }
  }

  /** Two sorted tables with the same nodes are the same. */
  lemma {:induction false} SortedUnique(s: seq<Node>, t: seq<Node>)
    requires SortedByHorizontal(s) && SortedByHorizontal(t) && SameMembers(s, t)
    ensures s == t
  {
    forall k | 0 <= k < |s|
      ensures s[k] == t[k]
    {
      SameNodeAt(s, t, k);
    }
  }

  lemma {:induction false} SameNodeAt(s: seq<Node>, t: seq<Node>, k: nat)
    requires SortedByHorizontal(s) && SortedByHorizontal(t) && SameMembers(s, t) && k < |s|
    ensures s[k] == t[k]
    decreases k
  {
    forall h | 0 <= h < k
      ensures s[h] == t[h]
    {
      SameNodeAt(s, t, h);
    }
    assert s[k] in s && t[k] in t;
    var a :| 0 <= a < |t| && t[a] == s[k];
    var b :| 0 <= b < |s| && s[b] == t[k];
    assert k <= a && k <= b;
    assert a == k || b == k;
  }

  /** The empty slots for the positions. */
  function EmptySlots(ps: seq<Position>, m: nat): (s: seq<Node>)
    ensures SlotsAt(s, ps, m)
    ensures |s| == |ps| && forall k :: 0 <= k < |s| ==> s[k] == Empty(ps[k], m)
  {
    seq(|ps|, (k: nat) requires k < |ps| => Empty(ps[k], m))
  }

  /** Appends an empty slot for each position. */
  method AppendSlots(s: seq<Node>, ps: seq<Position>, m: nat) returns (r: seq<Node>)
    ensures r == s + EmptySlots(ps, m)
  {
    r := s;
    for i := 0 to |ps|
      invariant r == s + EmptySlots(ps[..i], m)
    {
      r := r + [Empty(ps[i], m)];
    }
    assert ps[..|ps|] == ps;
  }

  lemma {:induction false} EmptySlotsConcat(ps: seq<Position>, qs: seq<Position>, m: nat)
    ensures EmptySlots(ps + qs, m) == EmptySlots(ps, m) + EmptySlots(qs, m)
  {
  }

  /** One more position in the list adds its slot and the slots of its children. */
  lemma {:induction false} NextSlots(ps: seq<Position>, i: nat, m: nat)
    requires i < |ps|
    ensures EmptySlots(ps[..i + 1], m) == EmptySlots(ps[..i], m) + [Empty(ps[i], m)]
    ensures EmptySlots(ChildrenOf(ps[..i + 1], m), m) ==
      EmptySlots(ChildrenOf(ps[..i], m), m) + EmptySlots(Children(ps[i], m), m)
  {
    assert ps[..i + 1][..i] == ps[..i];
    EmptySlotsConcat(ChildrenOf(ps[..i], m), Children(ps[i], m), m);
  }

  /** Sorting empty slots for distinct positions puts them into the order of the increasing list. */
  method SortSlots(
      slots: seq<Node>, ghost ps: seq<Position>, ghost sorted: seq<Position>, ghost m: nat, ghost level: nat)
    returns (r: seq<Node>)
    requires m >= 2 && slots == EmptySlots(ps, m) && Distinct(ps) && (forall k :: 0 <= k < |ps| ==> OnTree(ps[k], m))
    requires |sorted| == |ps| && (forall q: Position :: q in sorted <==> q in ps) && NumbersIncrease(sorted, level)
    ensures r == EmptySlots(sorted, m)
  {
    forall a, b | 0 <= a < b < |slots|
      ensures Horizontal(slots[a]) != Horizontal(slots[b])
    {
      if Horizontal(slots[a]) == Horizontal(slots[b]) {
        TreeMapperInjective(ps[a], ps[b], m, ROOT_VALUE);
        assert false;
      }
    }
    r := SortNodes(slots);
    ghost var goal := EmptySlots(sorted, m);
    forall k | 0 <= k < |sorted|
      ensures OnTree(sorted[k], m)
    {
      assert sorted[k] in ps;
    }
    TableSorted(goal, sorted, m, level);
    SameEmptySlots(ps, sorted, m);
    SortedUnique(r, goal);
  }

  lemma {:induction false} SameEmptySlots(ps: seq<Position>, qs: seq<Position>, m: nat)
    requires |ps| == |qs| && forall q: Position :: q in ps <==> q in qs
    ensures SameMembers(EmptySlots(ps, m), EmptySlots(qs, m))
  {
    forall n | n in EmptySlots(ps, m)
      ensures n in EmptySlots(qs, m)
    {
      var k :| 0 <= k < |ps| && EmptySlots(ps, m)[k] == n;
      assert ps[k] in qs;
      var j :| 0 <= j < |qs| && qs[j] == ps[k];
      assert EmptySlots(qs, m)[j] == n;
    }
    forall n | n in EmptySlots(qs, m)
      ensures n in EmptySlots(ps, m)
    {
      var k :| 0 <= k < |qs| && EmptySlots(qs, m)[k] == n;
      assert qs[k] in ps;
      var j :| 0 <= j < |ps| && ps[j] == qs[k];
      assert EmptySlots(ps, m)[j] == n;
    }
  }

  lemma {:induction false} TableDistinct(p: Position, m: nat)
    requires m >= 2 && OnTree(p, m)
    ensures Distinct(Table(p, m)) && |Table(p, m)| == |Ascending(p, m)|
    ensures forall k :: 0 <= k < |Table(p, m)| ==> OnTree(Table(p, m)[k], m)
  {
    var l, r, t := LeftTable(p, m), RightTable(p, m), Table(p, m);
    AscendingIncreases(p, m);
    var asc := Ascending(p, m);
    forall k | 0 <= k < |t|
      ensures t[k] == asc[if k < |l| then |l| - 1 - k else k]
    {
    }
  }
}
