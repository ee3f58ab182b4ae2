/** Which nodes a node of a static overlay with N nodes and fanout m has to know. */
module OverlaySpec {
  import opened Positions
  import opened HeapIndex
  import opened RoutingTables
  import opened LinearProjection

  /** y is the parent, a child or a routing table neighbour of x. */
  predicate Close(x: nat, y: nat, m: nat)
    requires m >= 2
  {
    var p, q := AtIndex(x, m), AtIndex(y, m);
    || (p.level > 0 && q == Parent(p, m))
    || (q.level > 0 && p == Parent(q, m))
    || Neighbors(p, q, m)
  }

  /** y is close to x or a neighbour's child of x. */
  predicate Related(x: nat, y: nat, m: nat)
    requires m >= 2
  {
    var p, q := AtIndex(x, m), AtIndex(y, m);
    Close(x, y, m) || (q.level > 0 && Neighbors(p, Parent(q, m), m))
  }

  /** x and y follow each other in the list s. */
  ghost predicate Consecutive(s: seq<nat>, x: nat, y: nat)
  {
    exists k :: 0 <= k < |s| - 1 && ((s[k] == x && s[k + 1] == y) || (s[k] == y && s[k + 1] == x))
  }

  /** x and y are in-order neighbours among the existing nodes. */
  ghost predicate Adjacent(N: nat, m: nat, x: nat, y: nat)
    requires m >= 2
  {
    Consecutive(Projection(N, m, 0), x, y)
  }

  ghost function KnownPeers(N: nat, m: nat, x: nat): set<nat>
    requires m >= 2
  {
    set y | 0 <= y < N && (Related(x, y, m) || Adjacent(N, m, x, y))
  }

  ghost function ClosePeers(N: nat, m: nat, x: nat): set<nat>
    requires m >= 2
  {
    set y | 0 <= y < N && Close(x, y, m)
  }

  /** Parents in heap indices are parents of positions. */
  lemma {:induction false} ParentOfIndex(y: nat, m: nat)
    requires m >= 2
    ensures y > 0 <==> AtIndex(y, m).level > 0
    ensures y > 0 ==> AtIndex(ParentIndex(y, m), m) == Parent(AtIndex(y, m), m)
  {
    var q := AtIndex(y, m);
    ParentIndexIsParent(q, m);
    if y > 0 {
      ParentOnTree(q, m);
      AtIndexOfIndex(Parent(q, m), m);
    }
  }

  lemma {:induction false} AtIndexInjective(x: nat, y: nat, m: nat)
    requires m >= 2
    ensures AtIndex(x, m) == AtIndex(y, m) <==> x == y
  {
  }

  /** Related, in heap indices. */
  lemma {:induction false} RelatedByIndex(x: nat, y: nat, m: nat)
    requires m >= 2
    ensures Close(x, y, m) <==>
      || (x > 0 && y == ParentIndex(x, m))
      || (y > 0 && x == ParentIndex(y, m))
      || Neighbors(AtIndex(x, m), AtIndex(y, m), m)
    ensures Related(x, y, m) <==>
      || Close(x, y, m)
      || (y > 0 && Neighbors(AtIndex(x, m), AtIndex(ParentIndex(y, m), m), m))
  {
    ParentOfIndex(x, m);
    ParentOfIndex(y, m);
    if x > 0 { AtIndexInjective(y, ParentIndex(x, m), m); }
    if y > 0 { AtIndexInjective(x, ParentIndex(y, m), m); }
  }
}

/** The distances in the order in which connectNeighbors tries them: by digit, then by exponent. */
module NeighborSearch {
  import opened Arith
  import opened Positions
  import opened HeapIndex
  import opened RoutingTables

  /** The distance is tried before d * m^j. */
  predicate Tried(distance: nat, d: nat, j: nat, m: nat)
    requires m >= 2
  {
    IsStep(distance, m) && (Digit(distance, m) < d || (Digit(distance, m) == d && Exponent(distance, m) < j))
  }

  /** get_neighbor_distance: d * m^j. */
  function Dist(d: nat, j: nat, m: nat): nat
  {
    if j == 0 then d else m * Dist(d, j - 1, m)
  }

  lemma {:induction false} DistIsProduct(d: nat, j: nat, m: nat)
    ensures Dist(d, j, m) == d * Pow(m, j)
  {
    if j > 0 {
      DistIsProduct(d, j - 1, m);
      MulSwap(m, d, Pow(m, j - 1));
    }
  }

  lemma {:induction false} DistFacts(d: nat, j: nat, m: nat)
    requires m >= 2 && 0 < d < m
    ensures IsStep(Dist(d, j, m), m) && Digit(Dist(d, j, m), m) == d && Exponent(Dist(d, j, m), m) == j
    ensures Dist(d, j, m) > j
  {
    DistIsProduct(d, j, m);
    DigitTimesPowIsStep(d, j, m);
    StepFormUnique(d, j, m);
    PowGrows(m, j);
    MulMono(1, d, Pow(m, j));
  }

  lemma {:induction false} TriedNext(x: nat, d: nat, j: nat, m: nat)
    requires m >= 2 && 0 < d < m
    ensures Tried(x, d, j + 1, m) <==> Tried(x, d, j, m) || x == Dist(d, j, m)
  {
    DistFacts(d, j, m);
    DistIsProduct(d, j, m);
    if Tried(x, d, j + 1, m) { StepForm(x, m); }
  }

  /** Once a digit overruns the bound, larger exponents overrun it too. */
  lemma {:induction false} TriedAll(x: nat, d: nat, j: nat, m: nat, bound: nat)
    requires m >= 2 && 0 < d < m && Dist(d, j, m) > bound && x <= bound
    ensures Tried(x, d, j, m) <==> Tried(x, d + 1, 0, m)
  {
    if IsStep(x, m) && Digit(x, m) == d && j <= Exponent(x, m) {
      DistIsProduct(d, j, m);
      StepForm(x, m);
      PowMono(m, j, Exponent(x, m));
      MulMono(Pow(m, j), Pow(m, Exponent(x, m)), d);
      assert false;
    }
  }

  lemma {:induction false} TriedEnds(x: nat, m: nat)
    requires m >= 2
    ensures !Tried(x, 1, 0, m)
    ensures Tried(x, m, 0, m) <==> IsStep(x, m)
  {
    if IsStep(x, m) { StepForm(x, m); }
  }

  predicate LeftwardTried(i: nat, y: nat, d: nat, j: nat, m: nat)
    requires m >= 2
  {
    y < i && Tried(i - y, d, j, m)
  }

  /** The indices at most `room` to the left of i that were tried before d * m^j. */
  function LeftTried(i: nat, room: nat, d: nat, j: nat, m: nat): set<nat>
    requires m >= 2 && room <= i
  {
    set y | i - room <= y < i && LeftwardTried(i, y, d, j, m)
  }

  /** The indices at most `room` to the right of i that were tried before d * m^j. */
  function RightTried(i: nat, room: nat, d: nat, j: nat, m: nat): set<nat>
    requires m >= 2
  {
    set y | i < y <= i + room && LeftwardTried(y, i, d, j, m)
  }

  lemma {:induction false} LeftNext(i: nat, room: nat, d: nat, j: nat, m: nat)
    requires m >= 2 && 0 < d < m && Dist(d, j, m) <= room <= i
    ensures LeftTried(i, room, d, j + 1, m) == LeftTried(i, room, d, j, m) + {i - Dist(d, j, m)}
  {
    DistFacts(d, j, m);
    forall y: nat
      ensures y in LeftTried(i, room, d, j + 1, m) <==> y in LeftTried(i, room, d, j, m) || y == i - Dist(d, j, m)
    {
      if y < i { TriedNext(i - y, d, j, m); }
    }
  }

  lemma {:induction false} LeftAll(i: nat, room: nat, d: nat, j: nat, m: nat)
    requires m >= 2 && 0 < d < m && Dist(d, j, m) > room && room <= i
    ensures LeftTried(i, room, d, j, m) == LeftTried(i, room, d + 1, 0, m)
  {
    forall y: nat
      ensures y in LeftTried(i, room, d, j, m) <==> y in LeftTried(i, room, d + 1, 0, m)
    {
      if i - room <= y < i { TriedAll(i - y, d, j, m, room); }
    }
  }

  lemma {:induction false} LeftEnds(i: nat, room: nat, m: nat)
    requires m >= 2 && room <= i
    ensures LeftTried(i, room, 1, 0, m) == {}
    ensures forall y :: y in LeftTried(i, room, m, 0, m) <==> i - room <= y < i && IsStep(i - y, m)
  {
    forall y: nat
      ensures y !in LeftTried(i, room, 1, 0, m)
      ensures y in LeftTried(i, room, m, 0, m) <==> i - room <= y < i && IsStep(i - y, m)
    {
      if y < i { TriedEnds(i - y, m); }
    }
  }

  lemma {:induction false} RightNext(i: nat, room: nat, d: nat, j: nat, m: nat)
    requires m >= 2 && 0 < d < m && Dist(d, j, m) <= room
    ensures RightTried(i, room, d, j + 1, m) == RightTried(i, room, d, j, m) + {i + Dist(d, j, m)}
  {
    DistFacts(d, j, m);
    forall y: nat
      ensures y in RightTried(i, room, d, j + 1, m) <==> y in RightTried(i, room, d, j, m) || y == i + Dist(d, j, m)
    {
      if i < y { TriedNext(y - i, d, j, m); }
    }
  }

  lemma {:induction false} RightAll(i: nat, room: nat, d: nat, j: nat, m: nat)
    requires m >= 2 && 0 < d < m && Dist(d, j, m) > room
    ensures RightTried(i, room, d, j, m) == RightTried(i, room, d + 1, 0, m)
  {
    forall y: nat
      ensures y in RightTried(i, room, d, j, m) <==> y in RightTried(i, room, d + 1, 0, m)
    {
      if i < y <= i + room { TriedAll(y - i, d, j, m, room); }
    }
  }

  lemma {:induction false} RightEnds(i: nat, room: nat, m: nat)
    requires m >= 2
    ensures RightTried(i, room, 1, 0, m) == {}
    ensures forall y :: y in RightTried(i, room, m, 0, m) <==> i < y <= i + room && IsStep(y - i, m)
  {
    forall y: nat
      ensures y !in RightTried(i, room, 1, 0, m)
      ensures y in RightTried(i, room, m, 0, m) <==> i < y <= i + room && IsStep(y - i, m)
    {
      if i < y { TriedEnds(y - i, m); }
    }
  }

  /** The loop test of the left search: the candidate is still on the level. */
  lemma {:induction false} LeftOnLevel(i: nat, m: nat, distance: nat)
    requires m >= 2 && distance > 0
    ensures i - distance >= 0 && LevelOf(i - distance, m) == LevelOf(i, m) <==> distance <= AtIndex(i, m).number
  {
    LevelRange(i, m);
    if distance <= AtIndex(i, m).number { LevelUnique(i - distance, m, LevelOf(i, m)); }
    if i - distance >= 0 && LevelOf(i - distance, m) == LevelOf(i, m) { LevelRange(i - distance, m); }
  }

  /** How far the existing nodes of i's level reach to the right of i. */
  function RoomRight(i: nat, N: nat, m: nat): nat
    requires m >= 2 && i < N
  {
    var p := AtIndex(i, m);
    var onLevel := Pow(m, p.level) - 1 - p.number;
    if onLevel <= N - 1 - i then onLevel else N - 1 - i
  }

  lemma {:induction false} RightOnLevel(i: nat, N: nat, m: nat, distance: nat)
    requires m >= 2 && i < N && distance > 0
    ensures LevelOf(i + distance, m) == LevelOf(i, m) && i + distance < N <==> distance <= RoomRight(i, N, m)
  {
    LevelRange(i, m);
    LevelRange(i + distance, m);
    if distance <= RoomRight(i, N, m) { LevelUnique(i + distance, m, LevelOf(i, m)); }
  }

  /** The candidate d * m^j is on the level exactly when its distance fits. */
  lemma {:induction false} LeftTest(i: nat, d: nat, j: nat, m: nat)
    requires m >= 2 && 0 < d < m
    ensures Dist(d, j, m) > j
    ensures var x := i - Dist(d, j, m);
      x >= 0 && LevelOf(x, m) == LevelOf(i, m) <==> Dist(d, j, m) <= AtIndex(i, m).number
  {
    DistFacts(d, j, m);
    LeftOnLevel(i, m, Dist(d, j, m));
  }

  lemma {:induction false} RightTest(i: nat, N: nat, d: nat, j: nat, m: nat)
    requires m >= 2 && 0 < d < m && i < N
    ensures Dist(d, j, m) > j
    ensures var x := i + Dist(d, j, m);
      LevelOf(x, m) == LevelOf(i, m) && x < N <==> Dist(d, j, m) <= RoomRight(i, N, m)
  {
    DistFacts(d, j, m);
    RightOnLevel(i, N, m, Dist(d, j, m));
  }

  /** The neighbours of a node, as the two searches find them. */
  lemma {:induction false} NeighborsByDistance(i: nat, y: nat, N: nat, m: nat)
    requires m >= 2 && i < N
    ensures y < N && Neighbors(AtIndex(i, m), AtIndex(y, m), m) <==>
      || (i - AtIndex(i, m).number <= y < i && IsStep(i - y, m))
      || (i < y <= i + RoomRight(i, N, m) && IsStep(y - i, m))
  {
    if y < i { LeftOnLevel(i, m, i - y); }
    if i < y { RightOnLevel(i, N, m, y - i); }
  }
}

/** NATTER's static build: every node pushes itself into the peer sets of the nodes that need it. */
module NatterBuild {
  import opened Arith
  import opened Positions
  import opened HeapIndex
  import opened RoutingTables
  import opened LinearProjection
  import opened OverlaySpec
  import opened NeighborSearch

  /** `after` is `before` with `what` added to the sets of the nodes in `to`. */
  ghost predicate Pushed(before: seq<set<nat>>, after: seq<set<nat>>, to: set<nat>, what: set<nat>)
  {
    && |after| == |before|
    && forall x :: 0 <= x < |before| ==> after[x] == if x in to then before[x] + what else before[x]
  }

  lemma {:induction false} PushedMore(before: seq<set<nat>>, middle: seq<set<nat>>, after: seq<set<nat>>,
                                      to: set<nat>, more: set<nat>, what: set<nat>)
    requires Pushed(before, middle, to, what) && Pushed(middle, after, more, what)
    ensures Pushed(before, after, to + more, what)
  {
  }

  class NatterManager {
    const N: nat
    const m: nat
    const minhcast: bool
    var peers: seq<set<nat>>

    ghost predicate Valid()
      reads this
    {
      m >= 2 && |peers| == N
    }

    constructor (N: nat, m: nat, minhcast: bool)
      requires m >= 2
      ensures Valid() && this.N == N && this.m == m && this.minhcast == minhcast
      ensures forall x :: 0 <= x < N ==> peers[x] == {}
    {
      this.N, this.m, this.minhcast := N, m, minhcast;
      peers := seq(N, i => {});
    }

    method AddPeer(other: nat, id: nat)
      requires Valid() && other < N
      modifies this
      ensures Valid() && Pushed(old(peers), peers, {other}, {id})
    {
      peers := peers[other := peers[other] + {id}];
    }

    method ConnectParent(i: nat)
      requires Valid() && i < N
      modifies this
      ensures Valid()
      ensures Pushed(old(peers), peers, if i > 0 then {ParentIndex(i, m) as nat} else {}, {i})
    {
      var parent := ParentIndex(i, m);
      if parent >= 0 {
        AddPeer(parent, i);
      }
    }

    method ConnectChildren(i: nat) returns (children: set<nat>)
      requires Valid() && i < N
      modifies this
      ensures Valid()
      ensures children == ChildrenOf(i, N, m)
      ensures Pushed(old(peers), peers, children, {i})
    {
      children := {};
      var first := i * m;
      for j := 1 to m + 1
        invariant Valid()
        invariant children == Siblings(first, j, N)
        invariant Pushed(old(peers), peers, children, {i})
      {
        var child := first + j;
        if child < N {
          ghost var before := peers;
          AddPeer(child, i);
          PushedMore(old(peers), before, peers, children, {child}, {i});
          children := children + {child};
        }
      }
      ChildrenAreBlock(i, N, m);
    }

    /** The inner loop of connectNeighbors to the left: the distances with digit d. */
    method ConnectLeftAtDigit(i: nat, d: nat, found: set<nat>, ghost start: seq<set<nat>>) returns (neighbors: set<nat>)
      requires Valid() && i < N && 0 < d < m
      requires found == LeftTried(i, AtIndex(i, m).number, d, 0, m) && Pushed(start, peers, found, {i})
      modifies this
      ensures Valid()
      ensures neighbors == LeftTried(i, AtIndex(i, m).number, d + 1, 0, m) && Pushed(start, peers, neighbors, {i})
    {
      neighbors := found;
      ghost var room := AtIndex(i, m).number;
      var j: nat := 0;
      var current: int := i - Dist(d, j, m);
      while current >= 0 && LevelOf(current, m) == LevelOf(i, m)
        invariant Valid() && current == i - Dist(d, j, m)
        invariant neighbors == LeftTried(i, room, d, j, m) && Pushed(start, peers, neighbors, {i})
        decreases room - j
      {
        LeftTest(i, d, j, m);
        LeftNext(i, room, d, j, m);
        ghost var before := peers;
        AddPeer(current, i);
        PushedMore(start, before, peers, neighbors, {current}, {i});
        neighbors := neighbors + {current};
        j := j + 1;
        current := i - Dist(d, j, m);
      }
      LeftTest(i, d, j, m);
      LeftAll(i, room, d, j, m);
    }

    /** The left half of connectNeighbors. */
    method ConnectLeftNeighbors(i: nat) returns (neighbors: set<nat>)
      requires Valid() && i < N
      modifies this
      ensures Valid()
      ensures neighbors == LeftTried(i, AtIndex(i, m).number, m, 0, m)
      ensures Pushed(old(peers), peers, neighbors, {i})
    {
      neighbors := {};
      LeftEnds(i, AtIndex(i, m).number, m);
      for d := 1 to m
        invariant Valid()
        invariant neighbors == LeftTried(i, AtIndex(i, m).number, d, 0, m)
        invariant Pushed(old(peers), peers, neighbors, {i})
      {
        neighbors := ConnectLeftAtDigit(i, d, neighbors, old(peers));
      }
    }

    /** The inner loop of connectNeighbors to the right: the distances with digit d. */
    method ConnectRightAtDigit(i: nat, d: nat, found: set<nat>, ghost start: seq<set<nat>>)
      returns (neighbors: set<nat>)
      requires Valid() && i < N && 0 < d < m
      requires found == RightTried(i, RoomRight(i, N, m), d, 0, m) && Pushed(start, peers, found, {i})
      modifies this
      ensures Valid()
      ensures neighbors == RightTried(i, RoomRight(i, N, m), d + 1, 0, m) && Pushed(start, peers, neighbors, {i})
    {
      neighbors := found;
      ghost var room := RoomRight(i, N, m);
      var j: nat := 0;
      var current: nat := i + Dist(d, j, m);
      while LevelOf(current, m) == LevelOf(i, m) && current < N
        invariant Valid() && current == i + Dist(d, j, m)
        invariant neighbors == RightTried(i, room, d, j, m) && Pushed(start, peers, neighbors, {i})
        decreases room - j
      {
        RightTest(i, N, d, j, m);
        RightNext(i, room, d, j, m);
        ghost var before := peers;
        AddPeer(current, i);
        PushedMore(start, before, peers, neighbors, {current}, {i});
        neighbors := neighbors + {current};
        j := j + 1;
        current := i + Dist(d, j, m);
      }
      RightTest(i, N, d, j, m);
      RightAll(i, room, d, j, m);
    }

    /** The right half of connectNeighbors. */
    method ConnectRightNeighbors(i: nat) returns (neighbors: set<nat>)
      requires Valid() && i < N
      modifies this
      ensures Valid()
      ensures neighbors == RightTried(i, RoomRight(i, N, m), m, 0, m)
      ensures Pushed(old(peers), peers, neighbors, {i})
    {
      neighbors := {};
      RightEnds(i, RoomRight(i, N, m), m);
      for d := 1 to m
        invariant Valid()
        invariant neighbors == RightTried(i, RoomRight(i, N, m), d, 0, m)
        invariant Pushed(old(peers), peers, neighbors, {i})
      {
        neighbors := ConnectRightAtDigit(i, d, neighbors, old(peers));
      }
    }

    /** connectNeighbors. */
    method ConnectNeighbors(i: nat) returns (neighbors: set<nat>)
      requires Valid() && i < N
      modifies this
      ensures Valid()
      ensures neighbors == NeighborsOf(i, N, m)
      ensures Pushed(old(peers), peers, neighbors, {i})
    {
      var left := ConnectLeftNeighbors(i);
      ghost var before := peers;
      var right := ConnectRightNeighbors(i);
      PushedMore(old(peers), before, peers, left, right, {i});
      neighbors := left + right;
      LeftEnds(i, AtIndex(i, m).number, m);
      RightEnds(i, RoomRight(i, N, m), m);
      forall y: nat
        ensures y in neighbors <==> y in NeighborsOf(i, N, m)
      {
        NeighborsByDistance(i, y, N, m);
      }
    }

    /** connectAdjacents. */
    method ConnectAdjacents(i: nat, proj: seq<nat>)
      requires Valid() && i in proj && forall x :: x in proj ==> x < N
      requires forall a, b :: 0 <= a < b < |proj| ==> proj[a] != proj[b]
      modifies this
      ensures Valid() && Pushed(old(peers), peers, BesideInList(proj, i), {i})
    {
      var k: nat := 0;
      while proj[k] != i
        invariant k < |proj| && i !in proj[..k]
        decreases |proj| - k
      {
        assert i in proj[k + 1..];
        k := k + 1;
      }
      assert forall h :: 0 <= h < |proj| ==> proj[h] in proj;
      if k > 0 {
        AddPeer(proj[k - 1], i);
      }
      ghost var before := peers;
      if k + 1 < |proj| {
        AddPeer(proj[k + 1], i);
      }
      BesideAt(proj, i, k);
      PushedMore(old(peers), before, peers, if k > 0 then {proj[k - 1]} else {},
                 if k + 1 < |proj| then {proj[k + 1]} else {}, {i});
    }

    /** connectRoutingTableNeighborChildren. */
    method ConnectNeighborChildren(children: set<nat>, neighbors: set<nat>)
      requires Valid() && forall x :: x in neighbors ==> x < N
      modifies this
      ensures Valid() && Pushed(old(peers), peers, neighbors, children)
    {
      var left := neighbors;
      while left != {}
        invariant left <= neighbors && Valid()
        invariant Pushed(old(peers), peers, neighbors - left, children)
        decreases left
      {
        var neighbor :| neighbor in left;
        ghost var before := peers;
        PushAll(neighbor, children);
        PushedMore(old(peers), before, peers, neighbors - left, {neighbor}, children);
        assert neighbors - left + {neighbor} == neighbors - (left - {neighbor});
        left := left - {neighbor};
      }
      assert neighbors - {} == neighbors;
    }

    /** One turn of the second loop of joinMinhton. */
    method ConnectNode(i: nat, proj: seq<nat>)
      requires Valid() && i < N
      requires i in proj && (forall x :: x in proj ==> x < N)
      requires forall a, b :: 0 <= a < b < |proj| ==> proj[a] != proj[b]
      modifies this
      ensures Valid()
      ensures forall x :: 0 <= x < N ==> peers[x] == old(peers)[x] + PushedTo(x, i, N, m, proj, minhcast)
    {
      ConnectParent(i);
      var children := ConnectChildren(i);
      var neighbors := ConnectNeighbors(i);
      if minhcast {
        ConnectAdjacents(i, proj);
        ConnectNeighborChildren(children, neighbors);
      }
    }

    /** joinMinhton. */
    method JoinMinhton()
      requires Valid() && N >= 1 && forall x :: 0 <= x < N ==> peers[x] == {}
      modifies this
      ensures Valid()
      ensures forall x :: 0 <= x < N ==> peers[x] == if minhcast then KnownPeers(N, m, x) else ClosePeers(N, m, x)
    {
      var proj := CreateLinearProjection(N, m, 0);
      ProjectionInOrder(N, m, 1.0);
      for i := 0 to N
        invariant Valid()
        invariant forall x :: 0 <= x < N ==> peers[x] == KnownAfter(x, i, N, m, proj, minhcast)
      {
        ConnectNode(i, proj);
        forall x | 0 <= x < N
          ensures peers[x] == KnownAfter(x, i + 1, N, m, proj, minhcast)
        {
          KnownStep(x, i, N, m, proj, minhcast);
        }
      }
      forall x | 0 <= x < N
        ensures peers[x] == if minhcast then KnownPeers(N, m, x) else ClosePeers(N, m, x)
      {
        KnownInTheEnd(x, N, m, minhcast);
      }
    }

    method PushAll(neighbor: nat, children: set<nat>)
      requires Valid() && neighbor < N
      modifies this
      ensures Valid() && Pushed(old(peers), peers, {neighbor}, children)
    {
      var left := children;
      while left != {}
        invariant left <= children && Valid()
        invariant Pushed(old(peers), peers, {neighbor}, children - left)
        decreases left
      {
        var child :| child in left;
        AddPeer(neighbor, child);
        left := left - {child};
      }
    }
  }

  predicate Within(y: int, first: int, j: int)
  {
    first < y < first + j
  }

  /** The existing children with offsets below j. */
  function Siblings(first: nat, j: nat, N: nat): set<nat>
  {
    set y | 0 <= y < N && Within(y, first, j)
  }

  ghost function ChildrenOf(i: nat, N: nat, m: nat): set<nat>
    requires m >= 2
  {
    set y | 0 < y < N && ParentIndex(y, m) == i
  }

  ghost function NeighborsOf(i: nat, N: nat, m: nat): set<nat>
    requires m >= 2
  {
    set y | 0 <= y < N && Neighbors(AtIndex(i, m), AtIndex(y, m), m)
  }

  lemma {:induction false} ChildrenAreBlock(i: nat, N: nat, m: nat)
    requires m >= 2
    ensures ChildrenOf(i, N, m) == Siblings(i * m, m + 1, N)
  {
    forall y: nat
      ensures 0 < y < N && ParentIndex(y, m) == i <==> y < N && Within(y, i * m, m + 1)
    {
      if 0 < y < N {
        DivBlock(y - 1, m, i);
        assert (i + 1) * m == i * m + m;
      }
    }
  }

  /** The entries next to i in a list. */
  ghost function BesideInList(s: seq<nat>, i: nat): set<nat>
  {
    set y | y in s && Consecutive(s, i, y)
  }

  lemma {:induction false} BesideAt(s: seq<nat>, i: nat, k: nat)
    requires k < |s| && s[k] == i && forall a, b :: 0 <= a < b < |s| ==> s[a] != s[b]
    ensures BesideInList(s, i) == (if k > 0 then {s[k - 1]} else {}) + (if k + 1 < |s| then {s[k + 1]} else {})
  {
    if k > 0 { assert s[k - 1 + 1] == i; assert Consecutive(s, i, s[k - 1]); }
    if k + 1 < |s| { assert Consecutive(s, i, s[k + 1]); }
  }

  /** i pushes itself to x: as child, parent or neighbour, and in mode minhcast as adjacent. */
  ghost predicate PushesItself(x: nat, i: nat, m: nat, proj: seq<nat>, minhcast: bool)
    requires m >= 2
  {
    || (i > 0 && x == ParentIndex(i, m))
    || (x > 0 && ParentIndex(x, m) == i)
    || Neighbors(AtIndex(i, m), AtIndex(x, m), m)
    || (minhcast && x in proj && Consecutive(proj, i, x))
  }

  /** What node i pushes into the peer set of node x; only in mode minhcast also its children. */
  ghost function PushedTo(x: nat, i: nat, N: nat, m: nat, proj: seq<nat>, minhcast: bool): set<nat>
    requires m >= 2
  {
    (if PushesItself(x, i, m, proj, minhcast) then {i} else {}) +
    (if minhcast && Neighbors(AtIndex(i, m), AtIndex(x, m), m) then ChildrenOf(i, N, m) else {})
  }

  ghost predicate PushedBefore(x: nat, y: nat, i: nat, m: nat, proj: seq<nat>, minhcast: bool)
    requires m >= 2
  {
    || (y < i && PushesItself(x, y, m, proj, minhcast))
    || (&& minhcast && 0 < y && ParentIndex(y, m) < i
        && Neighbors(AtIndex(ParentIndex(y, m), m), AtIndex(x, m), m))
  }

  /** What node x knows after the nodes before i have been connected. */
  ghost function KnownAfter(x: nat, i: nat, N: nat, m: nat, proj: seq<nat>, minhcast: bool): set<nat>
    requires m >= 2
  {
    set y | 0 <= y < N && PushedBefore(x, y, i, m, proj, minhcast)
  }

  lemma {:induction false} PushedStep(x: nat, y: nat, i: nat, N: nat, m: nat, proj: seq<nat>, minhcast: bool)
    requires m >= 2 && y < N
    ensures PushedBefore(x, y, i + 1, m, proj, minhcast) <==>
      PushedBefore(x, y, i, m, proj, minhcast) || y in PushedTo(x, i, N, m, proj, minhcast)
  {
    assert y in ChildrenOf(i, N, m) <==> 0 < y && ParentIndex(y, m) == i;
  }

  lemma {:induction false} KnownStep(x: nat, i: nat, N: nat, m: nat, proj: seq<nat>, minhcast: bool)
    requires m >= 2 && i < N
    ensures KnownAfter(x, i + 1, N, m, proj, minhcast) ==
      KnownAfter(x, i, N, m, proj, minhcast) + PushedTo(x, i, N, m, proj, minhcast)
  {
    forall y: nat | y < N
      ensures PushedBefore(x, y, i + 1, m, proj, minhcast) <==>
        PushedBefore(x, y, i, m, proj, minhcast) || y in PushedTo(x, i, N, m, proj, minhcast)
    {
      PushedStep(x, y, i, N, m, proj, minhcast);
    }
  }

  lemma {:induction false} KnownInTheEnd(x: nat, N: nat, m: nat, minhcast: bool)
    requires m >= 2 && x < N
    ensures KnownAfter(x, N, N, m, Projection(N, m, 0), minhcast) ==
      if minhcast then KnownPeers(N, m, x) else ClosePeers(N, m, x)
  {
    ProjectionInOrder(N, m, 1.0);
    var known := KnownAfter(x, N, N, m, Projection(N, m, 0), minhcast);
    forall y: nat
      ensures y in known <==> y in if minhcast then KnownPeers(N, m, x) else ClosePeers(N, m, x)
    {
      RelatedByIndex(x, y, m);
      if y < N { assert x in Projection(N, m, 0); }
    }
  }
}

/** MINHTON's static build: every node pulls its neighbours together, then a sort finds the adjacents. */
module MinhtonBuild {
  import opened Arith
  import opened Results
  import opened Positions
  import opened InOrderMap
  import opened HeapIndex
  import opened RoutingTables
  import opened LinearProjection
  import opened OverlaySpec
  import opened Sorting
  import NatterBuild

  /** A node: its place in the node container and its position. */
  datatype Node = Node(id: nat, position: Position)

  /** e is one of the N nodes, with the position of its level-order index. */
  predicate IsNode(e: Node, N: nat, m: nat)
    requires m >= 2
  {
    e.id < N && e.position == AtIndex(e.id, m)
  }

  ghost predicate AllPlaced(nodes: seq<Node>, m: nat)
    requires m >= 2
  {
    forall x :: 0 <= x < |nodes| ==> nodes[x] == Node(x, AtIndex(x, m))
  }

  /** The first pass of executeStaticNetworkBuild: positions from left to right, level by level. */
  method AssignPositions(N: nat, m: nat) returns (nodes: seq<Node>)
    requires m >= 2
    ensures |nodes| == N && AllPlaced(nodes, m)
  {
    nodes := seq(N, (i: nat) => Node(i, Position(0, 0)));
    var l: nat := 0;
    var stop := false;
    while !stop
      invariant |nodes| == N && forall x :: 0 <= x < N ==> nodes[x].id == x
      invariant if stop then AllPlaced(nodes, m) else Geo(m, l) <= N && AllPlaced(nodes[..Geo(m, l)], m)
      decreases !stop, N - Geo(m, l)
    {
      var n: nat := 0;
      PowPositive(m, l);
      while n < Pow(m, l) && !stop
        invariant n <= Pow(m, l) && |nodes| == N && forall x :: 0 <= x < N ==> nodes[x].id == x
        invariant if stop then AllPlaced(nodes, m) else Geo(m, l) + n <= N && AllPlaced(nodes[..Geo(m, l) + n], m)
        decreases !stop, Pow(m, l) - n
      {
        var i := CalcIndex(Position(l, n), m);
        AtIndexOfIndex(Position(l, n), m);
        if i > N - 1 {
          assert nodes[..N] == nodes;
          stop := true;
        } else {
          nodes := nodes[i := nodes[i].(position := Position(l, n))];
          n := n + 1;
        }
      }
      l := l + 1;
    }
  }

  /** Appends the nodes at those positions that exist. */
  method AddExisting(list: seq<Node>, ps: seq<Position>, nodes: seq<Node>, m: nat) returns (r: seq<Node>)
    requires m >= 2 && AllPlaced(nodes, m) && forall p :: p in ps ==> OnTree(p, m)
    ensures forall e: Node :: e in r <==> e in list || (IsNode(e, |nodes|, m) && e.position in ps)
  {
    r := list;
    for k := 0 to |ps|
      invariant forall e: Node :: e in r <==> e in list || (IsNode(e, |nodes|, m) && e.position in ps[..k])
    {
      var index := CalcIndex(ps[k], m);
      assert ps[k] in ps;
      AtIndexOfIndex(ps[k], m);
      if index < |nodes| {
        r := r + [nodes[index]];
      }
    }
  }

  /** The position is in the table or the child of an entry. */
  predicate InTable(q: Position, table: seq<Position>, m: nat)
    requires m >= 2
  {
    q in table || (q.level > 0 && Parent(q, m) in table)
  }

  /** One entry of the routing table: the neighbour, if it exists, and its existing children. */
  method AddTableEntry(list: seq<Node>, p: Position, nodes: seq<Node>, m: nat) returns (r: seq<Node>)
    requires PositionValid(p, m) && AllPlaced(nodes, m)
    ensures forall e: Node :: e in r <==> e in list || (IsNode(e, |nodes|, m) && InTable(e.position, [p], m))
  {
    r := list;
    var index := CalcIndex(p, m);
    AtIndexOfIndex(p, m);
    if index < |nodes| {
      r := r + [nodes[index]];
      var children := CalcChildren(p, m);
      ChildrenOnTree(p, m);
      r := AddExisting(r, children.value, nodes, m);
    }
    forall e: Node
      ensures e in r <==> e in list || (IsNode(e, |nodes|, m) && InTable(e.position, [p], m))
    {
      ChildIffParent(e.position, p, m);
      ChildExists(e.id, p, |nodes|, m);
    }
  }

  method AddTable(list: seq<Node>, table: seq<Position>, nodes: seq<Node>, m: nat) returns (r: seq<Node>)
    requires FanoutValid(m) && AllPlaced(nodes, m) && forall p :: p in table ==> OnTree(p, m)
    ensures forall e: Node :: e in r <==> e in list || (IsNode(e, |nodes|, m) && InTable(e.position, table, m))
  {
    r := list;
    for k := 0 to |table|
      invariant forall e: Node :: e in r <==> e in list || (IsNode(e, |nodes|, m) && InTable(e.position, table[..k], m))
    {
      assert table[k] in table;
      r := AddTableEntry(r, table[k], nodes, m);
      assert table[..k + 1] == table[..k] + [table[k]];
    }
  }

  lemma {:induction false} ChildrenOnTree(p: Position, m: nat)
    requires m >= 2 && OnTree(p, m)
    ensures forall c :: c in Children(p, m) ==> OnTree(c, m)
  {
    forall c | c in Children(p, m)
      ensures OnTree(c, m)
    {
      ChildIffParent(c, p, m);
    }
  }

  /** In level order a child exists only if its parent does. */
  lemma {:induction false} ChildExists(y: nat, p: Position, N: nat, m: nat)
    requires m >= 2 && OnTree(p, m)
    ensures var q := AtIndex(y, m); y < N && q.level > 0 && Parent(q, m) == p ==> Index(p, m) < N
  {
    ParentOfIndex(y, m);
  }

  /** The neighbour list of one node: parent, children, table neighbours and their children. */
  method NeighborList(p: Position, nodes: seq<Node>, m: nat) returns (list: seq<Node>)
    requires PositionValid(p, m) && AllPlaced(nodes, m)
    ensures forall e: Node :: e in list <==> IsNode(e, |nodes|, m) && Related(Index(p, m), e.id, m)
  {
    list := [];
    if p.level > 0 {
      var parent := CalcParent(p, m);
      list := AddExisting(list, [parent.value], nodes, m);
    }
    var children := CalcChildren(p, m);
    ChildrenOnTree(p, m);
    list := AddExisting(list, children.value, nodes, m);
    var left := CalcLeftRT(p, m);
    var right := CalcRightRT(p, m);
    var table := left.value + right.value;
    forall q | q in table
      ensures OnTree(q, m)
    {
      TableIff(p, m, q);
    }
    list := AddTable(list, table, nodes, m);
    forall e: Node | IsNode(e, |nodes|, m)
      ensures e in list <==> Related(Index(p, m), e.id, m)
    {
      RelatedByTable(p, e.position, m);
      AtIndexOfIndex(p, m);
    }
  }

  /** The four kinds of neighbours, as the four parts of the list. */
  lemma {:induction false} RelatedByTable(p: Position, q: Position, m: nat)
    requires m >= 2 && OnTree(p, m) && OnTree(q, m)
    ensures q in Children(p, m) <==> q.level > 0 && p == Parent(q, m)
    ensures InTable(q, Table(p, m), m) <==> Neighbors(p, q, m) || (q.level > 0 && Neighbors(p, Parent(q, m), m))
  {
    ChildIffParent(q, p, m);
    TableIff(p, m, q);
    if q.level > 0 {
      ParentOnTree(q, m);
      TableIff(p, m, Parent(q, m));
    }
  }

  /** Every node has exactly its relatives in its list. */
  ghost predicate ListsDone(lists: seq<seq<Node>>, k: nat, N: nat, m: nat)
    requires m >= 2
  {
    && k <= |lists|
    && forall x, e: Node :: 0 <= x < k ==> (e in lists[x] <==> IsNode(e, N, m) && Related(x, e.id, m))
  }

  /** The second pass of executeStaticNetworkBuild: neighbour lists, level by level. */
  method CollectNeighbors(nodes: seq<Node>, m: nat) returns (lists: seq<seq<Node>>)
    requires FanoutValid(m) && AllPlaced(nodes, m)
    ensures |lists| == |nodes| && ListsDone(lists, |nodes|, |nodes|, m)
  {
    var N := |nodes|;
    lists := seq(N, i => []);
    var l: nat := 0;
    var stop := false;
    while !stop
      invariant |lists| == N
      invariant if stop then ListsDone(lists, N, N, m) else Geo(m, l) <= N && ListsDone(lists, Geo(m, l), N, m)
      decreases !stop, N - Geo(m, l)
    {
      var n: nat := 0;
      PowPositive(m, l);
      while n < Pow(m, l) && !stop
        invariant n <= Pow(m, l) && |lists| == N
        invariant if stop then ListsDone(lists, N, N, m)
          else Geo(m, l) + n <= N && ListsDone(lists, Geo(m, l) + n, N, m)
        decreases !stop, Pow(m, l) - n
      {
        var i := CalcIndex(Position(l, n), m);
        AtIndexOfIndex(Position(l, n), m);
        if i > N - 1 {
          stop := true;
        } else {
          var list := NeighborList(Position(l, n), nodes, m);
          lists := lists[i := list];
          n := n + 1;
        }
      }
      l := l + 1;
    }
  }

  ghost predicate SortedByHorizontal(s: seq<Node>, m: nat)
    requires m >= 2
  {
    forall a, b :: 0 <= a < b < |s| ==> HorizontalValue(s[a], m) < HorizontalValue(s[b], m)
  }

  function HorizontalValue(e: Node, m: nat): real
    requires m >= 2
  {
    TreeMapper(e.position, m, ROOT_VALUE)
  }

  /** std::sort by horizontal value, on nodes that arrive in any order. */
  method SortNodes(nodes: seq<Node>, m: nat) returns (r: seq<Node>)
    requires m >= 2
    requires forall a, b :: 0 <= a < b < |nodes| ==> HorizontalValue(nodes[a], m) != HorizontalValue(nodes[b], m)
    ensures SortedByHorizontal(r, m) && SameMembers(r, nodes)
  {
    var value := (e: Node) => HorizontalValue(e, m);
    r := Sort(nodes, value);
    forall a, b | 0 <= a < b < |r|
      ensures HorizontalValue(r[a], m) < HorizontalValue(r[b], m)
    {
      assert value(r[a]) < value(r[b]);
    }
  }

  function LeftOf(s: seq<Node>, k: nat): Option<Node>
    requires k < |s|
  {
    if k > 0 then Some(s[k - 1]) else None
  }

  function RightOf(s: seq<Node>, k: nat): Option<Node>
    requires k < |s|
  {
    if k + 1 < |s| then Some(s[k + 1]) else None
  }

  /** Every node of a list occurs once, under its own place. */
  ghost predicate DistinctIds(s: seq<Node>)
  {
    && (forall k :: 0 <= k < |s| ==> s[k].id < |s|)
    && (forall a, b :: 0 <= a < b < |s| ==> s[a].id != s[b].id)
  }

  /** The two slots of the k-th node of the list hold l and r. */
  ghost predicate Slots(left: seq<Option<Node>>, right: seq<Option<Node>>, s: seq<Node>, k: nat,
                        l: Option<Node>, r: Option<Node>)
  {
    k < |s| && s[k].id < |left| == |right| && left[s[k].id] == l && right[s[k].id] == r
  }

  /** The inner nodes of the list before the k-th have both adjacents, the other nodes none. */
  ghost predicate SetBefore(left: seq<Option<Node>>, right: seq<Option<Node>>, s: seq<Node>, k: nat, j: nat)
    requires j < |s|
  {
    if 1 <= j < k then Slots(left, right, s, j, LeftOf(s, j), RightOf(s, j)) else Slots(left, right, s, j, None, None)
  }

  /** The last part of executeStaticNetworkBuild: neighbours in the sorted list become adjacents. */
  method SetAdjacents(s: seq<Node>) returns (left: seq<Option<Node>>, right: seq<Option<Node>>)
    requires |s| >= 2 && DistinctIds(s)
    ensures |left| == |right| == |s|
    ensures forall k :: 0 <= k < |s| ==> Slots(left, right, s, k, LeftOf(s, k), RightOf(s, k))
  {
    left := seq(|s|, i => None);
    right := seq(|s|, i => None);
    for k := 1 to |s| - 1
      invariant |left| == |right| == |s|
      invariant forall j :: 0 <= j < |s| ==> SetBefore(left, right, s, k, j)
    {
      ghost var l, r, next := left, right, k + 1;
      left := left[s[k].id := Some(s[k - 1])];
      right := right[s[k].id := Some(s[k + 1])];
      forall j | 0 <= j < |s|
        ensures SetBefore(left, right, s, next, j)
      {
        assert SetBefore(l, r, s, k, j);
        if j != k { assert s[j].id != s[k].id; }
      }
    }
    ghost var l, r, last := left, right, |s| - 1;
    right := right[s[0].id := Some(s[1])];
    left := left[s[|s| - 1].id := Some(s[|s| - 2])];
    forall k | 0 <= k < |s|
      ensures Slots(left, right, s, k, LeftOf(s, k), RightOf(s, k))
    {
      assert SetBefore(l, r, s, last, k);
      assert k != 0 ==> s[k].id != s[0].id;
      assert k != last ==> s[k].id != s[last].id;
    }
  }

  /** Different nodes have different horizontal values. */
  lemma {:induction false} PlacedValuesDiffer(nodes: seq<Node>, m: nat)
    requires m >= 2 && AllPlaced(nodes, m)
    ensures forall a, b :: 0 <= a < b < |nodes| ==> HorizontalValue(nodes[a], m) != HorizontalValue(nodes[b], m)
  {
    forall a, b | 0 <= a < b < |nodes|
      ensures HorizontalValue(nodes[a], m) != HorizontalValue(nodes[b], m)
    {
      if HorizontalValue(nodes[a], m) == HorizontalValue(nodes[b], m) {
        TreeMapperInjective(AtIndex(a, m), AtIndex(b, m), m, ROOT_VALUE);
        assert false;
      }
    }
  }

  function Ids(s: seq<Node>): (ids: seq<nat>)
    ensures |ids| == |s| && forall k :: 0 <= k < |s| ==> ids[k] == s[k].id
  {
    seq(|s|, (k: nat) requires k < |s| => s[k].id)
  }

  /** Sorting the nodes by horizontal value gives NATTER's linear projection. */
  lemma {:induction false} SortedIsProjection(nodes: seq<Node>, s: seq<Node>, m: nat)
    requires m >= 2 && |nodes| >= 1 && AllPlaced(nodes, m) && SortedByHorizontal(s, m) && SameMembers(s, nodes)
    ensures Ids(s) == Projection(|nodes|, m, 0) && DistinctIds(s)
    ensures forall k :: 0 <= k < |s| ==> s[k] == Node(Ids(s)[k], AtIndex(Ids(s)[k], m))
  {
    var ids, N := Ids(s), |nodes|;
    forall k | 0 <= k < |s|
      ensures ids[k] < N && s[k] == Node(ids[k], AtIndex(ids[k], m))
    {
      assert s[k] in s;
      assert s[k] in nodes;
    }
    forall x: nat
      ensures x in ids <==> x < N
    {
      if x < N {
        assert nodes[x] in nodes;
        assert nodes[x] in s;
        var k :| 0 <= k < |s| && s[k] == nodes[x];
        assert ids[k] == x;
      }
    }
    assert SortedByValue(ids, m, ROOT_VALUE) by {
      forall a, b | 0 <= a < b < |ids|
        ensures Value(ids[a], m, ROOT_VALUE) < Value(ids[b], m, ROOT_VALUE)
      {
        assert HorizontalValue(s[a], m) < HorizontalValue(s[b], m);
      }
    }
    ProjectionInOrder(N, m, ROOT_VALUE);
    InOrderUnique(ids, Projection(N, m, 0), N, m, ROOT_VALUE);
    forall a, b | 0 <= a < b < |s|
      ensures s[a].id != s[b].id
    {
      assert Value(ids[a], m, ROOT_VALUE) < Value(ids[b], m, ROOT_VALUE);
    }
  }

  /** Everything executeStaticNetworkBuild hands to one node. */
  datatype Knowledge = Knowledge(neighbors: seq<Node>, left: Option<Node>, right: Option<Node>)

  ghost function NeighborIds(list: seq<Node>): set<nat>
  {
    set e | e in list :: e.id
  }

  /** The nodes that a node gets to know. */
  ghost function Peers(k: Knowledge): set<nat>
  {
    NeighborIds(k.neighbors)
      + (if k.left.Some? then {k.left.value.id} else {})
      + (if k.right.Some? then {k.right.value.id} else {})
  }

  /** What node x is handed: its relatives, and the nearest existing nodes on either side in in-order. */
  ghost predicate Informed(k: Knowledge, x: nat, N: nat, m: nat)
    requires m >= 2
  {
    && (forall e: Node :: e in k.neighbors <==> IsNode(e, N, m) && Related(x, e.id, m))
    && NearestLeft(k.left, x, N, m)
    && NearestRight(k.right, x, N, m)
  }

  /** l is the existing node with the largest value below x's, if there is one. */
  ghost predicate NearestLeft(l: Option<Node>, x: nat, N: nat, m: nat)
    requires m >= 2
  {
    var v := Value(x, m, ROOT_VALUE);
    match l
    case None => forall y: nat :: y < N ==> v <= Value(y, m, ROOT_VALUE)
    case Some(e) =>
      && IsNode(e, N, m) && Value(e.id, m, ROOT_VALUE) < v
      && forall y: nat :: y < N && Value(y, m, ROOT_VALUE) < v ==> Value(y, m, ROOT_VALUE) <= Value(e.id, m, ROOT_VALUE)
  }

  /** r is the existing node with the smallest value above x's, if there is one. */
  ghost predicate NearestRight(r: Option<Node>, x: nat, N: nat, m: nat)
    requires m >= 2
  {
    var v := Value(x, m, ROOT_VALUE);
    match r
    case None => forall y: nat :: y < N ==> Value(y, m, ROOT_VALUE) <= v
    case Some(e) =>
      && IsNode(e, N, m) && v < Value(e.id, m, ROOT_VALUE)
      && forall y: nat :: y < N && v < Value(y, m, ROOT_VALUE) ==> Value(e.id, m, ROOT_VALUE) <= Value(y, m, ROOT_VALUE)
  }

  /** In a sorted list the entries beside an entry are the nearest to it. */
  lemma {:induction false} BesideIsNearest(ids: seq<nat>, m: nat, k: nat, j: nat)
    requires m >= 2 && SortedByValue(ids, m, ROOT_VALUE) && k < |ids| && j < |ids|
    ensures Value(ids[j], m, ROOT_VALUE) < Value(ids[k], m, ROOT_VALUE) ==>
      k > 0 && Value(ids[j], m, ROOT_VALUE) <= Value(ids[k - 1], m, ROOT_VALUE)
    ensures Value(ids[k], m, ROOT_VALUE) < Value(ids[j], m, ROOT_VALUE) ==>
      k + 1 < |ids| && Value(ids[k + 1], m, ROOT_VALUE) <= Value(ids[j], m, ROOT_VALUE)
  {
  }

  lemma {:induction false} ListNeighborsNearest(s: seq<Node>, N: nat, m: nat, k: nat)
    requires m >= 2 && N >= 1 && k < |s| && Ids(s) == Projection(N, m, 0)
    requires forall j :: 0 <= j < |s| ==> s[j] == Node(Ids(s)[j], AtIndex(Ids(s)[j], m))
    ensures NearestLeft(LeftOf(s, k), s[k].id, N, m) && NearestRight(RightOf(s, k), s[k].id, N, m)
  {
    var ids := Ids(s);
    ProjectionInOrder(N, m, ROOT_VALUE);
    assert forall j :: 0 <= j < |ids| ==> ids[j] in ids;
    forall y: nat | y < N
      ensures Value(y, m, ROOT_VALUE) < Value(ids[k], m, ROOT_VALUE) ==>
        k > 0 && Value(y, m, ROOT_VALUE) <= Value(ids[k - 1], m, ROOT_VALUE)
      ensures Value(ids[k], m, ROOT_VALUE) < Value(y, m, ROOT_VALUE) ==>
        k + 1 < |ids| && Value(ids[k + 1], m, ROOT_VALUE) <= Value(y, m, ROOT_VALUE)
    {
      assert y in ids;
      var j :| 0 <= j < |ids| && ids[j] == y;
      BesideIsNearest(ids, m, k, j);
    }
  }

  /** Being informed is knowing exactly the required peers. */
  lemma {:induction false} InformedPeers(k: Knowledge, s: seq<Node>, x: nat, at: nat, N: nat, m: nat)
    requires m >= 2 && N >= 1 && x < N && Informed(k, x, N, m)
    requires Ids(s) == Projection(N, m, 0) && at < |s| && s[at].id == x
    requires k.left == LeftOf(s, at) && k.right == RightOf(s, at)
    ensures Peers(k) == KnownPeers(N, m, x)
  {
    RelativeIds(k.neighbors, x, N, m);
    AdjacentIds(s, at, N, m);
    assert Peers(k) == NeighborIds(k.neighbors) + NatterBuild.BesideInList(Projection(N, m, 0), x);
    KnownSplit(x, N, m);
  }

  lemma {:induction false} KnownSplit(x: nat, N: nat, m: nat)
    requires m >= 2 && N >= 1
    ensures KnownPeers(N, m, x) ==
      (set y | 0 <= y < N && Related(x, y, m)) + NatterBuild.BesideInList(Projection(N, m, 0), x)
  {
    ProjectionInOrder(N, m, ROOT_VALUE);
  }

  lemma {:induction false} RelativeIds(list: seq<Node>, x: nat, N: nat, m: nat)
    requires m >= 2 && forall e: Node :: e in list <==> IsNode(e, N, m) && Related(x, e.id, m)
    ensures NeighborIds(list) == set y | 0 <= y < N && Related(x, y, m)
  {
    forall y: nat | y < N && Related(x, y, m)
      ensures y in NeighborIds(list)
    {
      assert Node(y, AtIndex(y, m)) in list;
    }
  }

  lemma {:induction false} AdjacentIds(s: seq<Node>, at: nat, N: nat, m: nat)
    requires m >= 2 && N >= 1 && Ids(s) == Projection(N, m, 0) && at < |s|
    ensures NatterBuild.BesideInList(Projection(N, m, 0), s[at].id)
         == (if LeftOf(s, at).Some? then {LeftOf(s, at).value.id} else {})
          + (if RightOf(s, at).Some? then {RightOf(s, at).value.id} else {})
  {
    ProjectionInOrder(N, m, ROOT_VALUE);
    SortedDistinct(Ids(s), m);
    NatterBuild.BesideAt(Ids(s), s[at].id, at);
  }

  lemma {:induction false} SortedDistinct(ids: seq<nat>, m: nat)
    requires m >= 2 && SortedByValue(ids, m, ROOT_VALUE)
    ensures forall a, b :: 0 <= a < b < |ids| ==> ids[a] != ids[b]
  {
    forall a, b | 0 <= a < b < |ids|
      ensures ids[a] != ids[b]
    {
      assert Value(ids[a], m, ROOT_VALUE) < Value(ids[b], m, ROOT_VALUE);
    }
  }

  lemma {:induction false} HandedOut(
      k: Knowledge, lists: seq<seq<Node>>, left: seq<Option<Node>>, right: seq<Option<Node>>,
      nodes: seq<Node>, s: seq<Node>, x: nat, m: nat)
    requires m >= 2 && x < |nodes| && AllPlaced(nodes, m) && SortedByHorizontal(s, m) && SameMembers(s, nodes)
    requires |lists| == |nodes| && ListsDone(lists, |nodes|, |nodes|, m)
    requires |left| == |right| == |s|
    requires forall j :: 0 <= j < |s| ==> Slots(left, right, s, j, LeftOf(s, j), RightOf(s, j))
    requires k == Knowledge(lists[x], left[x], right[x])
    ensures Informed(k, x, |nodes|, m) && Peers(k) == KnownPeers(|nodes|, m, x)
  {
    var N := |nodes|;
    SortedIsProjection(nodes, s, m);
    ProjectionComplete(N, m, x);
    assert x in Ids(s);
    var at :| 0 <= at < |s| && Ids(s)[at] == x;
    assert Slots(left, right, s, at, LeftOf(s, at), RightOf(s, at));
    ListNeighborsNearest(s, N, m, at);
    InformedPeers(k, s, x, at, N, m);
  }

  /** executeStaticNetworkBuild for a root and `number` further nodes. */
  method ExecuteStaticNetworkBuild(number: nat, m: nat) returns (info: seq<Knowledge>)
    requires FanoutValid(m) && number >= 1
    ensures |info| == number + 1
    ensures forall x :: 0 <= x <= number ==> Informed(info[x], x, number + 1, m)
    ensures forall x :: 0 <= x <= number ==> Peers(info[x]) == KnownPeers(number + 1, m, x)
  {
    var N := number + 1;
    var nodes := AssignPositions(N, m);
    var lists := CollectNeighbors(nodes, m);
    PlacedValuesDiffer(nodes, m);
    var sorted := SortNodes(nodes, m);
    SortedIsProjection(nodes, sorted, m);
    var left, right := SetAdjacents(sorted);
    info := [];
    for x := 0 to N
      invariant |info| == x
      invariant forall y :: 0 <= y < x ==> Informed(info[y], y, N, m) && Peers(info[y]) == KnownPeers(N, m, y)
    {
      var k := Knowledge(lists[x], left[x], right[x]);
      HandedOut(k, lists, left, right, nodes, sorted, x, m);
      info := info + [k];
    }
  }
}

/** Both static builds of one network, side by side. */
module StaticBuilds {
  import opened Positions
  import opened NatterBuild
  import opened MinhtonBuild

  /** In mode minhcast NATTER's pushed peer sets and MINHTON's pulled neighbours are the same overlay. */
  method BuildBoth(number: nat, m: nat) returns (natter: seq<set<nat>>, minhton: seq<Knowledge>)
    requires FanoutValid(m) && number >= 1
    ensures |natter| == |minhton| == number + 1
    ensures forall x :: 0 <= x <= number ==> natter[x] == Peers(minhton[x])
  {
    var manager := new NatterManager(number + 1, m, true);
    manager.JoinMinhton();
    natter := manager.peers;
    minhton := ExecuteStaticNetworkBuild(number, m);
  }
}
