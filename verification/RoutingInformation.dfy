/** The routing information object: every method does to the object what its call does to the state. */
module RoutingInformation {
  import opened Arith
  import opened Results
  import opened Positions
  import opened RoutingTables
  import opened NodeTables
  import opened RoutingState
  import opened RoutingAnswers
  import opened RoutingLists
  import opened Sorting

  // ----- updateNeighbor and removeNeighbor as sequences of smaller calls -----

  function AdjacentsUpdated(t: Info, n: Node): Info
  {
    if SameLogical(t.left, n) then Apply(t, SetLeft(n))
    else if SameLogical(t.right, n) then Apply(t, SetRight(n))
    else t
  }

  function ParentUpdated(t: Info, n: Node): Info
  {
    if SameLogical(t.parent, n) then Apply(t, SetParent(n)) else t
  }

  function AdjacentsRemoved(t: Info, n: Node): Info
  {
    if SameLogical(t.left, n) then Apply(t, ResetLeft)
    else if SameLogical(t.right, n) then Apply(t, ResetRight)
    else t
  }

  lemma {:induction false} AdjacentStep(t: Info, n: Node)
    requires Fits(t) && n.Initialized()
    ensures SameLogical(t.left, n) ==> !Throws(t, SetLeft(n))
    ensures SameLogical(t.right, n) ==> !Throws(t, SetRight(n)) && !SameLogical(t.left, n)
  {
  }

  lemma {:induction false} ParentStep(t: Info, n: Node)
    requires Fits(t) && n.Initialized()
    ensures SameLogical(t.parent, n) ==> t.self.placed && t.self.position.level > 0
  {
  }

  /** The adjacent and parent steps of an update never throw and do their part of it. */
  lemma {:induction false} FirstSteps(t: Info, n: Node)
    requires Fits(t) && n.Initialized()
    ensures SameLogical(t.left, n) ==> !Throws(t, SetLeft(n))
    ensures SameLogical(t.right, n) ==> !Throws(t, SetRight(n))
    ensures AdjacentsUpdated(t, n) == t.(left := StoreOne(t.left, n), right := StoreOne(t.right, n))
    ensures SameLogical(t.parent, n) ==> !Throws(AdjacentsUpdated(t, n), SetParent(n))
    ensures ParentUpdated(AdjacentsUpdated(t, n), n) ==
      t.(left := StoreOne(t.left, n), right := StoreOne(t.right, n), parent := StoreOne(t.parent, n))
  {
    AdjacentStep(t, n);
    ParentStep(t, n);
    StepsStore(t, n);
  }

  lemma {:induction false} StepsStore(t: Info, n: Node)
    requires n.Initialized()
    requires SameLogical(t.left, n) ==> !Throws(t, SetLeft(n))
    requires SameLogical(t.right, n) ==> !Throws(t, SetRight(n)) && !SameLogical(t.left, n)
    requires SameLogical(t.parent, n) ==> t.self.placed && t.self.position.level > 0
    ensures AdjacentsUpdated(t, n) == t.(left := StoreOne(t.left, n), right := StoreOne(t.right, n))
    ensures SameLogical(t.parent, n) ==> !Throws(AdjacentsUpdated(t, n), SetParent(n))
    ensures ParentUpdated(AdjacentsUpdated(t, n), n) ==
      t.(left := StoreOne(t.left, n), right := StoreOne(t.right, n), parent := StoreOne(t.parent, n))
  {
  }

  /** A node that has no slot in a table changes nothing there. */
  lemma {:induction false} NoSlot(s: seq<Node>, n: Node)
    requires !HasSlot(s, n.position)
    ensures Store(s, n) == s && Store(s, Without(n)) == s
  {
    forall k | 0 <= k < |s|
      ensures !SameLogical(s[k], n) && !SameLogical(s[k], Without(n))
    {
      assert s[k].position != n.position;
    }
    StoreElsewhere(s, n);
    StoreElsewhere(s, Without(n));
  }

  /** Only the table chosen by level and number has a slot for the node. */
  lemma {:induction false} OneTable(t: Info, n: Node)
    requires Fits(t) && t.self.placed
    ensures n.position.level != t.self.position.level ==>
      Store(t.neighbors, n) == t.neighbors && Store(t.neighbors, Without(n)) == t.neighbors
    ensures n.position.level != t.self.position.level + 1 || !OwnChild(t, n) ==>
      Store(t.children, n) == t.children && Store(t.children, Without(n)) == t.children
    ensures n.position.level != t.self.position.level + 1 || OwnChild(t, n) ==>
      Store(t.neighborChildren, n) == t.neighborChildren && Store(t.neighborChildren, Without(n)) == t.neighborChildren
  {
    var q := n.position;
    TabledIff(t, q);
    SlotsApart(t, q);
    if !HasSlot(t.neighbors, q) { NoSlot(t.neighbors, n); }
    if !HasSlot(t.children, q) { NoSlot(t.children, n); }
    if !HasSlot(t.neighborChildren, q) { NoSlot(t.neighborChildren, n); }
  }

  lemma {:induction false} OwnChildPlace(p: Position, m: nat, q: Position)
    requires m >= 2 && q.level == p.level + 1 && q.number / m == p.number
    ensures Children(p, m)[q.number % m] == q
  {
    assert q.number == (q.number / m) * m + q.number % m;
  }

  /** The slot of an own child is the one at its number modulo the fanout. */
  lemma {:induction false} OwnChildSlot(t: Info, n: Node)
    requires Fits(t) && t.self.placed && n.position.level == t.self.position.level + 1 && OwnChild(t, n)
    ensures n.position.number % t.self.fanout < |t.children| == t.self.fanout
    ensures SameLogical(t.children[n.position.number % t.self.fanout], Empty(n.position, t.self.fanout))
    ensures UniquePositions(t.children)
  {
    OwnChildPlace(t.self.position, t.self.fanout, n.position);
    TablesUnique(t);
  }

  lemma {:induction false} StoredAt(s: seq<Node>, n: Node, j: nat)
    requires UniquePositions(s) && j < |s| && SameLogical(s[j], n)
    ensures Store(s, n) == s[j := n]
  {
  }

  function TablesUpdated(t: Info, n: Node): Info
  {
    t.(children := Store(t.children, n), neighbors := Store(t.neighbors, n),
       neighborChildren := Store(t.neighborChildren, n))
  }

  lemma {:induction false} NeighborStep(t: Info, n: Node)
    requires t.self.placed && n.Initialized()
    requires Store(t.children, n) == t.children && Store(t.neighborChildren, n) == t.neighborChildren
    ensures !Throws(t, StoreNeighbor(n)) && Apply(t, StoreNeighbor(n)) == TablesUpdated(t, n)
  {
  }

  lemma {:induction false} OwnChildStep(t: Info, n: Node, j: nat)
    requires t.self.placed && n.Initialized() && j < |t.children| == t.self.fanout
    requires SameLogical(t.children[j], Empty(n.position, t.self.fanout)) && UniquePositions(t.children)
    requires Store(t.neighbors, n) == t.neighbors && Store(t.neighborChildren, n) == t.neighborChildren
    ensures Throws(t, SetChild(n, j)) <==> n.fanout != t.self.fanout
    ensures !Throws(t, SetChild(n, j)) ==> Apply(t, SetChild(n, j)) == TablesUpdated(t, n)
  {
    if n.fanout == t.self.fanout { StoredAt(t.children, n, j); }
  }

  lemma {:induction false} NephewStep(t: Info, n: Node)
    requires t.self.placed && n.Initialized()
    requires Store(t.children, n) == t.children && Store(t.neighbors, n) == t.neighbors
    ensures Throws(t, StoreNeighborChild(n)) <==> n.fanout != t.self.fanout
    ensures !Throws(t, StoreNeighborChild(n)) ==> Apply(t, StoreNeighborChild(n)) == TablesUpdated(t, n)
  {
  }

  /** Emptying the slot at j is storing the node without its address. */
  lemma {:induction false} ClearedAt(s: seq<Node>, n: Node, j: nat)
    requires UniquePositions(s) && j < |s| && SameLogical(s[j], n)
    ensures Store(s, Without(n)) == s[j := Without(s[j])]
  {
    StoredAt(s, Without(n), j);
  }

  lemma {:induction false} ResetsFound(t: Info, n: Node, j: nat)
    requires t.self.placed && j < |t.children| == t.self.fanout && UniquePositions(t.children)
    requires t.children[j].Initialized() && SameLogical(t.children[j], n)
    ensures !Throws(t, ResetChild(j))
    ensures Apply(t, ResetChild(j)) == t.(children := Store(t.children, Without(n))) != t
  {
    ClearedAt(t.children, n, j);
    assert Effect(t, ResetChild(j)).children[j] != t.children[j];
  }

  lemma {:induction false} NothingToClear(s: seq<Node>, n: Node)
    requires forall k :: 0 <= k < |s| ==> !(s[k].Initialized() && SameLogical(s[k], n))
    requires forall k :: 0 <= k < |s| ==> s[k].placed
    ensures Store(s, Without(n)) == s
  {
  }

  /** What sorting the two freshly listed tables needs. */
  lemma {:induction false} SortableTables(p: Position, m: nat)
    requires m >= 2 && OnTree(p, m)
    ensures var ps, qs := Table(p, m), Ascending(p, m);
      && Distinct(ps) && |qs| == |ps| && (forall q: Position :: q in qs <==> q in ps) && NumbersIncrease(qs, p.level)
      && (forall k :: 0 <= k < |ps| ==> OnTree(ps[k], m))
      && Distinct(ChildrenOf(ps, m)) && (forall q: Position :: q in ChildrenOf(qs, m) <==> q in ChildrenOf(ps, m))
      && NumbersIncrease(ChildrenOf(qs, m), p.level + 1)
      && (forall k :: 0 <= k < |ChildrenOf(ps, m)| ==> OnTree(ChildrenOf(ps, m)[k], m))
  {
    var ps, qs := Table(p, m), Ascending(p, m);
    TableDistinct(p, m);
    AscendingIncreases(p, m);
    ChildrenDistinct(ps, m);
    ChildrenIncrease(qs, m, p.level);
    ChildrenOfOnTree(ps, m);
    forall q: Position
      ensures q in qs <==> q in ps
    {
      AscendingIff(p, m, q);
    }
    forall q: Position
      ensures q in ChildrenOf(qs, m) <==> q in ChildrenOf(ps, m)
    {
      ChildrenOfIff(ps, m, q);
      ChildrenOfIff(qs, m, q);
    }
  }

  /** A child position has the node's number exactly when the node is the own child. */
  lemma {:induction false} OwnChildIff(t: Info, n: Node, own: bool)
    requires PositionValid(t.self.position, t.self.fanout) && n.position.level == t.self.position.level + 1
    requires var cs := Children(t.self.position, t.self.fanout);
      own <==> exists k :: 0 <= k < |cs| && cs[k].number == n.position.number
    ensures own <==> OwnChild(t, n)
  {
    var p, m := t.self.position, t.self.fanout;
    var cs := Children(p, m);
    if own {
      var k :| 0 <= k < |cs| && cs[k].number == n.position.number;
      ChildAt(p, m, k);
    }
    if OwnChild(t, n) { OwnChildPlace(p, m, n.position); }
  }

  /** An update that is refused has not changed the adjacents or the parent before. */
  lemma {:induction false} RefusedUnchanged(t: Info, n: Node)
    requires Fits(t) && n.Initialized()
    ensures UpdateRefused(t, n) ==> ParentUpdated(AdjacentsUpdated(t, n), n) == t
  {
    if t.self.placed { FitsShaped(t); SlotsApart(t, n.position); }
  }

  lemma {:induction false} AnyChildTables(t: Info, n: Node)
    requires Fits(t) && n.position.level == t.self.position.level + 1
    ensures if OwnChild(t, n) then Store(t.neighborChildren, Without(n)) == t.neighborChildren
      else Store(t.children, Without(n)) == t.children
  {
    if t.self.placed { OneTable(t, n); }
  }

  /** Resetting any child is resetting the own child or the neighbour's child. */
  lemma {:induction false} AnyChild(t: Info, n: Node)
    requires n.placed && n.position.level == t.self.position.level + 1
    requires if OwnChild(t, n) then Store(t.neighborChildren, Without(n)) == t.neighborChildren
      else Store(t.children, Without(n)) == t.children
    ensures OwnChild(t, n) ==> Apply(t, ResetAnyChild(n)) == t.(children := Store(t.children, Without(n)))
    ensures !OwnChild(t, n) ==> Apply(t, ResetAnyChild(n)) == Apply(t, ResetNeighborChild(n))
    ensures Throws(t, ResetAnyChild(n)) <==> !OwnChild(t, n) && Throws(t, ResetNeighborChild(n))
  {
  }

  /** The tables after a removal. */
  function TablesRemoved(t: Info, n: Node): Info
  {
    TablesUpdated(t, Without(n))
  }

  /** The adjacent step of a removal does its part; a refused removal has not done it. */
  lemma {:induction false} AdjacentsGone(t: Info, n: Node)
    requires Fits(t) && !SameLogical(t.parent, n)
    ensures AdjacentsRemoved(t, n) == t.(left := Removed(t, n).left, right := Removed(t, n).right)
    ensures RemoveRefused(t, n) ==> AdjacentsRemoved(t, n) == t
  {
  }

  class RoutingInformation {
    var self: Node
    var parent: Node
    var children: seq<Node>
    var left: Node
    var right: Node
    var neighbors: seq<Node>
    var neighborChildren: seq<Node>
    var rightStart: nat

    function State(): Info
      reads this
    {
      Info(self, parent, children, left, right, neighbors, neighborChildren, rightStart)
    }

    ghost predicate Valid()
      reads this
    {
      Fits(State())
    }

    constructor (node: Node)
      requires WellPlaced(node)
      ensures Valid()
      ensures State() == if node.placed then Fresh(node) else Cleared(node, 0)
    {
      self, parent, children, left, right := node, UNSET, [], UNSET, UNSET;
      neighbors, neighborChildren, rightStart := [], [], 0;
      new;
      if self.placed {
        InitParentAndChildren();
        InitRoutingTableNeighbors();
      }
    }

    method InitParentAndChildren()
      requires PositionValid(self.position, self.fanout)
      modifies this`parent, this`children
      ensures parent == ParentSlot(self)
      ensures children == EmptySlots(Children(self.position, self.fanout), self.fanout)
    {
      parent := UNSET;
      if self.position.level > 0 {
        var p := CalcParent(self.position, self.fanout);
        parent := Empty(p.value, self.fanout);
      }
      var cs := CalcChildren(self.position, self.fanout);
      children := AppendSlots([], cs.value, self.fanout);
    }

    method InitRoutingTableNeighborChildren(p: Position)
      requires PositionValid(p, self.fanout)
      modifies this`neighborChildren
      ensures neighborChildren == old(neighborChildren) + EmptySlots(Children(p, self.fanout), self.fanout)
    {
      var cs := CalcChildren(p, self.fanout);
      neighborChildren := AppendSlots(neighborChildren, cs.value, self.fanout);
    }

    method ListNeighbors(list: seq<Position>)
      requires FanoutValid(self.fanout) && forall k :: 0 <= k < |list| ==> OnTree(list[k], self.fanout)
      modifies this`neighbors, this`neighborChildren
      ensures neighbors == EmptySlots(list, self.fanout)
      ensures neighborChildren == EmptySlots(ChildrenOf(list, self.fanout), self.fanout)
    {
      neighbors, neighborChildren := [], [];
      for i := 0 to |list|
        invariant neighbors == EmptySlots(list[..i], self.fanout)
        invariant neighborChildren == EmptySlots(ChildrenOf(list[..i], self.fanout), self.fanout)
      {
        NextSlots(list, i, self.fanout);
        neighbors := neighbors + [Empty(list[i], self.fanout)];
        InitRoutingTableNeighborChildren(list[i]);
      }
      assert list[..|list|] == list;
    }

    method InitRoutingTableNeighbors()
      requires PositionValid(self.position, self.fanout)
      modifies this`neighbors, this`neighborChildren, this`rightStart
      ensures neighbors == EmptySlots(Ascending(self.position, self.fanout), self.fanout)
      ensures neighborChildren ==
        EmptySlots(ChildrenOf(Ascending(self.position, self.fanout), self.fanout), self.fanout)
      ensures rightStart == |LeftTable(self.position, self.fanout)|
    {
      var lefts := CalcLeftRT(self.position, self.fanout);
      var rights := CalcRightRT(self.position, self.fanout);
      rightStart := |lefts.value|;
      var list := lefts.value + rights.value;
      ghost var p, m := self.position, self.fanout;
      SortableTables(p, m);
      ListNeighbors(list);
      neighbors := SortSlots(neighbors, list, Ascending(p, m), m, p.level);
      neighborChildren :=
        SortSlots(neighborChildren, ChildrenOf(list, m), ChildrenOf(Ascending(p, m), m), m, p.level + 1);
    }

    method ClearRoutingTable()
      modifies this
      ensures State() == Cleared(old(self), old(rightStart))
    {
      parent, children, left, right, neighbors, neighborChildren := UNSET, [], UNSET, UNSET, [], [];
    }

    method ResetPosition()
      requires Valid()
      modifies this
      ensures Valid() && State() == Apply(old(State()), Unplace)
    {
      self := Moved(self, UNSET);
      ClearRoutingTable();
    }

    method TakePosition(n: Node)
      requires PositionValid(n.position, n.fanout)
      modifies this
      ensures State() == Repositioned(old(State()), n)
    {
      self := Moved(self, n);
      if self.Initialized() {
        InitParentAndChildren();
        InitRoutingTableNeighbors();
        left, right := UNSET, UNSET;
      } else {
        ClearRoutingTable();
      }
    }

    /** Without an address of its own the node clears its tables although it is placed. */
    method SetPosition(n: Node) returns (r: Result<()>)
      requires Valid() && WellPlaced(n)
      modifies this
      ensures r.Err? <==> Throws(old(State()), Place(n))
      ensures State() == Apply(old(State()), Place(n))
      ensures Valid() <==> old(self).address.Some? || !n.placed
    {
      PlaceFitsIff(State(), n);
      if !PositionValid(n.position, n.fanout) { return Err("Peer has invalid Position"); }
      TakePosition(n);
      return Ok(());
    }

    method SetParentNode(n: Node) returns (r: Result<()>)
      requires Valid() && WellPlaced(n)
      modifies this
      ensures r.Err? <==> Throws(old(State()), SetParent(n))
      ensures Valid() && State() == Apply(old(State()), SetParent(n))
    {
      ApplyFits(State(), SetParent(n));
      if !self.placed { return Err("Cannot set Parent for uninitialized RoutingInformation."); }
      if self.position.level == 0 { return Err("Root cannot have a parent"); }
      if !SameLogical(parent, n) { return Err("wrong LogicalNodeInfo"); }
      if !n.Initialized() { return Err("Parent must be initialized / must exist"); }
      if n.address != parent.address { parent := n; }
      return Ok(());
    }

    method SetChildNode(n: Node, index: nat) returns (r: Result<()>)
      requires Valid() && WellPlaced(n)
      modifies this
      ensures r.Err? <==> Throws(old(State()), SetChild(n, index))
      ensures Valid() && State() == Apply(old(State()), SetChild(n, index))
    {
      ApplyFits(State(), SetChild(n, index));
      if !self.placed { return Err("Cannot set Child for uninitialized RoutingInformation."); }
      if index >= self.fanout { return Err("Position not in range"); }
      if !SameLogical(children[index], n) { return Err("wrong LogicalNodeInfo"); }
      if !n.Initialized() { return Err("Child must be initialized / must exist"); }
      if n.address != children[index].address { children := children[index := n]; }
      return Ok(());
    }

    method SetAdjacentLeft(n: Node) returns (r: Result<()>)
      requires Valid() && WellPlaced(n)
      modifies this
      ensures r.Err? <==> Throws(old(State()), SetLeft(n))
      ensures Valid() && State() == Apply(old(State()), SetLeft(n))
    {
      ApplyFits(State(), SetLeft(n));
      if !self.placed { return Err("Cannot set Adjacent for uninitialized RoutingInformation."); }
      if n.fanout != self.fanout { return Err("wrong Fanout"); }
      if !n.Initialized() { return Err("Adjacent must be initialized / must exist"); }
      if Horizontal(n) >= Horizontal(self) { return Err("Adjacent is not to the left of us"); }
      if left != n { left := n; }
      return Ok(());
    }

    method SetAdjacentRight(n: Node) returns (r: Result<()>)
      requires Valid() && WellPlaced(n)
      modifies this
      ensures r.Err? <==> Throws(old(State()), SetRight(n))
      ensures Valid() && State() == Apply(old(State()), SetRight(n))
    {
      ApplyFits(State(), SetRight(n));
      if !self.placed { return Err("Cannot set Adjacent for uninitialized RoutingInformation."); }
      if n.fanout != self.fanout { return Err("wrong Fanout"); }
      if !n.Initialized() { return Err("Adjacent must be initialized / must exist"); }
      if Horizontal(n) <= Horizontal(self) { return Err("Adjacent is not to the right of us"); }
      if right != n { right := n; }
      return Ok(());
    }

    method ResetAdjacentLeft() returns (r: Result<()>)
      requires Valid()
      modifies this
      ensures r.Err? <==> Throws(old(State()), ResetLeft)
      ensures Valid() && State() == Apply(old(State()), ResetLeft)
    {
      ApplyFits(State(), ResetLeft);
      if !self.placed { return Err("RoutingInformation not initialized"); }
      if left.Initialized() { left := UNSET; }
      return Ok(());
    }

    method ResetAdjacentRight() returns (r: Result<()>)
      requires Valid()
      modifies this
      ensures r.Err? <==> Throws(old(State()), ResetRight)
      ensures Valid() && State() == Apply(old(State()), ResetRight)
    {
      ApplyFits(State(), ResetRight);
      if !self.placed { return Err("RoutingInformation not initialized"); }
      if right.Initialized() { right := UNSET; }
      return Ok(());
    }

    method ResetChildAt(index: nat) returns (r: Result<()>)
      requires Valid()
      modifies this
      ensures r.Err? <==> Throws(old(State()), ResetChild(index))
      ensures Valid() && State() == Apply(old(State()), ResetChild(index))
    {
      ApplyFits(State(), ResetChild(index));
      if !self.placed { return Err("RoutingInformation not initialized"); }
      if index >= self.fanout { return Err("Invalid Position to reset Child"); }
      if children[index].address.Some? {
        children := children[index := Without(children[index])];
      }
      return Ok(());
    }

    method ResetRoutingTableNeighbor(n: Node) returns (r: Result<bool>)
      requires Valid() && WellPlaced(n)
      modifies this
      ensures r.Err? <==> Throws(old(State()), ResetNeighbor(n))
      ensures Valid() && State() == Apply(old(State()), ResetNeighbor(n))
      ensures r.Ok? ==> (r.value <==> State() != old(State()))
    {
      ghost var t := State();
      ApplyFits(t, ResetNeighbor(n));
      if !self.placed { return Err("RoutingInformation not initialized"); }
      if !n.placed { return Err("LogicalNodeInfo to reset is not initialized"); }
      TablesSorted(t);
      var slots, changed := ClearInTable(neighbors, n);
      neighbors := slots;
      assert State() == t.(neighbors := slots);
      return Ok(changed);
    }

    method ResetRoutingTableNeighborChild(n: Node) returns (r: Result<bool>)
      requires Valid() && WellPlaced(n)
      modifies this
      ensures r.Err? <==> Throws(old(State()), ResetNeighborChild(n))
      ensures Valid() && State() == Apply(old(State()), ResetNeighborChild(n))
      ensures r.Ok? ==> (r.value <==> State() != old(State()))
    {
      ghost var t := State();
      ApplyFits(t, ResetNeighborChild(n));
      if !self.placed { return Err("RoutingInformation not initialized"); }
      if !n.placed { return Err("LogicalNodeInfo to reset is not initialized"); }
      TablesSorted(t);
      var slots, changed := ClearInTable(neighborChildren, n);
      neighborChildren := slots;
      assert State() == t.(neighborChildren := slots);
      return Ok(changed);
    }

    method UpdateRoutingTableNeighbor(n: Node) returns (r: Result<()>)
      requires Valid() && WellPlaced(n)
      modifies this
      ensures r.Err? <==> Throws(old(State()), StoreNeighbor(n))
      ensures Valid() && State() == Apply(old(State()), StoreNeighbor(n))
    {
      ApplyFits(State(), StoreNeighbor(n));
      if !self.placed { return Err("RoutingInformation not initialized"); }
      if !n.Initialized() { return Err("Neighbor Node to update is not initialized"); }
      TablesSorted(State());
      neighbors := StoreInTable(neighbors, n);
      return Ok(());
    }

    method UpdateRoutingTableNeighborChild(n: Node) returns (r: Result<()>)
      requires Valid() && WellPlaced(n)
      modifies this
      ensures r.Err? <==> Throws(old(State()), StoreNeighborChild(n))
      ensures Valid() && State() == Apply(old(State()), StoreNeighborChild(n))
    {
      ApplyFits(State(), StoreNeighborChild(n));
      if !self.placed { return Err("RoutingInformation not initialized"); }
      if !n.Initialized() { return Err("Child to update is not initialized"); }
      if n.fanout != self.fanout { return Err("Child has wrong Fanout set"); }
      TablesSorted(State());
      neighborChildren := StoreInTable(neighborChildren, n);
      return Ok(());
    }

    /** The initialized own child at n's position, if any. */
    method FindChild(n: Node) returns (k: nat)
      ensures k <= |children|
      ensures k < |children| ==> children[k].Initialized() && SameLogical(children[k], n)
      ensures k == |children| ==>
        forall i :: 0 <= i < |children| ==> !(children[i].Initialized() && SameLogical(children[i], n))
    {
      k := 0;
      while k < |children| && !(children[k].Initialized() && SameLogical(children[k], n))
        invariant k <= |children|
        invariant forall i :: 0 <= i < k ==> !(children[i].Initialized() && SameLogical(children[i], n))
      {
        k := k + 1;
      }
    }

    method ResetFoundChild(n: Node, j: nat) returns (r: Result<bool>)
      requires Valid() && self.placed && j < |children| == self.fanout && UniquePositions(children)
      requires children[j].Initialized() && SameLogical(children[j], n)
      modifies this
      ensures r.Ok? && Valid() && State() == old(State()).(children := Store(old(children), Without(n)))
      ensures r.value <==> State() != old(State())
    {
      ghost var t := State();
      ResetsFound(t, n, j);
      var reset := ResetChildAt(j);
      return Ok(true);
    }

    method ResetOwnChild(n: Node) returns (r: Result<bool>)
      requires Valid() && WellPlaced(n) && n.placed
      requires n.position.level == self.position.level + 1 && OwnChild(State(), n)
      modifies this
      ensures r.Ok? && Valid() && State() == old(State()).(children := Store(old(children), Without(n)))
      ensures r.value <==> State() != old(State())
    {
      ghost var t := State();
      var k := FindChild(n);
      if k == |children| {
        if self.placed { FitsShaped(t); }
        NothingToClear(children, n);
        return Ok(false);
      }
      OwnChildSlot(t, n);
      r := ResetFoundChild(n, children[k].position.number % self.fanout);
    }

    /** An unplaced node without a fanout has nothing to divide by. */
    method ResetChildOrRoutingTableNeighborChild(n: Node) returns (r: Result<bool>)
      requires Valid() && WellPlaced(n)
      modifies this
      ensures r.Err? <==> Throws(old(State()), ResetAnyChild(n))
      ensures Valid() && State() == Apply(old(State()), ResetAnyChild(n))
      ensures r.Ok? ==> (r.value <==> State() != old(State()))
    {
      if !n.placed { return Err("Childs LogicalNodeInfo to reset is not initialized"); }
      if n.position.level != self.position.level + 1 { return Err("Childs to reset is not on one level lower"); }
      if self.fanout == 0 { return Err("division by zero"); }
      AnyChildTables(State(), n);
      AnyChild(State(), n);
      if n.position.number / self.fanout == self.position.number {
        r := ResetOwnChild(n);
      } else {
        r := ResetRoutingTableNeighborChild(n);
      }
    }

    method UpdateAdjacents(n: Node) returns (r: Result<()>)
      requires Valid() && WellPlaced(n) && n.Initialized()
      modifies this
      ensures r.Ok? && Valid() && State() == AdjacentsUpdated(old(State()), n)
    {
      FirstSteps(State(), n);
      r := Ok(());
      if SameLogical(left, n) {
        r := SetAdjacentLeft(n);
      } else if SameLogical(right, n) {
        r := SetAdjacentRight(n);
      }
    }

    method IsOwnChild(n: Node, positions: seq<Position>) returns (own: bool)
      ensures own <==> exists k :: 0 <= k < |positions| && positions[k].number == n.position.number
    {
      own := false;
      for i := 0 to |positions|
        invariant forall k :: 0 <= k < i ==> positions[k].number != n.position.number
      {
        if positions[i].number == n.position.number { return true; }
      }
    }

    method UpdateLowerLevel(n: Node) returns (r: Result<()>)
      requires Valid() && WellPlaced(n) && n.Initialized() && n.position.level == self.position.level + 1
      modifies this
      ensures r.Err? <==> UpdateRefused(old(State()), n)
      ensures Valid() && State() == if r.Err? then old(State()) else TablesUpdated(old(State()), n)
    {
      var positions := CalcChildren(self.position, self.fanout);
      if positions.Err? { return Err(positions.message); }
      var own := IsOwnChild(n, positions.value);
      OwnChildIff(State(), n, own);
      if self.placed { OneTable(State(), n); }
      if own {
        if self.placed {
          OwnChildSlot(State(), n);
          OwnChildStep(State(), n, n.position.number % self.fanout);
        }
        r := SetChildNode(n, n.position.number % self.fanout);
      } else {
        if self.placed { NephewStep(State(), n); }
        r := UpdateRoutingTableNeighborChild(n);
      }
    }

    method UpdateTables(n: Node) returns (r: Result<()>)
      requires Valid() && WellPlaced(n) && n.Initialized()
      modifies this
      ensures r.Err? <==> UpdateRefused(old(State()), n)
      ensures Valid() && State() == if r.Err? then old(State()) else TablesUpdated(old(State()), n)
    {
      if n.position.level == self.position.level {
        if self.placed {
          OneTable(State(), n);
          NeighborStep(State(), n);
        }
        r := UpdateRoutingTableNeighbor(n);
      } else if n.position.level == self.position.level + 1 {
        r := UpdateLowerLevel(n);
      } else {
        if self.placed { OneTable(State(), n); }
        r := Ok(());
      }
    }

    method UpdateNeighbor(n: Node) returns (r: Result<()>)
      requires Valid() && WellPlaced(n)
      modifies this
      ensures r.Err? <==> Throws(old(State()), Update(n))
      ensures Valid() && State() == Apply(old(State()), Update(n))
    {
      if !n.Initialized() { return Err("Node to Update has to be initialized"); }
      ghost var t := State();
      FirstSteps(t, n);
      r := UpdateAdjacents(n);
      if SameLogical(parent, n) { r := SetParentNode(n); }
      RefusedUnchanged(t, n);
      r := UpdateTables(n);
    }

    method RemoveAdjacents(n: Node) returns (r: Result<()>)
      requires Valid() && WellPlaced(n) && !SameLogical(parent, n)
      modifies this
      ensures r.Ok? && Valid() && State() == AdjacentsRemoved(old(State()), n)
    {
      r := Ok(());
      if SameLogical(left, n) {
        r := ResetAdjacentLeft();
      } else if SameLogical(right, n) {
        r := ResetAdjacentRight();
      }
    }

    method RemoveFromTables(n: Node) returns (r: Result<bool>)
      requires Valid() && WellPlaced(n)
      modifies this
      ensures r.Err? <==> RemoveRefused(old(State()), n)
      ensures Valid() && State() == if r.Err? then old(State()) else TablesRemoved(old(State()), n)
    {
      if self.placed { OneTable(State(), n); }
      if n.position.level == self.position.level {
        r := ResetRoutingTableNeighbor(n);
      } else if n.position.level == self.position.level + 1 {
        r := ResetChildOrRoutingTableNeighborChild(n);
      } else {
        r := Ok(false);
      }
    }

    method RemoveNeighbor(n: Node) returns (r: Result<()>)
      requires Valid() && WellPlaced(n)
      modifies this
      ensures r.Err? <==> Throws(old(State()), Remove(n))
      ensures Valid() && State() == Apply(old(State()), Remove(n))
    {
      if SameLogical(parent, n) { return Err("Parent cannot be removed from routing information. Only updated."); }
      AdjacentsGone(State(), n);
      r := RemoveAdjacents(n);
      var removed := RemoveFromTables(n);
      if removed.Err? { return Err(removed.message); }
    }

    method GetNodeInfo(q: Position) returns (r: Result<Node>)
      requires Valid()
      ensures r.Ok? <==> self.placed && PositionValid(q, self.fanout)
      ensures r.Ok? ==> r.value.address == Answer(State(), q)
      ensures r.Ok? && Answer(State(), q).Some? ==> r.value.position == q
    {
      r := GetNodeInfoByPosition(State(), q);
      if r.Ok? { GetNodeInfoIsAnswer(State(), q); }
    }

    /** The table neighbours left of the node, and those right of it. */
    method Sides() returns (lefts: seq<Node>, rights: seq<Node>)
      requires Valid() && self.placed
      ensures lefts + rights == neighbors
      ensures forall k :: 0 <= k < |lefts| ==> lefts[k].fanout >= 2 && Horizontal(lefts[k]) < Horizontal(self)
      ensures forall k :: 0 <= k < |rights| ==> rights[k].fanout >= 2 && Horizontal(self) < Horizontal(rights[k])
    {
      TablesSorted(State());
      forall k: nat | k < |neighbors|
        ensures rightStart <= |neighbors|
        ensures if k < rightStart then Horizontal(neighbors[k]) < Horizontal(self)
          else Horizontal(self) < Horizontal(neighbors[k])
      {
        SplitIsExact(State(), k);
      }
      assert rightStart <= |neighbors| by {
        assert |Ascending(self.position, self.fanout)| >= |LeftTable(self.position, self.fanout)|;
      }
      lefts, rights := neighbors[..rightStart], neighbors[rightStart..];
    }

    /** The children of the left table neighbours, and those of the right ones. */
    method ChildSides() returns (lefts: seq<Node>, rights: seq<Node>)
      requires Valid() && self.placed
      ensures lefts + rights == neighborChildren
      ensures forall k :: 0 <= k < |lefts| ==>
        lefts[k].position.level > 0 && Parent(lefts[k].position, self.fanout).number < self.position.number
      ensures forall k :: 0 <= k < |rights| ==>
        rights[k].position.level > 0 && Parent(rights[k].position, self.fanout).number > self.position.number
    {
      var split := rightStart * self.fanout;
      MulMono(rightStart, |Ascending(self.position, self.fanout)|, self.fanout);
      forall k: nat | k < |neighborChildren|
        ensures neighborChildren[k].position.level > 0
        ensures var q := Parent(neighborChildren[k].position, self.fanout);
          if k < split then q.number < self.position.number else q.number > self.position.number
      {
        ChildSplitIsExact(State(), k);
      }
      lefts, rights := neighborChildren[..split], neighborChildren[split..];
    }
  }
}
