/**
What a node knows about its neighbours: slots whose positions are calculated from the node's own
position and whose addresses come and go, plus the two adjacent nodes.
*/
module RoutingState {
  import opened Arith
  import opened Results
  import opened Positions
  import opened InOrderMap
  import opened RoutingTables
  import opened NodeTables

  datatype Info = Info(
    self: Node, parent: Node, children: seq<Node>, left: Node, right: Node,
    neighbors: seq<Node>, neighborChildren: seq<Node>, rightStart: nat)

  /** The operations that change the routing information. */
  datatype Call =
    | Place(n: Node)
    | Unplace
    | SetParent(n: Node)
    | SetChild(n: Node, index: nat)
    | SetLeft(n: Node)
    | SetRight(n: Node)
    | ResetLeft
    | ResetRight
    | ResetChild(index: nat)
    | ResetNeighbor(n: Node)
    | ResetNeighborChild(n: Node)
    | ResetAnyChild(n: Node)
    | StoreNeighbor(n: Node)
    | StoreNeighborChild(n: Node)
    | Update(n: Node)
    | Remove(n: Node)

  /** No operation is given a node placed at an invalid position. */
  predicate WellFormed(c: Call)
  {
    match c
    case Unplace | ResetLeft | ResetRight | ResetChild(_) => true
    case Place(n) => WellPlaced(n)
    case SetParent(n) => WellPlaced(n)
    case SetChild(n, _) => WellPlaced(n)
    case SetLeft(n) => WellPlaced(n)
    case SetRight(n) => WellPlaced(n)
    case ResetNeighbor(n) => WellPlaced(n)
    case ResetNeighborChild(n) => WellPlaced(n)
    case ResetAnyChild(n) => WellPlaced(n)
    case StoreNeighbor(n) => WellPlaced(n)
    case StoreNeighborChild(n) => WellPlaced(n)
    case Update(n) => WellPlaced(n)
    case Remove(n) => WellPlaced(n)
  }

  function Without(n: Node): Node
  {
    n.(address := None)
  }

  function StoreOne(slot: Node, n: Node): Node
  {
    if SameLogical(slot, n) then slot.(address := n.address) else slot
  }

  /** Every slot and every adjacent at n's position gets n's address, wherever it is kept. */
  function Updated(t: Info, n: Node): Info
  {
    t.(parent := StoreOne(t.parent, n),
       children := Store(t.children, n),
       left := StoreOne(t.left, n),
       right := StoreOne(t.right, n),
       neighbors := Store(t.neighbors, n),
       neighborChildren := Store(t.neighborChildren, n))
  }

  /** Every slot at n's position is emptied and an adjacent there is dropped. */
  function Removed(t: Info, n: Node): Info
  {
    t.(children := Store(t.children, Without(n)),
       left := if SameLogical(t.left, n) then UNSET else t.left,
       right := if SameLogical(t.right, n) then UNSET else t.right,
       neighbors := Store(t.neighbors, Without(n)),
       neighborChildren := Store(t.neighborChildren, Without(n)))
  }

  function Cleared(self: Node, rightStart: nat): Info
  {
    Info(self, UNSET, [], UNSET, UNSET, [], [], rightStart)
  }

  function ParentSlot(self: Node): Node
    requires self.fanout >= 2
  {
    if self.position.level == 0 then UNSET else Empty(Parent(self.position, self.fanout), self.fanout)
  }

  /** Empty slots at all calculated positions. */
  function Fresh(self: Node): Info
    requires self.fanout >= 2
  {
    var p, m := self.position, self.fanout;
    Info(self, ParentSlot(self), EmptySlots(Children(p, m), m), UNSET, UNSET,
         EmptySlots(Ascending(p, m), m), EmptySlots(ChildrenOf(Ascending(p, m), m), m), |LeftTable(p, m)|)
  }

  function Moved(self: Node, n: Node): Node
  {
    self.(position := n.position, fanout := n.fanout, placed := n.placed)
  }

  function Repositioned(t: Info, n: Node): Info
  {
    var self := Moved(t.self, n);
    if self.Initialized() && self.fanout >= 2 then Fresh(self) else Cleared(self, t.rightStart)
  }

  predicate StrictlyLeft(n: Node, self: Node)
  {
    n.fanout >= 2 && self.fanout >= 2 && Horizontal(n) < Horizontal(self)
  }

  /** Which calls throw. */
  predicate Throws(t: Info, c: Call)
  {
    match c
    case Place(n) => !PositionValid(n.position, n.fanout)
    case Unplace => false
    case SetParent(n) => !t.self.placed || t.self.position.level == 0 || !SameLogical(t.parent, n) || !n.Initialized()
    case SetChild(n, i) =>
      !t.self.placed || i >= t.self.fanout || i >= |t.children| || !SameLogical(t.children[i], n) || !n.Initialized()
    case SetLeft(n) => !t.self.placed || n.fanout != t.self.fanout || !n.Initialized() || !StrictlyLeft(n, t.self)
    case SetRight(n) => !t.self.placed || n.fanout != t.self.fanout || !n.Initialized() || !StrictlyLeft(t.self, n)
    case ResetLeft | ResetRight => !t.self.placed
    case ResetChild(i) => !t.self.placed || i >= t.self.fanout
    case ResetNeighbor(n) => !t.self.placed || !n.placed
    case ResetNeighborChild(n) => !t.self.placed || !n.placed
    case ResetAnyChild(n) =>
      !n.placed || n.position.level != t.self.position.level + 1 || (!t.self.placed && !OwnChild(t, n))
    case StoreNeighbor(n) => !t.self.placed || !n.Initialized()
    case StoreNeighborChild(n) => !t.self.placed || !n.Initialized() || n.fanout != t.self.fanout
    case Update(n) => !n.Initialized() || UpdateRefused(t, n)
    case Remove(n) => SameLogical(t.parent, n) || RemoveRefused(t, n)
  }

  predicate OwnChild(t: Info, n: Node)
  {
    t.self.fanout > 0 && n.position.number / t.self.fanout == t.self.position.number
  }

  predicate UpdateRefused(t: Info, n: Node)
  {
    var below := n.position.level == t.self.position.level + 1;
    if t.self.placed then below && n.fanout != t.self.fanout else below || n.position.level == t.self.position.level
  }

  predicate RemoveRefused(t: Info, n: Node)
  {
    || (n.position.level == t.self.position.level && (!n.placed || !t.self.placed))
    || (n.position.level == t.self.position.level + 1 && (!n.placed || (!t.self.placed && !OwnChild(t, n))))
  }

  /** What a call does that does not throw. */
  function Effect(t: Info, c: Call): Info
  {
    match c
    case Place(n) => Repositioned(t, n)
    case Unplace => Cleared(Moved(t.self, UNSET), t.rightStart)
    case SetParent(n) => t.(parent := n)
    case SetChild(n, i) => if i < |t.children| then t.(children := t.children[i := n]) else t
    case SetLeft(n) => t.(left := n)
    case SetRight(n) => t.(right := n)
    case ResetLeft => t.(left := UNSET)
    case ResetRight => t.(right := UNSET)
    case ResetChild(i) => if i < |t.children| then t.(children := t.children[i := Without(t.children[i])]) else t
    case ResetNeighbor(n) => t.(neighbors := Store(t.neighbors, Without(n)))
    case ResetNeighborChild(n) => t.(neighborChildren := Store(t.neighborChildren, Without(n)))
    case ResetAnyChild(n) =>
      t.(children := Store(t.children, Without(n)), neighborChildren := Store(t.neighborChildren, Without(n)))
    case StoreNeighbor(n) => t.(neighbors := Store(t.neighbors, n))
    case StoreNeighborChild(n) => t.(neighborChildren := Store(t.neighborChildren, n))
    case Update(n) => Updated(t, n)
    case Remove(n) => Removed(t, n)
  }

  /** A throwing call leaves everything as it was. */
  function Apply(t: Info, c: Call): Info
  {
    if Throws(t, c) then t else Effect(t, c)
  }

  function Run(t: Info, cs: seq<Call>): Info
  {
    if cs == [] then t else Apply(Run(t, cs[..|cs| - 1]), cs[|cs| - 1])
  }

  predicate LeftFits(n: Node, self: Node)
  {
    n == UNSET || (n.Initialized() && WellPlaced(n) && n.fanout == self.fanout && StrictlyLeft(n, self))
  }

  predicate RightFits(n: Node, self: Node)
  {
    n == UNSET || (n.Initialized() && WellPlaced(n) && n.fanout == self.fanout && StrictlyLeft(self, n))
  }

  ghost predicate TablesFit(t: Info)
    requires t.self.fanout >= 2
  {
    var p, m := t.self.position, t.self.fanout;
    && SameLogical(t.parent, ParentSlot(t.self))
    && (p.level == 0 ==> t.parent == UNSET)
    && SlotsAt(t.children, Children(p, m), m)
    && SlotsAt(t.neighbors, Ascending(p, m), m)
    && SlotsAt(t.neighborChildren, ChildrenOf(Ascending(p, m), m), m)
    && t.rightStart == |LeftTable(p, m)|
  }

  /**
  While the node is placed every slot is at its calculated position, and the adjacents are on their
  sides; otherwise nothing is known.
  */
  ghost predicate Fits(t: Info)
  {
    && WellPlaced(t.self)
    && (t.self.placed ==> TablesFit(t) && LeftFits(t.left, t.self) && RightFits(t.right, t.self))
    && (!t.self.placed ==> t == Cleared(t.self, t.rightStart))
  }

  // ----- the invariant over runs -----

  lemma {:induction false} RepositionedFits(t: Info, n: Node)
    requires WellPlaced(n) && PositionValid(n.position, n.fanout) && (t.self.address.Some? || !n.placed)
    ensures Fits(Repositioned(t, n))
  {
  }

  /** A node that is placed without an address of its own clears its tables, and then does not fit. */
  lemma {:induction false} ClearedMisfits(t: Info, n: Node)
    requires PositionValid(n.position, n.fanout) && n.placed && t.self.address.None?
    ensures !Fits(Repositioned(t, n))
  {
    var u := Repositioned(t, n);
    assert |u.children| != |Children(u.self.position, u.self.fanout)|;
  }

  /** Taking a position keeps the invariant exactly for a node with an address, or when it gives up its place. */
  lemma {:induction false} PlaceFitsIff(t: Info, n: Node)
    requires Fits(t) && WellPlaced(n)
    ensures Fits(Apply(t, Place(n))) <==> t.self.address.Some? || !n.placed
  {
    if !Throws(t, Place(n)) {
      if t.self.address.Some? || !n.placed { RepositionedFits(t, n); } else { ClearedMisfits(t, n); }
    }
  }

  /** A new node that becomes the root before it has an address. */
  lemma {:induction false} PlacedTooEarly()
    ensures var t, n := Cleared(UNSET, 0), Node(Position(0, 0), 2, true, None);
      Fits(t) && WellPlaced(n) && !Throws(t, Place(n)) && !Fits(Apply(t, Place(n)))
  {
    PlaceFitsIff(Cleared(UNSET, 0), Node(Position(0, 0), 2, true, None));
  }

  ghost predicate SamePlaces(s: seq<Node>, t: seq<Node>)
  {
    |s| == |t| && forall k :: 0 <= k < |s| ==> SameLogical(s[k], t[k])
  }

  /** The slots of both are at the same positions. */
  ghost predicate SameSlots(t: Info, u: Info)
  {
    && u.self == t.self && u.rightStart == t.rightStart
    && SameLogical(u.parent, t.parent) && (t.parent == UNSET ==> u.parent == UNSET)
    && SamePlaces(u.children, t.children)
    && SamePlaces(u.neighbors, t.neighbors)
    && SamePlaces(u.neighborChildren, t.neighborChildren)
  }

  lemma {:induction false} SlotsStay(t: Info, c: Call)
    requires !Throws(t, c) && !c.Place? && !c.Unplace?
    ensures SameSlots(t, Effect(t, c))
  {
  }

  lemma {:induction false} TablesStayFit(t: Info, u: Info)
    requires t.self.fanout >= 2 && TablesFit(t) && SameSlots(t, u)
    ensures TablesFit(u)
  {
  }

  lemma {:induction false} AdjacentsAfter(t: Info, c: Call)
    requires Fits(t) && t.self.placed && WellFormed(c) && !Throws(t, c) && !c.Place? && !c.Unplace?
    ensures Effect(t, c).self == t.self
    ensures LeftFits(Effect(t, c).left, t.self) && RightFits(Effect(t, c).right, t.self)
  {
  }

  /** The node takes a position only after it has got an address. */
  predicate InOrder(t: Info, c: Call)
  {
    WellFormed(c) && (c.Place? ==> t.self.address.Some? || !c.n.placed)
  }

  /** Every operation keeps the invariant. */
  lemma {:induction false} ApplyFits(t: Info, c: Call)
    requires Fits(t) && InOrder(t, c)
    ensures Fits(Apply(t, c)) && Apply(t, c).self.address == t.self.address
  {
    if !Throws(t, c) {
      if c.Place? {
        RepositionedFits(t, c.n);
      } else if t.self.placed && !c.Unplace? {
        SlotsStay(t, c);
        TablesStayFit(t, Effect(t, c));
        AdjacentsAfter(t, c);
      }
    }
  }

  /** Over every run of operations the slots keep their positions and the adjacents their sides. */
  lemma {:induction false} RunFits(t: Info, cs: seq<Call>)
    requires Fits(t) && forall k :: 0 <= k < |cs| ==> InOrder(t, cs[k])
    ensures Fits(Run(t, cs)) && Run(t, cs).self.address == t.self.address
  {
    if cs != [] {
      RunFits(t, cs[..|cs| - 1]);
      ApplyFits(Run(t, cs[..|cs| - 1]), cs[|cs| - 1]);
    }
  }

  /** In a fitting state both tables are sorted by horizontal value, hence without duplicates. */
  lemma {:induction false} TablesSorted(t: Info)
    requires Fits(t)
    ensures SortedByHorizontal(t.neighbors) && SortedByHorizontal(t.neighborChildren)
  {
    if t.self.placed {
      var p, m := t.self.position, t.self.fanout;
      var ps := Ascending(p, m);
      AscendingIncreases(p, m);
      TableSorted(t.neighbors, ps, m, p.level);
      ChildrenIncrease(ps, m, p.level);
      ChildrenOfOnTree(ps, m);
      TableSorted(t.neighborChildren, ChildrenOf(ps, m), m, p.level + 1);
    }
  }

  /** The split index separates the left neighbours from the right ones. */
  lemma {:induction false} SplitIsExact(t: Info, k: nat)
    requires Fits(t) && t.self.placed && k < |t.neighbors|
    ensures t.rightStart <= |t.neighbors|
    ensures k < t.rightStart <==> Horizontal(t.neighbors[k]) < Horizontal(t.self)
    ensures k >= t.rightStart <==> Horizontal(t.self) < Horizontal(t.neighbors[k])
  {
    var p, m := t.self.position, t.self.fanout;
    AscendingIncreases(p, m);
    var q := Ascending(p, m)[k];
    if k < t.rightStart { OrderOnLevel(q, p, m, ROOT_VALUE); } else { OrderOnLevel(p, q, m, ROOT_VALUE); }
  }

  lemma {:induction false} SlotOfNeighbor(k: nat, m: nat, n: nat, s: nat)
    requires m >= 2 && k < n * m && s <= n
    ensures k / m < n && k == (k / m) * m + k % m && s * m <= n * m
    ensures k < s * m <==> k / m < s
  {
    var a := k / m;
    DivBlock(k, m, a);
    MulMono(s, n, m);
    if n <= a { MulMono(n, a, m); }
    if a < s { MulMono(a + 1, s, m); } else { MulMono(s, a, m); }
  }

  /** The k-th child slot belongs to neighbour k / m. */
  lemma {:induction false} ParentOfSlot(ps: seq<Position>, m: nat, k: nat)
    requires m >= 2 && k < |ps| * m
    ensures k / m < |ps| && ChildrenOf(ps, m)[k].level > 0
    ensures Parent(ChildrenOf(ps, m)[k], m) == ps[k / m]
  {
    SlotOfNeighbor(k, m, |ps|, 0);
    ChildrenOfAt(ps, m, k / m, k % m);
    ChildAt(ps[k / m], m, k % m);
  }

  lemma {:induction false} ChildSplit(p: Position, m: nat, k: nat)
    requires m >= 2 && OnTree(p, m) && k < |Ascending(p, m)| * m
    ensures |LeftTable(p, m)| * m <= |Ascending(p, m)| * m
    ensures var q := ChildrenOf(Ascending(p, m), m)[k];
      && q.level > 0
      && if k < |LeftTable(p, m)| * m then Parent(q, m).number < p.number else Parent(q, m).number > p.number
  {
    AscendingIncreases(p, m);
    SlotOfNeighbor(k, m, |Ascending(p, m)|, |LeftTable(p, m)|);
    ParentOfSlot(Ascending(p, m), m, k);
  }

  /** The split index times the fanout separates their children. */
  lemma {:induction false} ChildSplitIsExact(t: Info, k: nat)
    requires Fits(t) && t.self.placed && k < |t.neighborChildren|
    ensures t.rightStart * t.self.fanout <= |t.neighborChildren|
    ensures t.neighborChildren[k].position.level > 0
    ensures var q := Parent(t.neighborChildren[k].position, t.self.fanout);
      if k < t.rightStart * t.self.fanout then q.number < t.self.position.number else q.number > t.self.position.number
  {
    ChildSplit(t.self.position, t.self.fanout, k);
  }
}
