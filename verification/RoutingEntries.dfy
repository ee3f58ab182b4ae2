/**
What every operation does to the answer at one position.  A position has at most one slot, whose kind
is fixed by the node's own position; the two adjacents may cover any position.
*/
module RoutingEntries {
  import opened NodeTables
  import opened Positions
  import opened Results
  import opened RoutingAnswers
  import opened RoutingInformation
  import opened RoutingLists
  import opened RoutingState

  datatype Kind = AtParent | AtChild | AtNeighbor | AtNephew | NoSlotThere

  function KindOf(t: Info, q: Position): Kind
  {
    if IsParent(t, q) then AtParent
    else if HasSlot(t.children, q) then AtChild
    else if HasSlot(t.neighbors, q) then AtNeighbor
    else if HasSlot(t.neighborChildren, q) then AtNephew
    else NoSlotThere
  }

  /** The address in the position's slot, and the two adjacents. */
  datatype Entry = Entry(slot: Option<string>, left: Node, right: Node)

  function SlotOf(t: Info, q: Position): Option<string>
  {
    match KindOf(t, q)
    case AtParent => t.parent.address
    case AtChild => Find(t.children, q)
    case AtNeighbor => Find(t.neighbors, q)
    case AtNephew => Find(t.neighborChildren, q)
    case NoSlotThere => None
  }

  function EntryOf(t: Info, q: Position): Entry
  {
    Entry(SlotOf(t, q), t.left, t.right)
  }

  /** Own children and table neighbours are asked before the adjacents, the neighbours' children after them. */
  function Read(kind: Kind, q: Position, e: Entry): Option<string>
  {
    var adjacent := First(AddressAt(e.left, q), AddressAt(e.right, q));
    match kind
    case AtParent => e.slot
    case AtNephew => First(adjacent, e.slot)
    case _ => First(e.slot, adjacent)
  }

  predicate Touches(m: nat, n: Node, q: Position)
  {
    n.placed && n.fanout == m && n.position == q
  }

  /** Whether an operation writes to the slot at q, and then what. */
  function Writes(m: nat, kind: Kind, q: Position, c: Call): Option<Option<string>>
    requires m >= 2
  {
    match c
    case SetParent(n) => if kind == AtParent && n.Initialized() && Touches(m, n, q) then Some(n.address) else None
    case SetChild(n, i) =>
      if kind == AtChild && n.Initialized() && Touches(m, n, q) && i == q.number % m then Some(n.address) else None
    case StoreNeighbor(n) => if kind == AtNeighbor && n.Initialized() && Touches(m, n, q) then Some(n.address) else None
    case StoreNeighborChild(n) =>
      if kind == AtNephew && n.Initialized() && Touches(m, n, q) then Some(n.address) else None
    case Update(n) => if kind != NoSlotThere && n.Initialized() && Touches(m, n, q) then Some(n.address) else None
    case ResetChild(i) => if kind == AtChild && i == q.number % m then Some(None) else None
    case ResetNeighbor(n) => if kind == AtNeighbor && Touches(m, n, q) then Some(None) else None
    case ResetNeighborChild(n) => if kind == AtNephew && Touches(m, n, q) then Some(None) else None
    case ResetAnyChild(n) => if (kind == AtChild || kind == AtNephew) && Touches(m, n, q) then Some(None) else None
    case Remove(n) => if kind != AtParent && kind != NoSlotThere && Touches(m, n, q) then Some(None) else None
    case _ => None
  }

  /** The adjacents after an operation, of a node with the given parent position. */
  function LeftAfter(self: Node, parent: Option<Position>, left: Node, c: Call): Node
  {
    match c
    case SetLeft(n) => if n.Initialized() && n.fanout == self.fanout && StrictlyLeft(n, self) then n else left
    case ResetLeft => UNSET
    case Update(n) => if n.Initialized() then StoreOne(left, n) else left
    case Remove(n) => if SameLogical(left, n) && parent != Some(n.position) then UNSET else left
    case _ => left
  }

  function RightAfter(self: Node, parent: Option<Position>, right: Node, c: Call): Node
  {
    match c
    case SetRight(n) => if n.Initialized() && n.fanout == self.fanout && StrictlyLeft(self, n) then n else right
    case ResetRight => UNSET
    case Update(n) => if n.Initialized() then StoreOne(right, n) else right
    case Remove(n) => if SameLogical(right, n) && parent != Some(n.position) then UNSET else right
    case _ => right
  }

  function EntryAfter(self: Node, parent: Option<Position>, kind: Kind, q: Position, e: Entry, c: Call): Entry
    requires self.fanout >= 2
  {
    var w := Writes(self.fanout, kind, q, c);
    Entry(if w.Some? then w.value else e.slot,
          LeftAfter(self, parent, e.left, c), RightAfter(self, parent, e.right, c))
  }

  function ReplayEntry(self: Node, parent: Option<Position>, kind: Kind, q: Position, e: Entry, cs: seq<Call>): Entry
    requires self.fanout >= 2
  {
    if cs == [] then e
    else
      EntryAfter(self, parent, kind, q, ReplayEntry(self, parent, kind, q, e, cs[..|cs| - 1]), cs[|cs| - 1])
  }

  // ----- one operation -----

  /** What a Store does to the address found at q. */
  lemma {:induction false} StoredFind(s: seq<Node>, m: nat, n: Node, q: Position)
    requires AllPlaced(s, m)
    ensures Find(Store(s, n), q) == if Touches(m, n, q) && HasSlot(s, q) then n.address else Find(s, q)
  {
    if n.placed && n.fanout == m { TableFind(s, n, q); } else { StoreOther(s, n, m); }
  }

  /** The kinds of slots exclude each other. */
  lemma {:induction false} OneKind(t: Info, q: Position)
    requires Fits(t) && t.self.placed
    ensures HasSlot(t.children, q) <==> KindOf(t, q) == AtChild
    ensures HasSlot(t.neighbors, q) <==> KindOf(t, q) == AtNeighbor
    ensures HasSlot(t.neighborChildren, q) <==> KindOf(t, q) == AtNephew
    ensures KindOf(t, q) == AtChild || KindOf(t, q) == AtNephew ==> q.level == t.self.position.level + 1
    ensures KindOf(t, q) == AtParent ==> q.level + 1 == t.self.position.level
    ensures KindOf(t, q) == AtNeighbor ==> q.level == t.self.position.level
  {
    SlotsApart(t, q);
  }

  lemma {:induction false} ReadIsAnswer(t: Info, q: Position)
    requires Fits(t) && t.self.placed
    ensures Answer(t, q) == Read(KindOf(t, q), q, EntryOf(t, q))
  {
    OneKind(t, q);
    if !HasSlot(t.children, q) { NoSlotFindsNothing(t.children, q); }
    if !HasSlot(t.neighbors, q) { NoSlotFindsNothing(t.neighbors, q); }
    if !HasSlot(t.neighborChildren, q) { NoSlotFindsNothing(t.neighborChildren, q); }
  }

  lemma {:induction false} SameKind(t: Info, u: Info, q: Position)
    requires SameSlots(t, u)
    ensures KindOf(u, q) == KindOf(t, q) && ParentOf(u) == ParentOf(t)
  {
    SamePlacesSlot(u.children, t.children, q);
    SamePlacesSlot(u.neighbors, t.neighbors, q);
    SamePlacesSlot(u.neighborChildren, t.neighborChildren, q);
  }

  /** A state that differs from t only in the children's addresses. */
  lemma {:induction false} ChildrenStored(t: Info, n: Node, q: Position)
    requires Fits(t) && t.self.placed
    ensures var u := t.(children := Store(t.children, n));
      SlotOf(u, q) == if KindOf(t, q) == AtChild && Touches(t.self.fanout, n, q) then n.address else SlotOf(t, q)
  {
    var u := t.(children := Store(t.children, n));
    FitsShaped(t);
    OneKind(t, q);
    SameKind(t, u, q);
    StoredFind(t.children, t.self.fanout, n, q);
  }

  predicate NeighborWritten(t: Info, n: Node, q: Position)
  {
    var u := t.(neighbors := Store(t.neighbors, n));
    SlotOf(u, q) == if KindOf(t, q) == AtNeighbor && Touches(t.self.fanout, n, q) then n.address else SlotOf(t, q)
  }

  predicate NephewWritten(t: Info, n: Node, q: Position)
  {
    var u := t.(neighborChildren := Store(t.neighborChildren, n));
    SlotOf(u, q) == if KindOf(t, q) == AtNephew && Touches(t.self.fanout, n, q) then n.address else SlotOf(t, q)
  }

  lemma {:induction false} NeighborsStored(t: Info, n: Node, q: Position)
    requires Fits(t) && t.self.placed
    ensures NeighborWritten(t, n, q)
  {
    var u := t.(neighbors := Store(t.neighbors, n));
    FitsShaped(t);
    OneKind(t, q);
    SameKind(t, u, q);
    StoredFind(t.neighbors, t.self.fanout, n, q);
  }

  lemma {:induction false} NephewsStored(t: Info, n: Node, q: Position)
    requires Fits(t) && t.self.placed
    ensures NephewWritten(t, n, q)
  {
    var u := t.(neighborChildren := Store(t.neighborChildren, n));
    FitsShaped(t);
    OneKind(t, q);
    SameKind(t, u, q);
    StoredFind(t.neighborChildren, t.self.fanout, n, q);
  }

  /** All three tables at once. */
  lemma {:induction false} TablesStored(t: Info, n: Node, q: Position)
    requires Fits(t) && t.self.placed
    ensures var kind := KindOf(t, q);
      SlotOf(TablesUpdated(t, n), q) ==
      if kind != AtParent && kind != NoSlotThere && Touches(t.self.fanout, n, q) then n.address else SlotOf(t, q)
  {
    var m := t.self.fanout;
    FitsShaped(t);
    OneKind(t, q);
    SameKind(t, TablesUpdated(t, n), q);
    StoredFind(t.children, m, n, q);
    StoredFind(t.neighbors, m, n, q);
    StoredFind(t.neighborChildren, m, n, q);
  }

  /** The slot with index i is the own child at number % fanout == i. */
  lemma {:induction false} ChildIndex(t: Info, i: nat, q: Position)
    requires Fits(t) && t.self.placed && i < t.self.fanout
    ensures i < |t.children| && t.children[i].position.number % t.self.fanout == i
    ensures t.children[i].placed && t.children[i].fanout == t.self.fanout && UniquePositions(t.children)
    ensures KindOf(t, q) == AtChild ==> (t.children[i].position == q <==> i == q.number % t.self.fanout)
  {
    var p, m := t.self.position, t.self.fanout;
    TablesUnique(t);
    ChildAt(p, m, i);
    assert t.children[i].position == Children(p, m)[i];
    if KindOf(t, q) == AtChild {
      TabledIff(t, q);
      OwnChildPlace(p, m, q);
    }
  }

  /** The operation writes to the slot at q as its rule says. */
  predicate WritesItsSlot(t: Info, c: Call, q: Position)
    requires t.self.fanout >= 2
  {
    var w := Writes(t.self.fanout, KindOf(t, q), q, c);
    SlotOf(Apply(t, c), q) == if w.Some? then w.value else SlotOf(t, q)
  }

  lemma {:induction false} SetChildSlot(t: Info, n: Node, i: nat, q: Position)
    requires Fits(t) && t.self.placed && WellPlaced(n)
    ensures WritesItsSlot(t, SetChild(n, i), q)
  {
    if i < t.self.fanout {
      ChildIndex(t, i, q);
      if !Throws(t, SetChild(n, i)) {
        StoredAt(t.children, n, i);
        ChildrenStored(t, n, q);
      }
    }
  }

  lemma {:induction false} ResetChildSlot(t: Info, i: nat, q: Position)
    requires Fits(t) && t.self.placed
    ensures WritesItsSlot(t, ResetChild(i), q)
  {
    if i < t.self.fanout {
      ChildIndex(t, i, q);
      var n := Without(t.children[i]);
      StoredAt(t.children, n, i);
      ChildrenStored(t, n, q);
    }
  }

  lemma {:induction false} ParentStored(t: Info, n: Node, q: Position)
    requires Fits(t) && t.self.placed && n.Initialized()
    ensures var u := t.(parent := StoreOne(t.parent, n));
      && (SlotOf(u, q) == if KindOf(t, q) == AtParent && Touches(t.self.fanout, n, q) then n.address else SlotOf(t, q))
      && KindOf(u, q) == KindOf(t, q)
  {
    FitsShaped(t);
  }

  lemma {:induction false} SetParentSlot(t: Info, n: Node, q: Position)
    requires Fits(t) && t.self.placed && WellPlaced(n)
    ensures WritesItsSlot(t, SetParent(n), q)
  {
    FitsShaped(t);
    if n.Initialized() {
      ParentStored(t, n, q);
      if Throws(t, SetParent(n)) { assert StoreOne(t.parent, n) == t.parent; }
    }
  }

  /** An update writes to the parent's slot and to the tables. */
  lemma {:induction false} UpdateSlot(t: Info, n: Node, q: Position)
    requires Fits(t) && t.self.placed && WellPlaced(n)
    ensures WritesItsSlot(t, Update(n), q)
  {
    if n.Initialized() {
      FitsShaped(t);
      if n.fanout != t.self.fanout {
        OtherFanout(t, n);
      } else {
        TablesStored(t, n, q);
        ParentStored(t, n, q);
        UpdateSplit(t, n, q);
      }
    }
  }

  lemma {:induction false} UpdateSplit(t: Info, n: Node, q: Position)
    requires KindOf(t.(parent := StoreOne(t.parent, n)), q) == KindOf(t, q)
    ensures SlotOf(Updated(t, n), q) ==
      if KindOf(t, q) == AtParent then SlotOf(t.(parent := StoreOne(t.parent, n)), q)
      else SlotOf(TablesUpdated(t, n), q)
  {
    SameKind(t, TablesUpdated(t, n), q);
    var u := t.(parent := StoreOne(t.parent, n));
    SameKind(u, TablesUpdated(u, n), q);
  }

  lemma {:induction false} RemoveUnplaced(t: Info, n: Node, q: Position)
    requires Shaped(t) && t.self.placed && t.self.fanout >= 2 && !n.placed
    ensures WritesItsSlot(t, Remove(n), q)
  {
    OtherFanout(t, n);
  }

  lemma {:induction false} RemoveRule(t: Info, n: Node, q: Position)
    requires t.self.placed && t.self.fanout >= 2 && n.placed
    requires var kind := KindOf(t, q);
      && KindOf(TablesRemoved(t, n), q) == kind
      && (SlotOf(TablesRemoved(t, n), q) ==
          if kind != AtParent && kind != NoSlotThere && Touches(t.self.fanout, n, q) then None else SlotOf(t, q))
      && (SameLogical(t.parent, n) && Touches(t.self.fanout, n, q) ==> kind == AtParent)
    ensures WritesItsSlot(t, Remove(n), q)
  {
    if !Throws(t, Remove(n)) {
      assert SlotOf(Removed(t, n), q) == SlotOf(TablesRemoved(t, n), q);
    }
  }

  lemma {:induction false} RemoveSlot(t: Info, n: Node, q: Position)
    requires Fits(t) && t.self.placed && WellPlaced(n)
    ensures WritesItsSlot(t, Remove(n), q)
  {
    FitsShaped(t);
    if n.placed {
      TablesStored(t, Without(n), q);
      SameKind(t, TablesRemoved(t, n), q);
      RemoveRule(t, n, q);
    } else {
      RemoveUnplaced(t, n, q);
    }
  }

  lemma {:induction false} BelowStored(t: Info, n: Node, q: Position)
    requires Fits(t) && t.self.placed
    ensures var u := t.(children := Store(t.children, n), neighborChildren := Store(t.neighborChildren, n));
      var below := KindOf(t, q) == AtChild || KindOf(t, q) == AtNephew;
      SlotOf(u, q) == if below && Touches(t.self.fanout, n, q) then n.address else SlotOf(t, q)
  {
    FitsShaped(t);
    OneKind(t, q);
    SameKind(t, t.(children := Store(t.children, n), neighborChildren := Store(t.neighborChildren, n)), q);
    StoredFind(t.children, t.self.fanout, n, q);
    StoredFind(t.neighborChildren, t.self.fanout, n, q);
  }

  lemma {:induction false} AnyChildRule(t: Info, n: Node, q: Position)
    requires t.self.placed && t.self.fanout >= 2
    requires var u := Effect(t, ResetAnyChild(n));
      var below := KindOf(t, q) == AtChild || KindOf(t, q) == AtNephew;
      SlotOf(u, q) == if below && Touches(t.self.fanout, n, q) then None else SlotOf(t, q)
    requires KindOf(t, q) == AtChild || KindOf(t, q) == AtNephew ==> q.level == t.self.position.level + 1
    ensures WritesItsSlot(t, ResetAnyChild(n), q)
  {
  }

  lemma {:induction false} AnyChildSlot(t: Info, n: Node, q: Position)
    requires Fits(t) && t.self.placed && WellPlaced(n)
    ensures WritesItsSlot(t, ResetAnyChild(n), q)
  {
    OneKind(t, q);
    BelowStored(t, Without(n), q);
    AnyChildRule(t, n, q);
  }

  lemma {:induction false} StoreNeighborRule(t: Info, n: Node, q: Position)
    requires t.self.placed && t.self.fanout >= 2 && NeighborWritten(t, n, q)
    ensures WritesItsSlot(t, StoreNeighbor(n), q)
  {
  }

  lemma {:induction false} StoreNeighborSlot(t: Info, n: Node, q: Position)
    requires Fits(t) && t.self.placed
    ensures WritesItsSlot(t, StoreNeighbor(n), q)
  {
    NeighborsStored(t, n, q);
    StoreNeighborRule(t, n, q);
  }

  lemma {:induction false} ResetNeighborRule(t: Info, n: Node, q: Position)
    requires t.self.placed && t.self.fanout >= 2 && NeighborWritten(t, Without(n), q)
    ensures WritesItsSlot(t, ResetNeighbor(n), q)
  {
  }

  lemma {:induction false} ResetNeighborSlot(t: Info, n: Node, q: Position)
    requires Fits(t) && t.self.placed
    ensures WritesItsSlot(t, ResetNeighbor(n), q)
  {
    NeighborsStored(t, Without(n), q);
    ResetNeighborRule(t, n, q);
  }

  lemma {:induction false} StoreNephewRule(t: Info, n: Node, q: Position)
    requires t.self.placed && t.self.fanout >= 2 && NephewWritten(t, n, q)
    ensures WritesItsSlot(t, StoreNeighborChild(n), q)
  {
  }

  lemma {:induction false} StoreNephewSlot(t: Info, n: Node, q: Position)
    requires Fits(t) && t.self.placed
    ensures WritesItsSlot(t, StoreNeighborChild(n), q)
  {
    NephewsStored(t, n, q);
    StoreNephewRule(t, n, q);
  }

  lemma {:induction false} ResetNephewRule(t: Info, n: Node, q: Position)
    requires t.self.placed && t.self.fanout >= 2 && NephewWritten(t, Without(n), q)
    ensures WritesItsSlot(t, ResetNeighborChild(n), q)
  {
  }

  lemma {:induction false} ResetNephewSlot(t: Info, n: Node, q: Position)
    requires Fits(t) && t.self.placed
    ensures WritesItsSlot(t, ResetNeighborChild(n), q)
  {
    NephewsStored(t, Without(n), q);
    ResetNephewRule(t, n, q);
  }

  lemma {:induction false} AdjacentSlot(t: Info, c: Call, q: Position)
    requires t.self.fanout >= 2 && (c.SetLeft? || c.SetRight? || c.ResetLeft? || c.ResetRight?)
    ensures WritesItsSlot(t, c, q)
  {
  }

  lemma {:induction false} SlotAfter(t: Info, c: Call, q: Position)
    requires Fits(t) && t.self.placed && WellFormed(c) && !c.Place? && !c.Unplace?
    ensures WritesItsSlot(t, c, q)
  {
    match c {
      case SetParent(n) => SetParentSlot(t, n, q);
      case SetChild(n, i) => SetChildSlot(t, n, i, q);
      case ResetChild(i) => ResetChildSlot(t, i, q);
      case ResetAnyChild(n) => AnyChildSlot(t, n, q);
      case Update(n) => UpdateSlot(t, n, q);
      case Remove(n) => RemoveSlot(t, n, q);
      case StoreNeighbor(n) => StoreNeighborSlot(t, n, q);
      case ResetNeighbor(n) => ResetNeighborSlot(t, n, q);
      case StoreNeighborChild(n) => StoreNephewSlot(t, n, q);
      case ResetNeighborChild(n) => ResetNephewSlot(t, n, q);
      case _ => AdjacentSlot(t, c, q);
    }
  }

  lemma {:induction false} AdjacentsAre(t: Info, c: Call)
    requires Fits(t) && t.self.placed && WellFormed(c) && !c.Place? && !c.Unplace?
    ensures Apply(t, c).left == LeftAfter(t.self, ParentOf(t), t.left, c)
    ensures Apply(t, c).right == RightAfter(t.self, ParentOf(t), t.right, c)
  {
    FitsShaped(t);
  }

  /** Every operation does to the entry of every position exactly what its rule says. */
  lemma {:induction false} CallEntry(t: Info, c: Call, q: Position)
    requires Fits(t) && t.self.placed && WellFormed(c) && !c.Place? && !c.Unplace?
    ensures EntryOf(Apply(t, c), q) == EntryAfter(t.self, ParentOf(t), KindOf(t, q), q, EntryOf(t, q), c)
  {
    SlotAfter(t, c, q);
    AdjacentsAre(t, c);
  }

  // ----- runs -----

  lemma {:induction false} RunEntry(t: Info, cs: seq<Call>, q: Position)
    requires Fits(t) && t.self.placed
    requires forall k :: 0 <= k < |cs| ==> WellFormed(cs[k]) && !cs[k].Place? && !cs[k].Unplace?
    ensures EntryOf(Run(t, cs), q) == ReplayEntry(t.self, ParentOf(t), KindOf(t, q), q, EntryOf(t, q), cs)
  {
    if cs != [] {
      var front, c := cs[..|cs| - 1], cs[|cs| - 1];
      RunEntry(t, front, q);
      RunSlots(t, front);
      RunFits(t, front);
      SameKind(t, Run(t, front), q);
      CallEntry(Run(t, front), c, q);
    }
  }

  /**
  After any run of operations between two changes of position, thrown ones included, the answer at any
  position is read from its replayed entry.
  */
  lemma {:induction false} RunReads(t: Info, cs: seq<Call>, q: Position)
    requires Fits(t) && t.self.placed
    requires forall k :: 0 <= k < |cs| ==> WellFormed(cs[k]) && !cs[k].Place? && !cs[k].Unplace?
    ensures var kind := KindOf(t, q);
      Answer(Run(t, cs), q) == Read(kind, q, ReplayEntry(t.self, ParentOf(t), kind, q, EntryOf(t, q), cs))
  {
    RunEntry(t, cs, q);
    RunSlots(t, cs);
    RunFits(t, cs);
    SameKind(t, Run(t, cs), q);
    ReadIsAnswer(Run(t, cs), q);
  }

  lemma {:induction false} EmptyFinds(ps: seq<Position>, m: nat, q: Position)
    ensures Find(EmptySlots(ps, m), q) == None
  {
    NothingFound(EmptySlots(ps, m), q);
  }

  lemma {:induction false} NothingFound(s: seq<Node>, q: Position)
    requires forall k :: 0 <= k < |s| ==> !s[k].Initialized()
    ensures Find(s, q) == None
  {
    if s != [] { NothingFound(s[1..], q); }
  }

  /** Only a change of position touches the node itself, and it never touches its address. */
  lemma {:induction false} SelfAfter(t: Info, c: Call)
    requires !Throws(t, c)
    ensures Apply(t, c).self ==
      match c
      case Place(n) => Node(n.position, n.fanout, n.placed, t.self.address)
      case Unplace => Node(Position(0, 0), 0, false, t.self.address)
      case _ => t.self
  {
  }

  /** A change of position forgets every answer. */
  lemma {:induction false} PlaceForgets(t: Info, n: Node, q: Position)
    requires WellPlaced(n) && !Throws(t, Place(n))
    ensures Answer(Apply(t, Place(n)), q) == None && Answer(Apply(t, Unplace), q) == None
  {
    var u := Repositioned(t, n);
    var p, m := u.self.position, u.self.fanout;
    if u.self.Initialized() {
      EmptyFinds(Children(p, m), m, q);
      EmptyFinds(Ascending(p, m), m, q);
      EmptyFinds(ChildrenOf(Ascending(p, m), m), m, q);
    }
  }

  // ----- which operations are refused -----

  /** What a placed node accepts, said by the kind of the position that is meant. */
  predicate Accepts(self: Node, kind: Kind, c: Call)
    requires self.fanout >= 2
  {
    var l, m := self.position.level, self.fanout;
    match c
    case Place(n) => PositionValid(n.position, n.fanout)
    case Unplace => true
    case SetParent(n) => n.Initialized() && n.fanout == m && kind == AtParent
    case SetChild(n, i) => n.Initialized() && n.fanout == m && kind == AtChild && i == n.position.number % m
    case SetLeft(n) => n.Initialized() && n.fanout == m && Horizontal(n) < Horizontal(self)
    case SetRight(n) => n.Initialized() && n.fanout == m && Horizontal(self) < Horizontal(n)
    case ResetLeft => true
    case ResetRight => true
    case ResetChild(i) => i < m
    case ResetNeighbor(n) => n.placed
    case ResetNeighborChild(n) => n.placed
    case ResetAnyChild(n) => n.placed && n.position.level == l + 1
    case StoreNeighbor(n) => n.Initialized()
    case StoreNeighborChild(n) => n.Initialized() && n.fanout == m
    case Update(n) => n.Initialized() && (n.position.level == l + 1 ==> n.fanout == m)
    case Remove(n) =>
      if n.placed then !(kind == AtParent && n.fanout == m) else n.position.level != l && n.position.level != l + 1
  }

  /** The position that a call is about. */
  function Meant(c: Call): Position
  {
    match c
    case Unplace | ResetLeft | ResetRight | ResetChild(_) => Position(0, 0)
    case Place(n) => n.position
    case SetParent(n) => n.position
    case SetChild(n, _) => n.position
    case SetLeft(n) => n.position
    case SetRight(n) => n.position
    case ResetNeighbor(n) => n.position
    case ResetNeighborChild(n) => n.position
    case ResetAnyChild(n) => n.position
    case StoreNeighbor(n) => n.position
    case StoreNeighborChild(n) => n.position
    case Update(n) => n.position
    case Remove(n) => n.position
  }

  lemma {:induction false} SetChildAccepted(t: Info, n: Node, i: nat)
    requires Fits(t) && t.self.placed && WellPlaced(n)
    ensures !Throws(t, SetChild(n, i)) <==> Accepts(t.self, KindOf(t, n.position), SetChild(n, i))
  {
    OneKind(t, n.position);
    if i < t.self.fanout {
      ChildIndex(t, i, n.position);
      if SameLogical(t.children[i], n) { assert HasSlot(t.children, n.position); }
    }
  }

  lemma {:induction false} ParentAccepted(t: Info, n: Node)
    requires Shaped(t) && t.self.placed && t.self.fanout >= 2
    ensures n.placed ==>
      (SameLogical(t.parent, n) <==> KindOf(t, n.position) == AtParent && n.fanout == t.self.fanout)
    ensures !Throws(t, SetParent(n)) <==> Accepts(t.self, KindOf(t, n.position), SetParent(n))
  {
  }

  lemma {:induction false} RemoveAccepted(t: Info, n: Node)
    requires Shaped(t) && t.self.placed && t.self.fanout >= 2 && WellPlaced(n)
    requires t.self.position.level > 0 ==> t.parent.position.level + 1 == t.self.position.level
    ensures !Throws(t, Remove(n)) <==> Accepts(t.self, KindOf(t, n.position), Remove(n))
  {
    ParentAccepted(t, n);
  }

  /** A placed node refuses exactly the calls that its tables have no place for. */
  lemma {:induction false} AcceptsIff(t: Info, c: Call)
    requires Fits(t) && t.self.placed && WellFormed(c)
    ensures !Throws(t, c) <==> Accepts(t.self, KindOf(t, Meant(c)), c)
  {
    FitsShaped(t);
    match c {
      case SetParent(n) => ParentAccepted(t, n);
      case SetChild(n, i) => SetChildAccepted(t, n, i);
      case Remove(n) =>
        SlotsApart(t, n.position);
        RemoveAccepted(t, n);
      case _ =>
    }
  }

  /** An unplaced node can be placed, and accepts news of nodes that are on neither its own nor the next level. */
  lemma {:induction false} UnplacedAccepts(t: Info, c: Call)
    requires Fits(t) && !t.self.placed && WellFormed(c)
    ensures !Throws(t, c) ==> c.Place? || c.Unplace? || c.ResetAnyChild? || c.Update? || c.Remove?
    ensures !c.Place? && !c.Unplace? ==> Apply(t, c) == t
    ensures c.Update? ==>
      var l, n := t.self.position.level, c.n;
      !Throws(t, c) <==> n.Initialized() && n.position.level != l && n.position.level != l + 1
  {
  }
}
