/** Seen from outside, the routing information is a map from positions to addresses. */
module RoutingAnswers {
  import opened Results
  import opened Positions
  import opened RoutingTables
  import opened NodeTables
  import opened RoutingState

  function First<T>(a: Option<T>, b: Option<T>): Option<T>
  {
    if a.Some? then a else b
  }

  function AddressAt(n: Node, q: Position): Option<string>
  {
    if n.Initialized() && n.position == q then n.address else None
  }

  /** A parent's answer counts as it is; otherwise the first address found does. */
  function Chain(isParent: bool, parent: Option<string>, children: Option<string>, neighbors: Option<string>,
                 left: Option<string>, right: Option<string>, neighborChildren: Option<string>): Option<string>
  {
    if isParent then parent
    else First(children, First(neighbors, First(left, First(right, neighborChildren))))
  }

  predicate IsParent(t: Info, q: Position)
  {
    t.self.position.level != 0 && t.parent.position == q
  }

  /** The address known for a position. */
  function Answer(t: Info, q: Position): Option<string>
  {
    Chain(IsParent(t, q), t.parent.address, Find(t.children, q), Find(t.neighbors, q),
          AddressAt(t.left, q), AddressAt(t.right, q), Find(t.neighborChildren, q))
  }

  /** The position has a slot of its own. */
  predicate Tabled(t: Info, q: Position)
  {
    || IsParent(t, q)
    || HasSlot(t.children, q) || HasSlot(t.neighbors, q) || HasSlot(t.neighborChildren, q)
  }

  // ----- the slots -----

  lemma {:induction false} HasSlotIff(s: seq<Node>, ps: seq<Position>, m: nat, q: Position)
    requires SlotsAt(s, ps, m)
    ensures HasSlot(s, q) <==> q in ps
  {
    if HasSlot(s, q) {
      var k :| 0 <= k < |s| && s[k].position == q;
      assert ps[k] == q;
    }
    if q in ps {
      var k :| 0 <= k < |ps| && ps[k] == q;
      assert s[k].position == q;
    }
  }

  /** Exactly the parent, the children, the table neighbours and their children are tabled. */
  lemma {:induction false} TabledIff(t: Info, q: Position)
    requires Fits(t) && t.self.placed
    ensures var p, m := t.self.position, t.self.fanout;
      && (HasSlot(t.children, q) <==> q.level > 0 && Parent(q, m) == p)
      && (HasSlot(t.neighbors, q) <==> q in Table(p, m))
      && (HasSlot(t.neighborChildren, q) <==> q.level > 0 && Parent(q, m) in Table(p, m))
      && (p.level != 0 ==> t.parent.position == Parent(p, m))
  {
    var p, m := t.self.position, t.self.fanout;
    HasSlotIff(t.children, Children(p, m), m, q);
    ChildIffParent(q, p, m);
    HasSlotIff(t.neighbors, Ascending(p, m), m, q);
    AscendingIff(p, m, q);
    HasSlotIff(t.neighborChildren, ChildrenOf(Ascending(p, m), m), m, q);
    ChildrenOfIff(Ascending(p, m), m, q);
    if q.level > 0 { AscendingIff(p, m, Parent(q, m)); }
  }

  /** No position has slots of two kinds, and the node has no slot for itself. */
  lemma {:induction false} SlotsApart(t: Info, q: Position)
    requires Fits(t) && t.self.placed
    ensures HasSlot(t.children, q) ==> q.level == t.self.position.level + 1 && !HasSlot(t.neighborChildren, q)
    ensures HasSlot(t.neighbors, q) ==> q.level == t.self.position.level
    ensures HasSlot(t.neighborChildren, q) ==> q.level == t.self.position.level + 1
    ensures t.self.position.level != 0 ==> t.parent.position.level == t.self.position.level - 1
    ensures t.self.position !in Table(t.self.position, t.self.fanout)
  {
    var p, m := t.self.position, t.self.fanout;
    TabledIff(t, q);
    LevelOfTable(p, m, q);
    LevelOfTable(p, m, p);
    if q.level > 0 { LevelOfTable(p, m, Parent(q, m)); }
  }

  lemma {:induction false} LevelOfTable(p: Position, m: nat, q: Position)
    requires m >= 2 && OnTree(p, m)
    ensures q in Table(p, m) ==> q.level == p.level && q != p
  {
    LeftTableIff(p, m, q);
    RightTableIff(p, m, q);
  }

  // ----- updates and removals -----

  ghost predicate AllPlaced(s: seq<Node>, m: nat)
  {
    forall k :: 0 <= k < |s| ==> s[k].placed && s[k].fanout == m
  }

  predicate UnsetOrKnown(n: Node, m: nat)
  {
    n == UNSET || (n.Initialized() && n.fanout == m)
  }

  /** What the answers depend on: all slots are placed in the node's tree, and adjacents are known or unset. */
  ghost predicate Shaped(t: Info)
  {
    var m := t.self.fanout;
    && AllPlaced(t.children, m) && AllPlaced(t.neighbors, m) && AllPlaced(t.neighborChildren, m)
    && (if t.self.position.level == 0 then t.parent == UNSET else t.parent.placed && t.parent.fanout == m)
    && UnsetOrKnown(t.left, m) && UnsetOrKnown(t.right, m)
  }

  lemma {:induction false} FitsShaped(t: Info)
    requires Fits(t) && t.self.placed
    ensures Shaped(t)
  {
  }

  lemma {:induction false} TableFind(s: seq<Node>, n: Node, q: Position)
    requires AllPlaced(s, n.fanout) && n.placed
    ensures Find(Store(s, n), q) == if q == n.position && HasSlot(s, q) then n.address else Find(s, q)
    ensures !HasSlot(s, q) ==> Find(s, q) == None
  {
    FindAfterStore(s, n, q);
    if !HasSlot(s, q) { NoSlotFindsNothing(s, q); }
  }

  /** An update changes the answer at a known position and no other answer. */
  lemma {:induction false} UpdateAnswers(t: Info, n: Node, q: Position)
    requires Shaped(t) && n.Initialized() && n.fanout == t.self.fanout
    ensures Answer(Updated(t, n), q) ==
      if q == n.position && (Tabled(t, q) || Answer(t, q).Some?) then n.address else Answer(t, q)
  {
    TableFind(t.children, n, q);
    TableFind(t.neighbors, n, q);
    TableFind(t.neighborChildren, n, q);
  }

  /** A removal empties the answer at its position and changes no other answer. */
  lemma {:induction false} RemoveAnswers(t: Info, n: Node, q: Position)
    requires Shaped(t) && n.placed && n.fanout == t.self.fanout && !SameLogical(t.parent, n)
    ensures Answer(Removed(t, n), q) == if q == n.position then None else Answer(t, q)
  {
    TableFind(t.children, Without(n), q);
    TableFind(t.neighbors, Without(n), q);
    TableFind(t.neighborChildren, Without(n), q);
  }

  lemma {:induction false} StoreOther(s: seq<Node>, n: Node, m: nat)
    requires AllPlaced(s, m) && !(n.placed && n.fanout == m)
    ensures Store(s, n) == s
  {
    StoreElsewhere(s, n);
  }

  /** Nodes of another fanout are not known at all. */
  lemma {:induction false} OtherFanout(t: Info, n: Node)
    requires Shaped(t) && !(n.placed && n.fanout == t.self.fanout)
    ensures Removed(t, n) == t && (n.placed ==> Updated(t, n) == t)
  {
    var m := t.self.fanout;
    StoreOther(t.children, n, m);
    StoreOther(t.neighbors, n, m);
    StoreOther(t.neighborChildren, n, m);
    StoreOther(t.children, Without(n), m);
    StoreOther(t.neighbors, Without(n), m);
    StoreOther(t.neighborChildren, Without(n), m);
  }

  // ----- runs of updates and removals -----

  /** One entry of the map: an update writes it if it is there, a removal erases it. */
  function Written(m: nat, parent: Option<Position>, tabled: bool, q: Position, a: Option<string>, c: Call)
    : Option<string>
  {
    match c
    case Update(n) =>
      if n.Initialized() && n.fanout == m && n.position == q && (tabled || a.Some?) then n.address else a
    case Remove(n) =>
      if n.placed && n.fanout == m && n.position == q && parent != Some(q) then None else a
    case _ => a
  }

  function Replay(m: nat, parent: Option<Position>, tabled: bool, q: Position, a: Option<string>, cs: seq<Call>)
    : Option<string>
  {
    if cs == [] then a
    else Written(m, parent, tabled, q, Replay(m, parent, tabled, q, a, cs[..|cs| - 1]), cs[|cs| - 1])
  }

  function ParentOf(t: Info): Option<Position>
  {
    if t.self.position.level == 0 then None else Some(t.parent.position)
  }

  /** The positions with a slot, and the node itself, stay what they are. */
  lemma {:induction false} SameTabled(t: Info, u: Info, q: Position)
    requires SameSlots(t, u)
    ensures Tabled(u, q) == Tabled(t, q) && ParentOf(u) == ParentOf(t)
  {
    SamePlacesSlot(u.children, t.children, q);
    SamePlacesSlot(u.neighbors, t.neighbors, q);
    SamePlacesSlot(u.neighborChildren, t.neighborChildren, q);
  }

  lemma {:induction false} SamePlacesSlot(s: seq<Node>, t: seq<Node>, q: Position)
    requires SamePlaces(s, t)
    ensures HasSlot(s, q) == HasSlot(t, q)
  {
    if HasSlot(s, q) {
      var k :| 0 <= k < |s| && s[k].position == q;
      assert t[k].position == q;
    }
    if HasSlot(t, q) {
      var k :| 0 <= k < |t| && t[k].position == q;
      assert s[k].position == q;
    }
  }

  lemma {:induction false} CallAnswers(t: Info, c: Call, q: Position)
    requires Shaped(t) && t.self.placed && (c.Update? || c.Remove?)
    ensures Answer(Apply(t, c), q) == Written(t.self.fanout, ParentOf(t), Tabled(t, q), q, Answer(t, q), c)
  {
    var n, m := c.n, t.self.fanout;
    if !(n.placed && n.fanout == m) {
      OtherFanout(t, n);
    } else if c.Update? && n.Initialized() {
      UpdateAnswers(t, n, q);
    } else if c.Remove? && !SameLogical(t.parent, n) {
      RemoveAnswers(t, n, q);
    }
  }

  lemma {:induction false} RunSlots(t: Info, cs: seq<Call>)
    requires forall k :: 0 <= k < |cs| ==> !cs[k].Place? && !cs[k].Unplace?
    ensures SameSlots(t, Run(t, cs))
  {
    if cs != [] {
      var front, c := cs[..|cs| - 1], cs[|cs| - 1];
      RunSlots(t, front);
      var u := Run(t, front);
      if !Throws(u, c) {
        SlotsStay(u, c);
        SameSlotsTransitive(t, u, Effect(u, c));
      }
    }
  }

  lemma {:induction false} SameSlotsTransitive(t: Info, u: Info, v: Info)
    requires SameSlots(t, u) && SameSlots(u, v)
    ensures SameSlots(t, v)
  {
  }

  lemma {:induction false} RunShaped(t: Info, cs: seq<Call>)
    requires Fits(t) && t.self.Initialized()
    requires forall k :: 0 <= k < |cs| ==> WellFormed(cs[k]) && (cs[k].Update? || cs[k].Remove?)
    ensures Shaped(Run(t, cs)) && SameSlots(t, Run(t, cs))
  {
    RunFits(t, cs);
    RunSlots(t, cs);
    FitsShaped(Run(t, cs));
  }

  /** After any run of updates and removals, every answer is what replaying the run on a map gives. */
  lemma {:induction false} RunAnswers(t: Info, cs: seq<Call>, q: Position)
    requires Fits(t) && t.self.Initialized()
    requires forall k :: 0 <= k < |cs| ==> WellFormed(cs[k]) && (cs[k].Update? || cs[k].Remove?)
    ensures Answer(Run(t, cs), q) == Replay(t.self.fanout, ParentOf(t), Tabled(t, q), q, Answer(t, q), cs)
  {
    if cs != [] {
      var front, c := cs[..|cs| - 1], cs[|cs| - 1];
      RunAnswers(t, front, q);
      RunShaped(t, front);
      SameTabled(t, Run(t, front), q);
      CallAnswers(Run(t, front), c, q);
    }
  }
}
