/** The lists of known nodes that are searched for a position. */
module RoutingLists {
  import opened Arith
  import opened Results
  import opened Positions
  import opened InOrderMap
  import opened RoutingTables
  import opened NodeTables
  import opened RoutingState
  import opened RoutingAnswers

  /** copy_if of the initialized nodes. */
  function Existing(s: seq<Node>): (r: seq<Node>)
    ensures forall k :: 0 <= k < |r| ==> r[k] in s && r[k].Initialized()
  {
    if s == [] then [] else (if s[0].Initialized() then [s[0]] else []) + Existing(s[1..])
  }

  predicate Contains(s: seq<Node>, n: Node)
  {
    exists k :: 0 <= k < |s| && SameLogical(n, s[k])
  }

  function WithAdjacent(s: seq<Node>, n: Node): seq<Node>
  {
    if n.Initialized() && !Contains(s, n) then s + [n] else s
  }

  function Kin(t: Info): seq<Node>
  {
    (if t.self.position.level != 0 then [t.parent] else []) + Existing(t.children) + Existing(t.neighbors)
  }

  /** getAllUniqueSymmetricalExistingNeighbors. */
  function Symmetrical(t: Info): seq<Node>
  {
    WithAdjacent(WithAdjacent(Kin(t), t.left), t.right)
  }

  /** getAllUniqueKnownExistingNeighbors. */
  function Known(t: Info): seq<Node>
  {
    Symmetrical(t) + Existing(t.neighborChildren)
  }

  /** find_if by level and number. */
  function FirstAt(s: seq<Node>, q: Position): Option<Node>
  {
    if s == [] then None else if s[0].position == q then Some(s[0]) else FirstAt(s[1..], q)
  }

  /** getNodeInfoByPosition. */
  function GetNodeInfoByPosition(t: Info, q: Position): (r: Result<Node>)
  {
    if !t.self.placed then Err("RoutingInformation not initialized")
    else if !PositionValid(q, t.self.fanout) then Err("Invalid Node Position")
    else match FirstAt(Known(t), q)
      case Some(n) => Ok(n)
      case None => Ok(UNSET)
  }

  // ----- searching the lists gives the answer -----

  function AddressOf(n: Option<Node>): Option<string>
  {
    if n.Some? then n.value.address else None
  }

  function NodeAt(n: Node, q: Position): Option<Node>
  {
    if n.Initialized() && n.position == q then Some(n) else None
  }

  lemma {:induction false} FirstConcat(a: seq<Node>, b: seq<Node>, q: Position)
    ensures FirstAt(a + b, q) == First(FirstAt(a, q), FirstAt(b, q))
  {
    if a == [] {
      assert a + b == b;
    } else {
      assert (a + b)[1..] == a[1..] + b;
      FirstConcat(a[1..], b, q);
    }
  }

  lemma {:induction false} FirstIff(s: seq<Node>, q: Position)
    ensures FirstAt(s, q).Some? <==> HasSlot(s, q)
    ensures FirstAt(s, q).Some? ==> FirstAt(s, q).value.position == q && FirstAt(s, q).value in s
  {
    if s != [] {
      FirstIff(s[1..], q);
      if HasSlot(s[1..], q) {
        var k :| 0 <= k < |s[1..]| && s[1..][k].position == q;
        assert s[k + 1].position == q;
      }
      if s[0].position != q && HasSlot(s, q) {
        var k :| 0 <= k < |s| && s[k].position == q;
        assert s[1..][k - 1].position == q;
      }
    }
  }

  lemma {:induction false} FirstExisting(s: seq<Node>, q: Position)
    ensures AddressOf(FirstAt(Existing(s), q)) == Find(s, q)
    ensures FirstAt(Existing(s), q).Some? <==> Find(s, q).Some?
  {
    if s != [] {
      FirstExisting(s[1..], q);
      if s[0].Initialized() {
        assert Existing(s) == [s[0]] + Existing(s[1..]);
        FirstConcat([s[0]], Existing(s[1..]), q);
        assert [s[0]][1..] == [];
      } else {
        assert Existing(s) == Existing(s[1..]);
      }
    }
  }

  lemma {:induction false} FirstWithAdjacent(s: seq<Node>, n: Node, m: nat, q: Position)
    requires UnsetOrKnown(n, m)
    ensures FirstAt(WithAdjacent(s, n), q) == First(FirstAt(s, q), NodeAt(n, q))
  {
    if n.Initialized() {
      if Contains(s, n) {
        var k :| 0 <= k < |s| && SameLogical(n, s[k]);
        if q == n.position {
          assert s[k].position == q;
          FirstIff(s, q);
        }
      } else {
        FirstConcat(s, [n], q);
        assert [n][1..] == [];
      }
    }
  }

  lemma {:induction false} FirstKin(t: Info, q: Position)
    ensures FirstAt(Kin(t), q) ==
      First(if IsParent(t, q) then Some(t.parent) else None,
            First(FirstAt(Existing(t.children), q), FirstAt(Existing(t.neighbors), q)))
  {
    var head := if t.self.position.level != 0 then [t.parent] else [];
    FirstConcat(head, Existing(t.children), q);
    FirstConcat(head + Existing(t.children), Existing(t.neighbors), q);
    assert [t.parent][1..] == [];
  }

  lemma {:induction false} FirstKnown(t: Info, q: Position)
    requires Shaped(t)
    ensures FirstAt(Known(t), q) ==
      First(First(First(FirstAt(Kin(t), q), NodeAt(t.left, q)), NodeAt(t.right, q)),
            FirstAt(Existing(t.neighborChildren), q))
  {
    FirstWithAdjacent(Kin(t), t.left, t.self.fanout, q);
    FirstWithAdjacent(WithAdjacent(Kin(t), t.left), t.right, t.self.fanout, q);
    FirstConcat(Symmetrical(t), Existing(t.neighborChildren), q);
  }

  /** Searching the list finds the address that the slots hold for the position. */
  lemma {:induction false} LookupIsAnswer(t: Info, q: Position)
    requires Shaped(t)
    ensures AddressOf(FirstAt(Known(t), q)) == Answer(t, q)
  {
    FirstKnown(t, q);
    FirstKin(t, q);
    FirstExisting(t.children, q);
    FirstExisting(t.neighbors, q);
    FirstExisting(t.neighborChildren, q);
  }

  /** A node asked for by a valid position: its address is the answer, and if one is known it is at that position. */
  lemma {:induction false} GetNodeInfoIsAnswer(t: Info, q: Position)
    requires Fits(t) && t.self.placed && PositionValid(q, t.self.fanout)
    ensures GetNodeInfoByPosition(t, q).Ok?
    ensures GetNodeInfoByPosition(t, q).value.address == Answer(t, q)
    ensures Answer(t, q).Some? ==> GetNodeInfoByPosition(t, q).value.position == q
  {
    FitsShaped(t);
    LookupIsAnswer(t, q);
    FirstIff(Known(t), q);
  }

  // ----- how far the lists are free of duplicates -----

  ghost predicate UniquePositions(s: seq<Node>)
  {
    forall a, b :: 0 <= a < b < |s| ==> s[a].position != s[b].position
  }

  lemma {:induction false} UniqueConcat(a: seq<Node>, b: seq<Node>)
    requires UniquePositions(a) && UniquePositions(b)
    requires forall i, j :: 0 <= i < |a| && 0 <= j < |b| ==> a[i].position != b[j].position
    ensures UniquePositions(a + b)
  {
  }

  lemma {:induction false} UniqueExisting(s: seq<Node>)
    requires UniquePositions(s)
    ensures UniquePositions(Existing(s))
  {
    if s != [] {
      var tail := Existing(s[1..]);
      UniqueExisting(s[1..]);
      forall j | 0 <= j < |tail|
        ensures tail[j].position != s[0].position
      {
        assert tail[j] in s[1..];
        var k :| 0 <= k < |s[1..]| && s[1..][k] == tail[j];
        assert s[k + 1] == tail[j];
      }
    }
  }

  ghost predicate OnLevel(s: seq<Node>, level: int)
  {
    forall k :: 0 <= k < |s| ==> s[k].position.level == level
  }

  lemma {:induction false} TableUnique(s: seq<Node>, ps: seq<Position>, m: nat, level: nat)
    requires SlotsAt(s, ps, m) && NumbersIncrease(ps, level)
    ensures UniquePositions(s) && OnLevel(s, level)
  {
  }

  lemma {:induction false} TablesUnique(t: Info)
    requires Fits(t) && t.self.placed
    ensures UniquePositions(t.children) && OnLevel(t.children, t.self.position.level + 1)
    ensures UniquePositions(t.neighbors) && OnLevel(t.neighbors, t.self.position.level)
    ensures UniquePositions(t.neighborChildren) && OnLevel(t.neighborChildren, t.self.position.level + 1)
  {
    var p, m := t.self.position, t.self.fanout;
    TableUnique(t.children, Children(p, m), m, p.level + 1);
    AscendingIncreases(p, m);
    TableUnique(t.neighbors, Ascending(p, m), m, p.level);
    ChildrenIncrease(Ascending(p, m), m, p.level);
    TableUnique(t.neighborChildren, ChildrenOf(Ascending(p, m), m), m, p.level + 1);
  }

  lemma {:induction false} ExistingOnLevel(s: seq<Node>, level: int)
    requires OnLevel(s, level)
    ensures OnLevel(Existing(s), level)
  {
    forall k | 0 <= k < |Existing(s)|
      ensures Existing(s)[k].position.level == level
    {
      var i :| 0 <= i < |s| && s[i] == Existing(s)[k];
    }
  }

  lemma {:induction false} KinUnique(t: Info)
    requires UniquePositions(t.children) && OnLevel(t.children, t.self.position.level + 1)
    requires UniquePositions(t.neighbors) && OnLevel(t.neighbors, t.self.position.level)
    requires t.self.position.level != 0 ==> t.parent.position.level == t.self.position.level - 1
    ensures UniquePositions(Kin(t))
  {
    var head := if t.self.position.level != 0 then [t.parent] else [];
    UniqueExisting(t.children);
    UniqueExisting(t.neighbors);
    ExistingOnLevel(t.children, t.self.position.level + 1);
    ExistingOnLevel(t.neighbors, t.self.position.level);
    UniqueConcat(head, Existing(t.children));
    UniqueConcat(head + Existing(t.children), Existing(t.neighbors));
  }

  lemma {:induction false} AdjacentUnique(s: seq<Node>, n: Node, m: nat)
    requires UniquePositions(s) && AllPlaced(s, m) && UnsetOrKnown(n, m)
    ensures UniquePositions(WithAdjacent(s, n)) && AllPlaced(WithAdjacent(s, n), m)
  {
    if n.Initialized() && !Contains(s, n) {
      UniqueConcat(s, [n]);
    }
  }

  lemma {:induction false} ExistingPlaced(s: seq<Node>, m: nat)
    requires AllPlaced(s, m)
    ensures AllPlaced(Existing(s), m)
  {
    forall k | 0 <= k < |Existing(s)|
      ensures Existing(s)[k].placed && Existing(s)[k].fanout == m
    {
      var i :| 0 <= i < |s| && s[i] == Existing(s)[k];
    }
  }

  /** The symmetrical neighbours are listed without duplicates. */
  lemma {:induction false} SymmetricalUnique(t: Info)
    requires Fits(t) && t.self.placed
    ensures UniquePositions(Symmetrical(t))
  {
    TablesUnique(t);
    KinUnique(t);
    FitsShaped(t);
    ExistingPlaced(t.children, t.self.fanout);
    ExistingPlaced(t.neighbors, t.self.fanout);
    AdjacentUnique(Kin(t), t.left, t.self.fanout);
    AdjacentUnique(WithAdjacent(Kin(t), t.left), t.right, t.self.fanout);
  }

  /** An adjacent node is also known as the child of a table neighbour. */
  predicate Doubled(t: Info)
  {
    || (t.left.Initialized() && Find(t.neighborChildren, t.left.position).Some?)
    || (t.right.Initialized() && Find(t.neighborChildren, t.right.position).Some?)
  }

  lemma {:induction false} SymmetricalSlot(t: Info, q: Position)
    requires Shaped(t)
    ensures HasSlot(Symmetrical(t), q) <==> HasSlot(Kin(t), q) || NodeAt(t.left, q).Some? || NodeAt(t.right, q).Some?
  {
    FirstWithAdjacent(Kin(t), t.left, t.self.fanout, q);
    FirstWithAdjacent(WithAdjacent(Kin(t), t.left), t.right, t.self.fanout, q);
    FirstIff(Symmetrical(t), q);
    FirstIff(Kin(t), q);
  }

  lemma {:induction false} ExistingSlot(s: seq<Node>, q: Position)
    ensures HasSlot(Existing(s), q) <==> Find(s, q).Some?
    ensures HasSlot(Existing(s), q) ==> HasSlot(s, q)
  {
    FirstExisting(s, q);
    FirstIff(Existing(s), q);
    if !HasSlot(s, q) { NoSlotFindsNothing(s, q); }
  }

  lemma {:induction false} KinSlot(t: Info, q: Position)
    ensures HasSlot(Kin(t), q) ==> IsParent(t, q) || HasSlot(t.children, q) || HasSlot(t.neighbors, q)
  {
    FirstKin(t, q);
    FirstIff(Kin(t), q);
    FirstIff(Existing(t.children), q);
    FirstIff(Existing(t.neighbors), q);
    ExistingSlot(t.children, q);
    ExistingSlot(t.neighbors, q);
  }

  /** The two parts of the list share a position only through an adjacent. */
  lemma {:induction false} SharedIff(t: Info, q: Position)
    requires Fits(t) && t.self.placed
    ensures HasSlot(Symmetrical(t), q) && HasSlot(Existing(t.neighborChildren), q) <==>
      Find(t.neighborChildren, q).Some? && (NodeAt(t.left, q).Some? || NodeAt(t.right, q).Some?)
  {
    FitsShaped(t);
    SymmetricalSlot(t, q);
    ExistingSlot(t.neighborChildren, q);
    KinSlot(t, q);
    SlotsApart(t, q);
  }

  lemma {:induction false} SharedNotUnique(a: seq<Node>, b: seq<Node>, q: Position)
    requires HasSlot(a, q) && HasSlot(b, q)
    ensures !UniquePositions(a + b)
  {
    var i :| 0 <= i < |a| && a[i].position == q;
    var j :| 0 <= j < |b| && b[j].position == q;
    assert (a + b)[i].position == (a + b)[|a| + j].position;
  }

  /** The list of all known neighbours is free of duplicates exactly when no adjacent is doubled. */
  lemma {:induction false} KnownUniqueIff(t: Info)
    requires Fits(t) && t.self.placed
    ensures UniquePositions(Known(t)) <==> !Doubled(t)
  {
    var a, b := Symmetrical(t), Existing(t.neighborChildren);
    if Doubled(t) {
      var known := t.left.Initialized() && Find(t.neighborChildren, t.left.position).Some?;
      var q := if known then t.left.position else t.right.position;
      SharedIff(t, q);
      SharedNotUnique(a, b, q);
    } else {
      SymmetricalUnique(t);
      TablesUnique(t);
      UniqueExisting(t.neighborChildren);
      forall i, j | 0 <= i < |a| && 0 <= j < |b|
        ensures a[i].position != b[j].position
      {
        if a[i].position == b[j].position {
          SharedIff(t, a[i].position);
          assert false;
        }
      }
      UniqueConcat(a, b);
    }
  }

  /** A left adjacent that is the child of a table neighbour is listed twice as soon as it is updated. */
  lemma {:induction false} AdjacentNephewDoubles(t: Info, n: Node)
    requires Fits(t) && t.self.Initialized() && t.left == n && n.Initialized()
    requires n.position.level > 0 && t.self.fanout >= 2
    requires Parent(n.position, t.self.fanout) in Table(t.self.position, t.self.fanout)
    ensures Fits(Updated(t, n)) && !UniquePositions(Known(Updated(t, n)))
  {
    FitsShaped(t);
    assert n.fanout == t.self.fanout;
    ApplyFits(t, Update(n));
    TabledIff(t, n.position);
    TableFind(t.neighborChildren, n, n.position);
    KnownUniqueIff(Updated(t, n));
  }

  const MIDDLE := Node(Position(1, 1), 3, true, Some("middle"))
  const NEPHEW := Node(Position(2, 2), 3, true, Some("nephew"))

  lemma {:induction false} NephewIsTabled()
    ensures PositionValid(MIDDLE.position, 3) && PositionValid(NEPHEW.position, 3)
    ensures StrictlyLeft(NEPHEW, MIDDLE) && Parent(NEPHEW.position, 3) in Table(MIDDLE.position, 3)
  {
    assert Pow(3, 1) == 3 * Pow(3, 0) && Pow(3, 2) == 3 * Pow(3, 1);
    OrderIsRank(NEPHEW.position, MIDDLE.position, 3, ROOT_VALUE, 2);
    assert Pow(3, 2 - 1) == 3;
    TableIff(MIDDLE.position, 3, Position(1, 0));
  }

  /** The middle of three nodes, with its left sibling's last child as left adjacent, lists that child twice. */
  lemma {:induction false} KnownListsTwice()
    ensures var t := Updated(Fresh(MIDDLE).(left := NEPHEW), NEPHEW);
      Fits(t) && t.self.placed && !UniquePositions(Known(t))
  {
    NephewIsTabled();
    AdjacentNephewDoubles(Fresh(MIDDLE).(left := NEPHEW), NEPHEW);
  }
}
