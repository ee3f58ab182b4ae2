/** The evaluation's tree of the nodes of a network, and whether its subtrees have similar heights. */
module HeightCheck {
  import opened Arith
  import opened Results
  import opened Positions

  datatype Tree = Tree(position: Position, children: seq<Option<Tree>>)

  function Leaf(p: Position, m: nat): Tree
  {
    Tree(p, seq(m, (_: nat) => None))
  }

  /** The number of the node on the level below t through which a deeper position is reached. */
  function Forward(level: nat, q: Position, m: nat): nat
    requires m >= 2
  {
    if q.level > level + 1 then Ancestor(q, m, q.level - level - 1).number else q.number / m
  }

  /** Adding a position: nothing results when the node it must be forwarded to is missing. */
  function Added(t: Tree, q: Position, m: nat): Option<Tree>
    requires m >= 2
  {
    if |t.children| != m then None
    else if q.level == t.position.level + 1 then
      Some(t.(children := t.children[q.number % m := Some(Leaf(q, m))]))
    else
      var j := Forward(t.position.level, q, m) % m;
      match t.children[j]
      case None => None
      case Some(c) =>
        match Added(c, q, m)
        case None => None
        case Some(r) => Some(t.(children := t.children[j := Some(r)]))
  }

  ghost predicate Holds(t: Tree, q: Position)
  {
    t.position == q || exists j :: 0 <= j < |t.children| && t.children[j].Some? && Holds(t.children[j].value, q)
  }

  function MaxOf(s: seq<nat>): nat
  {
    if s == [] then 0
    else
      var a, b := MaxOf(s[..|s| - 1]), s[|s| - 1];
      if a >= b then a else b
  }

  function MinOf(s: seq<nat>): nat
    requires s != []
  {
    if |s| == 1 then s[0]
    else
      var a, b := MinOf(s[..|s| - 1]), s[|s| - 1];
      if a <= b then a else b
  }

  /** MaxOf is the largest entry, or 0 if there is none. */
  lemma {:induction false} MaxIsLargest(s: seq<nat>)
    ensures if s == [] then MaxOf(s) == 0 else MaxOf(s) in s
    ensures forall j :: 0 <= j < |s| ==> s[j] <= MaxOf(s)
  {
    if s != [] { MaxIsLargest(s[..|s| - 1]); }
  }

  /** MinOf is the smallest entry. */
  lemma {:induction false} MinIsSmallest(s: seq<nat>)
    requires s != []
    ensures MinOf(s) in s
    ensures forall j :: 0 <= j < |s| ==> MinOf(s) <= s[j]
  {
    if |s| > 1 { MinIsSmallest(s[..|s| - 1]); }
  }

  function Height(t: Tree): nat
  {
    1 + MaxOf(Heights(t.children))
  }

  /** The heights of the children, 0 for a missing one. */
  function Heights(cs: seq<Option<Tree>>): (hs: seq<nat>)
    ensures |hs| == |cs| && forall j :: 0 <= j < |cs| ==> hs[j] == HeightOf(cs[j])
  {
    if cs == [] then [] else Heights(cs[..|cs| - 1]) + [HeightOf(cs[|cs| - 1])]
  }

  function HeightOf(c: Option<Tree>): nat
  {
    match c case None => 0 case Some(t) => Height(t)
  }

  /** The heights of the first n children. */
  predicate HeightsBefore(hs: seq<nat>, cs: seq<Option<Tree>>, n: nat)
  {
    |hs| == n <= |cs| && forall j :: 0 <= j < n ==> hs[j] == HeightOf(cs[j])
  }

  /** The first n children are balanced as far as they exist. */
  predicate AllBalanced(cs: seq<Option<Tree>>, n: nat)
    requires n <= |cs|
  {
    forall j :: 0 <= j < n && cs[j].Some? ==> Balanced(cs[j].value)
  }

  predicate Balanced(t: Tree)
  {
    && (forall j :: 0 <= j < |t.children| && t.children[j].Some? ==> Balanced(t.children[j].value))
    && (t.children == [] || MaxOf(Heights(t.children)) - MinOf(Heights(t.children)) <= 1)
  }

  // ----- the tree of a set of positions -----

  function Child(p: Position, m: nat, j: nat): Position
  {
    Position(p.level + 1, p.number * m + j)
  }

  /** The subtree of p, down to d levels below it, that holds the positions of the set. */
  function TreeOf(ps: set<Position>, p: Position, d: nat, m: nat): Tree
    decreases d
  {
    Tree(p, seq(m, (j: nat) =>
      if d > 0 && Child(p, m, j) in ps then Some(TreeOf(ps, Child(p, m, j), d - 1, m)) else None))
  }

  lemma {:induction false} ChildDescends(q: Position, p: Position, m: nat, j: nat)
    requires m >= 2 && j < m && (q == Child(p, m, j) || Descends(q, Child(p, m, j), m))
    ensures Descends(q, p, m)
  {
    var c := Child(p, m, j);
    ChildAt(p, m, j);
    assert c == Children(p, m)[j];
    AncestorStep(q, m, q.level - c.level);
  }

  /** The child of p on the way to a position below p. */
  lemma {:induction false} WayDown(q: Position, p: Position, m: nat)
    requires m >= 2 && Descends(q, p, m)
    ensures var a := Ancestor(q, m, q.level - p.level - 1);
      a == Child(p, m, a.number % m) && (q == a || Descends(q, a, m)) && (q == a <==> q.level == p.level + 1)
  {
    var k := q.level - p.level - 1;
    var a := Ancestor(q, m, k);
    AncestorBlock(q, m, k);
    AncestorStep(q, m, k);
    assert a.number == (a.number / m) * m + a.number % m;
  }

  /** Positions that are not below p do not matter for its subtree. */
  lemma {:induction false} TreeOfElsewhere(ps: set<Position>, q: Position, p: Position, d: nat, m: nat)
    requires m >= 2 && !Descends(q, p, m)
    ensures TreeOf(ps + {q}, p, d, m) == TreeOf(ps, p, d, m)
    decreases d
  {
    forall j | 0 <= j < m
      ensures TreeOf(ps + {q}, p, d, m).children[j] == TreeOf(ps, p, d, m).children[j]
    {
      var c := Child(p, m, j);
      if q == c || Descends(q, c, m) {
        ChildDescends(q, p, m, j);
      } else if d > 0 {
        TreeOfElsewhere(ps, q, c, d - 1, m);
      }
    }
  }

  lemma {:induction false} TreeOfLeaf(ps: set<Position>, p: Position, d: nat, m: nat)
    requires forall s :: s in ps ==> s.level <= p.level
    ensures TreeOf(ps, p, d, m) == Leaf(p, m)
  {
    assert forall j: nat :: Child(p, m, j).level > p.level;
  }

  /** The children of p other than the one on the way to q stay as they are when q is added. */
  lemma {:induction false} OtherChildren(ps: set<Position>, q: Position, p: Position, d: nat, m: nat, i: nat)
    requires m >= 2 && d > 0 && i < m && (q == Child(p, m, i) || Descends(q, Child(p, m, i), m))
    ensures forall j :: 0 <= j < m && j != i ==>
      TreeOf(ps + {q}, p, d, m).children[j] == TreeOf(ps, p, d, m).children[j]
  {
    forall j | 0 <= j < m && j != i
      ensures TreeOf(ps + {q}, p, d, m).children[j] == TreeOf(ps, p, d, m).children[j]
    {
      var c := Child(p, m, j);
      OneWayDown(q, p, m, i, j);
      TreeOfElsewhere(ps, q, c, d - 1, m);
    }
  }

  lemma {:induction false} OneWayDown(q: Position, p: Position, m: nat, i: nat, j: nat)
    requires m >= 2 && i < m && j < m && i != j
    requires q == Child(p, m, i) || Descends(q, Child(p, m, i), m)
    ensures q != Child(p, m, j) && !Descends(q, Child(p, m, j), m)
  {
  }

  lemma {:induction false} AddedLeaf(ps: set<Position>, q: Position, p: Position, d: nat, m: nat)
    requires m >= 2 && d > 0 && Descends(q, p, m) && q.level == p.level + 1
    requires forall s :: s in ps ==> s.level <= q.level
    ensures Added(TreeOf(ps, p, d, m), q, m) == Some(TreeOf(ps + {q}, p, d, m))
  {
    var t, u, i := TreeOf(ps, p, d, m), TreeOf(ps + {q}, p, d, m), q.number % m;
    WayDown(q, p, m);
    OtherChildren(ps, q, p, d, m, i);
    TreeOfLeaf(ps + {q}, q, d - 1, m);
    assert u.children == t.children[i := Some(Leaf(q, m))];
  }

  lemma {:induction false} AddedDeeper(ps: set<Position>, q: Position, p: Position, d: nat, m: nat, a: Position)
    requires m >= 2 && d > 0 && Descends(q, p, m) && q.level > p.level + 1
    requires a == Ancestor(q, m, q.level - p.level - 1) && a in ps
    requires Added(TreeOf(ps, a, d - 1, m), q, m) == Some(TreeOf(ps + {q}, a, d - 1, m))
    ensures Added(TreeOf(ps, p, d, m), q, m) == Some(TreeOf(ps + {q}, p, d, m))
  {
    var t, u, i := TreeOf(ps, p, d, m), TreeOf(ps + {q}, p, d, m), a.number % m;
    WayDown(q, p, m);
    OtherChildren(ps, q, p, d, m, i);
    assert t.children[i] == Some(TreeOf(ps, a, d - 1, m));
    assert u.children[i] == Some(TreeOf(ps + {q}, a, d - 1, m));
    assert u.children == t.children[i := u.children[i]];
  }

  /** Adding positions in the order of their levels builds the tree of the set. */
  lemma {:induction false} AddedToTree(ps: set<Position>, q: Position, p: Position, d: nat, m: nat)
    requires m >= 2 && Descends(q, p, m) && q.level <= p.level + d
    requires forall s :: s in ps ==> s.level <= q.level
    requires forall k: nat :: 0 < k < q.level - p.level ==> Ancestor(q, m, k) in ps
    ensures Added(TreeOf(ps, p, d, m), q, m) == Some(TreeOf(ps + {q}, p, d, m))
    decreases d
  {
    var a := Ancestor(q, m, q.level - p.level - 1);
    WayDown(q, p, m);
    if q == a {
      AddedLeaf(ps, q, p, d, m);
    } else {
      AddedToTree(ps, q, a, d - 1, m);
      AddedDeeper(ps, q, p, d, m, a);
    }
  }

  /** A position is not added if one of the nodes on its way down is missing. */
  lemma {:induction false} NotAdded(ps: set<Position>, q: Position, p: Position, d: nat, m: nat, k: nat)
    requires m >= 2 && Descends(q, p, m) && q.level <= p.level + d
    requires 0 < k < q.level - p.level && Ancestor(q, m, k) !in ps
    ensures Added(TreeOf(ps, p, d, m), q, m) == None
    decreases d
  {
    var t, a := TreeOf(ps, p, d, m), Ancestor(q, m, q.level - p.level - 1);
    WayDown(q, p, m);
    if a in ps {
      NotAdded(ps, q, a, d - 1, m, k);
      assert t.children[a.number % m] == Some(TreeOf(ps, a, d - 1, m));
    } else {
      assert t.children[a.number % m] == None;
    }
  }

  // ----- what the tree holds -----

  const ROOT := Position(0, 0)

  /** With a position its parent is in the set. */
  ghost predicate Closed(ps: set<Position>, m: nat)
    requires m >= 2
  {
    forall s :: s in ps && s.level > 0 ==> Parent(s, m) in ps
  }

  lemma {:induction false} ClosedAncestor(ps: set<Position>, m: nat, q: Position, k: nat)
    requires m >= 2 && Closed(ps, m) && q in ps && k <= q.level
    ensures Ancestor(q, m, k) in ps
  {
    if k > 0 {
      ClosedAncestor(ps, m, q, k - 1);
      AncestorStep(q, m, k - 1);
    }
  }

  lemma {:induction false} EverythingDescends(q: Position, m: nat)
    requires m >= 2 && OnTree(q, m)
    ensures q == ROOT || Descends(q, ROOT, m)
  {
    if q.level == 0 {
      assert Pow(m, 0) == 1;
    } else {
      AncestorUnique(q, m, q.level, 0);
    }
  }

  lemma {:induction false} HeldIsBelow(ps: set<Position>, p: Position, d: nat, m: nat, q: Position)
    requires m >= 2 && Holds(TreeOf(ps, p, d, m), q) && q != p
    ensures q in ps && Descends(q, p, m)
    decreases d
  {
    var t := TreeOf(ps, p, d, m);
    var j :| 0 <= j < m && t.children[j].Some? && Holds(t.children[j].value, q);
    if q != Child(p, m, j) { HeldIsBelow(ps, Child(p, m, j), d - 1, m, q); }
    ChildDescends(q, p, m, j);
  }

  lemma {:induction false} BelowIsHeld(ps: set<Position>, p: Position, d: nat, m: nat, q: Position)
    requires m >= 2 && Closed(ps, m) && q in ps && Descends(q, p, m) && q.level <= p.level + d
    ensures Holds(TreeOf(ps, p, d, m), q)
    decreases d
  {
    var t, a := TreeOf(ps, p, d, m), Ancestor(q, m, q.level - p.level - 1);
    WayDown(q, p, m);
    ClosedAncestor(ps, m, q, q.level - p.level - 1);
    assert t.children[a.number % m] == Some(TreeOf(ps, a, d - 1, m));
    if q != a { BelowIsHeld(ps, a, d - 1, m, q); }
    assert Holds(TreeOf(ps, a, d - 1, m), q);
  }

  /** The subtree of p holds p and the positions of the set below it. */
  lemma {:induction false} TreeHolds(ps: set<Position>, p: Position, d: nat, m: nat, q: Position)
    requires m >= 2 && Closed(ps, m) && forall s :: s in ps ==> s.level <= p.level + d
    ensures Holds(TreeOf(ps, p, d, m), q) <==> q == p || (q in ps && Descends(q, p, m))
  {
    if Holds(TreeOf(ps, p, d, m), q) && q != p { HeldIsBelow(ps, p, d, m, q); }
    if q in ps && Descends(q, p, m) { BelowIsHeld(ps, p, d, m, q); }
  }

  // ----- heights -----

  ghost predicate Within(u: Tree, t: Tree)
  {
    u == t || exists j :: 0 <= j < |t.children| && t.children[j].Some? && Within(u, t.children[j].value)
  }

  predicate EvenChildren(u: Tree)
  {
    forall i, j :: 0 <= i < |u.children| && 0 <= j < |u.children| ==>
      HeightOf(u.children[i]) <= HeightOf(u.children[j]) + 1
  }

  lemma {:induction false} EvenChildrenIff(t: Tree)
    ensures EvenChildren(t) <==>
      t.children == [] || MaxOf(Heights(t.children)) - MinOf(Heights(t.children)) <= 1
  {
    if t.children != [] {
      var hs := Heights(t.children);
      MaxIsLargest(hs);
      MinIsSmallest(hs);
      var i :| 0 <= i < |hs| && hs[i] == MaxOf(hs);
      var j :| 0 <= j < |hs| && hs[j] == MinOf(hs);
      assert EvenChildren(t) ==> HeightOf(t.children[i]) <= HeightOf(t.children[j]) + 1;
    }
  }

  /** A tree is balanced exactly if in every subtree any two children's heights differ by at most one. */
  lemma {:induction false} BalancedEverywhere(t: Tree)
    ensures Balanced(t) <==> forall u :: Within(u, t) ==> EvenChildren(u)
  {
    EvenChildrenIff(t);
    assert Within(t, t);
    forall j | 0 <= j < |t.children| && t.children[j].Some?
      ensures Balanced(t.children[j].value) <==> forall u :: Within(u, t.children[j].value) ==> EvenChildren(u)
      ensures forall u :: Within(u, t.children[j].value) ==> Within(u, t)
    {
      BalancedEverywhere(t.children[j].value);
    }
  }

  /** Children are one level below their parent. */
  ghost predicate Layered(t: Tree)
  {
    forall j :: 0 <= j < |t.children| && t.children[j].Some? ==>
      t.children[j].value.position.level == t.position.level + 1 && Layered(t.children[j].value)
  }

  lemma {:induction false} HeightBounds(t: Tree, q: Position)
    requires Layered(t) && Holds(t, q)
    ensures t.position.level <= q.level < t.position.level + Height(t)
  {
    if t.position != q {
      var j :| 0 <= j < |t.children| && t.children[j].Some? && Holds(t.children[j].value, q);
      HeightBounds(t.children[j].value, q);
      MaxIsLargest(Heights(t.children));
      assert Heights(t.children)[j] <= MaxOf(Heights(t.children));
    }
  }

  lemma {:induction false} HeightReached(t: Tree) returns (q: Position)
    requires Layered(t)
    ensures Holds(t, q) && q.level + 1 == t.position.level + Height(t)
  {
    var hs := Heights(t.children);
    MaxIsLargest(hs);
    if MaxOf(hs) == 0 {
      q := t.position;
    } else {
      var j :| 0 <= j < |hs| && hs[j] == MaxOf(hs);
      q := HeightReached(t.children[j].value);
    }
  }

  /** Adding positions keeps every child one level below its parent. */
  lemma {:induction false} AddedLayered(t: Tree, q: Position, m: nat)
    requires m >= 2 && Layered(t) && Added(t, q, m).Some?
    ensures Layered(Added(t, q, m).value)
  {
    if q.level != t.position.level + 1 {
      var j := Forward(t.position.level, q, m) % m;
      AddedLayered(t.children[j].value, q, m);
    }
  }

  /** A position that is not below the node is never added. */
  lemma {:induction false} NotAddedUpwards(t: Tree, q: Position, m: nat)
    requires m >= 2 && Layered(t) && q.level <= t.position.level
    ensures Added(t, q, m) == None
  {
    if |t.children| == m {
      var j := Forward(t.position.level, q, m) % m;
      if t.children[j].Some? { NotAddedUpwards(t.children[j].value, q, m); }
    }
  }

  lemma {:induction false} TreeLayered(ps: set<Position>, p: Position, d: nat, m: nat)
    ensures Layered(TreeOf(ps, p, d, m))
    decreases d
  {
    var t := TreeOf(ps, p, d, m);
    forall j | 0 <= j < |t.children| && t.children[j].Some?
      ensures t.children[j].value.position.level == p.level + 1 && Layered(t.children[j].value)
    {
      TreeLayered(ps, Child(p, m, j), d - 1, m);
    }
  }

  predicate AtOrBelow(q: Position, p: Position, m: nat)
    requires m >= 2
  {
    q == p || Descends(q, p, m)
  }

  /** The part of the set at and below c has h levels. */
  ghost predicate HasHeight(ps: set<Position>, c: Position, m: nat, h: nat)
    requires m >= 2
  {
    if c !in ps then h == 0
    else
      && (exists q :: q in ps && AtOrBelow(q, c, m) && q.level + 1 == c.level + h)
      && (forall q :: q in ps && AtOrBelow(q, c, m) ==> q.level < c.level + h)
  }

  /** The height of the tree of a set is the number of levels the set has there. */
  lemma {:induction false} TreeHeight(ps: set<Position>, p: Position, d: nat, m: nat)
    requires m >= 2 && Closed(ps, m) && p in ps && forall s :: s in ps ==> s.level <= p.level + d
    ensures HasHeight(ps, p, m, Height(TreeOf(ps, p, d, m)))
  {
    var t := TreeOf(ps, p, d, m);
    TreeLayered(ps, p, d, m);
    var q := HeightReached(t);
    TreeHolds(ps, p, d, m, q);
    assert q in ps && AtOrBelow(q, p, m);
    forall q | q in ps && AtOrBelow(q, p, m)
      ensures q.level < p.level + Height(t)
    {
      TreeHolds(ps, p, d, m, q);
      HeightBounds(t, q);
    }
  }

  lemma {:induction false} OneHeight(ps: set<Position>, c: Position, m: nat, h: nat, h': nat)
    requires m >= 2 && HasHeight(ps, c, m, h) && HasHeight(ps, c, m, h')
    ensures h == h'
  {
  }

  /** The heights below the children of p differ by at most one. */
  ghost predicate EvenAt(ps: set<Position>, p: Position, m: nat)
    requires m >= 2
  {
    forall i: nat, j: nat, h: nat, g: nat ::
      i < m && j < m && HasHeight(ps, Child(p, m, i), m, h) && HasHeight(ps, Child(p, m, j), m, g) ==> h <= g + 1
  }

  /** At every node the heights below its children differ by at most one. */
  ghost predicate HeightBalanced(ps: set<Position>, m: nat)
    requires m >= 2
  {
    forall p :: p in ps ==> EvenAt(ps, p, m)
  }

  lemma {:induction false} ChildHeight(ps: set<Position>, p: Position, d: nat, m: nat, j: nat)
    requires m >= 2 && j < m && Closed(ps, m) && p in ps && forall s :: s in ps ==> s.level <= p.level + d
    ensures HasHeight(ps, Child(p, m, j), m, HeightOf(TreeOf(ps, p, d, m).children[j]))
  {
    var c := Child(p, m, j);
    if c in ps { TreeHeight(ps, c, d - 1, m); }
  }

  ghost predicate ChildHeights(ps: set<Position>, p: Position, m: nat, hs: seq<nat>)
    requires m >= 2
  {
    |hs| == m && forall j :: 0 <= j < |hs| ==> HasHeight(ps, Child(p, m, j), m, hs[j])
  }

  lemma {:induction false} EvenSpread(ps: set<Position>, p: Position, m: nat, hs: seq<nat>)
    requires m >= 2 && ChildHeights(ps, p, m, hs) && EvenAt(ps, p, m)
    ensures MaxOf(hs) - MinOf(hs) <= 1
  {
    MaxIsLargest(hs);
    MinIsSmallest(hs);
    var i :| 0 <= i < |hs| && hs[i] == MaxOf(hs);
    var j :| 0 <= j < |hs| && hs[j] == MinOf(hs);
    assert HasHeight(ps, Child(p, m, i), m, hs[i]) && HasHeight(ps, Child(p, m, j), m, hs[j]);
  }

  lemma {:induction false} SpreadEven(ps: set<Position>, p: Position, m: nat, hs: seq<nat>)
    requires m >= 2 && ChildHeights(ps, p, m, hs) && MaxOf(hs) - MinOf(hs) <= 1
    ensures EvenAt(ps, p, m)
  {
    MaxIsLargest(hs);
    MinIsSmallest(hs);
    forall i: nat, j: nat, h: nat, g: nat
      | i < m && j < m && HasHeight(ps, Child(p, m, i), m, h) && HasHeight(ps, Child(p, m, j), m, g)
      ensures h <= g + 1
    {
      OneHeight(ps, Child(p, m, i), m, h, hs[i]);
      OneHeight(ps, Child(p, m, j), m, g, hs[j]);
    }
  }

  /** The heights of the children are even exactly if the largest and the smallest are. */
  lemma {:induction false} SpreadIff(ps: set<Position>, p: Position, d: nat, m: nat)
    requires m >= 2 && Closed(ps, m) && p in ps && forall s :: s in ps ==> s.level <= p.level + d
    ensures var hs := Heights(TreeOf(ps, p, d, m).children);
      hs != [] && (MaxOf(hs) - MinOf(hs) <= 1 <==> EvenAt(ps, p, m))
  {
    var hs := Heights(TreeOf(ps, p, d, m).children);
    forall j | 0 <= j < |hs|
      ensures HasHeight(ps, Child(p, m, j), m, hs[j])
    {
      ChildHeight(ps, p, d, m, j);
    }
    if EvenAt(ps, p, m) { EvenSpread(ps, p, m, hs); }
    if MaxOf(hs) - MinOf(hs) <= 1 { SpreadEven(ps, p, m, hs); }
  }

  ghost predicate EvenBelow(ps: set<Position>, p: Position, m: nat)
    requires m >= 2
  {
    forall x :: x in ps && AtOrBelow(x, p, m) ==> EvenAt(ps, x, m)
  }

  /** A position below p is at or below one of the children of p. */
  lemma {:induction false} UnderChild(ps: set<Position>, p: Position, m: nat, x: Position) returns (j: nat)
    requires m >= 2 && Closed(ps, m) && x in ps && Descends(x, p, m)
    ensures j < m && Child(p, m, j) in ps && AtOrBelow(x, Child(p, m, j), m)
  {
    WayDown(x, p, m);
    ClosedAncestor(ps, m, x, x.level - p.level - 1);
    j := Ancestor(x, m, x.level - p.level - 1).number % m;
  }

  lemma {:induction false} EvenBelowIff(ps: set<Position>, p: Position, m: nat)
    requires m >= 2 && Closed(ps, m) && p in ps
    ensures EvenBelow(ps, p, m) <==>
      EvenAt(ps, p, m) && forall j: nat :: j < m && Child(p, m, j) in ps ==> EvenBelow(ps, Child(p, m, j), m)
  {
    if EvenBelow(ps, p, m) {
      forall j: nat, x | j < m && x in ps && AtOrBelow(x, Child(p, m, j), m)
        ensures EvenAt(ps, x, m)
      {
        ChildDescends(x, p, m, j);
      }
    }
    if EvenAt(ps, p, m) && forall j: nat :: j < m && Child(p, m, j) in ps ==> EvenBelow(ps, Child(p, m, j), m) {
      forall x | x in ps && AtOrBelow(x, p, m)
        ensures EvenAt(ps, x, m)
      {
        if x != p {
          var j := UnderChild(ps, p, m, x);
          assert EvenBelow(ps, Child(p, m, j), m);
        }
      }
    }
  }

  /** The tree of a set is balanced exactly if the set is, at and below its root. */
  lemma {:induction false} BalancedIff(ps: set<Position>, p: Position, d: nat, m: nat)
    requires m >= 2 && Closed(ps, m) && p in ps && forall s :: s in ps ==> s.level <= p.level + d
    ensures Balanced(TreeOf(ps, p, d, m)) <==> EvenBelow(ps, p, m)
    decreases d
  {
    var t := TreeOf(ps, p, d, m);
    SpreadIff(ps, p, d, m);
    EvenBelowIff(ps, p, m);
    forall j | 0 <= j < m
      ensures t.children[j].Some? <==> Child(p, m, j) in ps
      ensures t.children[j].Some? ==> (Balanced(t.children[j].value) <==> EvenBelow(ps, Child(p, m, j), m))
    {
      if Child(p, m, j) in ps { BalancedIff(ps, Child(p, m, j), d - 1, m); }
    }
  }

  /** A chain of three nodes under a fanout of two: the heights below the root are 2 and 0. */
  lemma {:induction false} ChainIsUneven()
    ensures !HeightBalanced({ROOT, Position(1, 0), Position(2, 0)}, 2)
  {
    var ps := {ROOT, Position(1, 0), Position(2, 0)};
    AncestorStep(Position(2, 0), 2, 0);
    assert Child(ROOT, 2, 0) == Position(1, 0) && Child(ROOT, 2, 1) == Position(1, 1);
    assert AtOrBelow(Position(2, 0), Position(1, 0), 2);
    assert HasHeight(ps, Child(ROOT, 2, 0), 2, 2);
    assert HasHeight(ps, Child(ROOT, 2, 1), 2, 0);
    assert !EvenAt(ps, ROOT, 2);
  }

  lemma {:induction false} BoundsOf(s: seq<nat>, low: nat, high: nat)
    requires s != [] && forall j :: 0 <= j < |s| ==> low <= s[j] <= high
    ensures low <= MinOf(s) && low <= MaxOf(s) <= high
  {
    if |s| > 1 {
      BoundsOf(s[..|s| - 1], low, high);
    } else {
      assert s[..|s| - 1] == [];
    }
  }

  /** All positions above the last level. */
  ghost predicate FullAbove(ps: set<Position>, m: nat, last: nat)
  {
    forall q: Position :: OnTree(q, m) && q.level < last ==> q in ps
  }

  /** Without gaps above the last level a subtree is as high as there are levels left, give or take one. */
  lemma {:induction false} TreeBalanced(ps: set<Position>, p: Position, d: nat, m: nat)
    requires m >= 2 && OnTree(p, m) && FullAbove(ps, m, p.level + d)
    ensures Balanced(TreeOf(ps, p, d, m)) && d <= Height(TreeOf(ps, p, d, m)) <= d + 1
    decreases d
  {
    var t := TreeOf(ps, p, d, m);
    forall j | 0 <= j < m
      ensures (if d == 0 then 0 else d - 1) <= Heights(t.children)[j] <= d
      ensures t.children[j].Some? ==> Balanced(t.children[j].value)
    {
      var c := Child(p, m, j);
      assert c == Children(p, m)[j];
      ChildIffParent(c, p, m);
      if d > 0 { TreeBalanced(ps, c, d - 1, m); }
    }
    BoundsOf(Heights(t.children), if d == 0 then 0 else d - 1, d);
  }
}
