/** The linked nodes of the height check and the check itself. */
module HeightCheckObjects {
  import opened Arith
  import opened BalanceCheck
  import opened HeightCheck
  import opened Positions
  import opened Results
  import opened Sorting

  class TestNode {
    const position: Position
    const fanout: nat
    var children: seq<TestNode?>
    ghost var tree: Tree
    ghost var Repr: set<object>

    ghost predicate Valid()
      reads this, Repr
      decreases Repr
    {
      && this in Repr && fanout >= 2 && |children| == fanout
      && (forall j :: 0 <= j < |children| && children[j] != null ==>
            children[j] in Repr && children[j].Repr <= Repr && this !in children[j].Repr &&
            children[j].fanout == fanout && children[j].Valid())
      && (forall i, j :: 0 <= i < j < |children| && children[i] != null && children[j] != null ==>
            children[i].Repr !! children[j].Repr)
      && tree.position == position && |tree.children| == fanout
      && (forall j :: 0 <= j < |children| ==>
            tree.children[j] == if children[j] == null then None else Some(children[j].tree))
    }

    constructor (p: Position, m: nat)
      requires m >= 2
      ensures Valid() && Repr == {this} && fanout == m && tree == Leaf(p, m)
    {
      position, fanout := p, m;
      children := seq(m, (_: nat) => null);
      tree, Repr := Leaf(p, m), {this};
    }

    /** getParent, repeated until the level below this node is reached. */
    method ForwardPosition(q: Position) returns (number: nat)
      requires fanout >= 2 && q.level != position.level + 1
      ensures number == Forward(position.level, q, fanout)
    {
      RoundedDivision(q.number, fanout);
      var level: int := q.level - 1;
      number := (q.number - q.number % fanout) / fanout;
      ghost var k: nat := 1;
      while level - 1 > position.level
        invariant level == q.level - k && (q.level > position.level + 1 ==> level > position.level)
        invariant q.level > position.level + 1 ==>
          k <= q.level && number == Ancestor(q, fanout, k).number && Ancestor(q, fanout, k).level == level
        invariant q.level <= position.level + 1 ==> number == q.number / fanout
        decreases level
      {
        AncestorStep(q, fanout, k);
        RoundedDivision(number, fanout);
        number := (number - number % fanout) / fanout;
        level := level - 1;
        k := k + 1;
      }
    }

    method Attach(q: Position)
      requires Valid() && q.level == position.level + 1
      modifies this
      ensures Valid() && fresh(Repr - old(Repr))
      ensures Added(old(tree), q, fanout) == Some(tree)
    {
      var child := new TestNode(q, fanout);
      var j := q.number % fanout;
      children := children[j := child];
      tree := tree.(children := tree.children[j := Some(child.tree)]);
      Repr := Repr + {child};
    }

    method AddToChild(j: nat, q: Position) returns (r: Result<()>)
      requires Valid() && j < fanout && children[j] != null
      modifies Repr
      ensures Valid() && fresh(Repr - old(Repr))
      ensures r.Ok? <==> Added(old(tree).children[j].value, q, fanout).Some?
      ensures r.Ok? ==>
        tree == old(tree).(children := old(tree).children[j := Added(old(tree).children[j].value, q, fanout)])
      ensures r.Err? ==> tree == old(tree)
      decreases Repr, 0
    {
      var child := children[j];
      r := child.Add(q);
      tree := tree.(children := tree.children[j := Some(child.tree)]);
      Repr := Repr + child.Repr;
    }

    method Add(q: Position) returns (r: Result<()>)
      requires Valid()
      modifies Repr
      ensures Valid() && fresh(Repr - old(Repr))
      ensures r.Ok? <==> Added(old(tree), q, fanout).Some?
      ensures tree == if r.Ok? then Added(old(tree), q, fanout).value else old(tree)
      decreases Repr, 1
    {
      if q.level == position.level + 1 {
        Attach(q);
        return Ok(());
      }
      var number := ForwardPosition(q);
      if children[number % fanout] == null { return Err("AttributeError"); }
      r := AddToChild(number % fanout, q);
    }

    method GetHeight() returns (h: nat)
      requires Valid()
      ensures h == Height(tree)
      decreases Repr
    {
      var heights: seq<nat> := [];
      ghost var all := Heights(tree.children);
      for i := 0 to |children|
        invariant MaxOf(heights) == MaxOf(all[..i])
      {
        var child := children[i];
        assert all[..i + 1][..i] == all[..i];
        if child != null {
          var x := child.GetHeight();
          assert (heights + [x])[..|heights|] == heights;
          heights := heights + [x];
        }
      }
      assert all[..|children|] == all;
      if |heights| == 0 { return 1; }
      return MaxOf(heights) + 1;
    }

    /** The height of a child, if it is balanced. */
    method CheckChild(i: nat) returns (ok: bool, h: nat)
      requires Valid() && i < |children|
      ensures ok <==> (tree.children[i].Some? ==> Balanced(tree.children[i].value))
      ensures ok ==> h == HeightOf(tree.children[i])
      decreases Repr, 0
    {
      var child := children[i];
      if child == null { return true, 0; }
      ok := child.IsHeightBalanced();
      h := 0;
      if ok { h := child.GetHeight(); }
    }

    /** The heights of the children, if all of them are balanced. */
    method CheckChildren() returns (ok: bool, heights: seq<nat>)
      requires Valid()
      ensures ok <==> AllBalanced(tree.children, |tree.children|)
      ensures ok ==> heights == Heights(tree.children)
      decreases Repr, 1
    {
      heights := [];
      ghost var cs := tree.children;
      for i := 0 to |children|
        invariant HeightsBefore(heights, cs, i) && AllBalanced(cs, i)
      {
        var h;
        ok, h := CheckChild(i);
        if !ok { return; }
        heights := heights + [h];
      }
      ok := true;
    }

    method IsHeightBalanced() returns (b: bool)
      requires Valid()
      ensures b <==> Balanced(tree)
      ensures b <==> forall u :: Within(u, tree) ==> EvenChildren(u)
      decreases Repr, 2
    {
      BalancedEverywhere(tree);
      var ok, heights := CheckChildren();
      if !ok { return false; }
      if |heights| == 0 { return true; }
      return MaxOf(heights) - MinOf(heights) <= 1;
    }
  }

  // ----- the check -----

  function SetOf(nodes: seq<Position>): set<Position>
  {
    set p | p in nodes
  }

  ghost predicate ByLevel(s: seq<Position>)
  {
    forall a, b :: 0 <= a < b < |s| ==> s[a].level <= s[b].level
  }

  /** The sort by level. */
  method SortByLevel(nodes: seq<Position>) returns (r: seq<Position>)
    requires Distinct(nodes)
    ensures ByLevel(r) && Distinct(r) && SameMembers(r, nodes)
  {
    var level := (p: Position) => p.level as real;
    r := Sort(nodes, level);
    forall a, b | 0 <= a < b < |r|
      ensures r[a].level <= r[b].level
    {
      assert level(r[a]) <= level(r[b]);
    }
  }

  /** The root and, with a node, its parent are there. */
  ghost predicate Rooted(nodes: seq<Position>, m: nat)
    requires m >= 2
  {
    ROOT in nodes && Closed(SetOf(nodes), m)
  }

  lemma {:induction false} BalancedIsRooted(nodes: seq<Position>, m: nat, last: nat)
    requires m >= 2 && nodes != [] && Network(nodes, m, last) && NullBalanced(nodes, m, last)
    ensures Rooted(nodes, m) && FullAbove(SetOf(nodes), m, last)
  {
    forall q: Position | OnTree(q, m) && q.level < last
      ensures q in nodes
    {
      assert Present(nodes, m, q.level);
      assert q == Position(q.level, q.number);
    }
    assert Pow(m, 0) == 1;
    if last == 0 { assert nodes[0] == ROOT; }
    forall q | q in nodes && q.level > 0
      ensures Parent(q, m) in nodes
    {
      var k :| 0 <= k < |nodes| && nodes[k] == q;
      ParentOnTree(q, m);
    }
  }

  /** Sorted by level, the root comes first and an ancestor before its descendants. */
  lemma {:induction false} AncestorsFirst(s: seq<Position>, m: nat, i: nat, k: nat)
    requires m >= 2 && ByLevel(s) && Closed(SetOf(s), m) && i < |s| && 0 < k <= s[i].level
    ensures Ancestor(s[i], m, k) in s[..i]
  {
    ClosedAncestor(SetOf(s), m, s[i], k);
    AncestorBlock(s[i], m, k);
    var a := Ancestor(s[i], m, k);
    var j :| 0 <= j < |s| && s[j] == a;
    assert j < i;
    assert s[..i][j] == a;
  }

  lemma {:induction false} BeforeInSet(s: seq<Position>, i: nat)
    requires ByLevel(s) && i < |s|
    ensures SetOf(s[..i + 1]) == SetOf(s[..i]) + {s[i]}
    ensures forall p :: p in SetOf(s[..i]) ==> p.level <= s[i].level
  {
    assert s[..i + 1] == s[..i] + [s[i]];
  }

  lemma {:induction false} BelowRoot(s: seq<Position>, m: nat, last: nat, i: nat)
    requires m >= 2 && Network(s, m, last) && 0 < i < |s| && s[0] == ROOT
    ensures Descends(s[i], ROOT, m) && s[i].level <= last
  {
    EverythingDescends(s[i], m);
    assert s[0] != s[i];
  }

  lemma {:induction false} NextAdded(s: seq<Position>, m: nat, last: nat, i: nat)
    requires m >= 2 && ByLevel(s) && Network(s, m, last) && 0 < i < |s| && s[0] == ROOT
    requires Closed(SetOf(s[..i + 1]), m)
    ensures Added(TreeOf(SetOf(s[..i]), ROOT, last, m), s[i], m) == Some(TreeOf(SetOf(s[..i + 1]), ROOT, last, m))
  {
    var ps, q := SetOf(s[..i]), s[i];
    BelowRoot(s, m, last, i);
    BeforeInSet(s, i);
    assert s[..i + 1][..i] == s[..i];
    forall k: nat | 0 < k < q.level - ROOT.level
      ensures Ancestor(q, m, k) in ps
    {
      AncestorsFirst(s[..i + 1], m, i, k);
    }
    AddedToTree(ps, q, ROOT, last, m);
  }

  /** A node is added only if its parent has been added before. */
  lemma {:induction false} ParentAdded(s: seq<Position>, m: nat, last: nat, i: nat)
    requires m >= 2 && ByLevel(s) && Network(s, m, last) && 0 < i < |s| && s[0] == ROOT
    requires Added(TreeOf(SetOf(s[..i]), ROOT, last, m), s[i], m).Some?
    ensures s[i].level > 0 && Parent(s[i], m) in SetOf(s[..i])
  {
    var q := s[i];
    BelowRoot(s, m, last, i);
    AncestorStep(q, m, 0);
    if q.level == 1 {
      assert s[..i][0] == ROOT;
    } else if Ancestor(q, m, 1) !in SetOf(s[..i]) {
      NotAdded(SetOf(s[..i]), q, ROOT, last, m, 1);
    }
  }

  /** One step of building the tree: it goes on exactly as long as every node has its parent. */
  lemma {:induction false} BuildStep(s: seq<Position>, m: nat, last: nat, i: nat)
    requires m >= 2 && ByLevel(s) && Network(s, m, last) && 0 < i < |s| && s[0] == ROOT && Closed(SetOf(s[..i]), m)
    ensures var r := Added(TreeOf(SetOf(s[..i]), ROOT, last, m), s[i], m);
      && (r.Some? ==> Closed(SetOf(s[..i + 1]), m) && r.value == TreeOf(SetOf(s[..i + 1]), ROOT, last, m))
      && (r.None? ==> !Closed(SetOf(s), m))
  {
    BeforeInSet(s, i);
    if Added(TreeOf(SetOf(s[..i]), ROOT, last, m), s[i], m).Some? {
      ParentAdded(s, m, last, i);
      NextAdded(s, m, last, i);
    } else if Closed(SetOf(s), m) {
      PrefixClosed(s, m, i + 1);
      NextAdded(s, m, last, i);
    }
  }

  lemma {:induction false} PrefixClosed(s: seq<Position>, m: nat, n: nat)
    requires m >= 2 && ByLevel(s) && Closed(SetOf(s), m) && n <= |s|
    ensures Closed(SetOf(s[..n]), m)
  {
    forall q | q in SetOf(s[..n]) && q.level > 0
      ensures Parent(q, m) in SetOf(s[..n])
    {
      var i :| 0 <= i < n && s[i] == q;
      AncestorStep(q, m, 0);
      AncestorsFirst(s, m, i, 1);
      assert Parent(q, m) in s[..i];
    }
  }

  lemma {:induction false} RootFirst(s: seq<Position>, m: nat, last: nat)
    requires m >= 2 && ByLevel(s) && ROOT in s && Network(s, m, last)
    ensures s != [] && s[0] == ROOT && Closed(SetOf(s[..1]), m)
    ensures TreeOf(SetOf(s[..1]), ROOT, last, m) == Leaf(ROOT, m)
  {
    var j :| 0 <= j < |s| && s[j] == ROOT;
    assert s[0].level <= s[j].level;
    assert Pow(m, 0) == 1;
    TreeOfLeaf(SetOf(s[..1]), ROOT, last, m);
  }

  lemma {:induction false} SortedNetwork(nodes: seq<Position>, s: seq<Position>, m: nat, last: nat)
    requires m >= 2 && Network(nodes, m, last) && Distinct(s) && SameMembers(s, nodes)
    ensures Network(s, m, last) && SetOf(s) == SetOf(nodes)
  {
    forall k | 0 <= k < |s|
      ensures OnTree(s[k], m) && s[k].level <= last
    {
      assert s[k] in nodes;
    }
    assert SetOf(s) == SetOf(nodes);
  }

  lemma {:induction false} RootedIfNull(nodes: seq<Position>, m: nat, last: nat)
    requires m >= 2 && nodes != [] && Network(nodes, m, last)
    ensures NullBalanced(nodes, m, last) ==> Rooted(nodes, m) && Balanced(TreeOf(SetOf(nodes), ROOT, last, m))
  {
    if NullBalanced(nodes, m, last) { NullBalancedIsHeightBalanced(nodes, m, last); }
  }

  /**
  validate_height_balanced_structure: with the root there, a tree is built exactly if every node has its
  parent; it then holds exactly the nodes, and without gaps above the last level it is found balanced.
  */
  method ValidateHeightBalancedStructure(nodes: seq<Position>, m: nat, ghost last: nat)
    returns (r: Result<bool>, ghost tree: Tree)
    requires m >= 2 && Network(nodes, m, last)
    ensures nodes == [] ==> r.Err?
    ensures ROOT in nodes ==> (r.Ok? <==> Rooted(nodes, m))
    ensures r.Ok? ==> (r.value <==> Balanced(tree))
    ensures Rooted(nodes, m) ==> forall q :: Holds(tree, q) <==> q in nodes
    ensures Rooted(nodes, m) ==> (r == Ok(true) <==> HeightBalanced(SetOf(nodes), m))
    ensures nodes != [] && NullBalanced(nodes, m, last) ==> r == Ok(true)
  {
    if nodes == [] { return Err("IndexError"), Leaf(ROOT, m); }
    var root := new TestNode(ROOT, m);
    var sorted := SortByLevel(nodes);
    SortedNetwork(nodes, sorted, m, last);
    ghost var hasRoot := ROOT in nodes;
    if hasRoot { RootFirst(sorted, m, last); }
    RootedIfNull(nodes, m, last);
    for i := 1 to |sorted|
      invariant root.Valid() && fresh(root.Repr) && root.fanout == m
      invariant hasRoot ==> Closed(SetOf(sorted[..i]), m) && root.tree == TreeOf(SetOf(sorted[..i]), ROOT, last, m)
    {
      if hasRoot { BuildStep(sorted, m, last, i); }
      var added := root.Add(sorted[i]);
      if added.Err? { return Err(added.message), root.tree; }
    }
    assert sorted[..|sorted|] == sorted;
    tree := root.tree;
    if hasRoot {
      BuiltHolds(nodes, m, last);
      BuiltBalanced(nodes, m, last);
    }
    var balanced := root.IsHeightBalanced();
    r := Ok(balanced);
  }

  lemma {:induction false} BuiltHolds(nodes: seq<Position>, m: nat, last: nat)
    requires m >= 2 && Network(nodes, m, last) && Rooted(nodes, m)
    ensures forall q :: Holds(TreeOf(SetOf(nodes), ROOT, last, m), q) <==> q in nodes
  {
    forall q
      ensures Holds(TreeOf(SetOf(nodes), ROOT, last, m), q) <==> q in nodes
    {
      TreeHolds(SetOf(nodes), ROOT, last, m, q);
      if q in nodes {
        var k :| 0 <= k < |nodes| && nodes[k] == q;
        EverythingDescends(q, m);
      }
    }
  }

  /** The tree of the nodes is balanced exactly if the network is. */
  lemma {:induction false} BuiltBalanced(nodes: seq<Position>, m: nat, last: nat)
    requires m >= 2 && Network(nodes, m, last) && Rooted(nodes, m)
    ensures Balanced(TreeOf(SetOf(nodes), ROOT, last, m)) <==> HeightBalanced(SetOf(nodes), m)
  {
    var ps := SetOf(nodes);
    BalancedIff(ps, ROOT, last, m);
    forall x | x in ps
      ensures AtOrBelow(x, ROOT, m)
    {
      var k :| 0 <= k < |nodes| && nodes[k] == x;
      EverythingDescends(x, m);
    }
  }

  /** Without gaps above the last level the tree of the nodes is balanced. */
  lemma {:induction false} NullBalancedIsHeightBalanced(nodes: seq<Position>, m: nat, last: nat)
    requires m >= 2 && nodes != [] && Network(nodes, m, last) && NullBalanced(nodes, m, last)
    ensures Rooted(nodes, m) && Balanced(TreeOf(SetOf(nodes), ROOT, last, m))
  {
    BalancedIsRooted(nodes, m, last);
    assert Pow(m, 0) == 1;
    TreeBalanced(SetOf(nodes), ROOT, last, m);
  }
}
