/** What the static builders hand to a node is what the node has places for. */
module OverlayTables {
  import opened HeapIndex
  import opened NodeTables
  import opened OverlaySpec
  import opened Positions
  import opened RoutingAnswers
  import opened RoutingState
  import opened RoutingTables

  /** The relatives of a node in the overlay are exactly the nodes for which its routing information has slots. */
  lemma {:induction false} RelatedIsTabled(t: Info, x: nat, y: nat)
    requires Fits(t) && t.self.placed && t.self.position == AtIndex(x, t.self.fanout)
    ensures Related(x, y, t.self.fanout) <==> Tabled(t, AtIndex(y, t.self.fanout))
  {
    var m := t.self.fanout;
    var p, q := AtIndex(x, m), AtIndex(y, m);
    TabledIff(t, q);
    TableIff(p, m, q);
    if q.level > 0 {
      ParentOnTree(q, m);
      TableIff(p, m, Parent(q, m));
    }
  }

  /** In mode minhcast the builders hand a node exactly the nodes it has slots for, and its two adjacents. */
  lemma {:induction false} PeersAreTabled(t: Info, N: nat, x: nat, y: nat)
    requires Fits(t) && t.self.placed && t.self.position == AtIndex(x, t.self.fanout)
    ensures y in KnownPeers(N, t.self.fanout, x) <==>
      y < N && (Tabled(t, AtIndex(y, t.self.fanout)) || Adjacent(N, t.self.fanout, x, y))
  {
    RelatedIsTabled(t, x, y);
  }
}
