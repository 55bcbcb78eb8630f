/** The plain breadth-first search kept by the graph as a check on the
    bidirectional one. */
module PlainSearch {
  import opened Vertices
  import opened Graphs
  import opened Window
  import opened Paths
  import opened Layers

  /** A finished search: the queue is empty and every expanded account's
      neighbours are visited, so the visited map holds the exact distance
      of everything reachable and nothing else. */
  lemma Settled(g: Graph, src: Id, dist: map<Id, nat>, depth: nat, done: set<Id>, b: Id)
    requires Layered(g, src, dist, [], depth, done) && DoneClosed(g, done, dist.Keys)
    ensures (if b in dist then Fin(dist[b]) else Inf) == Distance(g, src, b)
  {
    if b in dist {
      assert ExactAt(g, src, dist, b);
      DistanceIs(g, src, b, dist[b]);
    } else {
      forall k: nat ensures b !in Reach(g, src, k) {
        ReachInClosedSet(g, src, dist.Keys, k);
      }
    }
  }

  /** Hop distance from `frm` to `to`, or Inf when either is not stored or
      no path joins them. */
  method BreadthFirstSearch(g: Graph, frm: Id, to: Id) returns (r: Dist)
    requires Closed(g)
    ensures frm !in g.verts || to !in g.verts ==> r == Inf
    ensures r == Distance(g, frm, to)
  {
    if frm !in g.verts || to !in g.verts {
      AbsentDistance(g, frm, to);
      return Inf;
    }
    var dist := map[frm := 0];
    var q := [frm];
    ghost var depth: nat := 0;
    ghost var done: set<Id> := {};
    LayeredInit(g, frm);
    while q != []
      invariant Layered(g, frm, dist, q, depth, done) && DoneClosed(g, done, dist.Keys)
      decreases |g.verts.Keys - dist.Keys| + |q|
    {
      var u := q[0];
      var nd := dist[u] + 1;
      var dist', q', _ := Expand(AdjOf(g, u), nd, dist, map[], q[1..], Inf);
      ghost var depth' := if nd > depth then nd else depth;
      LayeredExpand(g, frm, dist, q, depth, done, map[], Inf, dist', q', Inf, depth');
      ExpandedGrows(AdjOf(g, u), nd, dist, map[], q[1..], Inf, dist', q', Inf);
      UnvisitedShrinks(g.verts.Keys, dist.Keys, dist'.Keys);
      dist, q, depth, done := dist', q', depth', done + {u};
    }
    Settled(g, frm, dist, depth, done, to);
    r := if to in dist then Fin(dist[to]) else Inf;
  }
}
