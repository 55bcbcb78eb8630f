/** The two searches compared: they agree on distinct accounts and
    disagree when an account is asked about itself; a query that answers
    that case first agrees with the hop distance everywhere. */
module Queries {
  import opened Vertices
  import opened Graphs
  import opened Window
  import opened Paths
  import opened PlainSearch
  import opened Bidirectional

  /** The plain search is kept as a check on the bidirectional one: on
      distinct accounts of a symmetric graph both answer the same. */
  method CrossCheck(g: Graph, frm: Id, to: Id) returns (plain: Dist, bidir: Dist)
    requires Closed(g) && Symmetric(g)
    ensures frm != to ==> plain == bidir
    ensures plain == Distance(g, frm, to)
  {
    plain := BreadthFirstSearch(g, frm, to);
    bidir := BidirectionalSearch(g, frm, to);
  }

  /** The bidirectional search has no case for an account asked about
      itself: the backward mark replaces the forward one, and the answer
      is never the 0 hops the plain search gives. */
  method SelfQuery(g: Graph, x: Id) returns (plain: Dist, bidir: Dist)
    requires Closed(g) && Symmetric(g) && x in g.verts
    ensures plain == Fin(0)
    ensures bidir != plain
    ensures bidir == Inf || bidir == Fin(1) || bidir == Fin(2)
  {
    DistanceIs(g, x, x, 0);
    plain := BreadthFirstSearch(g, x, x);
    bidir := BidirectionalSearch(g, x, x);
  }

  /** The hop distance between two accounts, answering an account asked
      about itself with 0 before searching from both ends. */
  method HopDistance(g: Graph, frm: Id, to: Id) returns (r: Dist)
    requires Closed(g) && Symmetric(g)
    ensures frm !in g.verts || to !in g.verts ==> r == Inf
    ensures r == Distance(g, frm, to)
  {
    if frm !in g.verts || to !in g.verts {
      AbsentDistance(g, frm, to);
      return Inf;
    }
    if frm == to {
      DistanceIs(g, frm, to, 0);
      return Fin(0);
    }
    r := BidirectionalSearch(g, frm, to);
  }
}
