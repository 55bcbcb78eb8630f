/** The two worked examples the graph module ships with: the payment
    ratios of a four-account clique, and a graph where the short way
    round is not the first one found, before and after its oldest
    payment leaves the window. */
module Scenarios {
  import opened Vertices
  import opened Graphs
  import opened Window
  import opened Paths
  import opened PlainSearch
  import opened Bidirectional

  /** a pays b, c and d; b pays c and d; c pays d. */
  const Clique: seq<(Id, Id)> := [("a", "b"), ("a", "c"), ("a", "d"), ("b", "c"), ("b", "d"), ("c", "d")]

  /** a-b-c-d-f is the long way round, a-e-f the short one. */
  const Detour: seq<(Id, Id)> := [("a", "b"), ("a", "e"), ("b", "c"), ("c", "d"), ("d", "f"), ("e", "f")]

  /** The record an account ends with once a run of payments has been
      replayed onto `g`: its counters grow by what it received and sent in
      the run, and an account absent from both reads as a fresh one. */
  method Replayed(g: Graph, es: seq<(Id, Id)>, x: Id) returns (v: Vertex)
    ensures v.inPay == InOf(g, x) + Received(es, x)
    ensures v.outPay == OutOf(g, x) + Sent(es, x)
  {
    var h := AddEdges(g, es);
    AddEdgesCounts(g, es, x);
    v := if x in h.verts then h.verts[x] else Fresh;
  }

  /** The clique's ratios: a only pays, d only receives, b receives one
      payment for two sent, c two for one. */
  method CliqueRatios() returns (a: real, b: real, c: real, d: real)
    ensures a == 0.0 && b == 0.5 && c == 2.0 && d == 0.0
  {
    var va := Replayed(Empty, Clique, "a");
    var vb := Replayed(Empty, Clique, "b");
    var vc := Replayed(Empty, Clique, "c");
    var vd := Replayed(Empty, Clique, "d");
    a, b, c, d := Ratio(va), Ratio(vb), Ratio(vc), Ratio(vd);
  }

  /** Every queued pair with one end in `inner` has the other in `outer`. */
  ghost predicate Spreads(g: Graph, inner: set<Id>, outer: set<Id>) {
    forall i :: 0 <= i < |g.queue| ==>
      (g.queue[i].0 in inner ==> g.queue[i].1 in outer) && (g.queue[i].1 in inner ==> g.queue[i].0 in outer)
  }

  /** If everything within `k` hops lies in `inner`, and the queue spreads
      `inner` no further than `outer`, everything within `k + 1` hops lies
      in `outer`: in a window whose links are all queued, the queue bounds
      how far a search can spread. */
  lemma ReachWithin(g: Graph, a: Id, k: nat, inner: set<Id>, outer: set<Id>)
    requires EdgesAreQueued(g) && Reach(g, a, k) <= inner <= outer && Spreads(g, inner, outer)
    ensures Reach(g, a, k + 1) <= outer
  {
    forall v | v in Step(g, Reach(g, a, k)) ensures v in outer {
      var u := StepWitness(g, Reach(g, a, k), v);
      assert (u, v) in g.queue || (v, u) in g.queue;
    }
  }

  /** Payments over distinct pairs of distinct accounts, as the detour's are. */
  lemma DetourDistinct()
    ensures forall p :: p in Detour ==> p.0 != p.1
    ensures QueueDistinct(Detour)
  {
  }

  /** In the detour's window one hop from a reaches only b and e. */
  lemma DetourSpreads(g: Graph)
    requires g.queue == Detour
    ensures Spreads(g, {"a"}, {"a", "b", "e"})
  {
  }

  /** In the detour's window one hop from a reaches only a, b and e. */
  lemma DetourFar(g: Graph)
    requires EdgesAreQueued(g) && g.queue == Detour
    ensures Reach(g, "a", 1) <= {"a", "b", "e"}
  {
    DetourSpreads(g);
    assert Reach(g, "a", 0) <= {"a"};
    ReachWithin(g, "a", 0, {"a"}, {"a", "b", "e"});
  }

  /** The short way round a-e-f. */
  lemma DetourPath(g: Graph)
    requires QueuedAreEdges(g) && g.queue == Detour
    ensures "f" in Reach(g, "a", 2)
  {
    assert g.queue[1] in g.queue && g.queue[5] in g.queue;
    assert Linked(g, "a", "e") && Linked(g, "e", "f");
    ReachStart(g, "a", 0);
    ReachNext(g, "a", 0, "a", "e");
    ReachNext(g, "a", 1, "e", "f");
  }

  /** In a window holding the detour's payments, a is two hops from f, by
      way of e. */
  lemma DetourDistance(g: Graph)
    requires EdgesAreQueued(g) && QueuedAreEdges(g) && g.queue == Detour
    ensures Distance(g, "a", "f") == Fin(2)
  {
    DetourFar(g);
    DetourPath(g);
    DistanceIs(g, "a", "f", 2);
  }

  /** The window after a-b leaves: a-e, b-c, c-d, d-f, e-f. */
  const Evicted: seq<(Id, Id)> := [("a", "e"), ("b", "c"), ("c", "d"), ("d", "f"), ("e", "f")]

  /** Without a-b, each hop from a can add one account only: e, then f,
      then d, then c. */
  lemma EvictedSpreads(h: Graph)
    requires h.queue == Evicted
    ensures Spreads(h, {"a"}, {"a", "e"})
    ensures Spreads(h, {"a", "e"}, {"a", "e", "f"})
    ensures Spreads(h, {"a", "e", "f"}, {"a", "e", "f", "d"})
    ensures Spreads(h, {"a", "e", "f", "d"}, {"a", "e", "f", "d", "c"})
  {
  }

  /** Without a-b, four hops from a reach only a, e, f, d and c. */
  lemma EvictedFar(h: Graph)
    requires EdgesAreQueued(h) && h.queue == Evicted
    ensures Reach(h, "a", 4) <= {"a", "e", "f", "d", "c"}
  {
    EvictedSpreads(h);
    assert Reach(h, "a", 0) <= {"a"};
    ReachWithin(h, "a", 0, {"a"}, {"a", "e"});
    ReachWithin(h, "a", 1, {"a", "e"}, {"a", "e", "f"});
    ReachWithin(h, "a", 2, {"a", "e", "f"}, {"a", "e", "f", "d"});
    ReachWithin(h, "a", 3, {"a", "e", "f", "d"}, {"a", "e", "f", "d", "c"});
  }

  /** The way round a-e-f-d-c-b is still there. */
  lemma EvictedPath(h: Graph)
    requires Symmetric(h) && QueuedAreEdges(h) && h.queue == Evicted
    ensures "b" in Reach(h, "a", 5)
  {
    assert h.queue[0] in h.queue && h.queue[1] in h.queue && h.queue[2] in h.queue;
    assert h.queue[3] in h.queue && h.queue[4] in h.queue;
    assert Linked(h, "a", "e") && Linked(h, "e", "f") && Linked(h, "d", "f");
    assert Linked(h, "c", "d") && Linked(h, "b", "c");
    ReachStart(h, "a", 0);
    ReachNext(h, "a", 0, "a", "e");
    ReachNext(h, "a", 1, "e", "f");
    ReachNext(h, "a", 2, "f", "d");
    ReachNext(h, "a", 3, "d", "c");
    ReachNext(h, "a", 4, "c", "b");
  }

  /** Once the oldest payment, a-b, leaves the window, the only way from
      a to b is the five hops round through e, f, d and c. */
  lemma EvictedDistance(h: Graph)
    requires Symmetric(h) && EdgesAreQueued(h) && QueuedAreEdges(h) && h.queue == Evicted
    ensures Distance(h, "a", "b") == Fin(5)
  {
    EvictedFar(h);
    EvictedPath(h);
    DistanceIs(h, "a", "b", 5);
  }

  /** Both searches find the two hops from a to f, and after the oldest
      payment is evicted both find the five hops from a to b. */
  method DetourQueries() returns (plain: Dist, bidir: Dist, plainAfter: Dist, bidirAfter: Dist)
    ensures plain == Fin(2) && bidir == Fin(2)
    ensures plainAfter == Fin(5) && bidirAfter == Fin(5)
  {
    var es := Detour;
    EmptyValid();
    DetourDistinct();
    assert Empty.queue + es == es;
    AddEdgesQueued(Empty, es);
    var g := AddEdges(Empty, es);
    DetourDistance(g);
    plain := BreadthFirstSearch(g, "a", "f");
    bidir := BidirectionalSearch(g, "a", "f");
    DelEdgeValid(g);
    var h := DelEdge(g).value;
    assert h.queue == es[1..] == Evicted;
    EvictedDistance(h);
    plainAfter := BreadthFirstSearch(h, "a", "b");
    bidirAfter := BidirectionalSearch(h, "a", "b");
  }
}
