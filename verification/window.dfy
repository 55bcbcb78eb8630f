/** The invariant every graph built by payments and evictions keeps, and
    the proofs that both operations preserve it. */
module Window {
  import opened Vertices
  import opened Graphs

  /** Every neighbour id names a stored account. */
  ghost predicate Closed(g: Graph) {
    forall u, v :: Linked(g, u, v) ==> v in g.verts
  }

  ghost predicate Symmetric(g: Graph) {
    forall u, v :: Linked(g, u, v) ==> Linked(g, v, u)
  }

  ghost predicate Loopless(g: Graph) {
    forall u :: u in g.verts ==> !Linked(g, u, u)
  }

  ghost predicate NoIsolated(g: Graph) {
    forall u :: u in g.verts ==> g.verts[u].adjacent != {}
  }

  /** A queued pair seen as an undirected edge. */
  function Undirected(p: (Id, Id)): set<Id> {
    {p.0, p.1}
  }

  ghost predicate QueueDistinct(q: seq<(Id, Id)>) {
    forall i, j :: 0 <= i < j < |q| ==> Undirected(q[i]) != Undirected(q[j])
  }

  ghost predicate QueuedAreEdges(g: Graph) {
    forall p :: p in g.queue ==> Linked(g, p.0, p.1)
  }

  ghost predicate EdgesAreQueued(g: Graph) {
    forall u, v :: Linked(g, u, v) ==> (u, v) in g.queue || (v, u) in g.queue
  }

  /** The sliding-window invariant: a symmetric, loop-free, closed
      adjacency without isolated accounts, whose undirected edges are
      queued exactly once each. */
  ghost predicate Valid(g: Graph) {
    && Closed(g) && Symmetric(g) && Loopless(g) && NoIsolated(g)
    && QueueDistinct(g.queue) && QueuedAreEdges(g) && EdgesAreQueued(g)
  }

  lemma DistinctAt(q: seq<(Id, Id)>, i: nat, j: nat)
    requires QueueDistinct(q) && i < j < |q|
    ensures Undirected(q[i]) != Undirected(q[j])
  {
  }

  /** The undirected edges of the graph. */
  ghost function EdgeSet(g: Graph): set<set<Id>> {
    set u, v | u in g.verts && v in g.verts[u].adjacent :: {u, v}
  }

  /** The undirected edges a queue holds. */
  ghost function QueuedEdges(q: seq<(Id, Id)>): set<set<Id>> {
    if q == [] then {} else QueuedEdges(q[..|q| - 1]) + {Undirected(q[|q| - 1])}
  }

  lemma {:induction false} QueuedEdgesMember(q: seq<(Id, Id)>, e: set<Id>)
    ensures e in QueuedEdges(q) <==> exists i :: 0 <= i < |q| && Undirected(q[i]) == e
  {
    if q != [] {
      var p := q[..|q| - 1];
      QueuedEdgesMember(p, e);
      if e in QueuedEdges(p) {
        var i :| 0 <= i < |p| && Undirected(p[i]) == e;
        assert q[i] == p[i];
      }
      if exists i :: 0 <= i < |q| && Undirected(q[i]) == e {
        var i :| 0 <= i < |q| && Undirected(q[i]) == e;
        if i < |p| {
          assert p[i] == q[i];
        }
      }
    }
  }

  lemma {:induction false} QueuedEdgesCard(q: seq<(Id, Id)>)
    requires QueueDistinct(q)
    ensures |QueuedEdges(q)| == |q|
  {
    if q != [] {
      var p := q[..|q| - 1];
      assert QueueDistinct(p) by {
        forall i, j | 0 <= i < j < |p| ensures Undirected(p[i]) != Undirected(p[j]) {
          assert p[i] == q[i] && p[j] == q[j];
        }
      }
      QueuedEdgesCard(p);
      QueuedEdgesMember(p, Undirected(q[|q| - 1]));
    }
  }

  lemma EdgeSetQueued(g: Graph, e: set<Id>)
    requires EdgesAreQueued(g) && e in EdgeSet(g)
    ensures e in QueuedEdges(g.queue)
  {
    var u, v :| u in g.verts && v in g.verts[u].adjacent && e == {u, v};
    assert Linked(g, u, v);
    QueuedEdgesMember(g.queue, e);
    if (u, v) in g.queue {
      var i :| 0 <= i < |g.queue| && g.queue[i] == (u, v);
      assert Undirected(g.queue[i]) == e;
    } else {
      var i :| 0 <= i < |g.queue| && g.queue[i] == (v, u);
      assert Undirected(g.queue[i]) == e;
    }
  }


  lemma QueuedInEdgeSet(g: Graph, e: set<Id>)
    requires QueuedAreEdges(g) && e in QueuedEdges(g.queue)
    ensures e in EdgeSet(g)
  {
    QueuedEdgesMember(g.queue, e);
    var i :| 0 <= i < |g.queue| && Undirected(g.queue[i]) == e;
    var p := g.queue[i];
    assert p in g.queue;
    assert Linked(g, p.0, p.1);
  }


  /** The queue length is the number of undirected edges. */
  lemma EdgeCount(g: Graph)
    requires Valid(g)
    ensures |g.queue| == |EdgeSet(g)|
  {
    forall e | e in EdgeSet(g) ensures e in QueuedEdges(g.queue) {
      EdgeSetQueued(g, e);
    }
    forall e | e in QueuedEdges(g.queue) ensures e in EdgeSet(g) {
      QueuedInEdgeSet(g, e);
    }
    assert EdgeSet(g) == QueuedEdges(g.queue);
    QueuedEdgesCard(g.queue);
  }

  /** Two ways of writing the same two-element set name the same pair. */
  lemma SamePair(a: Id, b: Id, c: Id, d: Id)
    requires {a, b} == {c, d} && a != b
    ensures (a == c && b == d) || (a == d && b == c)
  {
    assert a in {c, d} && b in {c, d};
  }

  lemma EmptyValid()
    ensures Valid(Empty)
  {
  }

  /** The adjacency after a payment from `frm` to `to`: both endpoints
      stored, and the pair linked both ways if it was not linked before. */
  ghost predicate PaidAdjacency(g: Graph, r: Graph, frm: Id, to: Id) {
    var isNew := !(Linked(g, frm, to) || Linked(g, to, frm));
    && r.verts.Keys == g.verts.Keys + {frm, to}
    && forall x :: x in r.verts ==>
         r.verts[x].adjacent
         == AdjOf(g, x) + (if isNew && x == frm then {to} else {}) + (if isNew && x == to then {frm} else {})
  }

  lemma AddEdgeAdjacency(g: Graph, frm: Id, to: Id)
    ensures PaidAdjacency(g, AddEdge(g, frm, to), frm, to)
  {
  }

  lemma PaidLinked(g: Graph, r: Graph, frm: Id, to: Id)
    requires PaidAdjacency(g, r, frm, to)
    ensures var isNew := !(Linked(g, frm, to) || Linked(g, to, frm));
      forall u, v :: Linked(r, u, v) <==>
        Linked(g, u, v) || (isNew && ((u == frm && v == to) || (u == to && v == frm)))
  {
  }

  lemma AddEdgeLinked(g: Graph, frm: Id, to: Id)
    ensures var isNew := !(Linked(g, frm, to) || Linked(g, to, frm));
      forall u, v :: Linked(AddEdge(g, frm, to), u, v) <==>
        Linked(g, u, v) || (isNew && ((u == frm && v == to) || (u == to && v == frm)))
  {
    AddEdgeAdjacency(g, frm, to);
    PaidLinked(g, AddEdge(g, frm, to), frm, to);
  }

  lemma AddEdgeQueue(g: Graph, frm: Id, to: Id)
    requires frm != to && Loopless(g) && QueueDistinct(g.queue) && QueuedAreEdges(g)
    ensures QueueDistinct(AddEdge(g, frm, to).queue)
    ensures QueuedAreEdges(AddEdge(g, frm, to))
  {
    var r := AddEdge(g, frm, to);
    AddEdgeLinked(g, frm, to);
    if !(Linked(g, frm, to) || Linked(g, to, frm)) {
      forall i, j | 0 <= i < j < |r.queue|
        ensures Undirected(r.queue[i]) != Undirected(r.queue[j])
      {
        if j == |g.queue| {
          assert Linked(g, g.queue[i].0, g.queue[i].1);
          if Undirected(g.queue[i]) == {frm, to} {
            SamePair(g.queue[i].0, g.queue[i].1, frm, to);
          }
        } else {
          assert r.queue[i] == g.queue[i] && r.queue[j] == g.queue[j];
        }
      }
      forall i | 0 <= i < |r.queue| ensures Linked(r, r.queue[i].0, r.queue[i].1) {
        if i < |g.queue| {
          assert r.queue[i] == g.queue[i];
          assert Linked(g, g.queue[i].0, g.queue[i].1);
        }
      }
    }
  }

  lemma AddEdgeQueued(g: Graph, frm: Id, to: Id)
    requires EdgesAreQueued(g)
    ensures EdgesAreQueued(AddEdge(g, frm, to))
  {
    var r := AddEdge(g, frm, to);
    AddEdgeLinked(g, frm, to);
    forall u, v | Linked(r, u, v) ensures (u, v) in r.queue || (v, u) in r.queue {
      if !Linked(g, u, v) {
        assert r.queue[|g.queue|] == (frm, to);
      }
    }
  }


  lemma AddEdgeClosed(g: Graph, frm: Id, to: Id)
    requires Closed(g) && Symmetric(g)
    ensures Closed(AddEdge(g, frm, to)) && Symmetric(AddEdge(g, frm, to))
  {
    AddEdgeLinked(g, frm, to);
  }

  lemma AddEdgeLoopless(g: Graph, frm: Id, to: Id)
    requires frm != to && Loopless(g)
    ensures Loopless(AddEdge(g, frm, to))
  {
    AddEdgeLinked(g, frm, to);
  }

  lemma AddEdgeNoIsolated(g: Graph, frm: Id, to: Id)
    requires Closed(g) && NoIsolated(g)
    ensures NoIsolated(AddEdge(g, frm, to))
  {
    var r := AddEdge(g, frm, to);
    forall u | u in r.verts ensures r.verts[u].adjacent != {} {
      if u in g.verts {
        assert g.verts[u].adjacent <= r.verts[u].adjacent;
      } else {
        assert !Linked(g, frm, to) && !Linked(g, to, frm);
        assert (if u == frm then to else frm) in r.verts[u].adjacent;
      }
    }
  }

  /** A payment between two distinct accounts keeps the invariant. */
  lemma AddEdgeValid(g: Graph, frm: Id, to: Id)
    requires Valid(g) && frm != to
    ensures Valid(AddEdge(g, frm, to))
  {
    AddEdgeClosed(g, frm, to);
    AddEdgeLoopless(g, frm, to);
    AddEdgeNoIsolated(g, frm, to);
    AddEdgeQueue(g, frm, to);
    AddEdgeQueued(g, frm, to);
  }

  /** The edges after an eviction: the old ones minus the queue head. */
  lemma DelEdgeLinked(g: Graph)
    requires |g.queue| > 0 && DelEdge(g).Ok?
    ensures forall u, v :: Linked(DelEdge(g).value, u, v) <==>
      Linked(g, u, v) && {u, v} != Undirected(g.queue[0])
  {
    var (x, y) := g.queue[0];
    var r := DelEdge(g).value;
    forall u, v ensures Linked(r, u, v) <==> Linked(g, u, v) && {u, v} != {x, y} {
      if Linked(g, u, v) && {u, v} != {x, y} {
        assert u in r.verts by {
          if u == x {
            assert v != y && v in Unlinked(g, x, y, u);
          } else if u == y {
            assert v != x && v in Unlinked(g, x, y, u);
          }
        }
      }
      if Linked(r, u, v) {
        assert v in Unlinked(g, x, y, u);
      }
    }
  }

  lemma DelEdgeQueuedAreEdges(g: Graph)
    requires |g.queue| > 0 && DelEdge(g).Ok?
    requires QueueDistinct(g.queue) && QueuedAreEdges(g)
    ensures QueuedAreEdges(DelEdge(g).value)
  {
    var r := DelEdge(g).value;
    DelEdgeLinked(g);
    forall p | p in r.queue ensures Linked(r, p.0, p.1) {
      var i :| 0 <= i < |r.queue| && r.queue[i] == p;
      assert g.queue[i + 1] == p;
      assert Undirected(g.queue[0]) != Undirected(g.queue[i + 1]);
    }
  }


  lemma DelEdgeEdgesAreQueued(g: Graph)
    requires |g.queue| > 0 && DelEdge(g).Ok?
    requires EdgesAreQueued(g)
    ensures EdgesAreQueued(DelEdge(g).value)
  {
    var r := DelEdge(g).value;
    DelEdgeLinked(g);
    assert g.queue == [g.queue[0]] + r.queue;
    forall u, v | Linked(r, u, v) ensures (u, v) in r.queue || (v, u) in r.queue {
      assert {u, v} != Undirected(g.queue[0]);
    }
  }


  lemma DelEdgeQueueDistinct(g: Graph)
    requires |g.queue| > 0 && DelEdge(g).Ok?
    requires QueueDistinct(g.queue)
    ensures QueueDistinct(DelEdge(g).value.queue)
  {
    var r := DelEdge(g).value;
    forall i, j | 0 <= i < j < |r.queue| ensures Undirected(r.queue[i]) != Undirected(r.queue[j]) {
      assert r.queue[i] == g.queue[i + 1] && r.queue[j] == g.queue[j + 1];
    }
  }

  lemma DelEdgeShape(g: Graph)
    requires |g.queue| > 0 && DelEdge(g).Ok?
    requires Closed(g) && Symmetric(g) && Loopless(g) && NoIsolated(g)
    ensures var r := DelEdge(g).value;
      Closed(r) && Symmetric(r) && Loopless(r) && NoIsolated(r)
  {
    var (x, y) := g.queue[0];
    var r := DelEdge(g).value;
    DelEdgeLinked(g);
    forall u | u in r.verts ensures r.verts[u].adjacent != {} {
      assert r.verts[u].adjacent == Unlinked(g, x, y, u);
    }
  }

  /** Eviction keeps adjacency closed and symmetric on any graph, self-links
      and isolated accounts included. */
  lemma DelEdgeClosedSymmetric(g: Graph)
    requires |g.queue| > 0 && DelEdge(g).Ok?
    requires Closed(g) && Symmetric(g)
    ensures Closed(DelEdge(g).value) && Symmetric(DelEdge(g).value)
  {
    DelEdgeLinked(g);
    var r := DelEdge(g).value;
    forall u, v | Linked(r, u, v) ensures Linked(r, v, u) && v in r.verts {
      assert Linked(g, v, u);
    }
  }

  lemma HeadOfValid(g: Graph)
    requires |g.queue| > 0 && QueuedAreEdges(g) && Loopless(g) && Symmetric(g)
    ensures HeadEvictable(g)
  {
    assert Linked(g, g.queue[0].0, g.queue[0].1);
  }

  /** On a valid graph with a queued edge, eviction succeeds and keeps the
      invariant; the surviving edges are the old ones minus that edge. */
  lemma DelEdgeValid(g: Graph)
    requires Valid(g) && |g.queue| > 0
    ensures DelEdge(g).Ok?
    ensures Valid(DelEdge(g).value)
    ensures forall u, v :: Linked(DelEdge(g).value, u, v) <==>
      Linked(g, u, v) && {u, v} != Undirected(g.queue[0])
  {
    HeadOfValid(g);
    DelEdgeLinked(g);
    DelEdgeShape(g);
    DelEdgeQueuedAreEdges(g);
    DelEdgeEdgesAreQueued(g);
    DelEdgeQueueDistinct(g);
  }

  // ---------------------------------------------------------------------
  // Whole streams of payments and evictions
  // ---------------------------------------------------------------------

  /** Records the payments in order. */
  function AddEdges(g: Graph, es: seq<(Id, Id)>): Graph
    decreases |es|
  {
    if es == [] then g else AddEdges(AddEdge(g, es[0].0, es[0].1), es[1..])
  }

  /** Payments of `es` received by `x`. */
  function Received(es: seq<(Id, Id)>, x: Id): nat
    decreases |es|
  {
    if es == [] then 0 else (if es[0].1 == x then 1 else 0) + Received(es[1..], x)
  }

  /** Payments of `es` sent by `x`. */
  function Sent(es: seq<(Id, Id)>, x: Id): nat
    decreases |es|
  {
    if es == [] then 0 else (if es[0].0 == x then 1 else 0) + Sent(es[1..], x)
  }

  /** Every account taking part in a payment of `es`. */
  function Parties(es: seq<(Id, Id)>): set<Id>
    decreases |es|
  {
    if es == [] then {} else {es[0].0, es[0].1} + Parties(es[1..])
  }

  /** One payment adds one to the payee's incoming and the payer's
      outgoing count, and stores both. */
  lemma AddEdgeCounts(g: Graph, frm: Id, to: Id, x: Id)
    ensures x in AddEdge(g, frm, to).verts <==> x in g.verts || x == frm || x == to
    ensures InOf(AddEdge(g, frm, to), x) == InOf(g, x) + (if x == to then 1 else 0)
    ensures OutOf(AddEdge(g, frm, to), x) == OutOf(g, x) + (if x == frm then 1 else 0)
  {
  }

  /** The counters count every payment, repeated pairs included, and
      every party to a payment is stored. */
  lemma {:induction false} AddEdgesCounts(g: Graph, es: seq<(Id, Id)>, x: Id)
    ensures x in AddEdges(g, es).verts <==> x in g.verts || x in Parties(es)
    ensures InOf(AddEdges(g, es), x) == InOf(g, x) + Received(es, x)
    ensures OutOf(AddEdges(g, es), x) == OutOf(g, x) + Sent(es, x)
    decreases |es|
  {
    if es != [] {
      var h := AddEdge(g, es[0].0, es[0].1);
      AddEdgeCounts(g, es[0].0, es[0].1, x);
      AddEdgesCounts(h, es[1..], x);
      assert AddEdges(g, es) == AddEdges(h, es[1..]);
    }
  }

  /** Evicts `n` times in a row, stopping at the first failure. */
  function EvictTimes(g: Graph, n: nat): Result<Graph>
    decreases n
  {
    if n == 0 then Ok(g)
    else match DelEdge(g)
      case Err(f) => Err(f)
      case Ok(h) => EvictTimes(h, n - 1)
  }

  /** A payment whose pair is not yet queued, either way round, links a
      pair that was not linked. */
  lemma FirstPaymentNew(g: Graph, es: seq<(Id, Id)>)
    requires EdgesAreQueued(g) && |es| > 0 && QueueDistinct(g.queue + es)
    ensures !Linked(g, es[0].0, es[0].1) && !Linked(g, es[0].1, es[0].0)
  {
    var (a, b) := es[0];
    var q := g.queue + es;
    assert q[|g.queue|] == (a, b);
    if Linked(g, a, b) || Linked(g, b, a) {
      assert (a, b) in g.queue || (b, a) in g.queue;
      var i :| 0 <= i < |g.queue| && (g.queue[i] == (a, b) || g.queue[i] == (b, a));
      DistinctAt(q, i, |g.queue|);
      assert false;
    }
  }

  /** A payment over a new pair of distinct accounts keeps the invariant
      and appends exactly that pair to the queue. */
  lemma AddEdgeAppends(g: Graph, a: Id, b: Id)
    requires Valid(g) && a != b && !Linked(g, a, b) && !Linked(g, b, a)
    ensures Valid(AddEdge(g, a, b)) && AddEdge(g, a, b).queue == g.queue + [(a, b)]
  {
    AddEdgeValid(g, a, b);
  }

  /** Payments between distinct accounts, no two over the same undirected
      edge and none over an edge already present, are each queued in order. */
  lemma {:induction false} AddEdgesQueued(g: Graph, es: seq<(Id, Id)>)
    requires Valid(g)
    requires forall p :: p in es ==> p.0 != p.1
    requires QueueDistinct(g.queue + es)
    ensures Valid(AddEdges(g, es))
    ensures AddEdges(g, es).queue == g.queue + es
    decreases |es|
  {
    if es != [] {
      var (a, b) := es[0];
      FirstPaymentNew(g, es);
      assert es[0] in es;
      AddEdgeAppends(g, a, b);
      var h := AddEdge(g, a, b);
      assert h.queue + es[1..] == g.queue + es;
      assert forall p :: p in es[1..] ==> p in es;
      AddEdgesQueued(h, es[1..]);
      assert AddEdges(g, es) == AddEdges(h, es[1..]);
    }
  }

  /** A valid graph with an empty queue has no accounts at all. */
  lemma NoQueueNoVertices(g: Graph)
    requires Valid(g) && g.queue == []
    ensures g == Empty
  {
    forall u | u in g.verts ensures false {
      var v :| v in g.verts[u].adjacent;
      assert Linked(g, u, v);
    }
    assert g.verts == map[];
  }

  /** Evicting once per queued edge empties a valid graph completely,
      counters included. */
  lemma {:induction false} DrainToEmpty(g: Graph)
    requires Valid(g)
    ensures EvictTimes(g, |g.queue|) == Ok(Empty)
    decreases |g.queue|
  {
    if |g.queue| == 0 {
      NoQueueNoVertices(g);
    } else {
      DelEdgeValid(g);
      var h := DelEdge(g).value;
      assert |h.queue| == |g.queue| - 1;
      assert EvictTimes(g, |g.queue|) == EvictTimes(h, |h.queue|);
      DrainToEmpty(h);
    }
  }

  /** Recording `n` payments over distinct pairs of distinct accounts into
      an empty graph gives a valid window queuing exactly those pairs, and
      evicting `n` times then returns the empty graph. */
  method InsertThenDrain(es: seq<(Id, Id)>) returns (filled: Graph, drained: Result<Graph>)
    requires forall p :: p in es ==> p.0 != p.1
    requires QueueDistinct(es)
    ensures filled == AddEdges(Empty, es) && drained == EvictTimes(filled, |es|)
    ensures Valid(filled) && filled.queue == es
    ensures drained == Ok(Empty)
  {
    EmptyValid();
    assert Empty.queue + es == es;
    AddEdgesQueued(Empty, es);
    filled := AddEdges(Empty, es);
    DrainToEmpty(filled);
    drained := EvictTimes(filled, |es|);
  }

  /** A payment from an account to itself queues a self-link that can
      never be evicted: eviction takes the account out of its own
      neighbours twice, and the second removal fails. */
  method SelfPaymentStuck(g: Graph, x: Id) returns (queued: seq<(Id, Id)>, r: Result<Graph>)
    requires g.queue == [] && !Linked(g, x, x)
    ensures queued == AddEdge(g, x, x).queue && r == DelEdge(AddEdge(g, x, x))
    ensures queued == [(x, x)]
    ensures r == Err(NoSuchNeighbor(x, x))
  {
    var h := AddEdge(g, x, x);
    assert h.queue == [(x, x)] && x in h.verts;
    var vx := DelNeighbor(h.verts[x], x);
    assert vx.Some? && x !in vx.value.adjacent;
    queued, r := h.queue, DelEdge(h);
  }
}
