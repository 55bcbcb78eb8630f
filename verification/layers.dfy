/** Breadth-first search from one side: the visited map, the FIFO queue,
    and the expansion of one dequeued account. Both searches are built
    from this step; the plain search simply has no opposite side. */
module Layers {
  import opened Vertices
  import opened Graphs
  import opened Window
  import opened Paths

  /** The queue of a breadth-first search at `depth`: sorted by distance,
      spanning at most the layers `depth - 1` and `depth`; every visited
      account is expanded (`done`) or still queued. */
  ghost predicate Queued(dist: map<Id, nat>, q: seq<Id>, depth: nat, done: set<Id>) {
    && (forall i :: 0 <= i < |q| ==> q[i] in dist && dist[q[i]] <= depth <= dist[q[i]] + 1)
    && (forall i, j :: 0 <= i < j < |q| ==> dist[q[i]] <= dist[q[j]])
    && (forall v :: v in dist ==> dist[v] <= depth)
    && done <= dist.Keys
    && (forall v :: v in dist ==> v in done || v in q)
  }

  /** The distance recorded for `v`, if any, is its exact hop distance
      from `src`. */
  ghost predicate ExactAt(g: Graph, src: Id, dist: map<Id, nat>, v: Id) {
    v in dist ==> IsDist(g, src, v, dist[v])
  }

  /** Every recorded distance is the exact hop distance from `src`. */
  ghost predicate Exact(g: Graph, src: Id, dist: map<Id, nat>) {
    forall v :: ExactAt(g, src, dist, v)
  }

  /** Everything within `depth - 1` hops of `src` is already visited. */
  ghost predicate Ball(g: Graph, src: Id, dist: map<Id, nat>, depth: nat) {
    depth >= 1 ==> Reach(g, src, depth - 1) <= dist.Keys
  }

  /** The layered shape of a breadth-first search from `src`. */
  ghost predicate Layered(g: Graph, src: Id, dist: map<Id, nat>, q: seq<Id>, depth: nat, done: set<Id>) {
    && src in dist
    && dist.Keys <= g.verts.Keys
    && Queued(dist, q, depth, done)
    && Exact(g, src, dist)
    && Ball(g, src, dist, depth)
  }

  /** Every neighbour of an expanded account has been visited. */
  ghost predicate DoneClosed(g: Graph, done: set<Id>, visited: set<Id>) {
    forall v, w :: v in done && Linked(g, v, w) ==> w in visited
  }

  lemma LayeredInit(g: Graph, src: Id)
    requires src in g.verts
    ensures Layered(g, src, map[src := 0], [src], 0, {})
  {
  }

  /** When the queue head opens a new layer and every expanded account's
      neighbours are on this side, the next layer is wholly visited. */
  lemma LayeredBall(g: Graph, src: Id, dist: map<Id, nat>, q: seq<Id>, depth: nat, done: set<Id>)
    requires Layered(g, src, dist, q, depth, done)
    requires |q| > 0 && dist[q[0]] == depth
    requires forall v, w :: v in done && Linked(g, v, w) ==> w in dist
    ensures Reach(g, src, depth) <= dist.Keys
  {
    if depth > 0 {
      StepVisited(g, src, dist, q, depth, done);
      assert Reach(g, src, depth) == Reach(g, src, depth - 1) + Step(g, Reach(g, src, depth - 1));
    }
  }

  lemma StepVisited(g: Graph, src: Id, dist: map<Id, nat>, q: seq<Id>, depth: nat, done: set<Id>)
    requires Queued(dist, q, depth, done) && Exact(g, src, dist) && Ball(g, src, dist, depth)
    requires |q| > 0 && dist[q[0]] == depth && depth > 0
    requires forall v, w :: v in done && Linked(g, v, w) ==> w in dist
    ensures Step(g, Reach(g, src, depth - 1)) <= dist.Keys
  {
    var inner := Reach(g, src, depth - 1);
    forall w | w in Step(g, inner) ensures w in dist {
      var v := StepWitness(g, inner, w);
      assert v in dist && ExactAt(g, src, dist, v);
      IsDistLeast(g, src, v, dist[v], depth - 1);
      QueuedEarlier(dist, q, depth, done, v);
    }
  }

  /** The queue head has the least distance among queued accounts. */
  lemma QueueHeadLeast(dist: map<Id, nat>, q: seq<Id>, depth: nat, done: set<Id>, v: Id)
    requires Queued(dist, q, depth, done) && |q| > 0
    ensures v in q ==> dist[q[0]] <= dist[v]
  {
    if v in q {
      var i :| 0 <= i < |q| && q[i] == v;
      assert i == 0 || dist[q[0]] <= dist[q[i]];
    }
  }

  /** An account visited before the head's layer has been expanded. */
  lemma QueuedEarlier(dist: map<Id, nat>, q: seq<Id>, depth: nat, done: set<Id>, v: Id)
    requires Queued(dist, q, depth, done)
    requires |q| > 0 && dist[q[0]] == depth
    requires v in dist && dist[v] < depth
    ensures v in done
  {
    QueueHeadLeast(dist, q, depth, done, v);
  }

  lemma QueuedPop(dist: map<Id, nat>, q: seq<Id>, depth: nat, done: set<Id>)
    requires Queued(dist, q, depth, done) && |q| > 0
    ensures var depth' := if dist[q[0]] + 1 > depth then dist[q[0]] + 1 else depth;
      && Queued(dist, q[1..], depth', done + {q[0]})
      && dist[q[0]] + 1 == depth'
  {
    var depth' := if dist[q[0]] + 1 > depth then dist[q[0]] + 1 else depth;
    var q' := q[1..];
    forall i | 0 <= i < |q'| ensures q'[i] in dist && dist[q'[i]] <= depth' <= dist[q'[i]] + 1 {
      assert q'[i] == q[i + 1];
      assert dist[q[0]] <= dist[q[i + 1]];
    }
    forall i, j | 0 <= i < j < |q'| ensures dist[q'[i]] <= dist[q'[j]] {
      assert q'[i] == q[i + 1] && q'[j] == q[j + 1];
    }
    forall v | v in dist ensures v in done + {q[0]} || v in q' {
      if v !in done && v != q[0] {
        var i :| 0 <= i < |q| && q[i] == v;
        assert q'[i - 1] == v;
      }
    }
  }

  /** Dequeuing the head and, when it opens a new layer, moving to it. */
  lemma LayeredPop(g: Graph, src: Id, dist: map<Id, nat>, q: seq<Id>, depth: nat, done: set<Id>)
    requires Layered(g, src, dist, q, depth, done) && |q| > 0
    requires dist[q[0]] + 1 > depth ==> Reach(g, src, depth) <= dist.Keys
    ensures var depth' := if dist[q[0]] + 1 > depth then dist[q[0]] + 1 else depth;
      && Layered(g, src, dist, q[1..], depth', done + {q[0]})
      && dist[q[0]] + 1 == depth'
  {
    QueuedPop(dist, q, depth, done);
    if dist[q[0]] + 1 > depth {
      assert dist[q[0]] == depth;
    }
  }

  /** The visited map `dist'` extends `dist` with neighbours of `u`, one
      hop further than `u`, each appended once to the queue as `added`. */
  ghost predicate GrownFrom(g: Graph, dist: map<Id, nat>, dist': map<Id, nat>, added: seq<Id>, u: Id, depth: nat) {
    && (forall v :: v in dist ==> v in dist' && dist'[v] == dist[v])
    && (forall v :: v in dist' && v !in dist ==> Linked(g, u, v) && dist'[v] == depth)
    && AppendedExactly(dist, dist', added)
  }

  lemma QueuedGrow(g: Graph, dist: map<Id, nat>, dist': map<Id, nat>, q: seq<Id>, added: seq<Id>, u: Id, depth: nat, done: set<Id>)
    requires Queued(dist, q, depth, done) && GrownFrom(g, dist, dist', added, u, depth)
    ensures Queued(dist', q + added, depth, done)
  {
    var q' := q + added;
    forall i | 0 <= i < |q'| ensures q'[i] in dist' && dist'[q'[i]] <= depth <= dist'[q'[i]] + 1 {
      if i < |q| { assert q'[i] == q[i]; } else { assert q'[i] == added[i - |q|]; }
    }
    forall i, j | 0 <= i < j < |q'| ensures dist'[q'[i]] <= dist'[q'[j]] {
      if j < |q| { assert q'[i] == q[i] && q'[j] == q[j]; }
      else if i < |q| { assert q'[i] == q[i] && q'[j] == added[j - |q|]; }
      else { assert q'[i] == added[i - |q|] && q'[j] == added[j - |q|]; }
    }
    forall v | v in dist' ensures v in done || v in q' {
      if v in dist {
        assert v in q ==> v in q';
      } else {
        var k :| 0 <= k < |added| && added[k] == v;
        assert q'[|q| + k] == v;
      }
    }
  }

  lemma ExactGrow(g: Graph, src: Id, dist: map<Id, nat>, dist': map<Id, nat>, added: seq<Id>, u: Id, depth: nat)
    requires Exact(g, src, dist) && Ball(g, src, dist, depth)
    requires u in dist && dist[u] + 1 == depth && GrownFrom(g, dist, dist', added, u, depth)
    ensures Exact(g, src, dist')
  {
    forall v ensures ExactAt(g, src, dist', v) {
      if v in dist {
        assert ExactAt(g, src, dist, v);
      } else if v in dist' {
        assert ExactAt(g, src, dist, u);
        ReachNext(g, src, dist[u], u, v);
        assert v !in Reach(g, src, depth - 1);
      }
    }
  }

  /** Expanding `u` by a whole batch of new neighbours keeps the shape. */
  lemma LayeredGrow(g: Graph, src: Id, dist: map<Id, nat>, dist': map<Id, nat>, q: seq<Id>, added: seq<Id>, u: Id, depth: nat, done: set<Id>)
    requires Layered(g, src, dist, q, depth, done) && Closed(g)
    requires u in dist && dist[u] + 1 == depth && GrownFrom(g, dist, dist', added, u, depth)
    ensures Layered(g, src, dist', q + added, depth, done)
  {
    QueuedGrow(g, dist, dist', q, added, u, depth, done);
    ExactGrow(g, src, dist, dist', added, u, depth);
    forall v | v in dist' ensures v in g.verts {
      if v !in dist { assert Linked(g, u, v); }
    }
  }

  /** Accounts not yet visited: fewer by exactly the newly visited ones. */
  lemma UnvisitedShrinks(all: set<Id>, seen: set<Id>, seen': set<Id>)
    requires seen <= seen' <= all
    ensures |all - seen'| == |all - seen| - (|seen'| - |seen|)
  {
    assert all - seen == (all - seen') + (seen' - seen);
    assert seen' == seen + (seen' - seen);
  }

  /** `b` is no worse than `a`. */
  predicate NoWorse(b: Dist, a: Dist) {
    a.Inf? || (b.Fin? && b.n <= a.n)
  }

  /** Keeps the shorter of the best meeting so far and a new offer `d`. */
  function Shorter(best: Dist, d: nat): (r: Dist)
    ensures AtMost(r, d) && NoWorse(r, best)
    ensures r == best || r == Fin(d)
  {
    if AtMost(best, d) then best else Fin(d)
  }

  /** One side's search state while an account is expanded. */
  datatype Frontier = Frontier(mine: map<Id, nat>, q: seq<Id>, best: Dist)

  /** Handles one neighbour `w` of the account being expanded at `nd`
      hops: unvisited, it is visited and queued; visited by the other side,
      it offers a meeting; visited by this side, nothing happens. */
  function Consider(f: Frontier, w: Id, nd: nat, theirs: map<Id, nat>): (r: Frontier)
    ensures w !in f.mine && w !in theirs ==> r == Frontier(f.mine[w := nd], f.q + [w], f.best)
    ensures w in theirs ==> r.mine == f.mine && r.q == f.q && AtMost(r.best, nd + theirs[w])
    ensures w in theirs ==> r.best == f.best || r.best == Fin(nd + theirs[w])
    ensures w in theirs ==> NoWorse(r.best, f.best)
    ensures w in f.mine && w !in theirs ==> r == f
  {
    if w !in f.mine && w !in theirs then Frontier(f.mine[w := nd], f.q + [w], f.best)
    else if w in theirs then f.(best := Shorter(f.best, nd + theirs[w]))
    else f
  }

  /** The visited map after considering the neighbours `seen`. */
  ghost predicate VisitedSoFar(mine: map<Id, nat>, mine': map<Id, nat>, seen: set<Id>, theirs: map<Id, nat>, nd: nat) {
    && mine'.Keys !! theirs.Keys
    && (forall v :: v in mine' <==> v in mine || (v in seen && v !in theirs))
    && (forall v :: v in mine' ==> mine'[v] == if v in mine then mine[v] else nd)
  }

  /** The accounts visited while expanding are exactly those appended to
      the queue, one entry each. */
  ghost predicate AppendedExactly(mine: map<Id, nat>, mine': map<Id, nat>, added: seq<Id>) {
    && (forall i :: 0 <= i < |added| ==> added[i] in mine' && added[i] !in mine)
    && (forall v :: v in mine' && v !in mine ==> v in added)
    && |added| == |mine'.Keys| - |mine.Keys|
  }

  /** The best meeting after considering the neighbours `seen`: no worse
      than before, no worse than any offer seen, and either unchanged or
      the offer of `wit`. */
  ghost predicate BestSoFar(best: Dist, best': Dist, seen: set<Id>, theirs: map<Id, nat>, nd: nat, wit: Id) {
    && NoWorse(best', best)
    && (forall w :: w in seen && w in theirs ==> AtMost(best', nd + theirs[w]))
    && (best' == best || (wit in seen && wit in theirs && best' == Fin(nd + theirs[wit])))
  }

  lemma ConsiderVisited(mine: map<Id, nat>, f: Frontier, seen: set<Id>, theirs: map<Id, nat>, nd: nat, w: Id)
    requires VisitedSoFar(mine, f.mine, seen, theirs, nd)
    ensures VisitedSoFar(mine, Consider(f, w, nd, theirs).mine, seen + {w}, theirs, nd)
  {
  }

  lemma ConsiderAppended(mine: map<Id, nat>, q: seq<Id>, f: Frontier, added: seq<Id>, theirs: map<Id, nat>, nd: nat, w: Id)
    requires mine.Keys <= f.mine.Keys && f.q == q + added && AppendedExactly(mine, f.mine, added)
    ensures var r := Consider(f, w, nd, theirs);
      var added' := if w !in f.mine && w !in theirs then added + [w] else added;
      r.q == q + added' && AppendedExactly(mine, r.mine, added')
  {
    if w !in f.mine && w !in theirs {
      assert q + (added + [w]) == (q + added) + [w];
      var added' := added + [w];
      forall i | 0 <= i < |added'| ensures added'[i] in f.mine[w := nd] && added'[i] !in mine {
        if i < |added| { assert added'[i] == added[i]; }
      }
    }
  }

  lemma ConsiderBest(best: Dist, f: Frontier, seen: set<Id>, theirs: map<Id, nat>, nd: nat, wit: Id, w: Id)
    requires BestSoFar(best, f.best, seen, theirs, nd, wit)
    ensures var r := Consider(f, w, nd, theirs);
      BestSoFar(best, r.best, seen + {w}, theirs, nd, if r.best == f.best then wit else w)
  {
  }

  /** What one expansion did: the visits, the appended queue entries and
      the meetings offered, as `Expand` guarantees them. */
  ghost predicate Expanded(adj: set<Id>, nd: nat, mine: map<Id, nat>, theirs: map<Id, nat>, q: seq<Id>, best: Dist,
                           mine': map<Id, nat>, q': seq<Id>, best': Dist) {
    && VisitedSoFar(mine, mine', adj, theirs, nd)
    && |q| <= |q'| && q'[..|q|] == q && AppendedExactly(mine, mine', q'[|q|..])
    && NoWorse(best', best)
    && (forall w :: w in adj && w in theirs ==> AtMost(best', nd + theirs[w]))
    && (best' == best || exists w :: w in adj && w in theirs && best' == Fin(nd + theirs[w]))
  }

  /** Expands a dequeued account with neighbours `adj`, which lie at `nd`
      hops on this side: each unvisited neighbour is visited at `nd` and
      queued; each neighbour visited by the opposite side offers a meeting
      at `nd` plus its distance there, and `best` keeps the least offer.
      An account carries at most one side's mark, so the two maps are
      disjoint. */
  method Expand(adj: set<Id>, nd: nat, mine: map<Id, nat>, theirs: map<Id, nat>, q: seq<Id>, best: Dist)
    returns (mine': map<Id, nat>, q': seq<Id>, best': Dist)
    requires mine.Keys !! theirs.Keys
    ensures Expanded(adj, nd, mine, theirs, q, best, mine', q', best')
  {
    var f := Frontier(mine, q, best);
    ghost var added: seq<Id> := [];
    ghost var wit: Id := "";
    ghost var seen: set<Id> := {};
    var rest := adj;
    while rest != {}
      invariant rest <= adj && seen <= adj
      invariant forall v :: v in adj ==> v in seen || v in rest
      invariant VisitedSoFar(mine, f.mine, seen, theirs, nd)
      invariant f.q == q + added && AppendedExactly(mine, f.mine, added)
      invariant BestSoFar(best, f.best, seen, theirs, nd, wit)
      decreases rest
    {
      var w :| w in rest;
      ConsiderVisited(mine, f, seen, theirs, nd, w);
      ConsiderAppended(mine, q, f, added, theirs, nd, w);
      ConsiderBest(best, f, seen, theirs, nd, wit, w);
      var f' := Consider(f, w, nd, theirs);
      added := if w !in f.mine && w !in theirs then added + [w] else added;
      wit := if f'.best == f.best then wit else w;
      seen := seen + {w};
      rest := rest - {w};
      f := f';
    }
    mine', q', best' := f.mine, f.q, f.best;
    assert q'[..|q|] == q && q'[|q|..] == added;
  }

  /** Dequeuing the head `u`, moving to its layer when it opens one (every
      expanded account's neighbours being visited by then), and expanding
      `u` keeps the layered shape. */
  lemma LayeredExpand(g: Graph, src: Id, dist: map<Id, nat>, q: seq<Id>, depth: nat, done: set<Id>,
                      theirs: map<Id, nat>, best: Dist, dist': map<Id, nat>, q': seq<Id>, best': Dist, depth': nat)
    requires Closed(g) && Layered(g, src, dist, q, depth, done) && |q| > 0
    requires dist[q[0]] + 1 > depth ==> forall v, w :: v in done && Linked(g, v, w) ==> w in dist
    requires Expanded(AdjOf(g, q[0]), dist[q[0]] + 1, dist, theirs, q[1..], best, dist', q', best')
    requires depth' == if dist[q[0]] + 1 > depth then dist[q[0]] + 1 else depth
    ensures Layered(g, src, dist', q', depth', done + {q[0]})
  {
    var u := q[0];
    var nd := dist[u] + 1;
    if nd > depth {
      LayeredBall(g, src, dist, q, depth, done);
    }
    LayeredPop(g, src, dist, q, depth, done);
    var rest := q[1..];
    var added := q'[|rest|..];
    assert q' == rest + added;
    assert GrownFrom(g, dist, dist', added, u, depth');
    LayeredGrow(g, src, dist, dist', rest, added, u, depth', done + {u});
  }

  /** An expansion only adds to the visited map, and the queue grows by
      exactly the number of accounts it adds. */
  lemma ExpandedGrows(adj: set<Id>, nd: nat, mine: map<Id, nat>, theirs: map<Id, nat>, q: seq<Id>, best: Dist,
                      mine': map<Id, nat>, q': seq<Id>, best': Dist)
    requires Expanded(adj, nd, mine, theirs, q, best, mine', q', best')
    ensures mine.Keys <= mine'.Keys && mine'.Keys !! theirs.Keys
    ensures |q'| == |q| + (|mine'.Keys| - |mine.Keys|)
  {
    assert |q'[|q|..]| == |q'| - |q|;
  }
}
