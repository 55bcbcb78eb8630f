/** The invariant of the bidirectional search and why it yields the hop
    distance: each side is a breadth-first search from its own end, the
    two sides never visit the same account, and every link between an
    expanded account and the other side has been offered as a meeting. */
module Meeting {
  import opened Vertices
  import opened Graphs
  import opened Window
  import opened Paths
  import opened Layers

  /** One side of the search: its source, visited map, queue and depth,
      with the accounts it has expanded. */
  datatype Half = Half(src: Id, dist: map<Id, nat>, q: seq<Id>, depth: nat, done: set<Id>)

  ghost predicate HalfLayered(g: Graph, h: Half) {
    Layered(g, h.src, h.dist, h.q, h.depth, h.done)
  }

  /** Every link from an account of `f` to one of `b`, one of them
      expanded, has offered its meeting length to `best`. */
  ghost predicate Met(g: Graph, f: Half, b: Half, best: Dist) {
    forall x, y :: x in f.dist && y in b.dist && Linked(g, x, y) && (x in f.done || y in b.done) ==>
      AtMost(best, f.dist[x] + 1 + b.dist[y])
  }

  /** A meeting found so far is a genuine walk and lies within both depths. */
  ghost predicate Sound(g: Graph, f: Half, b: Half, best: Dist) {
    best.Fin? ==> best.n <= f.depth + b.depth && b.src in Reach(g, f.src, best.n)
  }

  ghost predicate Searching(g: Graph, f: Half, b: Half, best: Dist) {
    && f.dist.Keys !! b.dist.Keys
    && HalfLayered(g, f) && HalfLayered(g, b)
    && DoneClosed(g, f.done, f.dist.Keys + b.dist.Keys)
    && DoneClosed(g, b.done, f.dist.Keys + b.dist.Keys)
    && Met(g, f, b, best)
    && Sound(g, f, b, best)
  }

  lemma SearchingInit(g: Graph, s: Id, t: Id)
    requires s in g.verts && t in g.verts && s != t
    ensures Searching(g, Half(s, map[s := 0], [s], 0, {}), Half(t, map[t := 0], [t], 0, {}), Inf)
  {
    LayeredInit(g, s);
    LayeredInit(g, t);
  }

  /** The invariant does not depend on which side is called forward. */
  lemma SearchingSwap(g: Graph, f: Half, b: Half, best: Dist)
    requires Closed(g) && Symmetric(g) && Searching(g, f, b, best)
    ensures Searching(g, b, f, best)
  {
    assert b.dist.Keys + f.dist.Keys == f.dist.Keys + b.dist.Keys;
    forall x, y | x in b.dist && y in f.dist && Linked(g, x, y) && (x in b.done || y in f.done)
      ensures AtMost(best, b.dist[x] + 1 + f.dist[y])
    {
      assert Linked(g, y, x);
    }
    if best.Fin? {
      ReachSym(g, f.src, b.src, best.n);
    }
  }

  // ---------------------------------------------------------------------
  // One forward expansion
  // ---------------------------------------------------------------------

  /** While no meeting is known, expanded forward accounts have only
      forward neighbours. */
  lemma ApartWhileUnmet(g: Graph, f: Half, b: Half)
    requires DoneClosed(g, f.done, f.dist.Keys + b.dist.Keys) && Met(g, f, b, Inf) && f.done <= f.dist.Keys
    ensures forall v, w :: v in f.done && Linked(g, v, w) ==> w in f.dist
  {
    forall v, w | v in f.done && Linked(g, v, w) ensures w in f.dist {
      assert v in f.dist && w in f.dist.Keys + b.dist.Keys;
    }
  }

  /** The forward side after dequeuing `u`, moving to its layer, and
      expanding it with the result `dist'`, `q'`. */
  ghost function Advanced(f: Half, dist': map<Id, nat>, q': seq<Id>): Half
    requires |f.q| > 0 && f.q[0] in f.dist
  {
    var u := f.q[0];
    var nd := f.dist[u] + 1;
    Half(f.src, dist', q', if nd > f.depth then nd else f.depth, f.done + {u})
  }

  /** The head `u` of `f`'s queue, at `nd` hops, has been expanded into
      `dist'`, `q'` and `best'` against the opposite marks `theirs`; a new
      layer is opened only while no meeting is known. */
  ghost predicate Stepped(g: Graph, f: Half, theirs: map<Id, nat>, best: Dist, dist': map<Id, nat>, q': seq<Id>, best': Dist) {
    && |f.q| > 0 && f.q[0] in f.dist
    && (f.dist[f.q[0]] + 1 > f.depth ==> best.Inf?)
    && Expanded(AdjOf(g, f.q[0]), f.dist[f.q[0]] + 1, f.dist, theirs, f.q[1..], best, dist', q', best')
  }

  lemma AdvanceLayered(g: Graph, f: Half, b: Half, best: Dist, dist': map<Id, nat>, q': seq<Id>, best': Dist)
    requires Closed(g) && HalfLayered(g, f) && Stepped(g, f, b.dist, best, dist', q', best')
    requires f.dist[f.q[0]] + 1 > f.depth ==> forall v, w :: v in f.done && Linked(g, v, w) ==> w in f.dist
    ensures Layered(g, f.src, dist', q', Advanced(f, dist', q').depth, f.done + {f.q[0]})
  {
    LayeredExpand(g, f.src, f.dist, f.q, f.depth, f.done, b.dist, best, dist', q', best', Advanced(f, dist', q').depth);
  }

  lemma AdvanceMet(g: Graph, f: Half, b: Half, best: Dist, dist': map<Id, nat>, q': seq<Id>, best': Dist)
    requires Symmetric(g) && Met(g, f, b, best) && f.done <= f.dist.Keys
    requires DoneClosed(g, b.done, f.dist.Keys + b.dist.Keys) && |f.q| > 0 && f.q[0] in f.dist
    requires VisitedSoFar(f.dist, dist', AdjOf(g, f.q[0]), b.dist, f.dist[f.q[0]] + 1) && NoWorse(best', best)
    requires forall w :: w in AdjOf(g, f.q[0]) && w in b.dist ==> AtMost(best', f.dist[f.q[0]] + 1 + b.dist[w])
    ensures Met(g, Advanced(f, dist', q'), b, best')
  {
    var u := f.q[0];
    var f' := Advanced(f, dist', q');
    forall x, y | x in f'.dist && y in b.dist && Linked(g, x, y) && (x in f'.done || y in b.done)
      ensures AtMost(best', f'.dist[x] + 1 + b.dist[y])
    {
      assert Linked(g, y, x);
      if x == u {
        assert y in AdjOf(g, u) && f'.dist[x] == f.dist[u];
      } else if x in f.dist {
        assert f'.dist[x] == f.dist[x] && AtMost(best, f.dist[x] + 1 + b.dist[y]);
      }
    }
  }

  /** A meeting through the link `u`–`w` is a walk between the sources. */
  lemma OfferSound(g: Graph, s: Id, t: Id, u: Id, du: nat, w: Id, dw: nat)
    requires Closed(g) && Symmetric(g) && IsDist(g, s, u, du) && IsDist(g, t, w, dw) && Linked(g, u, w)
    ensures t in Reach(g, s, du + 1 + dw)
  {
    ReachNext(g, s, du, u, w);
    ReachSym(g, t, w, dw);
    ReachTrans(g, s, w, t, du + 1, dw);
  }

  lemma AdvanceSound(g: Graph, f: Half, b: Half, best: Dist, dist': map<Id, nat>, q': seq<Id>, best': Dist)
    requires Closed(g) && Symmetric(g) && Sound(g, f, b, best) && Stepped(g, f, b.dist, best, dist', q', best')
    requires Exact(g, f.src, f.dist) && Exact(g, b.src, b.dist)
    requires forall v :: v in b.dist ==> b.dist[v] <= b.depth
    ensures Sound(g, Advanced(f, dist', q'), b, best')
  {
    var u := f.q[0];
    var nd := f.dist[u] + 1;
    if best' != best {
      var w :| w in AdjOf(g, u) && w in b.dist && best' == Fin(nd + b.dist[w]);
      assert ExactAt(g, f.src, f.dist, u) && ExactAt(g, b.src, b.dist, w);
      OfferSound(g, f.src, b.src, u, f.dist[u], w, b.dist[w]);
    }
  }

  lemma AdvanceClosed(g: Graph, f: Half, b: Half, best: Dist, dist': map<Id, nat>, q': seq<Id>, best': Dist)
    requires Searching(g, f, b, best) && Stepped(g, f, b.dist, best, dist', q', best')
    ensures var f' := Advanced(f, dist', q');
      && f'.dist.Keys !! b.dist.Keys
      && DoneClosed(g, f'.done, f'.dist.Keys + b.dist.Keys)
      && DoneClosed(g, b.done, f'.dist.Keys + b.dist.Keys)
  {
  }

  /** Expanding the forward head keeps the invariant, provided the search
      moves to a new layer only while no meeting is known. */
  lemma Advance(g: Graph, f: Half, b: Half, best: Dist, dist': map<Id, nat>, q': seq<Id>, best': Dist)
    requires Closed(g) && Symmetric(g) && Searching(g, f, b, best) && Stepped(g, f, b.dist, best, dist', q', best')
    ensures Searching(g, Advanced(f, dist', q'), b, best')
  {
    if f.dist[f.q[0]] + 1 > f.depth {
      ApartWhileUnmet(g, f, b);
    }
    AdvanceLayered(g, f, b, best, dist', q', best');
    AdvanceMet(g, f, b, best, dist', q', best');
    AdvanceSound(g, f, b, best, dist', q', best');
    AdvanceClosed(g, f, b, best, dist', q', best');
  }

  /** Expanding the backward head keeps the invariant: the forward step
      seen from the other end. */
  lemma Retreat(g: Graph, f: Half, b: Half, best: Dist, dist': map<Id, nat>, q': seq<Id>, best': Dist)
    requires Closed(g) && Symmetric(g) && Searching(g, f, b, best) && Stepped(g, b, f.dist, best, dist', q', best')
    ensures Searching(g, f, Advanced(b, dist', q'), best')
  {
    SearchingSwap(g, f, b, best);
    Advance(g, b, f, best, dist', q', best');
    SearchingSwap(g, Advanced(b, dist', q'), f, best');
  }

  // ---------------------------------------------------------------------
  // Why the answer is the distance
  // ---------------------------------------------------------------------

  /** A walk that starts inside `S` and ends outside it leaves `S` somewhere. */
  lemma {:induction false} Leaves(p: seq<Id>, S: set<Id>, lo: nat) returns (j: nat)
    requires lo < |p| && p[lo] in S && p[|p| - 1] !in S
    ensures lo <= j < |p| - 1 && p[j] in S && p[j + 1] !in S
    decreases |p| - lo
  {
    if p[lo + 1] !in S {
      j := lo;
    } else {
      j := Leaves(p, S, lo + 1);
    }
  }

  /** A walk that starts outside `S` and ends inside it enters `S` somewhere. */
  lemma {:induction false} Enters(p: seq<Id>, S: set<Id>, lo: nat) returns (j: nat)
    requires lo < |p| && p[lo] !in S && p[|p| - 1] in S
    ensures lo <= j < |p| - 1 && p[j] !in S && p[j + 1] in S
    decreases |p| - lo
  {
    if p[lo + 1] in S {
      j := lo;
    } else {
      j := Enters(p, S, lo + 1);
    }
  }

  /** The forward distance of the `j`-th account of a walk from the forward
      source is at most `j`; the backward distance of the `k`-th account of
      a walk to the backward source is at most the hops that remain. */
  lemma OnWalk(g: Graph, f: Half, b: Half, best: Dist, p: seq<Id>, j: nat)
    requires Closed(g) && Symmetric(g) && Searching(g, f, b, best)
    requires IsWalk(g, p) && p[0] == f.src && p[|p| - 1] == b.src && j < |p|
    ensures p[j] in f.dist ==> f.dist[p[j]] <= j
    ensures p[j] in b.dist ==> b.dist[p[j]] <= |p| - 1 - j
  {
    WalkPositions(g, p, j);
    if p[j] in f.dist {
      assert ExactAt(g, f.src, f.dist, p[j]);
      IsDistLeast(g, f.src, p[j], f.dist[p[j]], j);
    }
    if p[j] in b.dist {
      ReachSym(g, p[j], b.src, |p| - 1 - j);
      assert ExactAt(g, b.src, b.dist, p[j]);
      IsDistLeast(g, b.src, p[j], b.dist[p[j]], |p| - 1 - j);
    }
  }

  /** Where a walk leaves the forward side from an expanded account, the
      meeting it offers is at most the walk's length. */
  lemma CrossFromDone(g: Graph, f: Half, b: Half, best: Dist, p: seq<Id>, j: nat)
    requires Closed(g) && Symmetric(g) && Searching(g, f, b, best)
    requires IsWalk(g, p) && p[0] == f.src && p[|p| - 1] == b.src
    requires j < |p| - 1 && p[j] in f.done && p[j + 1] !in f.dist
    ensures AtMost(best, |p| - 1)
  {
    assert Linked(g, p[j], p[j + 1]);
    OnWalk(g, f, b, best, p, j);
    OnWalk(g, f, b, best, p, j + 1);
  }

  /** Where a walk enters the backward side at an expanded account, the
      meeting it offers is at most the walk's length. */
  lemma CrossIntoDone(g: Graph, f: Half, b: Half, best: Dist, p: seq<Id>, k: nat)
    requires Closed(g) && Symmetric(g) && Searching(g, f, b, best)
    requires IsWalk(g, p) && p[0] == f.src && p[|p| - 1] == b.src
    requires k < |p| - 1 && p[k] !in b.dist && p[k + 1] in b.done
    ensures AtMost(best, |p| - 1)
  {
    assert Linked(g, p[k], p[k + 1]) && Linked(g, p[k + 1], p[k]);
    OnWalk(g, f, b, best, p, k);
    OnWalk(g, f, b, best, p, k + 1);
  }

  /** With the forward queue exhausted, every walk between the sources is
      at least as long as the best meeting. */
  lemma ExhaustedMeets(g: Graph, f: Half, b: Half, best: Dist, p: seq<Id>)
    requires Closed(g) && Symmetric(g) && Searching(g, f, b, best) && f.q == []
    requires IsWalk(g, p) && p[0] == f.src && p[|p| - 1] == b.src
    ensures AtMost(best, |p| - 1)
  {
    var j := Leaves(p, f.dist.Keys, 0);
    assert p[j] in f.done;
    CrossFromDone(g, f, b, best, p, j);
  }

  /** When the forward head opens a new layer while a meeting is known,
      every walk between the sources is at least as long as that meeting. */
  lemma StoppedMeets(g: Graph, f: Half, b: Half, best: Dist, p: seq<Id>)
    requires Closed(g) && Symmetric(g) && Searching(g, f, b, best)
    requires |f.q| > 0 && f.dist[f.q[0]] + 1 > f.depth && best.Fin?
    requires IsWalk(g, p) && p[0] == f.src && p[|p| - 1] == b.src
    ensures AtMost(best, |p| - 1)
  {
    var j := Leaves(p, f.dist.Keys, 0);
    if p[j] in f.done {
      CrossFromDone(g, f, b, best, p, j);
    } else {
      QueueHeadLeast(f.dist, f.q, f.depth, f.done, p[j]);
      OnWalk(g, f, b, best, p, j);
      var k := Enters(p, b.dist.Keys, j);
      if p[k + 1] in b.done {
        CrossIntoDone(g, f, b, best, p, k);
      } else {
        var i :| 0 <= i < |b.q| && b.q[i] == p[k + 1];
        OnWalk(g, f, b, best, p, k + 1);
      }
    }
  }

  /** A sound meeting no longer than any walk is the hop distance. */
  lemma MeetingIsDistance(g: Graph, f: Half, b: Half, best: Dist)
    requires Closed(g) && Symmetric(g) && Searching(g, f, b, best)
    requires forall p :: IsWalk(g, p) && p[0] == f.src && p[|p| - 1] == b.src ==> AtMost(best, |p| - 1)
    ensures best == Distance(g, f.src, b.src)
  {
    var d := Distance(g, f.src, b.src);
    DistanceIsShortestWalk(g, f.src, b.src);
    if d.Fin? {
      var p :| IsWalk(g, p) && p[0] == f.src && p[|p| - 1] == b.src && |p| == d.n + 1;
      assert AtMost(best, d.n);
      IsDistLeast(g, f.src, b.src, d.n, best.n);
    } else if best.Fin? {
      assert b.src in Reach(g, f.src, best.n);
    }
  }

  /** The answer when the forward queue runs out. */
  lemma ExhaustedDistance(g: Graph, f: Half, b: Half, best: Dist)
    requires Closed(g) && Symmetric(g) && Searching(g, f, b, best) && f.q == []
    ensures best == Distance(g, f.src, b.src)
  {
    forall p | IsWalk(g, p) && p[0] == f.src && p[|p| - 1] == b.src ensures AtMost(best, |p| - 1) {
      ExhaustedMeets(g, f, b, best, p);
    }
    MeetingIsDistance(g, f, b, best);
  }

  /** The answer when the forward side stops at a new layer. */
  lemma StoppedDistance(g: Graph, f: Half, b: Half, best: Dist)
    requires Closed(g) && Symmetric(g) && Searching(g, f, b, best)
    requires |f.q| > 0 && f.dist[f.q[0]] + 1 > f.depth && best.Fin?
    ensures best == Distance(g, f.src, b.src)
  {
    forall p | IsWalk(g, p) && p[0] == f.src && p[|p| - 1] == b.src ensures AtMost(best, |p| - 1) {
      StoppedMeets(g, f, b, best, p);
    }
    MeetingIsDistance(g, f, b, best);
  }

  /** The answer when the backward queue runs out. */
  lemma ExhaustedBackDistance(g: Graph, f: Half, b: Half, best: Dist)
    requires Closed(g) && Symmetric(g) && Searching(g, f, b, best) && b.q == []
    ensures best == Distance(g, f.src, b.src)
  {
    SearchingSwap(g, f, b, best);
    ExhaustedDistance(g, b, f, best);
    DistanceSym(g, f.src, b.src);
  }

  /** The answer when the backward side stops at a new layer. */
  lemma StoppedBackDistance(g: Graph, f: Half, b: Half, best: Dist)
    requires Closed(g) && Symmetric(g) && Searching(g, f, b, best)
    requires |b.q| > 0 && b.dist[b.q[0]] + 1 > b.depth && best.Fin?
    ensures best == Distance(g, f.src, b.src)
  {
    SearchingSwap(g, f, b, best);
    StoppedDistance(g, b, f, best);
    DistanceSym(g, f.src, b.src);
  }
}
