/** The bidirectional breadth-first search the graph answers queries with:
    one search from each end, the smaller queue expanded first, stopping
    at the first new layer once a meeting is known. */
module Bidirectional {
  import opened Vertices
  import opened Graphs
  import opened Window
  import opened Paths
  import opened Layers
  import opened Meeting

  /** The bookkeeping both sides share: an account carries at most one
      mark, only stored accounts are marked, and every queued account is
      marked by one side or the other. */
  ghost predicate Tracked(g: Graph, fwd: map<Id, nat>, bwd: map<Id, nat>, qF: seq<Id>, qB: seq<Id>) {
    && fwd.Keys !! bwd.Keys
    && fwd.Keys <= g.verts.Keys && bwd.Keys <= g.verts.Keys
    && |fwd.Keys| + |bwd.Keys| <= |g.verts.Keys|
    && (forall i :: 0 <= i < |qF| ==> qF[i] in fwd || qF[i] in bwd)
    && (forall i :: 0 <= i < |qB| ==> qB[i] in fwd || qB[i] in bwd)
  }

  /** The distance recorded on a marked account, whichever side marked it. */
  function DistOf(fwd: map<Id, nat>, bwd: map<Id, nat>, u: Id): (d: nat)
    requires u in fwd || u in bwd
    ensures u in fwd ==> d == fwd[u]
    ensures u !in fwd ==> d == bwd[u]
  {
    if u in fwd then fwd[u] else bwd[u]
  }

  /** Two disjoint sets inside a third fit in it together. */
  lemma DisjointFit(a: set<Id>, b: set<Id>, all: set<Id>)
    requires a !! b && a <= all && b <= all
    ensures |a| + |b| <= |all|
  {
    assert all == (a + b) + (all - (a + b));
  }

  /** Expanding one side marks only stored accounts, and the queue grows
      by exactly the accounts newly marked. */
  lemma MarksExpand(g: Graph, u: Id, nd: nat, mine: map<Id, nat>, theirs: map<Id, nat>, rest: seq<Id>,
                    best: Dist, mine': map<Id, nat>, q': seq<Id>, best': Dist)
    requires Closed(g) && mine.Keys !! theirs.Keys && mine.Keys <= g.verts.Keys && theirs.Keys <= g.verts.Keys
    requires Expanded(AdjOf(g, u), nd, mine, theirs, rest, best, mine', q', best')
    ensures mine'.Keys !! theirs.Keys && mine'.Keys <= g.verts.Keys
    ensures |mine'.Keys| + |theirs.Keys| <= |g.verts.Keys|
    ensures |q'| - |mine'.Keys| == |rest| - |mine.Keys|
  {
    ExpandedGrows(AdjOf(g, u), nd, mine, theirs, rest, best, mine', q', best');
    forall v | v in mine' ensures v in g.verts {
      if v !in mine {
        assert v in AdjOf(g, u);
        assert Linked(g, u, v);
      }
    }
    DisjointFit(mine'.Keys, theirs.Keys, g.verts.Keys);
  }

  /** After expanding one side, every queued account is still marked. */
  lemma QueueMarked(u: Id, nd: nat, mine: map<Id, nat>, theirs: map<Id, nat>, q: seq<Id>, other: seq<Id>,
                    adj: set<Id>, best: Dist, mine': map<Id, nat>, q': seq<Id>, best': Dist)
    requires |q| > 0
    requires forall i :: 0 <= i < |q| ==> q[i] in mine || q[i] in theirs
    requires forall i :: 0 <= i < |other| ==> other[i] in mine || other[i] in theirs
    requires Expanded(adj, nd, mine, theirs, q[1..], best, mine', q', best')
    ensures forall i :: 0 <= i < |q'| ==> q'[i] in mine' || q'[i] in theirs
    ensures forall i :: 0 <= i < |other| ==> other[i] in mine' || other[i] in theirs
  {
    var rest := q[1..];
    forall i | 0 <= i < |q'| ensures q'[i] in mine' || q'[i] in theirs {
      if i < |rest| {
        assert q'[i] == q'[..|rest|][i] == rest[i] == q[i + 1];
      } else {
        assert q'[i] == q'[|rest|..][i - |rest|];
      }
    }
  }

  /** The loop invariant of the search. When `frm` and `to` differ, the
      two ends with their expanded accounts `doneF` and `doneB` satisfy the
      meeting invariant; when they coincide only the bookkeeping is kept. */
  ghost predicate Inv(g: Graph, frm: Id, to: Id, fwd: map<Id, nat>, bwd: map<Id, nat>, qF: seq<Id>, qB: seq<Id>,
                      depthF: nat, depthB: nat, best: Dist, doneF: set<Id>, doneB: set<Id>) {
    && Tracked(g, fwd, bwd, qF, qB) && best != Fin(0)
    && (frm != to ==> Searching(g, Half(frm, fwd, qF, depthF, doneF), Half(to, bwd, qB, depthB, doneB), best))
  }

  lemma InvInit(g: Graph, frm: Id, to: Id)
    requires frm in g.verts && to in g.verts
    ensures Inv(g, frm, to, map[frm := 0] - {to}, map[to := 0], [frm], [to], 0, 0, Inf, {}, {})
  {
    var fwd := map[frm := 0] - {to};
    if frm != to {
      assert fwd == map[frm := 0];
      SearchingInit(g, frm, to);
    }
    DisjointFit(fwd.Keys, map[to := 0].Keys, g.verts.Keys);
  }

  /** The head of `q`, at `nd` hops on its side, has been expanded into
      `mine'`, `q'` and `best'`; the side moves to a new layer only while no
      meeting is known. */
  ghost predicate Turned(g: Graph, mine: map<Id, nat>, theirs: map<Id, nat>, q: seq<Id>, depth: nat, nd: nat,
                         best: Dist, mine': map<Id, nat>, q': seq<Id>, best': Dist) {
    && |q| > 0 && nd >= 1 && (nd > depth ==> best.Inf?)
    && Expanded(AdjOf(g, q[0]), nd, mine, theirs, q[1..], best, mine', q', best')
  }

  /** One expansion of either side keeps the shared bookkeeping, never
      finds a meeting of length 0, and shrinks the work left. */
  lemma TrackedKeeps(g: Graph, mine: map<Id, nat>, theirs: map<Id, nat>, q: seq<Id>, other: seq<Id>, depth: nat, nd: nat,
                     best: Dist, mine': map<Id, nat>, q': seq<Id>, best': Dist)
    requires Closed(g) && Tracked(g, mine, theirs, q, other) && best != Fin(0)
    requires Turned(g, mine, theirs, q, depth, nd, best, mine', q', best')
    ensures Tracked(g, mine', theirs, q', other) && Tracked(g, theirs, mine', other, q') && best' != Fin(0)
    ensures |q'| - |mine'.Keys| == |q| - 1 - |mine.Keys|
  {
    MarksExpand(g, q[0], nd, mine, theirs, q[1..], best, mine', q', best');
    QueueMarked(q[0], nd, mine, theirs, q, other, AdjOf(g, q[0]), best, mine', q', best');
  }

  /** The head of a side's queue is marked by that side. */
  lemma HeadMarked(g: Graph, f: Half, b: Half, best: Dist)
    requires Searching(g, f, b, best) && |f.q| > 0
    ensures f.q[0] in f.dist
  {
    assert HalfLayered(g, f);
  }

  /** A turn of a side whose head it marks is a step of that side. */
  lemma TurnedStepped(g: Graph, h: Half, theirs: map<Id, nat>, nd: nat, best: Dist, dist': map<Id, nat>, q': seq<Id>, best': Dist)
    requires Turned(g, h.dist, theirs, h.q, h.depth, nd, best, dist', q', best') && h.q[0] in h.dist && nd == h.dist[h.q[0]] + 1
    ensures Stepped(g, h, theirs, best, dist', q', best')
  {
  }

  /** The meeting invariant after a forward expansion. */
  lemma ForwardSearching(g: Graph, frm: Id, to: Id, fwd: map<Id, nat>, bwd: map<Id, nat>, qF: seq<Id>, qB: seq<Id>,
                         depthF: nat, depthB: nat, best: Dist, doneF: set<Id>, doneB: set<Id>,
                         fwd': map<Id, nat>, qF': seq<Id>, best': Dist, depthF': nat)
    requires Closed(g) && Symmetric(g) && Searching(g, Half(frm, fwd, qF, depthF, doneF), Half(to, bwd, qB, depthB, doneB), best)
    requires Stepped(g, Half(frm, fwd, qF, depthF, doneF), bwd, best, fwd', qF', best')
    requires depthF' == if fwd[qF[0]] + 1 > depthF then fwd[qF[0]] + 1 else depthF
    ensures Searching(g, Half(frm, fwd', qF', depthF', doneF + {qF[0]}),
                      Half(to, bwd, qB, depthB, doneB), best')
  {
    var F := Half(frm, fwd, qF, depthF, doneF);
    var B := Half(to, bwd, qB, depthB, doneB);
    Advance(g, F, B, best, fwd', qF', best');
    assert Advanced(F, fwd', qF') == Half(frm, fwd', qF', depthF', doneF + {qF[0]});
  }

  /** The meeting invariant after a backward expansion. */
  lemma BackwardSearching(g: Graph, frm: Id, to: Id, fwd: map<Id, nat>, bwd: map<Id, nat>, qF: seq<Id>, qB: seq<Id>,
                          depthF: nat, depthB: nat, best: Dist, doneF: set<Id>, doneB: set<Id>,
                          bwd': map<Id, nat>, qB': seq<Id>, best': Dist, depthB': nat)
    requires Closed(g) && Symmetric(g) && Searching(g, Half(frm, fwd, qF, depthF, doneF), Half(to, bwd, qB, depthB, doneB), best)
    requires Stepped(g, Half(to, bwd, qB, depthB, doneB), fwd, best, bwd', qB', best')
    requires depthB' == if bwd[qB[0]] + 1 > depthB then bwd[qB[0]] + 1 else depthB
    ensures Searching(g, Half(frm, fwd, qF, depthF, doneF),
                      Half(to, bwd', qB', depthB', doneB + {qB[0]}), best')
  {
    var F := Half(frm, fwd, qF, depthF, doneF);
    var B := Half(to, bwd, qB, depthB, doneB);
    Retreat(g, F, B, best, bwd', qB', best');
    assert Advanced(B, bwd', qB') == Half(to, bwd', qB', depthB', doneB + {qB[0]});
  }

  /** One forward expansion keeps the invariant and shrinks the work left. */
  lemma ForwardKeeps(g: Graph, frm: Id, to: Id, fwd: map<Id, nat>, bwd: map<Id, nat>, qF: seq<Id>, qB: seq<Id>,
                     depthF: nat, depthB: nat, best: Dist, doneF: set<Id>, doneB: set<Id>,
                     nd: nat, fwd': map<Id, nat>, qF': seq<Id>, best': Dist, depthF': nat)
    requires Closed(g) && Symmetric(g) && Inv(g, frm, to, fwd, bwd, qF, qB, depthF, depthB, best, doneF, doneB)
    requires Turned(g, fwd, bwd, qF, depthF, nd, best, fwd', qF', best') && nd == DistOf(fwd, bwd, qF[0]) + 1
    requires depthF' == if nd > depthF then nd else depthF
    ensures Inv(g, frm, to, fwd', bwd, qF', qB, depthF', depthB, best', doneF + {qF[0]}, doneB)
    ensures |qF'| - |fwd'.Keys| == |qF| - 1 - |fwd.Keys|
    ensures Expanded(AdjOf(g, qF[0]), DistOf(fwd, bwd, qF[0]) + 1, fwd, bwd, qF[1..], best, fwd', qF', best')
  {
    TrackedKeeps(g, fwd, bwd, qF, qB, depthF, nd, best, fwd', qF', best');
    if frm != to {
      HeadMarked(g, Half(frm, fwd, qF, depthF, doneF), Half(to, bwd, qB, depthB, doneB), best);
      TurnedStepped(g, Half(frm, fwd, qF, depthF, doneF), bwd, nd, best, fwd', qF', best');
      ForwardSearching(g, frm, to, fwd, bwd, qF, qB, depthF, depthB, best, doneF, doneB, fwd', qF', best', depthF');
    }
  }

  /** One backward expansion keeps the invariant and shrinks the work left. */
  lemma BackwardKeeps(g: Graph, frm: Id, to: Id, fwd: map<Id, nat>, bwd: map<Id, nat>, qF: seq<Id>, qB: seq<Id>,
                      depthF: nat, depthB: nat, best: Dist, doneF: set<Id>, doneB: set<Id>,
                      nd: nat, bwd': map<Id, nat>, qB': seq<Id>, best': Dist, depthB': nat)
    requires Closed(g) && Symmetric(g) && Inv(g, frm, to, fwd, bwd, qF, qB, depthF, depthB, best, doneF, doneB)
    requires Turned(g, bwd, fwd, qB, depthB, nd, best, bwd', qB', best') && nd == DistOf(fwd, bwd, qB[0]) + 1
    requires depthB' == if nd > depthB then nd else depthB
    ensures Inv(g, frm, to, fwd, bwd', qF, qB', depthF, depthB', best', doneF, doneB + {qB[0]})
    ensures |qB'| - |bwd'.Keys| == |qB| - 1 - |bwd.Keys|
    ensures Expanded(AdjOf(g, qB[0]), DistOf(fwd, bwd, qB[0]) + 1, bwd, fwd, qB[1..], best, bwd', qB', best')
  {
    assert Tracked(g, bwd, fwd, qB, qF);
    TrackedKeeps(g, bwd, fwd, qB, qF, depthB, nd, best, bwd', qB', best');
    if frm != to {
      SearchingSwap(g, Half(frm, fwd, qF, depthF, doneF), Half(to, bwd, qB, depthB, doneB), best);
      HeadMarked(g, Half(to, bwd, qB, depthB, doneB), Half(frm, fwd, qF, depthF, doneF), best);
      TurnedStepped(g, Half(to, bwd, qB, depthB, doneB), fwd, nd, best, bwd', qB', best');
      BackwardSearching(g, frm, to, fwd, bwd, qF, qB, depthF, depthB, best, doneF, doneB, bwd', qB', best', depthB');
    }
  }

  /** Where the search stops, the best meeting is the distance. */
  lemma StopKeeps(g: Graph, frm: Id, to: Id, fwd: map<Id, nat>, bwd: map<Id, nat>, qF: seq<Id>, qB: seq<Id>,
                  depthF: nat, depthB: nat, best: Dist, doneF: set<Id>, doneB: set<Id>)
    requires Closed(g) && Symmetric(g) && Inv(g, frm, to, fwd, bwd, qF, qB, depthF, depthB, best, doneF, doneB)
    requires || qF == [] || qB == []
             || (best.Fin? && DistOf(fwd, bwd, qF[0]) + 1 > depthF)
             || (best.Fin? && DistOf(fwd, bwd, qB[0]) + 1 > depthB)
    ensures frm != to ==> best == Distance(g, frm, to)
  {
    if frm != to {
      var F := Half(frm, fwd, qF, depthF, doneF);
      var B := Half(to, bwd, qB, depthB, doneB);
      if qF == [] {
        ExhaustedDistance(g, F, B, best);
      } else if qB == [] {
        ExhaustedBackDistance(g, F, B, best);
      } else if best.Fin? && DistOf(fwd, bwd, qF[0]) + 1 > depthF {
        HeadMarked(g, F, B, best);
        StoppedDistance(g, F, B, best);
      } else {
        SearchingSwap(g, F, B, best);
        HeadMarked(g, B, F, best);
        StoppedBackDistance(g, F, B, best);
      }
    }
  }

  /** A search of an account `x` against itself: the backward mark
      replaced the forward one, so the forward side has nothing marked.
      Until the forward side's one turn, no meeting is known, and once the
      backward side has expanded `x` its neighbours carry backward mark 1
      (`x` itself 0). After the forward turn the forward queue is empty and
      the meeting is 1 (`x` lists itself) or 2 (through a neighbour) or
      none. */
  ghost predicate SelfRun(g: Graph, x: Id, fwd: map<Id, nat>, bwd: map<Id, nat>, qF: seq<Id>, qB: seq<Id>, best: Dist) {
    && fwd == map[]
    && x in bwd && bwd[x] == 0
    && (|| (&& qF == [x] && best == Inf
            && ((qB == [x] && bwd == map[x := 0])
                || forall w :: w in AdjOf(g, x) ==> w in bwd && bwd[w] == (if w == x then 0 else 1)))
        || (qF == [] && (best == Inf || best == Fin(1) || best == Fin(2))))
  }

  /** The forward side's one turn in a self-search: `x` sits at backward
      mark 0, every neighbour is already marked backward, so nothing is
      queued and each neighbour offers a meeting of 1 plus its mark. */
  lemma SelfForward(g: Graph, x: Id, fwd: map<Id, nat>, bwd: map<Id, nat>, qF: seq<Id>, qB: seq<Id>, best: Dist,
                    fwd': map<Id, nat>, qF': seq<Id>, best': Dist)
    requires SelfRun(g, x, fwd, bwd, qF, qB, best) && 0 < |qF| < |qB|
    requires Expanded(AdjOf(g, qF[0]), DistOf(fwd, bwd, qF[0]) + 1, fwd, bwd, qF[1..], best, fwd', qF', best')
    ensures SelfRun(g, x, fwd', bwd, qF', qB, best')
  {
    assert qF == [x] && DistOf(fwd, bwd, x) == 0;
    assert fwd'.Keys == {};
    assert fwd' == map[];
    assert |qF'[|qF[1..]|..]| == 0;
    if best' != best {
      var w :| w in AdjOf(g, x) && w in bwd && best' == Fin(1 + bwd[w]);
    }
  }

  /** A backward turn in a self-search: no forward mark means no meeting,
      and the first turn marks the neighbours of `x` at 1. */
  lemma SelfBackward(g: Graph, x: Id, fwd: map<Id, nat>, bwd: map<Id, nat>, qF: seq<Id>, qB: seq<Id>, best: Dist,
                     bwd': map<Id, nat>, qB': seq<Id>, best': Dist)
    requires SelfRun(g, x, fwd, bwd, qF, qB, best) && |qF| > 0 && |qB| > 0 && qB[0] in bwd
    requires Expanded(AdjOf(g, qB[0]), DistOf(fwd, bwd, qB[0]) + 1, bwd, fwd, qB[1..], best, bwd', qB', best')
    ensures SelfRun(g, x, fwd, bwd', qF, qB', best')
  {
    assert qF == [x] && best == Inf;
    if qB == [x] && bwd == map[x := 0] {
      assert DistOf(fwd, bwd, x) == 0;
    }
  }

  /** One forward turn: pop the head of the forward queue and offer its
      neighbours, opening a new layer only while no meeting is known. */
  method ForwardTurn(g: Graph, ghost frm: Id, ghost to: Id, fwd: map<Id, nat>, bwd: map<Id, nat>, qF: seq<Id>, ghost qB: seq<Id>,
                     depthF: nat, ghost depthB: nat, best: Dist, ghost doneF: set<Id>, ghost doneB: set<Id>)
    returns (fwd': map<Id, nat>, qF': seq<Id>, depthF': nat, best': Dist)
    requires Closed(g) && Symmetric(g) && Inv(g, frm, to, fwd, bwd, qF, qB, depthF, depthB, best, doneF, doneB) && |qF| > 0
    requires DistOf(fwd, bwd, qF[0]) + 1 > depthF ==> best.Inf?
    ensures Inv(g, frm, to, fwd', bwd, qF', qB, depthF', depthB, best', doneF + {qF[0]}, doneB)
    ensures |qF'| - |fwd'.Keys| == |qF| - 1 - |fwd.Keys|
    ensures Expanded(AdjOf(g, qF[0]), DistOf(fwd, bwd, qF[0]) + 1, fwd, bwd, qF[1..], best, fwd', qF', best')
  {
    var nd := DistOf(fwd, bwd, qF[0]) + 1;
    fwd', qF', best' := Expand(AdjOf(g, qF[0]), nd, fwd, bwd, qF[1..], best);
    depthF' := if nd > depthF then nd else depthF;
    ForwardKeeps(g, frm, to, fwd, bwd, qF, qB, depthF, depthB, best, doneF, doneB, nd, fwd', qF', best', depthF');
  }

  /** One backward turn, the mirror image of ForwardTurn. */
  method BackwardTurn(g: Graph, ghost frm: Id, ghost to: Id, fwd: map<Id, nat>, bwd: map<Id, nat>, ghost qF: seq<Id>, qB: seq<Id>,
                      ghost depthF: nat, depthB: nat, best: Dist, ghost doneF: set<Id>, ghost doneB: set<Id>)
    returns (bwd': map<Id, nat>, qB': seq<Id>, depthB': nat, best': Dist)
    requires Closed(g) && Symmetric(g) && Inv(g, frm, to, fwd, bwd, qF, qB, depthF, depthB, best, doneF, doneB) && |qB| > 0
    requires DistOf(fwd, bwd, qB[0]) + 1 > depthB ==> best.Inf?
    ensures Inv(g, frm, to, fwd, bwd', qF, qB', depthF, depthB', best', doneF, doneB + {qB[0]})
    ensures |qB'| - |bwd'.Keys| == |qB| - 1 - |bwd.Keys|
    ensures Expanded(AdjOf(g, qB[0]), DistOf(fwd, bwd, qB[0]) + 1, bwd, fwd, qB[1..], best, bwd', qB', best')
  {
    var nd := DistOf(fwd, bwd, qB[0]) + 1;
    bwd', qB', best' := Expand(AdjOf(g, qB[0]), nd, bwd, fwd, qB[1..], best);
    depthB' := if nd > depthB then nd else depthB;
    BackwardKeeps(g, frm, to, fwd, bwd, qF, qB, depthF, depthB, best, doneF, doneB, nd, bwd', qB', best', depthB');
  }

  /** Hop distance from `frm` to `to`, or Inf when either is not stored or
      no path joins them, found by searching from both ends and always
      expanding the side with the shorter queue. When `frm` and `to` are
      the same account its backward mark replaces its forward one, so the
      search never answers 0. */
  method BidirectionalSearch(g: Graph, frm: Id, to: Id) returns (r: Dist)
    requires Closed(g) && Symmetric(g)
    ensures frm !in g.verts || to !in g.verts ==> r == Inf
    ensures frm != to ==> r == Distance(g, frm, to)
    ensures r != Fin(0)
    ensures frm == to ==> r == Inf || r == Fin(1) || r == Fin(2)
  {
    if frm !in g.verts || to !in g.verts {
      AbsentDistance(g, frm, to);
      return Inf;
    }
    var fwd := map[frm := 0];
    var bwd := map[to := 0];
    fwd := fwd - {to};
    var qF := [frm];
    var qB := [to];
    var depthF: nat := 0;
    var depthB: nat := 0;
    var best := Inf;
    ghost var doneF: set<Id> := {};
    ghost var doneB: set<Id> := {};
    InvInit(g, frm, to);
    assert frm == to ==> fwd == map[];
    while qF != [] && qB != []
      invariant Inv(g, frm, to, fwd, bwd, qF, qB, depthF, depthB, best, doneF, doneB)
      invariant frm == to ==> SelfRun(g, to, fwd, bwd, qF, qB, best)
      decreases |g.verts.Keys| - |fwd.Keys| - |bwd.Keys| + |qF| + |qB|
    {
      if |qF| < |qB| {
        var u := qF[0];
        if DistOf(fwd, bwd, u) + 1 > depthF && best.Fin? {
          StopKeeps(g, frm, to, fwd, bwd, qF, qB, depthF, depthB, best, doneF, doneB);
          return best;
        }
        var fwd', qF', depthF', best' := ForwardTurn(g, frm, to, fwd, bwd, qF, qB, depthF, depthB, best, doneF, doneB);
        if frm == to {
          SelfForward(g, to, fwd, bwd, qF, qB, best, fwd', qF', best');
        }
        fwd, qF, depthF, best := fwd', qF', depthF', best';
        doneF := doneF + {u};
      } else {
        var u := qB[0];
        if DistOf(fwd, bwd, u) + 1 > depthB && best.Fin? {
          StopKeeps(g, frm, to, fwd, bwd, qF, qB, depthF, depthB, best, doneF, doneB);
          return best;
        }
        var bwd', qB', depthB', best' := BackwardTurn(g, frm, to, fwd, bwd, qF, qB, depthF, depthB, best, doneF, doneB);
        if frm == to {
          SelfBackward(g, to, fwd, bwd, qF, qB, best, bwd', qB', best');
        }
        bwd, qB, depthB, best := bwd', qB', depthB', best';
        doneB := doneB + {u};
      }
    }
    StopKeeps(g, frm, to, fwd, bwd, qF, qB, depthF, depthB, best, doneF, doneB);
    r := best;
  }
}
