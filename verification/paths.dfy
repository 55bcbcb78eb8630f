/** Hop distance in the payment graph, defined independently of any
    search: the set of accounts within k hops, walks, and the least k. */
module Paths {
  import opened Vertices
  import opened Graphs
  import opened Window

  /** A hop count, or no path at all. */
  datatype Dist = Fin(n: nat) | Inf

  /** `d` is finite and at most `k`. */
  predicate AtMost(d: Dist, k: nat) {
    d.Fin? && d.n <= k
  }

  /** The accounts one hop away from some account of `s`. */
  ghost function Step(g: Graph, s: set<Id>): set<Id> {
    set u, v | u in s && u in g.verts && v in g.verts[u].adjacent :: v
  }

  /** The accounts within `k` hops of `a`; none when `a` is not stored. */
  ghost function Reach(g: Graph, a: Id, k: nat): set<Id> {
    if k == 0 then (if a in g.verts then {a} else {})
    else Reach(g, a, k - 1) + Step(g, Reach(g, a, k - 1))
  }

  /** `k` is the hop distance from `a` to `b`: within `k` hops, not within `k - 1`. */
  ghost predicate IsDist(g: Graph, a: Id, b: Id, k: nat) {
    b in Reach(g, a, k) && (k == 0 || b !in Reach(g, a, k - 1))
  }

  /** A walk: stored start, every hop along a link. */
  ghost predicate IsWalk(g: Graph, p: seq<Id>) {
    |p| >= 1 && p[0] in g.verts && forall i :: 0 <= i < |p| - 1 ==> Linked(g, p[i], p[i + 1])
  }

  // ---------------------------------------------------------------------
  // Basic facts about Reach
  // ---------------------------------------------------------------------

  lemma StepMember(g: Graph, s: set<Id>, u: Id, v: Id)
    requires u in s && Linked(g, u, v)
    ensures v in Step(g, s)
  {
  }

  lemma StepWitness(g: Graph, s: set<Id>, v: Id) returns (u: Id)
    requires v in Step(g, s)
    ensures u in s && Linked(g, u, v)
  {
    u :| u in s && u in g.verts && v in g.verts[u].adjacent;
  }

  lemma {:induction false} ReachMono(g: Graph, a: Id, i: nat, j: nat)
    requires i <= j
    ensures Reach(g, a, i) <= Reach(g, a, j)
    decreases j
  {
    if i < j {
      ReachMono(g, a, i, j - 1);
    }
  }

  lemma ReachNext(g: Graph, a: Id, k: nat, u: Id, v: Id)
    requires u in Reach(g, a, k) && Linked(g, u, v)
    ensures v in Reach(g, a, k + 1)
  {
    StepMember(g, Reach(g, a, k), u, v);
  }

  /** Anything within k + 1 hops and not within k is one hop from something within k. */
  lemma ReachPrev(g: Graph, a: Id, k: nat, v: Id) returns (u: Id)
    requires v in Reach(g, a, k + 1) && v !in Reach(g, a, k)
    ensures u in Reach(g, a, k) && Linked(g, u, v)
  {
    u := StepWitness(g, Reach(g, a, k), v);
  }

  lemma {:induction false} ReachStored(g: Graph, a: Id, k: nat, v: Id)
    requires Closed(g) && v in Reach(g, a, k)
    ensures v in g.verts
    decreases k
  {
    if k > 0 && v !in Reach(g, a, k - 1) {
      var u := ReachPrev(g, a, k - 1, v);
    } else if k > 0 {
      ReachStored(g, a, k - 1, v);
    }
  }

  lemma ReachStart(g: Graph, a: Id, k: nat)
    requires a in g.verts
    ensures a in Reach(g, a, k)
  {
    ReachMono(g, a, 0, k);
  }

  /** Hops compose. */
  lemma {:induction false} ReachTrans(g: Graph, a: Id, b: Id, c: Id, i: nat, j: nat)
    requires b in Reach(g, a, i) && c in Reach(g, b, j)
    ensures c in Reach(g, a, i + j)
    decreases j
  {
    if j == 0 {
      ReachMono(g, a, i, i + j);
    } else if c in Reach(g, b, j - 1) {
      ReachTrans(g, a, b, c, i, j - 1);
      ReachMono(g, a, i + j - 1, i + j);
    } else {
      var w := ReachPrev(g, b, j - 1, c);
      ReachTrans(g, a, b, w, i, j - 1);
      ReachNext(g, a, i + j - 1, w, c);
    }
  }

  /** On a symmetric graph, hop distance is symmetric. */
  lemma {:induction false} ReachSym(g: Graph, a: Id, b: Id, k: nat)
    requires Closed(g) && Symmetric(g) && b in Reach(g, a, k)
    ensures a in Reach(g, b, k)
    decreases k
  {
    if k == 0 {
    } else if b in Reach(g, a, k - 1) {
      ReachSym(g, a, b, k - 1);
      ReachMono(g, b, k - 1, k);
    } else {
      var w := ReachPrev(g, a, k - 1, b);
      ReachSym(g, a, w, k - 1);
      assert Linked(g, b, w);
      assert w in Reach(g, b, 1) by {
        ReachNext(g, b, 0, b, w);
      }
      ReachTrans(g, b, w, a, 1, k - 1);
    }
  }

  /** A set holding `a` and closed under links holds everything reachable from `a`. */
  lemma {:induction false} ReachInClosedSet(g: Graph, a: Id, s: set<Id>, k: nat)
    requires a in s
    requires forall u, v :: u in s && Linked(g, u, v) ==> v in s
    ensures Reach(g, a, k) <= s
    decreases k
  {
    if k > 0 {
      ReachInClosedSet(g, a, s, k - 1);
      forall v | v in Step(g, Reach(g, a, k - 1)) ensures v in s {
        var u := StepWitness(g, Reach(g, a, k - 1), v);
      }
    }
  }

  // ---------------------------------------------------------------------
  // Reach and walks
  // ---------------------------------------------------------------------

  /** Every account within k hops is the end of a walk of at most k hops. */
  lemma {:induction false} ReachHasWalk(g: Graph, a: Id, b: Id, k: nat) returns (p: seq<Id>)
    requires b in Reach(g, a, k)
    ensures IsWalk(g, p) && p[0] == a && p[|p| - 1] == b && |p| <= k + 1
    decreases k
  {
    if k == 0 {
      p := [a];
    } else if b in Reach(g, a, k - 1) {
      p := ReachHasWalk(g, a, b, k - 1);
    } else {
      var u := ReachPrev(g, a, k - 1, b);
      var p0 := ReachHasWalk(g, a, u, k - 1);
      p := p0 + [b];
      assert forall i :: 0 <= i < |p0| ==> p[i] == p0[i];
    }
  }

  /** The end of a walk of n hops is within n hops of its start. */
  lemma {:induction false} WalkInReach(g: Graph, p: seq<Id>)
    requires IsWalk(g, p)
    ensures p[|p| - 1] in Reach(g, p[0], |p| - 1)
    decreases |p|
  {
    if |p| > 1 {
      var p0 := p[..|p| - 1];
      assert IsWalk(g, p0) by {
        forall i | 0 <= i < |p0| - 1 ensures Linked(g, p0[i], p0[i + 1]) {
          assert p0[i] == p[i] && p0[i + 1] == p[i + 1];
        }
      }
      WalkInReach(g, p0);
      assert Linked(g, p[|p| - 2], p[|p| - 1]);
      ReachNext(g, p[0], |p| - 2, p0[|p0| - 1], p[|p| - 1]);
    }
  }

  /** The i-th account of a walk is within i hops of its start, and its end
      is within the remaining hops of it. */
  lemma WalkPositions(g: Graph, p: seq<Id>, i: nat)
    requires Closed(g) && IsWalk(g, p) && i < |p|
    ensures p[i] in Reach(g, p[0], i)
    ensures p[|p| - 1] in Reach(g, p[i], |p| - 1 - i)
  {
    var pre := p[..i + 1];
    assert IsWalk(g, pre) by {
      forall k | 0 <= k < |pre| - 1 ensures Linked(g, pre[k], pre[k + 1]) {
        assert pre[k] == p[k] && pre[k + 1] == p[k + 1];
      }
    }
    WalkInReach(g, pre);
    var post := p[i..];
    assert post[0] in g.verts by {
      if i > 0 { assert Linked(g, p[i - 1], p[i]); }
    }
    assert IsWalk(g, post) by {
      forall k | 0 <= k < |post| - 1 ensures Linked(g, post[k], post[k + 1]) {
        assert post[k] == p[i + k] && post[k + 1] == p[i + k + 1];
      }
    }
    WalkInReach(g, post);
  }

  // ---------------------------------------------------------------------
  // Distance
  // ---------------------------------------------------------------------

  /** Hop distance is unique. */
  lemma IsDistUnique(g: Graph, a: Id, b: Id, i: nat, j: nat)
    requires IsDist(g, a, b, i) && IsDist(g, a, b, j)
    ensures i == j
  {
    if i < j {
      ReachMono(g, a, i, j - 1);
    } else if j < i {
      ReachMono(g, a, j, i - 1);
    }
  }

  /** The hop distance bounds from below every k within which `b` lies. */
  lemma IsDistLeast(g: Graph, a: Id, b: Id, d: nat, k: nat)
    requires IsDist(g, a, b, d) && b in Reach(g, a, k)
    ensures d <= k
  {
    if k < d {
      ReachMono(g, a, k, d - 1);
    }
  }

  lemma {:induction false} LeastReach(g: Graph, a: Id, b: Id, k: nat) returns (d: nat)
    requires b in Reach(g, a, k)
    ensures IsDist(g, a, b, d) && d <= k
    decreases k
  {
    if k == 0 || b !in Reach(g, a, k - 1) {
      d := k;
    } else {
      d := LeastReach(g, a, b, k - 1);
    }
  }

  lemma LeastReachExists(g: Graph, a: Id, b: Id, k: nat)
    requires b in Reach(g, a, k)
    ensures exists d: nat :: IsDist(g, a, b, d)
  {
    var d := LeastReach(g, a, b, k);
  }

  /** The hop distance from `a` to `b`, or Inf when `b` is never reached. */
  ghost function Distance(g: Graph, a: Id, b: Id): (d: Dist)
    ensures d.Fin? ==> IsDist(g, a, b, d.n)
    ensures d.Inf? ==> forall k: nat :: b !in Reach(g, a, k)
  {
    if exists k: nat :: b in Reach(g, a, k) then
      var k: nat :| b in Reach(g, a, k);
      LeastReachExists(g, a, b, k);
      var n: nat :| IsDist(g, a, b, n);
      Fin(n)
    else Inf
  }

  lemma DistanceIs(g: Graph, a: Id, b: Id, k: nat)
    requires IsDist(g, a, b, k)
    ensures Distance(g, a, b) == Fin(k)
  {
    match Distance(g, a, b)
    case Fin(n) => IsDistUnique(g, a, b, n, k);
    case Inf =>
  }

  /** Distance is the length of a shortest walk: some walk has that many
      hops, and no walk has fewer. */
  lemma DistanceIsShortestWalk(g: Graph, a: Id, b: Id)
    ensures Distance(g, a, b).Fin? ==>
      exists p :: IsWalk(g, p) && p[0] == a && p[|p| - 1] == b && |p| == Distance(g, a, b).n + 1
    ensures forall p :: IsWalk(g, p) && p[0] == a && p[|p| - 1] == b ==>
      AtMost(Distance(g, a, b), |p| - 1)
  {
    var d := Distance(g, a, b);
    if d.Fin? {
      var p := ReachHasWalk(g, a, b, d.n);
      WalkInReach(g, p);
      IsDistLeast(g, a, b, d.n, |p| - 1);
    }
    forall p | IsWalk(g, p) && p[0] == a && p[|p| - 1] == b ensures AtMost(d, |p| - 1) {
      WalkInReach(g, p);
      if d.Fin? {
        IsDistLeast(g, a, b, d.n, |p| - 1);
      }
    }
  }

  lemma {:induction false} ReachFromAbsent(g: Graph, a: Id, k: nat)
    requires a !in g.verts
    ensures Reach(g, a, k) == {}
    decreases k
  {
    if k > 0 {
      ReachFromAbsent(g, a, k - 1);
      assert Step(g, {}) == {};
    }
  }

  /** No distance leads from or to an account that is not stored. */
  lemma AbsentDistance(g: Graph, a: Id, b: Id)
    requires Closed(g) && (a !in g.verts || b !in g.verts)
    ensures Distance(g, a, b) == Inf
  {
    if Distance(g, a, b).Fin? {
      var n := Distance(g, a, b).n;
      if a !in g.verts {
        ReachFromAbsent(g, a, n);
      } else {
        ReachStored(g, a, n, b);
      }
    }
  }

  /** On a symmetric graph the distance does not depend on direction. */
  lemma DistanceSym(g: Graph, a: Id, b: Id)
    requires Closed(g) && Symmetric(g)
    ensures Distance(g, a, b) == Distance(g, b, a)
  {
    forall k: nat ensures b in Reach(g, a, k) <==> a in Reach(g, b, k) {
      if b in Reach(g, a, k) { ReachSym(g, a, b, k); }
      if a in Reach(g, b, k) { ReachSym(g, b, a, k); }
    }
    var d := Distance(g, a, b);
    if d.Fin? {
      if d.n > 0 {
        assert a !in Reach(g, b, d.n - 1);
      }
      DistanceIs(g, b, a, d.n);
    }
  }
}
