/** The sliding-window payment graph: accounts keyed by id, an undirected
    simple adjacency relation, and a FIFO queue of first-seen edges used
    to evict the oldest edge. */
module Graphs {
  import opened Vertices

  datatype Graph = Graph(verts: map<Id, Vertex>, queue: seq<(Id, Id)>)

  /** Why an eviction fails: the queue is empty, a queued endpoint is no
      longer a vertex, or it does not list the other endpoint. */
  datatype Fault = EmptyQueue | NoSuchVertex(id: Id) | NoSuchNeighbor(owner: Id, id: Id)

  datatype Result<T> = Ok(value: T) | Err(fault: Fault)

  const Empty: Graph := Graph(map[], [])

  /** The neighbours, and the counters, of an id; an absent id has none. */
  function AdjOf(g: Graph, x: Id): set<Id> {
    if x in g.verts then g.verts[x].adjacent else {}
  }

  function InOf(g: Graph, x: Id): nat {
    if x in g.verts then g.verts[x].inPay else 0
  }

  function OutOf(g: Graph, x: Id): nat {
    if x in g.verts then g.verts[x].outPay else 0
  }

  predicate Linked(g: Graph, u: Id, v: Id) {
    u in g.verts && v in g.verts[u].adjacent
  }

  // ---------------------------------------------------------------------
  // Operations
  // ---------------------------------------------------------------------

  function AddVertex(g: Graph, x: Id): (r: Graph)
    ensures r.queue == g.queue
    ensures r.verts.Keys == g.verts.Keys + {x}
    ensures forall y :: y in g.verts ==> r.verts[y] == g.verts[y]
    ensures x !in g.verts ==> r.verts[x] == Fresh
  {
    if x in g.verts then g else g.(verts := g.verts[x := Fresh])
  }

  function DelVertex(g: Graph, x: Id): (r: Graph)
    ensures r.queue == g.queue
    ensures r.verts.Keys == g.verts.Keys - {x}
    ensures forall y :: y in r.verts ==> r.verts[y] == g.verts[y]
  {
    if x in g.verts then g.(verts := g.verts - {x}) else g
  }

  function GetVertex(g: Graph, x: Id): (r: Option<Vertex>)
    ensures r.Some? <==> x in g.verts
    ensures r.Some? ==> r.value == g.verts[x]
  {
    if x in g.verts then Some(g.verts[x]) else None
  }

  /** Links `frm` and `to` in both adjacency sets and queues the pair,
      unless either already lists the other. */
  function LinkIfNew(g: Graph, frm: Id, to: Id): (r: Graph)
    requires frm in g.verts && to in g.verts
    ensures r.verts.Keys == g.verts.Keys
    ensures forall x :: x in r.verts ==>
      r.verts[x].inPay == g.verts[x].inPay && r.verts[x].outPay == g.verts[x].outPay
    ensures Linked(g, frm, to) || Linked(g, to, frm) ==> r == g
    ensures !(Linked(g, frm, to) || Linked(g, to, frm)) ==>
      && r.queue == g.queue + [(frm, to)]
      && forall x :: x in r.verts ==>
           r.verts[x].adjacent
           == g.verts[x].adjacent + (if x == frm then {to} else {}) + (if x == to then {frm} else {})
  {
    if frm in g.verts[to].adjacent || to in g.verts[frm].adjacent then g
    else
      var m1 := g.verts[to := AddNeighbor(g.verts[to], frm)];
      var m2 := m1[frm := AddNeighbor(m1[frm], to)];
      Graph(m2, g.queue + [(frm, to)])
  }

  /** Counts one payment: `to` received one, `frm` sent one. */
  function CountPayment(g: Graph, frm: Id, to: Id): (r: Graph)
    requires frm in g.verts && to in g.verts
    ensures r.queue == g.queue && r.verts.Keys == g.verts.Keys
    ensures forall x :: x in r.verts ==>
      && r.verts[x].adjacent == g.verts[x].adjacent
      && r.verts[x].inPay == g.verts[x].inPay + (if x == to then 1 else 0)
      && r.verts[x].outPay == g.verts[x].outPay + (if x == frm then 1 else 0)
  {
    var m1 := g.verts[to := IncIn(g.verts[to])];
    g.(verts := m1[frm := IncOut(m1[frm])])
  }

  /** Both endpoints of a payment stored; an account seen for the first
      time starts with no neighbours and no payments. */
  function AddEndpoints(g: Graph, frm: Id, to: Id): (r: Graph)
    ensures r.queue == g.queue
    ensures r.verts.Keys == g.verts.Keys + {frm, to}
    ensures forall x :: x in r.verts ==>
      && r.verts[x].adjacent == AdjOf(g, x)
      && r.verts[x].inPay == InOf(g, x)
      && r.verts[x].outPay == OutOf(g, x)
  {
    AddVertex(AddVertex(g, frm), to)
  }

  /** One observed payment from `frm` to `to`. */
  function AddEdge(g: Graph, frm: Id, to: Id): (r: Graph)
    ensures r.verts.Keys == g.verts.Keys + {frm, to}
    ensures forall x :: x in r.verts ==>
      r.verts[x].inPay == InOf(g, x) + (if x == to then 1 else 0)
    ensures forall x :: x in r.verts ==>
      r.verts[x].outPay == OutOf(g, x) + (if x == frm then 1 else 0)
    ensures Linked(g, frm, to) || Linked(g, to, frm) ==>
      && r.queue == g.queue
      && forall x :: x in r.verts ==> r.verts[x].adjacent == AdjOf(g, x)
    ensures !(Linked(g, frm, to) || Linked(g, to, frm)) ==>
      && r.queue == g.queue + [(frm, to)]
      && forall x :: x in r.verts ==>
           r.verts[x].adjacent
           == AdjOf(g, x) + (if x == frm then {to} else {}) + (if x == to then {frm} else {})
  {
    var g1 := AddEndpoints(g, frm, to);
    assert Linked(g1, frm, to) == Linked(g, frm, to) && Linked(g1, to, frm) == Linked(g, to, frm);
    CountPayment(LinkIfNew(g1, frm, to), frm, to)
  }

  /** What is left of the adjacency of `w` once the pair `x`-`y` is unlinked. */
  function Unlinked(g: Graph, x: Id, y: Id, w: Id): set<Id> {
    if w == x then AdjOf(g, w) - {y} else if w == y then AdjOf(g, w) - {x} else AdjOf(g, w)
  }

  /** The queue head can be evicted: distinct endpoints, linked both ways. */
  predicate HeadEvictable(g: Graph)
    requires |g.queue| > 0
  {
    var (x, y) := g.queue[0];
    x != y && Linked(g, x, y) && Linked(g, y, x)
  }

  /** Drops the record of `w` when it has no neighbours left. */
  function DropIfBare(m: map<Id, Vertex>, w: Id): (r: map<Id, Vertex>)
    requires w in m
    ensures forall v :: v in r <==> v in m && (v != w || m[w].adjacent != {})
    ensures forall v :: v in r ==> r[v] == m[v]
  {
    if |m[w].adjacent| == 0 then m - {w} else m
  }

  /** Dropping a bare record is deleting that vertex; a record with
      neighbours is kept. */
  lemma DropIsDelVertex(g: Graph, w: Id)
    requires w in g.verts
    ensures g.verts[w].adjacent == {} ==> DropIfBare(g.verts, w) == DelVertex(g, w).verts
    ensures g.verts[w].adjacent != {} ==> DropIfBare(g.verts, w) == g.verts
  {
  }

  /** Evicts the oldest queued edge, dropping endpoints left without neighbours. */
  function DelEdge(g: Graph): (r: Result<Graph>)
    ensures |g.queue| == 0 ==> r == Err(EmptyQueue)
    ensures |g.queue| > 0 ==> (r.Ok? <==> HeadEvictable(g))
    ensures r.Ok? ==> |g.queue| > 0 && r.value.queue == g.queue[1..]
    ensures r.Ok? ==> forall w ::
      w in r.value.verts <==>
        (w in g.verts && ((w != g.queue[0].0 && w != g.queue[0].1)
                          || Unlinked(g, g.queue[0].0, g.queue[0].1, w) != {}))
    ensures r.Ok? ==> forall w :: w in r.value.verts ==>
      r.value.verts[w] == g.verts[w].(adjacent := Unlinked(g, g.queue[0].0, g.queue[0].1, w))
  {
    if |g.queue| == 0 then Err(EmptyQueue)
    else
      var (x, y) := g.queue[0];
      var rest := g.queue[1..];
      if x !in g.verts then Err(NoSuchVertex(x))
      else match DelNeighbor(g.verts[x], y)
        case None => Err(NoSuchNeighbor(x, y))
        case Some(vx) =>
          var m1 := g.verts[x := vx];
          if y !in m1 then Err(NoSuchVertex(y))
          else match DelNeighbor(m1[y], x)
            case None => Err(NoSuchNeighbor(y, x))
            case Some(vy) =>
              var m2 := m1[y := vy];
              var m3 := DropIfBare(m2, x);
              if y !in m3 then Err(NoSuchVertex(y))
              else Ok(Graph(DropIfBare(m3, y), rest))
  }
}
