/** One account of the payment network: its neighbour ids and its two
    payment counters. The account id is not stored here: it is the key
    under which the graph keeps the record. */
module Vertices {

  type Id = string

  datatype Vertex = Vertex(adjacent: set<Id>, inPay: nat, outPay: nat)

  datatype Option<T> = None | Some(value: T)

  /** The record of an account seen for the first time. */
  const Fresh: Vertex := Vertex({}, 0, 0)

  /** Incoming over outgoing payments, or 0 when the account never paid. */
  function Ratio(v: Vertex): (r: real)
    ensures r >= 0.0
    ensures v.outPay > 0 ==> r * (v.outPay as real) == v.inPay as real
    ensures v.outPay == 0 ==> r == 0.0
  {
    if v.outPay > 0 then v.inPay as real / v.outPay as real else 0.0
  }

  /** Ratio orders accounts with the same outgoing count by incoming count. */
  lemma RatioMonotone(v: Vertex, w: Vertex)
    requires v.outPay == w.outPay && v.inPay <= w.inPay
    ensures Ratio(v) <= Ratio(w)
  {
    if v.outPay > 0 {
      var k := v.outPay as real;
      CancelFactor(Ratio(v), Ratio(w), k);
    }
  }

  lemma CancelFactor(a: real, b: real, k: real)
    requires k > 0.0 && a * k <= b * k
    ensures a <= b
  {
  }

  function IncIn(v: Vertex): (r: Vertex)
    ensures r.inPay == v.inPay + 1
    ensures r.outPay == v.outPay && r.adjacent == v.adjacent
  {
    v.(inPay := v.inPay + 1)
  }

  function IncOut(v: Vertex): (r: Vertex)
    ensures r.outPay == v.outPay + 1
    ensures r.inPay == v.inPay && r.adjacent == v.adjacent
  {
    v.(outPay := v.outPay + 1)
  }

  function AddNeighbor(v: Vertex, n: Id): (r: Vertex)
    ensures r.adjacent == v.adjacent + {n}
    ensures r.inPay == v.inPay && r.outPay == v.outPay
  {
    v.(adjacent := v.adjacent + {n})
  }

  /** Removing an id that is not a neighbour fails, as removal from a set
      of absent members does in the source. */
  function DelNeighbor(v: Vertex, n: Id): (r: Option<Vertex>)
    ensures r.Some? <==> n in v.adjacent
    ensures r.Some? ==> r.value.adjacent == v.adjacent - {n} && n !in r.value.adjacent
    ensures r.Some? ==> r.value.inPay == v.inPay && r.value.outPay == v.outPay
  {
    if n in v.adjacent then Some(v.(adjacent := v.adjacent - {n})) else None
  }
}
