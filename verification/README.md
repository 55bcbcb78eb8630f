# Sliding-window payment graph and its distance searches

A model of `src/adGraph.py`, the graph behind a digital-wallet fraud check.
Every account is a vertex that keeps its neighbour ids and two payment
counters (payments received and payments sent). Every payment `add_edge(frm, to)` stores
both accounts, counts the payment, and links the pair and queues it when the
pair is new. `del_edge` evicts the oldest queued pair and drops any endpoint
left without neighbours. Trust between two accounts is their hop distance,
which the module finds with a bidirectional breadth-first search. It also keeps a
plain breadth-first search as a check on it.

Modules, in dependency order:

- `Vertices` (`vertex.dfy`): the account record, its counters, the ratio of
  incoming to outgoing payments.
- `Graphs` (`graph.dfy`): the graph as a map from ids to records plus the
  eviction queue; `AddVertex`, `DelVertex`, `GetVertex`, `AddEdge`, `DelEdge`.
  `DelEdge` returns a `Result`. Its faults are the ones the source raises:
  an empty queue (`popleft`), a missing record (`get_vertex` returning
  `None`), and a missing neighbour (`set.remove`).
- `Window` (`window.dfy`): the invariant payments and evictions keep
  (symmetric, closed, loop-free adjacency, no isolated accounts, each
  undirected edge queued exactly once) and the proofs that both operations
  keep it. It also replays a run of payments and drains the window.
- `Paths` (`paths.dfy`): the reference definition of hop distance. `Reach(g, a, k)` is the set
  of accounts within `k` hops of `a`, and `Distance` is the least such `k`, or `Inf`.
  Lemmas tie it to walks.
- `Layers` (`layers.dfy`): the expansion of one dequeued account, which both
  searches share, and the layered shape of a breadth-first queue.
- `PlainSearch` (`bfs.dfy`): `breadth_first_search`.
- `Meeting` (`meeting.dfy`) and `Bidirectional` (`bidir.dfy`):
  `bidirectional_breadth_first_search`, with the invariant of the two
  half-searches and the proof that the meeting found is the distance.
- `Queries` (`queries.dfy`): the two searches compared, and the self-query
  discrepancy below.
- `Scenarios` (`scenarios.dfy`): the worked examples at the end of the source
  file.

The per-vertex scratch fields `distance` and `visited` become maps local to
each search. An account in the forward map is marked 1, one in the backward
map is marked 2, and an account in neither is unmarked. `float('inf')` is the `Inf` case of `Dist`. Python's
iteration order over a neighbour set is left open: `Expand` takes the
neighbours in any order, and every contract holds for every order.

## Model

| member | source | states |
|---|---|---|
| Vertices.Ratio | src/adGraph.py:27-31 | never negative; for an account that has paid, ratio times payments sent equals payments received; 0 for an account that never paid |
| Vertices.RatioMonotone | src/adGraph.py:27-31 | for two accounts with the same number of payments sent, the one with more payments received has no smaller ratio |
| Vertices.IncIn | src/adGraph.py:34-35 | the received count goes up by one; the sent count and the neighbours are unchanged |
| Vertices.IncOut | src/adGraph.py:38-39 | the sent count goes up by one; the received count and the neighbours are unchanged |
| Vertices.AddNeighbor | src/adGraph.py:62-63 | the neighbour set gains exactly the id, counters unchanged |
| Vertices.DelNeighbor | src/adGraph.py:66-67 | fails exactly when the id is not a neighbour; otherwise removes exactly that id, counters unchanged |
| Graphs.AddVertex | src/adGraph.py:98-101 | the id is stored afterwards; an existing record is left as it was, and a new one starts with no neighbours and no payments |
| Graphs.DelVertex | src/adGraph.py:104-106 | the id is no longer stored; every other record is unchanged |
| Graphs.GetVertex | src/adGraph.py:109-113 | a record is returned exactly when the id is stored, and it is the stored one |
| Graphs.AddEdge | src/adGraph.py:115-128 | both ids are stored; `to` receives one more payment and `frm` sends one more, repeated payments included, and no other count changes; a pair linked neither way is linked both ways and appended to the queue; otherwise queue and adjacency are unchanged |
| Graphs.DelEdge | src/adGraph.py:130-140 | an empty queue fails; otherwise eviction succeeds exactly when the head pair has distinct ends linked both ways; then the queue loses its head, the two ends lose each other, an end left without neighbours is dropped, and nothing else changes |
| Graphs.DropIsDelVertex | src/adGraph.py:137-140 | dropping an endpoint left with no neighbours is deleting that vertex, and an endpoint with neighbours is kept |
| Window.AddEdgeLinked | src/adGraph.py:122-125 | after a payment the links are the old ones, plus both directions of the pair exactly when it was linked neither way before |
| Window.AddEdgeValid | src/adGraph.py:115-128 | a payment between distinct accounts keeps the window invariant |
| Window.AddEdgeClosed | src/adGraph.py:115-128 | any payment, a self-payment included, keeps adjacency closed and symmetric |
| Window.DelEdgeClosedSymmetric | src/adGraph.py:130-140 | any successful eviction keeps adjacency closed and symmetric, with no loop-free or no-isolated assumption |
| Window.DelEdgeValid | src/adGraph.py:130-140 | on a valid window with a non-empty queue, eviction succeeds, keeps the invariant, and removes exactly the oldest queued undirected edge from the links |
| Window.EdgeCount | src/adGraph.py:122-125 | in a valid window the queue length equals the number of undirected edges |
| Window.AddEdgesCounts | src/adGraph.py:115-128 | replaying a run of payments stores exactly the old accounts plus every party to a payment, and raises each account's counts by the payments it received and sent in the run |
| Window.AddEdgesQueued | src/adGraph.py:122-123 | replaying payments over distinct new pairs keeps the invariant and appends them to the queue in order |
| Window.DrainToEmpty | src/adGraph.py:130-140 | evicting a valid window as many times as its queue is long succeeds every time and leaves the empty graph, counters and all |
| Window.InsertThenDrain | src/adGraph.py:115-140 | replaying payments over distinct pairs of distinct accounts into an empty window gives a valid window that queues exactly those pairs, and evicting each of them gives back the empty window |
| Window.SelfPaymentStuck | src/adGraph.py:122-135 | a payment from an account to itself into an empty queue is queued as the pair of the account with itself, and evicting it fails because the account is removed from its own neighbours twice |
| Layers.Expand | src/adGraph.py:215-227 | each unvisited neighbour is visited at the new depth and appended to the queue, once; each neighbour the other side has visited offers a meeting, and the best meeting is the least of the old one and the offers; the two sides' maps stay disjoint |
| PlainSearch.BreadthFirstSearch | src/adGraph.py:147-174 | `Inf` when either account is not stored; otherwise the hop distance, 0 for an account and itself and `Inf` when no path joins them |
| Bidirectional.ForwardTurn | src/adGraph.py:206-227 | one forward turn keeps the shared invariant of the two half-searches, and the queue minus the visited count drops by one |
| Bidirectional.BackwardTurn | src/adGraph.py:228-249 | the mirror image of the forward turn, for the backward side |
| Bidirectional.BidirectionalSearch | src/adGraph.py:177-252 | `Inf` when either account is not stored; for distinct accounts the hop distance; never 0, and for an account asked about itself 1, 2 or `Inf` |
| Queries.CrossCheck | src/adGraph.py:146 | on distinct accounts of a symmetric graph the plain and the bidirectional search give the same answer, and that answer is the hop distance |
| Queries.SelfQuery | src/adGraph.py:191-199 | for a stored account asked about itself the plain search answers 0 and the bidirectional search answers something else: 1, 2 or `Inf` |
| Queries.HopDistance | src/adGraph.py:177-252 | with the self-query answered first, the bidirectional query is the hop distance for every pair of ids |
| Scenarios.Replayed | src/adGraph.py:115-128 | replaying payments onto a graph leaves an account whose counts are its old counts plus what it received and sent in the run |
| Scenarios.CliqueRatios | src/adGraph.py:262-276 | after the six payments of the four-account example the ratios are a 0, b 0.5, c 2 and d 0 |
| Scenarios.DetourDistance | src/adGraph.py:285-294 | in the six-payment example a is two hops from f |
| Scenarios.EvictedDistance | src/adGraph.py:295-299 | after the oldest payment a-b is evicted, a is five hops from b |
| Scenarios.DetourQueries | src/adGraph.py:285-299 | both searches answer 2 for a to f, and 5 for a to b after the eviction |

## Left out

- `__str__`, `__iter__` and the `__main__` printing (src/adGraph.py:57-59, 87-95, 269-299) are presentation only. Their expected outputs are stated by the `Scenarios` members instead.
- `get_vertices`, `get_adjacent`, `get_id`, and the getters and setters for `distance` and `visited`, are field access. The scratch fields become maps local to each search. Their reset loops (src/adGraph.py:148-151, 178-182) become the initial maps.
- `src/antifraud.py` and `src/readBatch.py` are not part of this model. They read files, split batches, append to output files and print progress.
- The ratio is an exact `real`. Floating-point rounding of `/` is not modelled.
- PlainSearch.BreadthFirstSearch: requires every neighbour id to be stored (`Closed`). The source fails with an attribute error otherwise. Every graph built by payments and evictions, self-payments included, is closed and symmetric (`Window.AddEdgeClosed`, `Window.DelEdgeClosedSymmetric`).
- Bidirectional.BidirectionalSearch: also requires symmetric adjacency. The source returns some number on a one-way adjacency, but that number is not a hop distance, and the model does not say what it is. Every graph built by payments and evictions is symmetric (the same two lemmas).
- Bidirectional.BidirectionalSearch: for an account asked about itself, the contract says the answer is 1, 2 or `Inf` (never 0), but not which. It is 1 when the account lists itself as a neighbour and 2 when it has other neighbours, provided the forward side gets its turn before the backward queue empties; otherwise `Inf`. The backward side moves first, so an account whose only neighbour is itself answers `Inf`. Which of these happens depends on the shape of the account's component (see Findings).
- Window.AddEdgeValid: requires distinct accounts. A self-payment breaks the loop-free part of the invariant, and its later eviction fails (`Window.SelfPaymentStuck`).
- Scenarios.Replayed: the contract fixes only the counters of the returned record, not that it is the record the replayed graph stores; the general fact about the stored record is `Window.AddEdgesCounts`.
- Graphs.DelEdge: a failed eviction returns only the fault, not the partly updated graph the source leaves behind (the queue head already popped, and for a self-paired head the account already removed from its own neighbours). No caller catches the exception, so the run ends there.
- Graphs.DelVertex: stands alone. `DelEdge` drops a bare endpoint from the record map directly (`DropIfBare`); `Graphs.DropIsDelVertex` shows this is what `del_vertex` would do.
- The Python objects' identity is replaced by ids. Every record lives in the graph's map under its id.

## Findings

| source | as written | input that shows it | evidently intended | confidence | as-written member | corrected member |
|---|---|---|---|---|---|---|
| src/adGraph.py:191-199 | with `frm == to` the single vertex is marked forward, then overwritten as backward. The search runs on and answers 1, 2 or `Inf`, never 0: 1 when the account lists itself as a neighbour and 2 when it has other neighbours, provided the forward side gets its turn before the backward queue empties; otherwise `Inf`. The queues start tied, so the backward side moves first, and an account whose only neighbour is itself answers `Inf`. | any stored account queried against itself | 0 hops, as `breadth_first_search` answers (src/adGraph.py:159, 172), which src/adGraph.py:146 makes the check on the bidirectional search | not executed | Queries.SelfQuery | Queries.HopDistance |

The fraud check calls `bidirectional_breadth_first_search` directly, so it
runs the search as written, which `Bidirectional.BidirectionalSearch` models.
`Queries.HopDistance` is the corrected query: it answers the missing
`frm == to` case with 0 before searching.
