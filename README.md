# CRDT library model

This project is a Dafny model of a small Ruby library of convergent replicated data types
(`CRDT::PNCounter`, `CRDT::VectorClock`, `CRDT::LWWRegister`, `CRDT::ORSet`,
`CRDT::ORGraph`), with proofs about it. Each type is a Dafny `class` whose fields are the
Ruby instance variables. Hashes are `map` fields and adjacency arrays are `seq` fields. Each
mutator is a `method` with a `modifies this` frame. Each merge loop over the other replica's
hash is a `while` loop that is proved equal to a pure specification function. The algebraic
laws and the promises of the source are then proved as lemmas about those functions.

Modules, one per file:

- `CrdtBase` (`crdt_base.dfy`): node identities, `Option`, and the `Token(node, counter)`
  datatype. Tokens replace the `"node:counter"` strings.
- `PointwiseMax` (`pointwise_max.dfy`): the per-node maximum merge of an integer hash. Both
  `PNCounter#merge` and `VectorClock#merge` use it. `MergeInto` is the source's loop, and
  `Join` is its specification.
- `PNCounters`, `VectorClocks`, `LWWRegisters`: the three simple types.
- `Ledgers` (`ledgers.dfy`): the `{observed, removed}` token record and its
  union-then-subtract merge. `ORSet` keeps one per item and `ORGraph` one per edge.
- `ArrayOps` (`array_ops.dfy`): Ruby's `Array#-` / `Array#delete` (every occurrence removed)
  and `Array#|` (union without duplicates, in order of first occurrence).
- `ORSets`, `ORGraphs`: the observed-remove set and graph.

The source's own behaviour is modelled as written, including the places where it departs from
what a CRDT is meant to guarantee:

- `PNCounter#merge` never updates the cached value, so after two replicas merge, `value`
  still reports each replica's own pre-merge total. `MergeLeavesValueStale` shows the usual
  convergence example: A does `increase(5)`, B does `decrease(2)`, and after A merges B its
  tallies stand for 3 while it still reports 5. Convergence to 3 is what a PN-counter is meant
  to guarantee; the code never delivers it. The model follows the code.
- `LWWRegister#merge` adopts the other register only when each of the three stamp fields is
  independently `>=`. It does not use lexicographic order, although lexicographic order is
  what a last-writer-wins register is meant to use. The model follows the code.
  `LaterWriteCanBeRejected` and `MergeIsNotCommutative` show the consequences. A register
  that was never set compares an integer with `nil` when merging a set register, which raises
  in Ruby. `Decide` returns `Raise` in that case, and the state stays as it was.
- `ORGraph#remove_edge` strips `from` from `to`'s *outgoing* list (`or_graph.rb` line 80),
  not from its incoming list. The model keeps this. `RemoveEdgeEffect` states that `to`'s
  incoming list is left unchanged. The entry it does delete, `from` in `to`'s outgoing list,
  belongs to the reverse edge `to -> from`, so a later `remove_vertex(to)` never visits that
  edge: `RemoveVertexSkipsReverseEdge` ends with `to` removed and `to -> from` still present,
  although removing a vertex is meant to remove every edge incident to it.
- `ORGraph#merge` is not idempotent. A graph merged into itself loses the incoming entries
  that `remove_edge` left behind (`SelfMergePrunesStaleEntry`) and collapses the duplicate
  entries of an edge added twice (`SelfMergeCollapsesDuplicates`).
- Ruby `nil` lookups of a missing record raise. Where the source indexes a record
  unconditionally, the model makes the record's presence a precondition.

## Model

| member | source | states |
|---|---|---|
| PointwiseMax.MergeInto | lib/crdt/pn_counter.rb:123-132 | the merge loop over one hash yields `Join`: each key of either side, with the larger amount on shared keys; a missing key is written, a present one only raised |
| PointwiseMax.AbsorbExtendsJoin | lib/crdt/pn_counter.rb:124-131 | one pass of the loop body extends the join over the visited keys by the visited key |
| PointwiseMax.JoinUpperBound | lib/crdt/vector_clock.rb:61-72 | the merged map dominates both inputs: it keeps every key of each side, and no entry decreases |
| PointwiseMax.JoinLeast | lib/crdt/vector_clock.rb:61-72 | any map dominating both inputs dominates their merge, so the merge is the least upper bound |
| PointwiseMax.JoinPicksAnInput | lib/crdt/vector_clock.rb:62-70 | every merged entry is the entry of one of the two sides |
| PointwiseMax.JoinIdempotent | lib/crdt/vector_clock.rb:61-72 | merging a map with itself changes nothing |
| PointwiseMax.JoinCommutes | lib/crdt/vector_clock.rb:61-72 | the map merge is commutative |
| PointwiseMax.JoinAssociates | lib/crdt/vector_clock.rb:61-72 | the map merge is associative |
| PointwiseMax.JoinAbsorbsDominated | lib/crdt/pn_counter.rb:122-145 | merging a state that the local one already dominates changes nothing |
| PNCounters.SumUpdate | lib/crdt/pn_counter.rb:70-71 | overwriting one tally entry changes the tally's sum by the difference |
| PNCounters.PNCounter.constructor | lib/crdt/pn_counter.rb:55-61 | empty tallies, cached value equal to the base, and the cache consistent with the tallies |
| PNCounters.PNCounter.Increase | lib/crdt/pn_counter.rb:68-75 | `positive[source]` becomes old-or-0 plus the amount, and the cached value and the true total both rise by it; `negative` and `base` are unchanged and consistency is kept |
| PNCounters.PNCounter.Decrease | lib/crdt/pn_counter.rb:80-87 | `negative[source]` becomes old-or-0 plus the amount, and the cached value and the true total both fall by it; `positive` and `base` are unchanged and consistency is kept |
| PNCounters.PNCounter.Add | lib/crdt/pn_counter.rb:92-99 | a positive `x` goes to this node's positive tally, and zero or a negative `x` goes to the negative tally as `-x`; either way the value changes by exactly `+x` |
| PNCounters.PNCounter.Subtract | lib/crdt/pn_counter.rb:104-111 | the mirror image of `Add`: the value changes by exactly `-x`, whatever the sign of `x` |
| PNCounters.PNCounter.Value | lib/crdt/pn_counter.rb:113-115 | the reported value is the cached one, which equals base + Σpositive − Σnegative while the counter is consistent |
| PNCounters.PNCounter.Merge | lib/crdt/pn_counter.rb:122-145 | both tallies become the pointwise maximum of the two sides and dominate their old values; `base` and the cached value are left as they were; a consistent counter stays consistent exactly when the merge leaves Σpositive − Σnegative as it was |
| PNCounters.PNCounter.Gc | lib/crdt/pn_counter.rb:150-155 | the node's positive minus negative amount is folded into `base` and both entries are deleted; the true total is preserved, and the cached value is untouched |
| PNCounters.PNCounter.FromHash | lib/crdt/pn_counter.rb:28-39 | replaying every entry through `increase`/`decrease` on the hash's base restores both tallies and yields a consistent counter, whatever cached value the hash carried |
| PNCounters.ReloadOfConsistentIsExact | lib/crdt/pn_counter.rb:28-50 | reloading the hash of a consistent counter reproduces every field, the cached value included |
| PNCounters.MergeLeavesValueStale | lib/crdt/pn_counter.rb:122-145 | on two fresh counters, A does `increase(5)`, B does `decrease(2)` and A merges B: the returned counter A reports 5, its true total is 3, and it is not consistent |
| VectorClocks.VectorClock.constructor | lib/crdt/vector_clock.rb:11-14 | an empty clock for the given default node |
| VectorClocks.VectorClock.IncrementClock | lib/crdt/vector_clock.rb:21-25 | the node's entry becomes old-or-0 plus one, so an absent entry becomes 1; every other entry is unchanged, and the new value is returned |
| VectorClocks.VectorClock.Value | lib/crdt/vector_clock.rb:30-33 | the node's entry, or nothing exactly when the node has no entry |
| VectorClocks.VectorClock.Merge | lib/crdt/vector_clock.rb:61-72 | the clock becomes the pointwise maximum and dominates both inputs; entries for nodes the other clock lacks are untouched |
| VectorClocks.VectorClock.FromHash | lib/crdt/vector_clock.rb:43-58 | the rebuilt clock has exactly the hash's entries, and its `to_h` is the given hash |
| LWWRegisters.AtLeast | lib/crdt/lww_register.rb:34-36 | Ruby's `>=` on possibly-nil integers: defined exactly when both are set, and then the integer comparison |
| LWWRegisters.Decide | lib/crdt/lww_register.rb:33-36 | the guard chain of `merge`: it adopts only between two complete stamps, and it raises only when the incoming register has been set and one of the two stamps is incomplete |
| LWWRegisters.Merged | lib/crdt/lww_register.rb:33-40 | the state after `merge` is one of the two registers whole, and it is the incoming one only when both stamps are complete |
| LWWRegisters.AdoptIffFieldwiseAtLeast | lib/crdt/lww_register.rb:33-36 | the other register is adopted exactly when all six stamp fields are set and each incoming field is at least the local one |
| LWWRegisters.RaiseOnlyOnUnsetFields | lib/crdt/lww_register.rb:33-36 | an unset incoming timestamp is ignored, whole stamps never raise, and a never-set register raises on merging a set one |
| LWWRegisters.MergedStampMonotone | lib/crdt/lww_register.rb:34-40 | a merge never moves any field of a complete stamp backwards |
| LWWRegisters.MergeSameStampKeepsState | lib/crdt/lww_register.rb:34-40 | merging an identical stamp keeps the stamp, and merging a copy of oneself changes nothing |
| LWWRegisters.MergeIsNotCommutative | lib/crdt/lww_register.rb:34-36 | two registers whose stamps are not field-wise comparable each keep their own value, whichever side merges |
| LWWRegisters.LaterWriteCanBeRejected | lib/crdt/lww_register.rb:35 | a write two seconds later but with a smaller nanosecond field is kept out |
| LWWRegisters.LWWRegister.constructor | lib/crdt/lww_register.rb:9-13 | the given tiebreaker, no value and an unset stamp |
| LWWRegisters.LWWRegister.Set | lib/crdt/lww_register.rb:18-29 | `get` returns the value just written, and the stamp is the supplied time with the register's own tiebreaker |
| LWWRegisters.LWWRegister.Merge | lib/crdt/lww_register.rb:32-41 | the decision is `Decide` on the two stamps; on adopt, the value and all three stamp fields are copied, and otherwise nothing changes |
| LWWRegisters.LWWRegister.FromHash | lib/crdt/lww_register.rb:44-64 | `from_h(to_h)` round trip: the rebuilt register's `to_h` is the given hash, so reloading restores every field |
| Ledgers.Observe | lib/crdt/or_set.rb:49-50 | the record gains the token, becomes present, and keeps its removed tokens |
| Ledgers.Retire | lib/crdt/or_set.rb:55-56 | the record is no longer present, and its removed tokens gain every observed one |
| Ledgers.MergeLedgerSeparates | lib/crdt/or_set.rb:87-89 | after a merge no token is both observed and removed, a token removed on either side stays removed and is never observed, and no observed token is invented |
| Ledgers.AddWins | lib/crdt/or_set.rb:87-89 | a merged record is present exactly when some token observed on either side is removed on neither |
| Ledgers.MergeLedgerIdempotent | lib/crdt/or_set.rb:86-89 | a separated record merged with itself is unchanged |
| Ledgers.MergeLedgerCommutes | lib/crdt/or_set.rb:86-89 | the record merge is commutative |
| Ledgers.MergeLedgerAssociates | lib/crdt/or_set.rb:86-89 | the record merge is associative |
| Ledgers.MergeLedgersSeparated | lib/crdt/or_set.rb:84-91 | merging keeps every record of a separated state separated |
| Ledgers.MergeLedgersIdempotent | lib/crdt/or_set.rb:84-91 | given separated records, merging a copy of oneself changes nothing |
| Ledgers.MergeLedgersCommute | lib/crdt/or_set.rb:84-91 | between separated states the keyed merge is commutative |
| Ledgers.MergeLedgersNeedSeparation | lib/crdt/or_set.rb:84-91 | without separation it is not: a record on one side only comes back unmerged one way and cleaned the other way |
| Ledgers.MergeLedgersAssociate | lib/crdt/or_set.rb:84-91 | the keyed merge is associative |
| ORSets.ORSet.constructor | lib/crdt/or_set.rb:16-20 | an empty set with the given identity and counter, and no token issued at or above the counter |
| ORSets.ORSet.Elements | lib/crdt/or_set.rb:25-40 | `each` yields exactly the recorded items whose observed ledger is not empty (`has?`) |
| ORSets.HasAgreesWithEach | lib/crdt/or_set.rb:25-40 | `has?` and `each` agree: an item is reported present exactly when iteration yields it, and an item with no record is absent |
| ORSets.ORSet.Add | lib/crdt/or_set.rb:44-51 | the item's record gains the token (this node, pre-increment counter), which has never been issued before; the counter rises by one, the item is present, and other records are unchanged |
| ORSets.ORSet.Remove | lib/crdt/or_set.rb:54-57 | the item's observed tokens move to its removed ledger so it is absent; other records and the counter are unchanged |
| ORSets.ORSet.Merge | lib/crdt/or_set.rb:84-91 | the items become `MergeLedgers` of both sides; every merged record is separated, and items the other replica lacks are untouched |
| ORSets.ORSet.FromHash | lib/crdt/or_set.rb:60-79 | `from_h(to_h)` round trip: copying each record into a fresh empty one restores identity, counter and every record, so the rebuilt set's `to_h` is the given hash |
| ORSets.MergeKeepsUnremovedItems | lib/crdt/or_set.rb:84-91 | a present item stays present when the other replica never removed any of its tokens |
| ORSets.RemoteRemoveWins | lib/crdt/or_set.rb:54-57 | a replica that removes an item, retiring the tokens it saw, makes the item absent on the original once merged back |
| ArrayOps.RemoveAll | lib/crdt/or_graph.rb:79-80 | `Array#-` with one element: every occurrence of it is dropped and every other element keeps its number of occurrences, so the list never grows |
| ArrayOps.Union | lib/crdt/or_graph.rb:123-124 | `Array#|`: exactly the elements of either list, without duplicates |
| ArrayOps.UnionAbsorbs | lib/crdt/or_graph.rb:123-124 | unioning in elements that are already present changes nothing, once the receiver has no duplicates |
| ArrayOps.UnionSelf | lib/crdt/or_graph.rb:123-124 | a list without duplicates unioned with itself is unchanged |
| ORGraphs.EdgeTokenRoundTrip | lib/crdt/or_graph.rb:150-156 | `from_edge_token(edge_token(from, to)) == (from, to)`, and the other way round |
| ORGraphs.FromEdgeToken | lib/crdt/or_graph.rb:154-156 | splitting an edge key gives back endpoints that `edge_token` turns into the same key |
| ORGraphs.ORGraph.HasVertex | lib/crdt/or_graph.rb:20-24 | a present vertex has a record, and a token this node has not issued yet is never a present vertex |
| ORGraphs.ORGraph.HasEdge | lib/crdt/or_graph.rb:27-31 | in a well formed graph a present edge has both endpoints registered |
| ORGraphs.ORGraph.OutgoingEdges | lib/crdt/or_graph.rb:34-36 | the i-th pair is `[from, outgoing[i]]`, so the result has one pair per outgoing entry, in order, naming exactly the listed targets |
| ORGraphs.ORGraph.IncomingEdges | lib/crdt/or_graph.rb:39-41 | the i-th pair is `[incoming[i], to]`, so the result has one pair per incoming entry, in order, naming exactly the listed sources |
| ORGraphs.ORGraph.constructor | lib/crdt/or_graph.rb:10-15 | an empty, well formed graph with the given identity and counter |
| ORGraphs.ORGraph.IssueToken | lib/crdt/or_graph.rb:145-148 | the counter is bumped first and the token names the new value; it is in no vertex and no edge ledger yet |
| ORGraphs.ORGraph.CreateVertex | lib/crdt/or_graph.rb:46-51 | a fresh token is registered with empty lists and not removed, so `has_vertex?` holds; well-formedness is kept |
| ORGraphs.ORGraph.AddEdge | lib/crdt/or_graph.rb:56-64 | `to` is appended to `from`'s outgoing list and `from` to `to`'s incoming list, with duplicates kept; the edge's record gains one fresh token, so `has_edge?` holds; well-formedness and token freshness are kept |
| ORGraphs.AddEdgeKeepsWellFormed | lib/crdt/or_graph.rb:56-62 | appending both adjacency entries together with the edge's record keeps every entry backed by an edge |
| ORGraphs.ORGraph.RemoveEdge | lib/crdt/or_graph.rb:75-81 | the edge's observed tokens are retired, and `to` is stripped from `from`'s outgoing list and `from` from `to`'s outgoing list; well-formedness and freshness are kept; afterwards `has_edge?(from, to)` is false |
| ORGraphs.RemoveEdgeEffect | lib/crdt/or_graph.rb:75-81 | after `remove_edge` the edge is absent, neither endpoint's outgoing list names the other, and `to`'s incoming list is unchanged |
| ORGraphs.StripOutgoingShrinks | lib/crdt/or_graph.rb:79-80 | stripping an outgoing list removes every occurrence, only shrinks the vertex map, and keeps it well formed |
| ORGraphs.ORGraph.RemoveEdges | lib/crdt/or_graph.rb:69-71 | calling `remove_edge` on each listed edge in turn |
| ORGraphs.RetireEdgesEffect | lib/crdt/or_graph.rb:69-78 | a batch of removals retires exactly the listed records, however often each is listed, and leaves the others alone |
| ORGraphs.DetachEdgesShrinks | lib/crdt/or_graph.rb:69-80 | a batch of removals only shrinks outgoing lists, so the graph stays well formed |
| ORGraphs.VertexCascade | lib/crdt/or_graph.rb:69 | the edges `remove_vertex` visits are exactly those listed in the vertex's incoming or outgoing list |
| ORGraphs.CascadeBacked | lib/crdt/or_graph.rb:69-70 | in a well formed graph every edge `remove_vertex` visits has a record and both endpoints |
| ORGraphs.ORGraph.RemoveVertex | lib/crdt/or_graph.rb:67-72 | the vertex is flagged removed, and then every edge it lists at call time is removed through `remove_edge`; well-formedness and freshness are kept; afterwards `has_vertex?(v)` is false, and so is `has_edge?` for every edge it listed |
| ORGraphs.RemoveVertexEffect | lib/crdt/or_graph.rb:67-72 | after `remove_vertex(v)` the vertex is removed, every edge it listed is absent, no other record, flag or incoming list changes, and outgoing lists only shrink |
| ORGraphs.RemoveVertexHides | lib/crdt/or_graph.rb:67-72 | after `remove_vertex(v)` the vertex is flagged removed and every edge it listed has no observed token left, in any graph |
| ORGraphs.RemoveVertexSkipsReverseEdge | lib/crdt/or_graph.rb:67-80 | after `add_edge(a, b)`, `add_edge(b, a)`, `remove_edge(a, b)` and `remove_vertex(b)`, `b` is removed but the edge `b -> a` is still present |
| ORGraphs.RemoveVertexKeepsIssuedUpTo | lib/crdt/or_graph.rb:67-72 | removing a vertex issues no token |
| ORGraphs.JoinVerticesInto | lib/crdt/or_graph.rb:116-126 | the vertex loop of `merge` yields `JoinVertices`: missing vertices are created bare, lists are unioned and flags or-ed |
| ORGraphs.MergeEdgesInto | lib/crdt/or_graph.rb:127-140 | the edge loop of `merge` yields `MergeLedgers` of the edge records, and the vertex map pruned of every edge of the other side whose merged record is empty; only those edges need their endpoints in the map |
| ORGraphs.MergeEdgeAdvances | lib/crdt/or_graph.rb:128-139 | one pass of the edge loop extends both results by the visited edge |
| ORGraphs.PruneStep | lib/crdt/or_graph.rb:136-139 | one more empty record strips exactly its source from its target's incoming list and its target from its source's outgoing list |
| ORGraphs.KeepSources | lib/crdt/or_graph.rb:137 | an incoming list keeps exactly the sources whose edge is not dead |
| ORGraphs.KeepTargets | lib/crdt/or_graph.rb:138 | an outgoing list keeps exactly the targets whose edge is not dead |
| ORGraphs.ORGraph.Merge | lib/crdt/or_graph.rb:115-141 | the vertices become `MergeVertices` and the edges `MergeLedgers` of both sides; well-formedness is kept when both sides are well formed; registered endpoints are demanded only for edges the merge finds dead, the only ones whose endpoints the source looks up |
| ORGraphs.MergePreservesWellFormed | lib/crdt/or_graph.rb:115-141 | merging two well formed graphs gives a well formed graph |
| ORGraphs.MergeKeepsRemoval | lib/crdt/or_graph.rb:125 | a vertex removed on either side is removed after the merge |
| ORGraphs.MergedVertexPresence | lib/crdt/or_graph.rb:116-126 | a vertex is present after the merge exactly when some side has it and neither side removed it |
| ORGraphs.MergedVertexShape | lib/crdt/or_graph.rb:116-140 | a merged vertex has the or-ed flag, and its lists hold the entries of either side except those of dead edges of the other side; a vertex the other side knows has no duplicates |
| ORGraphs.MergePrunesDeadEdges | lib/crdt/or_graph.rb:136-139 | an edge of the other side whose merged record is empty has both adjacency entries pruned |
| ORGraphs.MergeKeepsLiveAdjacency | lib/crdt/or_graph.rb:123-139 | an outgoing entry of either side survives when its edge is live after the merge or unknown to the other side |
| ORGraphs.SelfMergePrunesStaleEntry | lib/crdt/or_graph.rb:75-139 | counterexample to idempotence: after `add_edge(a, b)` and `remove_edge(a, b)`, `a` is still in `b`'s incoming list, and merging the graph into itself removes it, so the vertex map changes |
| ORGraphs.SelfMergeCollapsesDuplicates | lib/crdt/or_graph.rb:56-124 | counterexample to idempotence: after two `add_edge(a, b)` calls `a`'s outgoing list has a duplicate, and merging the graph into itself leaves none, so the vertex map changes |

## Left out

- Default node identities and tiebreakers (`Thread.current.object_id`) are not modelled: every constructor takes the identity or tiebreaker as a parameter.
- Optional `source` and `node` arguments (`increase`, `decrease`, `increment_clock`, `value`) are not modelled as optional: callers always pass them, and `Add`, `Subtract` pass the counter's own identity.
- `Time.now` in `LWWRegister#set` becomes two parameters, the seconds and the nanoseconds.
- `ORSet#gc` is not modelled, because its effect as written is a Ruby error and a `nil` token. `&:match_proc` sends `match_proc` to each token string, and strings have no such method: the first record with a removed or observed token raises `NoMethodError` (`or_set.rb` lines 104 and 108), after the records visited before it were already changed. A record whose two lists are both empty gets `nil` pushed onto its observed list (lines 112-114), so `has?` then reports the item present.
- `ORGraph#to_h` and `ORGraph.from_h` are not modelled. `from_h` writes its removed ledger under a misspelt key, so the reloaded edges have no removed ledger.
- `PNCounter#to_i` and non-integer amounts are not modelled: amounts are unbounded integers.
- JSON key conventions (string and symbol keys) are not modelled. Serialized forms are datatypes whose fields copy the instance variables.
- `lib/crdt.rb` only loads files, so it is not part of this model.
- The laziness of the `Enumerable` `each` is not modelled: `Elements` is the set of present items.
- Token strings (`"node:counter"`, `"from->to"`) and their parsing become the `Token` and `EdgeKey` datatypes. A vertex token containing `->` is therefore not modelled.
- The observed and removed arrays become sets. Their order and any duplicates (which `remove`'s `+=` can create) are not modelled.
- Hash iteration order in the merge and `from_h` loops is not modelled: each loop picks its next key arbitrarily, and the results are proved for every order.
- Ruby errors from looking up a missing record (`PNCounter#gc`, `remove`, `add_edge`, `remove_edge`, `outgoing_edges`, `incoming_edges`, `remove_vertex`) become preconditions. When only the positive entry exists, `PNCounter#gc` raises after `@base_value` has already been changed; that partial update is not modelled. `ORGraph#merge` indexes the vertex map only for an edge whose merged record has no observed token left, so `ORGraph.Merge` demands registered endpoints for those edges alone. The error path itself is not modelled. The one exception is `LWWRegister#merge`'s comparison with `nil`, which is modelled as the `Raise` decision.
- PNCounters.PNCounter.Merge: does not state that the counter stays consistent in general; it states that consistency survives only a merge that leaves the true total unchanged, because the source's merge does not refresh the cached value (see `MergeLeavesValueStale`).
- ORGraphs.ORGraph.Merge: no idempotence, commutativity or associativity is claimed. Idempotence fails, and `SelfMergePrunesStaleEntry` and `SelfMergeCollapsesDuplicates` show it. Adjacency lists are ordered, and `|` keeps the receiver's entries first, so the merge order shows in the lists. Pruning also depends on which side's edges are visited. Only the edge-ledger half behaves: it is `MergeLedgers`, which commutes between separated states (`MergeLedgersCommute`) and is associative (`MergeLedgersAssociate`).
- LWWRegisters.Merged: no commutativity or associativity is claimed, because the component-wise rule does not give them (see `MergeIsNotCommutative`).
- Ledgers.MergeLedgersCommute: commutativity is claimed only between states whose records are separated.
- Concurrency is not modelled: each replica is a single-threaded object, and replicas only meet through `merge`.
