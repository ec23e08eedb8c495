/**
 * ORGraph: a directed graph. Vertices are tokens with incoming and outgoing adjacency lists
 * and a sticky `removed` flag; each directed edge has an observed/removed token ledger.
 */
module ORGraphs {
  import opened CrdtBase
  import opened Ledgers
  import opened ArrayOps

  datatype Vertex = Vertex(incoming: seq<Token>, outgoing: seq<Token>, removed: bool)

  /** The record `create_vertex` and `merge` start a vertex from. */
  const BARE: Vertex := Vertex([], [], false)

  /** The key of the directed edge `from -> to`. */
  datatype EdgeKey = EdgeKey(from: Token, to: Token)

  type Vertices = map<Token, Vertex>
  type Edges = map<EdgeKey, Ledger>

  /** `edge_token`: the key of an edge from its endpoints. */
  function EdgeToken(from: Token, to: Token): (r: EdgeKey) {
    EdgeKey(from, to)
  }

  /** `from_edge_token`: the endpoints of an edge from its key. */
  function FromEdgeToken(k: EdgeKey): (r: (Token, Token))
    ensures EdgeToken(r.0, r.1) == k
  {
    (k.from, k.to)
  }

  lemma EdgeTokenRoundTrip(from: Token, to: Token, k: EdgeKey)
    ensures FromEdgeToken(EdgeToken(from, to)) == (from, to)
    ensures EdgeToken(FromEdgeToken(k).0, FromEdgeToken(k).1) == k
  {
  }

  /** The edge keys `[from, to]` for each `to` of an outgoing list, in order. */
  function EdgesFrom(from: Token, tos: seq<Token>): (r: seq<EdgeKey>)
    ensures |r| == |tos|
    ensures forall i :: 0 <= i < |r| ==> r[i] == EdgeKey(from, tos[i])
    ensures forall k :: k in r <==> k.from == from && k.to in tos
  {
    if tos == [] then [] else [EdgeKey(from, tos[0])] + EdgesFrom(from, tos[1..])
  }

  /** The edge keys `[from, to]` for each `from` of an incoming list, in order. */
  function EdgesTo(froms: seq<Token>, to: Token): (r: seq<EdgeKey>)
    ensures |r| == |froms|
    ensures forall i :: 0 <= i < |r| ==> r[i] == EdgeKey(froms[i], to)
    ensures forall k :: k in r <==> k.to == to && k.from in froms
  {
    if froms == [] then [] else [EdgeKey(froms[0], to)] + EdgesTo(froms[1..], to)
  }

  /** Every edge has both endpoints registered, and every adjacency entry names an edge that
      has a ledger. */
  ghost predicate WellFormed(vs: Vertices, keys: set<EdgeKey>) {
    && (forall k :: k in keys ==> k.from in vs && k.to in vs)
    && (forall v, t :: v in vs && t in vs[v].outgoing ==> EdgeKey(v, t) in keys)
    && (forall v, f :: v in vs && f in vs[v].incoming ==> EdgeKey(f, v) in keys)
  }

  /** `k` is listed in `v`'s adjacency: one of the edges `remove_vertex(v)` cascades to. */
  predicate Incident(k: EdgeKey, v: Token, vx: Vertex) {
    (k.to == v && k.from in vx.incoming) || (k.from == v && k.to in vx.outgoing)
  }

  function VertexOf(vs: Vertices, v: Token): (r: Vertex) {
    if v in vs then vs[v] else BARE
  }

  /** The vertex step of the source's merge: adjacency lists unioned without duplicates,
      removal flags or-ed. */
  function JoinVertex(local: Vertex, other: Vertex): (r: Vertex) {
    Vertex(Union(local.incoming, other.incoming), Union(local.outgoing, other.outgoing),
           local.removed || other.removed)
  }

  /** Every vertex of `other` is joined into (a bare copy of) the local one; the rest stay. */
  function JoinVertices(local: Vertices, other: Vertices): (r: Vertices) {
    map v | v in local.Keys + other.Keys ::
      if v in other then JoinVertex(VertexOf(local, v), other[v]) else local[v]
  }

  /** The edges of `other` whose merged ledger has no observed token left. */
  function DeadEdges(merged: Edges, other: Edges): (r: set<EdgeKey>) {
    set k | k in other && k in merged && !Live(merged[k])
  }

  /** An incoming list without the sources of dead edges into `to`. */
  function KeepSources(froms: seq<Token>, to: Token, dead: set<EdgeKey>): (r: seq<Token>)
    ensures forall f :: f in r <==> f in froms && EdgeKey(f, to) !in dead
  {
    if froms == [] then []
    else (if EdgeKey(froms[0], to) in dead then [] else [froms[0]]) + KeepSources(froms[1..], to, dead)
  }

  /** An outgoing list without the targets of dead edges out of `from`. */
  function KeepTargets(tos: seq<Token>, from: Token, dead: set<EdgeKey>): (r: seq<Token>)
    ensures forall t :: t in r <==> t in tos && EdgeKey(from, t) !in dead
  {
    if tos == [] then []
    else (if EdgeKey(from, tos[0]) in dead then [] else [tos[0]]) + KeepTargets(tos[1..], from, dead)
  }

  function PruneVertex(v: Token, vx: Vertex, dead: set<EdgeKey>): (r: Vertex) {
    vx.(incoming := KeepSources(vx.incoming, v, dead), outgoing := KeepTargets(vx.outgoing, v, dead))
  }

  /** Every vertex with the endpoints of dead edges taken out of its adjacency lists. */
  function Prune(vs: Vertices, dead: set<EdgeKey>): (r: Vertices) {
    map v | v in vs :: PruneVertex(v, vs[v], dead)
  }

  /** The vertex map after the source's whole merge. */
  function MergeVertices(lv: Vertices, le: Edges, ov: Vertices, oe: Edges): (r: Vertices) {
    Prune(JoinVertices(lv, ov), DeadEdges(MergeLedgers(le, oe), oe))
  }

  lemma {:induction false} KeepSourcesNone(froms: seq<Token>, to: Token)
    ensures KeepSources(froms, to, {}) == froms
  {
    if froms != [] {
      KeepSourcesNone(froms[1..], to);
      assert [froms[0]] + froms[1..] == froms;
    }
  }

  lemma {:induction false} KeepTargetsNone(tos: seq<Token>, from: Token)
    ensures KeepTargets(tos, from, {}) == tos
  {
    if tos != [] {
      KeepTargetsNone(tos[1..], from);
      assert [tos[0]] + tos[1..] == tos;
    }
  }

  /** One more dead edge removes its source from its target's incoming list and nothing else. */
  lemma {:induction false} KeepSourcesStep(froms: seq<Token>, to: Token, dead: set<EdgeKey>, k: EdgeKey)
    ensures KeepSources(froms, to, dead + {k})
         == if k.to == to then RemoveAll(KeepSources(froms, to, dead), k.from) else KeepSources(froms, to, dead)
  {
    if froms != [] {
      KeepSourcesStep(froms[1..], to, dead, k);
      var f, rest := froms[0], KeepSources(froms[1..], to, dead);
      var head := if EdgeKey(f, to) in dead then [] else [f];
      assert KeepSources(froms, to, dead) == head + rest;
      if k.to == to {
        if EdgeKey(f, to) in dead {
          assert head + rest == rest;
        } else {
          RemoveAllCons(f, rest, k.from);
        }
      }
    }
  }

  /** One more dead edge removes its target from its source's outgoing list and nothing else. */
  lemma {:induction false} KeepTargetsStep(tos: seq<Token>, from: Token, dead: set<EdgeKey>, k: EdgeKey)
    ensures KeepTargets(tos, from, dead + {k})
         == if k.from == from then RemoveAll(KeepTargets(tos, from, dead), k.to) else KeepTargets(tos, from, dead)
  {
    if tos != [] {
      KeepTargetsStep(tos[1..], from, dead, k);
      var t, rest := tos[0], KeepTargets(tos[1..], from, dead);
      var head := if EdgeKey(from, t) in dead then [] else [t];
      assert KeepTargets(tos, from, dead) == head + rest;
      if k.from == from {
        if EdgeKey(from, t) in dead {
          assert head + rest == rest;
        } else {
          RemoveAllCons(t, rest, k.to);
        }
      }
    }
  }

  /** Filtering an incoming list keeps it free of duplicates. */
  lemma {:induction false} KeepSourcesDistinct(froms: seq<Token>, to: Token, dead: set<EdgeKey>)
    requires NoDuplicates(froms)
    ensures NoDuplicates(KeepSources(froms, to, dead))
  {
    if froms != [] {
      DistinctCons(froms[0], froms[1..]);
      assert [froms[0]] + froms[1..] == froms;
      KeepSourcesDistinct(froms[1..], to, dead);
      if EdgeKey(froms[0], to) !in dead {
        DistinctCons(froms[0], KeepSources(froms[1..], to, dead));
      } else {
        assert KeepSources(froms, to, dead) == KeepSources(froms[1..], to, dead);
      }
    }
  }

  /** Filtering an outgoing list keeps it free of duplicates. */
  lemma {:induction false} KeepTargetsDistinct(tos: seq<Token>, from: Token, dead: set<EdgeKey>)
    requires NoDuplicates(tos)
    ensures NoDuplicates(KeepTargets(tos, from, dead))
  {
    if tos != [] {
      DistinctCons(tos[0], tos[1..]);
      assert [tos[0]] + tos[1..] == tos;
      KeepTargetsDistinct(tos[1..], from, dead);
      if EdgeKey(from, tos[0]) !in dead {
        DistinctCons(tos[0], KeepTargets(tos[1..], from, dead));
      } else {
        assert KeepTargets(tos, from, dead) == KeepTargets(tos[1..], from, dead);
      }
    }
  }

  /**
   * The vertex step of the merge: a vertex of either side is present afterwards, removed when
   * either side removed it, and its adjacency lists hold the entries of either side except
   * those of dead edges of `other`; for a vertex `other` knows, they are free of duplicates.
   */
  lemma MergedVertexShape(lv: Vertices, le: Edges, ov: Vertices, oe: Edges, v: Token)
    requires v in lv || v in ov
    ensures var vs := MergeVertices(lv, le, ov, oe);
      var dead := DeadEdges(MergeLedgers(le, oe), oe);
      var l, o := VertexOf(lv, v), VertexOf(ov, v);
      && v in vs
      && vs[v].removed == (l.removed || o.removed)
      && (forall t :: t in vs[v].outgoing <==>
            (t in l.outgoing || t in o.outgoing) && EdgeKey(v, t) !in dead)
      && (forall f :: f in vs[v].incoming <==>
            (f in l.incoming || f in o.incoming) && EdgeKey(f, v) !in dead)
      && (v in ov ==> NoDuplicates(vs[v].outgoing) && NoDuplicates(vs[v].incoming))
  {
    var joined := JoinVertices(lv, ov);
    var dead := DeadEdges(MergeLedgers(le, oe), oe);
    if v in ov {
      KeepTargetsDistinct(joined[v].outgoing, v, dead);
      KeepSourcesDistinct(joined[v].incoming, v, dead);
    }
  }

  /** The merged graph is well formed when both inputs are. */
  lemma MergePreservesWellFormed(lv: Vertices, le: Edges, ov: Vertices, oe: Edges)
    requires WellFormed(lv, le.Keys) && WellFormed(ov, oe.Keys)
    ensures WellFormed(MergeVertices(lv, le, ov, oe), MergeLedgers(le, oe).Keys)
  {
    var joined, es := JoinVertices(lv, ov), MergeLedgers(le, oe);
    var vs := MergeVertices(lv, le, ov, oe);
    MergeLedgersKeys(le, oe);
    assert vs.Keys == lv.Keys + ov.Keys;
    forall v, t | v in vs && t in vs[v].outgoing ensures EdgeKey(v, t) in es.Keys {
      assert t in joined[v].outgoing;
    }
    forall v, f | v in vs && f in vs[v].incoming ensures EdgeKey(f, v) in es.Keys {
      assert f in joined[v].incoming;
    }
  }

  /** Removal is sticky: a vertex removed on either side is removed after the merge. */
  lemma MergeKeepsRemoval(lv: Vertices, le: Edges, ov: Vertices, oe: Edges, v: Token)
    requires (v in lv && lv[v].removed) || (v in ov && ov[v].removed)
    ensures v in MergeVertices(lv, le, ov, oe) && MergeVertices(lv, le, ov, oe)[v].removed
  {
  }

  /** A vertex is present after the merge exactly when it exists on some side and neither
      side has removed it. */
  lemma MergedVertexPresence(lv: Vertices, le: Edges, ov: Vertices, oe: Edges, v: Token)
    ensures var vs := MergeVertices(lv, le, ov, oe);
      (v in vs && !vs[v].removed) <==>
      ((v in lv || v in ov) && !(v in lv && lv[v].removed) && !(v in ov && ov[v].removed))
  {
  }

  /** Every edge of `other` whose merged ledger is empty has both of its adjacency entries
      pruned; every other entry of either side survives. */
  lemma MergePrunesDeadEdges(lv: Vertices, le: Edges, ov: Vertices, oe: Edges, k: EdgeKey)
    requires WellFormed(ov, oe.Keys)
    requires k in oe && !Live(MergeLedgers(le, oe)[k])
    ensures var vs := MergeVertices(lv, le, ov, oe);
      k.from in vs && k.to in vs && k.from !in vs[k.to].incoming && k.to !in vs[k.from].outgoing
  {
    MergeLedgersKeys(le, oe);
  }

  /** An adjacency entry survives the merge when it was on either side and its edge's
      merged ledger is live or the edge is unknown to `other`. */
  lemma MergeKeepsLiveAdjacency(lv: Vertices, le: Edges, ov: Vertices, oe: Edges, v: Token, t: Token)
    requires (v in lv && t in lv[v].outgoing) || (v in ov && t in ov[v].outgoing)
    requires EdgeKey(v, t) in oe ==> Live(MergeLedgers(le, oe)[EdgeKey(v, t)])
    ensures var vs := MergeVertices(lv, le, ov, oe);
      v in vs && t in vs[v].outgoing
  {
    MergeLedgersKeys(le, oe);
  }

  /** The vertex map with `t` appended to `v`'s outgoing list (`<<`). */
  function AppendOutgoing(vs: Vertices, v: Token, t: Token): (r: Vertices)
    requires v in vs
  {
    vs[v := vs[v].(outgoing := vs[v].outgoing + [t])]
  }

  /** The vertex map with `f` appended to `v`'s incoming list (`<<`). */
  function AppendIncoming(vs: Vertices, v: Token, f: Token): (r: Vertices)
    requires v in vs
  {
    vs[v := vs[v].(incoming := vs[v].incoming + [f])]
  }

  /** The vertex map with every `t` dropped from `v`'s outgoing list. */
  function StripOutgoing(vs: Vertices, v: Token, t: Token): (r: Vertices)
    requires v in vs
  {
    vs[v := vs[v].(outgoing := RemoveAll(vs[v].outgoing, t))]
  }

  /** The vertex map with every `f` dropped from `v`'s incoming list. */
  function StripIncoming(vs: Vertices, v: Token, f: Token): (r: Vertices)
    requires v in vs
  {
    vs[v := vs[v].(incoming := RemoveAll(vs[v].incoming, f))]
  }

  /** `after` has the same vertices, removal flags and incoming lists as `before`, and its
      outgoing lists only lost entries: what `remove_edge` does to the vertex map. */
  ghost predicate Shrunk(before: Vertices, after: Vertices) {
    && before.Keys == after.Keys
    && forall w :: w in after ==>
         && after[w].removed == before[w].removed
         && after[w].incoming == before[w].incoming
         && (forall t :: t in after[w].outgoing ==> t in before[w].outgoing)
  }

  lemma ShrunkTransitive(a: Vertices, b: Vertices, c: Vertices)
    requires Shrunk(a, b) && Shrunk(b, c)
    ensures Shrunk(a, c)
  {
  }

  /** Dropping outgoing entries shrinks the map and keeps it well formed. */
  lemma StripOutgoingShrinks(vs: Vertices, keys: set<EdgeKey>, v: Token, t: Token)
    requires v in vs
    ensures Shrunk(vs, StripOutgoing(vs, v, t))
    ensures WellFormed(vs, keys) ==> WellFormed(StripOutgoing(vs, v, t), keys)
    ensures t !in StripOutgoing(vs, v, t)[v].outgoing
  {
  }

  /** Recording an edge in both adjacency lists together with its ledger key keeps the graph
      well formed. */
  lemma AddEdgeKeepsWellFormed(vs: Vertices, keys: set<EdgeKey>, from: Token, to: Token)
    requires WellFormed(vs, keys) && from in vs && to in vs
    ensures WellFormed(AppendIncoming(AppendOutgoing(vs, from, to), to, from), keys + {EdgeKey(from, to)})
  {
  }

  /** Observing the next token of `node` on one ledger keeps every ledger issued below the
      advanced bound. */
  lemma ObserveNextKeepsIssuedBelow(es: Edges, k: EdgeKey, node: NodeId, counter: int)
    requires forall j :: j in es ==> IssuedBelow(es[j], node, counter + 1)
    ensures var after := es[k := Observe(LedgerOf(es, k), Token(node, counter + 1))];
      forall j :: j in after ==> IssuedBelow(after[j], node, counter + 2)
  {
  }

  /** Retiring a ledger never puts a token of `node` at or above `bound`. */
  lemma RetireKeepsIssuedBelow(l: Ledger, node: NodeId, bound: int)
    requires IssuedBelow(l, node, bound)
    ensures IssuedBelow(Retire(l), node, bound)
  {
  }

  /** The edge ledgers after `remove_edge` has run on each key of `cascade` in turn. */
  function RetireEdges(es: Edges, cascade: seq<EdgeKey>): (r: Edges)
    decreases |cascade|
  {
    if cascade == [] then es
    else
      var before := RetireEdges(es, cascade[..|cascade| - 1]);
      var k := cascade[|cascade| - 1];
      if k in before then before[k := Retire(before[k])] else before
  }

  /** The vertex map after `remove_edge` has run on each key of `cascade` in turn. */
  function DetachEdges(vs: Vertices, cascade: seq<EdgeKey>): (r: Vertices)
    decreases |cascade|
  {
    if cascade == [] then vs
    else
      var before := DetachEdges(vs, cascade[..|cascade| - 1]);
      var k := cascade[|cascade| - 1];
      if k.from in before && k.to in before
      then StripOutgoing(StripOutgoing(before, k.from, k.to), k.to, k.from)
      else before
  }

  /** Removing a batch of edges retires exactly the listed ledgers, however often each is
      listed, and leaves the others alone. */
  lemma {:induction false} RetireEdgesEffect(es: Edges, cascade: seq<EdgeKey>)
    ensures RetireEdges(es, cascade).Keys == es.Keys
    ensures forall k :: k in es ==>
      RetireEdges(es, cascade)[k] == if k in cascade then Retire(es[k]) else es[k]
    decreases |cascade|
  {
    if cascade != [] {
      var init := cascade[..|cascade| - 1];
      RetireEdgesEffect(es, init);
      assert forall k :: k in cascade <==> k in init || k == cascade[|cascade| - 1] by {
        assert cascade == init + [cascade[|cascade| - 1]];
      }
    }
  }

  /** Removing a batch of edges only shrinks outgoing lists, so the graph stays well formed. */
  lemma {:induction false} DetachEdgesShrinks(vs: Vertices, keys: set<EdgeKey>, cascade: seq<EdgeKey>)
    ensures Shrunk(vs, DetachEdges(vs, cascade))
    ensures WellFormed(vs, keys) ==> WellFormed(DetachEdges(vs, cascade), keys)
    decreases |cascade|
  {
    if cascade != [] {
      var init := cascade[..|cascade| - 1];
      DetachEdgesShrinks(vs, keys, init);
      var before := DetachEdges(vs, init);
      var k := cascade[|cascade| - 1];
      if k.from in before && k.to in before {
        var mid := StripOutgoing(before, k.from, k.to);
        StripOutgoingShrinks(before, keys, k.from, k.to);
        StripOutgoingShrinks(mid, keys, k.to, k.from);
        ShrunkTransitive(before, mid, DetachEdges(vs, cascade));
        ShrunkTransitive(vs, before, DetachEdges(vs, cascade));
      }
    }
  }

  /** What `remove_edge` promises: the edge is gone, neither endpoint's outgoing list still
      names the other, and `to`'s incoming list is untouched. */
  lemma RemoveEdgeEffect(vs: Vertices, es: Edges, from: Token, to: Token)
    requires EdgeKey(from, to) in es && from in vs && to in vs
    ensures var after := StripOutgoing(StripOutgoing(vs, from, to), to, from);
      && to !in after[from].outgoing && from !in after[to].outgoing
      && after[to].incoming == vs[to].incoming
      && Shrunk(vs, after)
      && (WellFormed(vs, es.Keys) ==> WellFormed(after, es.Keys))
      && !Live(es[EdgeKey(from, to) := Retire(es[EdgeKey(from, to)])][EdgeKey(from, to)])
  {
    var mid := StripOutgoing(vs, from, to);
    var after := StripOutgoing(mid, to, from);
    StripOutgoingShrinks(vs, es.Keys, from, to);
    StripOutgoingShrinks(mid, es.Keys, to, from);
    ShrunkTransitive(vs, mid, after);
    if from != to {
      assert after[from] == mid[from];
    }
  }

  /** The vertex map with `v` flagged removed. */
  function MarkRemoved(vs: Vertices, v: Token): (r: Vertices)
    requires v in vs
  {
    vs[v := vs[v].(removed := true)]
  }

  /** The edges `remove_vertex` removes: those of `v`'s incoming list, then those of its
      outgoing list. */
  function VertexCascade(v: Token, vx: Vertex): (r: seq<EdgeKey>)
    ensures forall k :: k in r <==> Incident(k, v, vx)
  {
    EdgesTo(vx.incoming, v) + EdgesFrom(v, vx.outgoing)
  }

  /** In a well formed graph every edge a vertex lists has a ledger and both endpoints, so
      `remove_vertex` never fails there. */
  lemma CascadeBacked(vs: Vertices, keys: set<EdgeKey>, v: Token)
    requires WellFormed(vs, keys) && v in vs
    ensures forall k :: k in VertexCascade(v, vs[v]) ==> k in keys && k.from in vs && k.to in vs
  {
  }

  /**
   * What `remove_vertex` promises: the vertex is flagged removed, every edge it listed is no
   * longer live, no other ledger changes, no incoming list and no other flag changes, outgoing
   * lists only shrink, and the graph stays well formed.
   */
  lemma RemoveVertexEffect(vs: Vertices, es: Edges, v: Token)
    requires WellFormed(vs, es.Keys) && v in vs
    ensures var cascade := VertexCascade(v, vs[v]);
      var after := DetachEdges(MarkRemoved(vs, v), cascade);
      var ledgers := RetireEdges(es, cascade);
      && after.Keys == vs.Keys && ledgers.Keys == es.Keys
      && after[v].removed
      && (forall w :: w in after ==>
            && after[w].removed == (w == v || vs[w].removed)
            && after[w].incoming == vs[w].incoming
            && (forall t :: t in after[w].outgoing ==> t in vs[w].outgoing))
      && (forall k :: k in ledgers ==>
            ledgers[k] == if Incident(k, v, vs[v]) then Retire(es[k]) else es[k])
      && (forall k :: k in ledgers && Incident(k, v, vs[v]) ==> !Live(ledgers[k]))
      && WellFormed(after, ledgers.Keys)
  {
    var cascade := VertexCascade(v, vs[v]);
    var flagged := MarkRemoved(vs, v);
    assert WellFormed(flagged, es.Keys);
    DetachEdgesShrinks(flagged, es.Keys, cascade);
    RetireEdgesEffect(es, cascade);
  }

  /** After `remove_vertex(v)` the vertex is flagged removed and every edge it listed has no
      observed token left, whether or not the graph was well formed. */
  lemma RemoveVertexHides(vs: Vertices, es: Edges, v: Token)
    requires v in vs
    requires forall k :: k in VertexCascade(v, vs[v]) ==> k in es
    ensures var cascade := VertexCascade(v, vs[v]);
      var after := DetachEdges(MarkRemoved(vs, v), cascade);
      var ledgers := RetireEdges(es, cascade);
      && v in after && after[v].removed
      && forall k :: k in cascade ==> k in ledgers && !Live(ledgers[k])
  {
    var cascade := VertexCascade(v, vs[v]);
    DetachEdgesShrinks(MarkRemoved(vs, v), {}, cascade);
    RetireEdgesEffect(es, cascade);
  }

  /** Retiring ledgers keeps every one of them issued below the bound. */
  lemma RetireEdgesIssuedBelow(es: Edges, cascade: seq<EdgeKey>, node: NodeId, bound: int)
    requires forall k :: k in es ==> IssuedBelow(es[k], node, bound)
    ensures forall k :: k in RetireEdges(es, cascade) ==> IssuedBelow(RetireEdges(es, cascade)[k], node, bound)
  {
    RetireEdgesEffect(es, cascade);
    forall k | k in es && k in cascade
      ensures IssuedBelow(Retire(es[k]), node, bound)
    {
      RetireKeepsIssuedBelow(es[k], node, bound);
    }
  }

  /** One more dead edge takes its source out of its target's incoming list and its target
      out of its source's outgoing list, at the level of one vertex. */
  lemma PruneVertexStep(w: Token, vx: Vertex, dead: set<EdgeKey>, k: EdgeKey)
    ensures var p := PruneVertex(w, vx, dead);
      var q := if w == k.to then p.(incoming := RemoveAll(p.incoming, k.from)) else p;
      PruneVertex(w, vx, dead + {k}) == if w == k.from then q.(outgoing := RemoveAll(q.outgoing, k.to)) else q
  {
    KeepSourcesStep(vx.incoming, w, dead, k);
    KeepTargetsStep(vx.outgoing, w, dead, k);
  }

  /** One more dead edge strips its source from its target's incoming list and its target
      from its source's outgoing list, which is what the merge does on finding it dead. */
  lemma PruneStep(vs: Vertices, dead: set<EdgeKey>, k: EdgeKey)
    requires k.from in vs && k.to in vs
    ensures Prune(vs, dead + {k})
         == StripOutgoing(StripIncoming(Prune(vs, dead), k.to, k.from), k.from, k.to)
  {
    var after := StripOutgoing(StripIncoming(Prune(vs, dead), k.to, k.from), k.from, k.to);
    forall w | w in vs ensures Prune(vs, dead + {k})[w] == after[w] {
      PruneStepAt(vs, dead, k, w);
    }
    assert Prune(vs, dead + {k}).Keys == after.Keys;
  }

  /** `PruneStep` at one vertex. */
  lemma PruneStepAt(vs: Vertices, dead: set<EdgeKey>, k: EdgeKey, w: Token)
    requires k.from in vs && k.to in vs && w in vs
    ensures Prune(vs, dead + {k})[w]
         == StripOutgoing(StripIncoming(Prune(vs, dead), k.to, k.from), k.from, k.to)[w]
  {
    var pruned := Prune(vs, dead);
    var mid := StripIncoming(pruned, k.to, k.from);
    PruneVertexStep(w, vs[w], dead, k);
    assert mid[w] == if w == k.to then pruned[w].(incoming := RemoveAll(pruned[w].incoming, k.from)) else pruned[w];
  }


  /** Joining one more vertex of `other` extends the join over the vertices visited so far. */
  lemma JoinVerticesStep(local: Vertices, other: Vertices, done: set<Token>, v: Token)
    requires v in other && v !in done
    ensures var before := JoinVertices(local, Restrict(other, done));
      before[v := JoinVertex(VertexOf(before, v), other[v])] == JoinVertices(local, Restrict(other, done + {v}))
  {
    var before := JoinVertices(local, Restrict(other, done));
    var after := JoinVertices(local, Restrict(other, done + {v}));
    assert VertexOf(before, v) == VertexOf(local, v);
    assert before[v := JoinVertex(VertexOf(before, v), other[v])].Keys == after.Keys;
  }

  /** The vertex loop of the source's merge: each vertex of `other` is created bare when
      missing (`||=`), then has its lists unioned and its flag or-ed in. */
  method JoinVerticesInto(local: Vertices, other: Vertices) returns (r: Vertices)
    ensures r == JoinVertices(local, other)
  {
    RestrictBounds(other);
    assert JoinVertices(local, map[]) == local;
    r := local;
    var pending := other.Keys;
    ghost var done: set<Token> := {};
    while pending != {}
      invariant done == other.Keys - pending && pending <= other.Keys
      invariant r == JoinVertices(local, Restrict(other, done))
      decreases pending
    {
      var v :| v in pending;
      JoinVerticesStep(local, other, done, v);
      var current := if v in r then r[v] else BARE;
      current := current.(incoming := Union(current.incoming, other[v].incoming));
      current := current.(outgoing := Union(current.outgoing, other[v].outgoing));
      current := current.(removed := current.removed || other[v].removed);
      r := r[v := current];
      pending, done := pending - {v}, done + {v};
    }
    assert done == other.Keys;
  }

  /** Merging one more ledger of `other` extends the merge over the ledgers visited so far. */
  lemma MergeLedgersStep(local: Edges, other: Edges, done: set<EdgeKey>, k: EdgeKey)
    requires k in other && k !in done
    ensures var before := MergeLedgers(local, Restrict(other, done));
      before[k := MergeLedger(LedgerOf(before, k), other[k])] == MergeLedgers(local, Restrict(other, done + {k}))
  {
    var before := MergeLedgers(local, Restrict(other, done));
    var after := MergeLedgers(local, Restrict(other, done + {k}));
    assert LedgerOf(before, k) == LedgerOf(local, k);
    assert before[k := MergeLedger(LedgerOf(before, k), other[k])].Keys == after.Keys;
  }

  /** Visiting one more edge adds it to the dead ones exactly when its new ledger is empty. */
  lemma DeadEdgesStep(es: Edges, other: Edges, done: set<EdgeKey>, k: EdgeKey, l: Ledger)
    requires k in other && k !in done
    ensures DeadEdges(es[k := l], Restrict(other, done + {k}))
         == DeadEdges(es, Restrict(other, done)) + (if Live(l) then {} else {k})
  {
  }

  /** Every edge of `other` whose merged ledger ends up empty has both endpoints in `vs`. */
  ghost predicate DeadEndpointsIn(vs: Vertices, local: Edges, other: Edges) {
    forall k :: k in other && !Live(MergeLedger(LedgerOf(local, k), other[k])) ==> k.from in vs && k.to in vs
  }

  /** Pruning with no dead edge changes nothing. */
  lemma PruneNone(vs: Vertices)
    ensures Prune(vs, {}) == vs
  {
    forall w | w in vs ensures Prune(vs, {})[w] == vs[w] {
      KeepSourcesNone(vs[w].incoming, w);
      KeepTargetsNone(vs[w].outgoing, w);
    }
  }

  /** One pass of the edge loop: the ledger merged in and, when it ends up empty, the edge's
      endpoints stripped, extend both loop results by the visited edge. */
  lemma MergeEdgeAdvances(vs: Vertices, local: Edges, other: Edges, done: set<EdgeKey>, k: EdgeKey)
    requires k in other && k !in done
    requires !Live(MergeLedger(LedgerOf(local, k), other[k])) ==> k.from in vs && k.to in vs
    ensures var es := MergeLedgers(local, Restrict(other, done));
      var l := MergeLedger(LedgerOf(es, k), other[k]);
      var ws := Prune(vs, DeadEdges(es, Restrict(other, done)));
      && es[k := l] == MergeLedgers(local, Restrict(other, done + {k}))
      && Prune(vs, DeadEdges(es[k := l], Restrict(other, done + {k})))
         == if Live(l) then ws else StripOutgoing(StripIncoming(ws, k.to, k.from), k.from, k.to)
  {
    var es := MergeLedgers(local, Restrict(other, done));
    var l := MergeLedger(LedgerOf(es, k), other[k]);
    var dead := DeadEdges(es, Restrict(other, done));
    MergeLedgersStep(local, other, done, k);
    DeadEdgesStep(es, other, done, k, l);
    assert LedgerOf(es, k) == LedgerOf(local, k);
    if Live(l) {
      assert dead + {} == dead;
    } else {
      PruneStep(vs, dead, k);
    }
  }

  /**
   * The edge loop of the source's merge: each ledger of `other` is merged into (a fresh
   * record for) the local one, and when no observed token is left the edge's source is
   * deleted from its target's incoming list and its target from its source's outgoing list.
   * Both endpoints of every edge found dead must be vertices: the source indexes them there.
   */
  method MergeEdgesInto(vs: Vertices, local: Edges, other: Edges) returns (es: Edges, ws: Vertices)
    requires DeadEndpointsIn(vs, local, other)
    ensures es == MergeLedgers(local, other)
    ensures ws == Prune(vs, DeadEdges(es, other))
  {
    RestrictBounds(other);
    assert MergeLedgers(local, map[]) == local;
    PruneNone(vs);
    assert DeadEdges(local, map[]) == {};
    es, ws := local, vs;
    var pending := other.Keys;
    ghost var done: set<EdgeKey> := {};
    while pending != {}
      invariant pending !! done && pending + done == other.Keys
      invariant es == MergeLedgers(local, Restrict(other, done))
      invariant ws == Prune(vs, DeadEdges(es, Restrict(other, done)))
      decreases pending
    {
      var k :| k in pending;
      MergeEdgeAdvances(vs, local, other, done, k);
      var l := if k in es then es[k] else EMPTY;
      l := l.(observed := l.observed + other[k].observed);
      l := l.(removed := l.removed + other[k].removed);
      l := l.(observed := l.observed - l.removed);
      assert l == MergeLedger(LedgerOf(es, k), other[k]);
      es := es[k := l];
      if l.observed == {} {
        ws := StripIncoming(ws, k.to, k.from);
        ws := StripOutgoing(ws, k.from, k.to);
      }
      pending, done := pending - {k}, done + {k};
    }
    assert done == other.Keys;
  }

  /** No vertex or edge token of `node` has a counter above `counter`. */
  ghost predicate IssuedUpTo(vs: Vertices, es: Edges, node: NodeId, counter: int) {
    && (forall v :: v in vs && v.node == node ==> v.counter <= counter)
    && (forall k :: k in es ==> IssuedBelow(es[k], node, counter + 1))
  }

  /** Removing an edge issues no token. */
  lemma RemoveEdgeKeepsIssuedUpTo(vs: Vertices, es: Edges, from: Token, to: Token, node: NodeId, counter: int)
    requires IssuedUpTo(vs, es, node, counter)
    requires EdgeKey(from, to) in es && from in vs && to in vs
    ensures var k := EdgeKey(from, to);
      IssuedUpTo(StripOutgoing(StripOutgoing(vs, from, to), to, from), es[k := Retire(es[k])], node, counter)
  {
    RetireKeepsIssuedBelow(es[EdgeKey(from, to)], node, counter + 1);
  }

  /** Removing a vertex issues no token. */
  lemma RemoveVertexKeepsIssuedUpTo(vs: Vertices, es: Edges, v: Token, node: NodeId, counter: int)
    requires IssuedUpTo(vs, es, node, counter) && v in vs
    ensures var cascade := VertexCascade(v, vs[v]);
      IssuedUpTo(DetachEdges(MarkRemoved(vs, v), cascade), RetireEdges(es, cascade), node, counter)
  {
    var cascade := VertexCascade(v, vs[v]);
    DetachEdgesShrinks(MarkRemoved(vs, v), {}, cascade);
    RetireEdgesIssuedBelow(es, cascade, node, counter + 1);
  }

  class ORGraph {
    const nodeIdentity: NodeId
    var tokenCounter: int
    var vertices: Vertices
    var edges: Edges

    ghost predicate Valid()
      reads this
    {
      WellFormed(vertices, edges.Keys)
    }

    /** No vertex or edge token of this replica is ahead of its counter, so the next one
        issued is new. */
    ghost predicate CounterAhead()
      reads this
    {
      IssuedUpTo(vertices, edges, nodeIdentity, tokenCounter)
    }

    constructor (nodeIdentity: NodeId, tokenCounter: int)
      ensures this.nodeIdentity == nodeIdentity && this.tokenCounter == tokenCounter
      ensures vertices == map[] && edges == map[]
      ensures Valid() && CounterAhead()
    {
      this.nodeIdentity := nodeIdentity;
      this.tokenCounter := tokenCounter;
      vertices := map[];
      edges := map[];
    }

    /** `has_vertex?`: registered and not removed. */
    function HasVertex(v: Token): (b: bool)
      reads this
      ensures b ==> v in vertices
      ensures CounterAhead() && v.node == nodeIdentity && v.counter > tokenCounter ==> !b
    {
      v in vertices && !vertices[v].removed
    }

    /** `has_edge?`: the edge's ledger exists and still has an observed token. */
    function HasEdge(from: Token, to: Token): (b: bool)
      reads this
      ensures Valid() && b ==> from in vertices && to in vertices
    {
      var k := EdgeToken(from, to);
      k in edges && Live(edges[k])
    }

    /** `outgoing_edges`: one `[from, to]` pair per entry of the outgoing list. */
    function OutgoingEdges(from: Token): (r: seq<EdgeKey>)
      requires from in vertices
      reads this
      ensures |r| == |vertices[from].outgoing|
      ensures forall i :: 0 <= i < |r| ==> r[i] == EdgeKey(from, vertices[from].outgoing[i])
      ensures forall k :: k in r <==> k.from == from && k.to in vertices[from].outgoing
    {
      EdgesFrom(from, vertices[from].outgoing)
    }

    /** `incoming_edges`: one `[from, to]` pair per entry of the incoming list. */
    function IncomingEdges(to: Token): (r: seq<EdgeKey>)
      requires to in vertices
      reads this
      ensures |r| == |vertices[to].incoming|
      ensures forall i :: 0 <= i < |r| ==> r[i] == EdgeKey(vertices[to].incoming[i], to)
      ensures forall k :: k in r <==> k.to == to && k.from in vertices[to].incoming
    {
      EdgesTo(vertices[to].incoming, to)
    }

    /** Bumps the counter first, then names the token after it. */
    method IssueToken() returns (t: Token)
      modifies this
      ensures tokenCounter == old(tokenCounter) + 1
      ensures t == Token(nodeIdentity, tokenCounter)
      ensures vertices == old(vertices) && edges == old(edges)
      ensures old(CounterAhead()) ==> CounterAhead()
      ensures old(CounterAhead()) ==> t !in vertices && forall k :: k in edges ==> t !in edges[k].observed && t !in edges[k].removed
    {
      tokenCounter := tokenCounter + 1;
      t := Token(nodeIdentity, tokenCounter);
    }

    /** Registers a vertex under a new token, with empty adjacency and not removed. */
    method CreateVertex() returns (t: Token)
      modifies this
      ensures tokenCounter == old(tokenCounter) + 1 && t == Token(nodeIdentity, tokenCounter)
      ensures vertices == old(vertices)[t := BARE] && edges == old(edges)
      ensures HasVertex(t)
      ensures old(Valid()) ==> Valid()
      ensures old(CounterAhead()) ==> CounterAhead() && t !in old(vertices)
    {
      t := IssueToken();
      vertices := vertices[t := BARE];
    }

    /**
     * Appends `to` to `from`'s outgoing list and `from` to `to`'s incoming list (duplicates
     * kept), then observes the edge under a new token. Both endpoints must exist: the source
     * indexes them unconditionally.
     */
    method AddEdge(from: Token, to: Token) returns (k: EdgeKey)
      requires from in vertices && to in vertices
      modifies this
      ensures k == EdgeKey(from, to)
      ensures tokenCounter == old(tokenCounter) + 1
      ensures vertices == AppendIncoming(AppendOutgoing(old(vertices), from, to), to, from)
      ensures edges == old(edges)[k := Observe(LedgerOf(old(edges), k), Token(nodeIdentity, tokenCounter))]
      ensures HasEdge(from, to)
      ensures old(Valid()) ==> Valid()
      ensures old(CounterAhead()) ==> CounterAhead()
    {
      if Valid() {
        AddEdgeKeepsWellFormed(vertices, edges.Keys, from, to);
      }
      if CounterAhead() {
        ObserveNextKeepsIssuedBelow(edges, EdgeToken(from, to), nodeIdentity, tokenCounter);
      }
      vertices := AppendOutgoing(vertices, from, to);
      vertices := AppendIncoming(vertices, to, from);
      k := EdgeToken(from, to);
      var t := IssueToken();
      edges := edges[k := Observe(LedgerOf(edges, k), t)];
    }

    /**
     * Retires the edge's observed tokens and strips `to` from `from`'s outgoing list. As in
     * the source, the second strip is applied to `to`'s OUTGOING list (dropping `from` there),
     * so `to`'s incoming list keeps its `from` entries. The ledger and both endpoints must
     * exist: the source indexes all three unconditionally.
     */
    method RemoveEdge(from: Token, to: Token)
      requires EdgeKey(from, to) in edges && from in vertices && to in vertices
      modifies this
      ensures edges == old(edges)[EdgeKey(from, to) := Retire(old(edges)[EdgeKey(from, to)])]
      ensures vertices == StripOutgoing(StripOutgoing(old(vertices), from, to), to, from)
      ensures tokenCounter == old(tokenCounter)
      ensures !HasEdge(from, to)
      ensures old(Valid()) ==> Valid()
      ensures old(CounterAhead()) ==> CounterAhead()
    {
      RemoveEdgeEffect(vertices, edges, from, to);
      if CounterAhead() {
        RemoveEdgeKeepsIssuedUpTo(vertices, edges, from, to, nodeIdentity, tokenCounter);
      }
      var k := EdgeToken(from, to);
      edges := edges[k := Retire(edges[k])];
      vertices := StripOutgoing(vertices, from, to);
      vertices := StripOutgoing(vertices, to, from);
    }

    /** Calls `RemoveEdge` on each listed edge in turn. */
    method RemoveEdges(cascade: seq<EdgeKey>)
      requires forall k :: k in cascade ==> k in edges && k.from in vertices && k.to in vertices
      modifies this
      ensures vertices == DetachEdges(old(vertices), cascade)
      ensures edges == RetireEdges(old(edges), cascade)
      ensures tokenCounter == old(tokenCounter)
    {
      var i := 0;
      while i < |cascade|
        invariant 0 <= i <= |cascade|
        invariant vertices == DetachEdges(old(vertices), cascade[..i])
        invariant edges == RetireEdges(old(edges), cascade[..i])
        invariant tokenCounter == old(tokenCounter)
      {
        var k := cascade[i];
        RetireEdgesEffect(old(edges), cascade[..i]);
        DetachEdgesShrinks(old(vertices), {}, cascade[..i]);
        RemoveEdge(k.from, k.to);
        assert cascade[..i + 1][..i] == cascade[..i];
        i := i + 1;
      }
      assert cascade[..i] == cascade;
    }

    /**
     * Marks `v` removed, then calls `RemoveEdge` on every edge listed in its incoming or
     * outgoing list at call time (duplicates and all).
     */
    method RemoveVertex(v: Token)
      requires v in vertices
      requires forall k :: k in VertexCascade(v, vertices[v]) ==> k in edges && k.from in vertices && k.to in vertices
      modifies this
      ensures vertices == DetachEdges(MarkRemoved(old(vertices), v), VertexCascade(v, old(vertices)[v]))
      ensures edges == RetireEdges(old(edges), VertexCascade(v, old(vertices)[v]))
      ensures tokenCounter == old(tokenCounter)
      ensures !HasVertex(v)
      ensures forall k :: k in VertexCascade(v, old(vertices)[v]) ==> !HasEdge(k.from, k.to)
      ensures old(Valid()) ==> Valid()
      ensures old(CounterAhead()) ==> CounterAhead()
    {
      vertices := MarkRemoved(vertices, v);
      var cascade := IncomingEdges(v) + OutgoingEdges(v);
      assert cascade == VertexCascade(v, old(vertices)[v]);
      RemoveEdges(cascade);
      RemoveVertexHides(old(vertices), old(edges), v);
      if old(Valid()) {
        RemoveVertexEffect(old(vertices), old(edges), v);
      }
      if old(CounterAhead()) {
        RemoveVertexKeepsIssuedUpTo(old(vertices), old(edges), v, nodeIdentity, tokenCounter);
      }
    }

    /** Brings in the other replica's vertices, then its edges, pruning the adjacency entries
        of edges the merge leaves without an observed token. Only those edges need their
        endpoints on one side or the other: the source indexes the vertex map for them alone. */
    method Merge(other: ORGraph)
      requires forall k :: k in other.edges && !Live(MergeLedger(LedgerOf(edges, k), other.edges[k])) ==>
        (k.from in vertices || k.from in other.vertices) && (k.to in vertices || k.to in other.vertices)
      modifies this
      ensures vertices == MergeVertices(old(vertices), old(edges), old(other.vertices), old(other.edges))
      ensures edges == MergeLedgers(old(edges), old(other.edges))
      ensures tokenCounter == old(tokenCounter)
      ensures old(Valid()) && old(other.Valid()) ==> Valid()
    {
      var ov, oe := other.vertices, other.edges;
      var joined := JoinVerticesInto(vertices, ov);
      vertices := joined;
      var es, ws := MergeEdgesInto(vertices, edges, oe);
      edges, vertices := es, ws;
      if old(Valid()) && old(other.Valid()) {
        MergePreservesWellFormed(old(vertices), old(edges), ov, oe);
      }
    }
  }

  /**
   * Counterexample: merging a graph into itself is not idempotent. After `add_edge(a, b)` and
   * `remove_edge(a, b)`, `a` is still in `b`'s incoming list (the removal strips outgoing
   * lists only); merging the graph into itself finds the edge dead and prunes that entry.
   */
  method SelfMergePrunesStaleEntry() returns (g: ORGraph, a: Token, b: Token, before: Vertices, beforeEdges: Edges)
    ensures g.vertices == MergeVertices(before, beforeEdges, before, beforeEdges)
    ensures b in before && a in before[b].incoming
    ensures b in g.vertices && a !in g.vertices[b].incoming
    ensures g.vertices != before
  {
    g := new ORGraph("n", 0);
    a := g.CreateVertex();
    b := g.CreateVertex();
    var k := g.AddEdge(a, b);
    g.RemoveEdge(a, b);
    before, beforeEdges := g.vertices, g.edges;
    assert a in before[b].incoming;
    g.Merge(g);
    MergeLedgersKeys(beforeEdges, beforeEdges);
    MergePrunesDeadEdges(before, beforeEdges, before, beforeEdges, k);
  }

  /**
   * Counterexample: a second way self-merge changes the graph. Two `add_edge(a, b)` calls
   * leave `b` twice in `a`'s outgoing list; the merge's `|` collapses the duplicate.
   */
  method SelfMergeCollapsesDuplicates() returns (g: ORGraph, a: Token, b: Token, before: Vertices, beforeEdges: Edges)
    ensures g.vertices == MergeVertices(before, beforeEdges, before, beforeEdges)
    ensures a in before && !NoDuplicates(before[a].outgoing)
    ensures a in g.vertices && NoDuplicates(g.vertices[a].outgoing)
    ensures g.vertices != before
  {
    g := new ORGraph("n", 0);
    a := g.CreateVertex();
    b := g.CreateVertex();
    var k := g.AddEdge(a, b);
    k := g.AddEdge(a, b);
    before, beforeEdges := g.vertices, g.edges;
    assert before[a].outgoing == [b, b];
    assert before[a].outgoing[0] == before[a].outgoing[1];
    g.Merge(g);
    MergedVertexShape(before, beforeEdges, before, beforeEdges, a);
  }

  /**
   * The removal defect seen from `remove_vertex`: removing `a -> b` strips `a` from `b`'s
   * outgoing list, which belongs to the reverse edge `b -> a`. A later `remove_vertex(b)`
   * therefore never visits `b -> a`, and the removed vertex keeps a present edge.
   */
  method RemoveVertexSkipsReverseEdge() returns (g: ORGraph, a: Token, b: Token)
    ensures !g.HasVertex(b) && g.HasEdge(b, a)
  {
    g := new ORGraph("n", 0);
    a := g.CreateVertex();
    b := g.CreateVertex();
    var k := g.AddEdge(a, b);
    var r := g.AddEdge(b, a);
    g.RemoveEdge(a, b);
    assert g.vertices[b].outgoing == [];
    ghost var cascade := VertexCascade(b, g.vertices[b]);
    ghost var es := g.edges;
    assert r !in cascade;
    g.RemoveVertex(b);
    RetireEdgesEffect(es, cascade);
  }
}
