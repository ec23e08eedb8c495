/**
 * VectorClock: one increment-by-one counter per node, merged by taking the per-node maximum.
 */
module VectorClocks {
  import opened CrdtBase
  import opened PointwiseMax

  /** Serialized form: the `clocks` hash. */
  datatype ClockHash = ClockHash(clocks: Counts)

  class VectorClock {
    const defaultNode: NodeId
    var clocks: Counts

    constructor (defaultNode: NodeId)
      ensures this.defaultNode == defaultNode && clocks == map[]
    {
      this.defaultNode := defaultNode;
      clocks := map[];
    }

    /** Bumps `node`'s entry by one; a node with no entry starts from 0 and ends at 1. */
    method IncrementClock(node: NodeId) returns (v: int)
      modifies this
      ensures clocks == old(clocks)[node := ValueOr0(old(clocks), node) + 1]
      ensures v == clocks[node]
    {
      if node !in clocks {
        clocks := clocks[node := 0];
      }
      clocks := clocks[node := clocks[node] + 1];
      v := clocks[node];
    }

    /** The entry for `node`, or `None` (Ruby's `nil`) when there is none. */
    function Value(node: NodeId): (r: Option<int>)
      reads this
      ensures r.Some? <==> node in clocks
      ensures r.Some? ==> r.value == clocks[node]
    {
      if node in clocks then Some(clocks[node]) else None
    }

    /** One-way merge: every node of either clock gets the larger of the two entries. */
    method Merge(other: VectorClock)
      modifies this
      ensures clocks == Join(old(clocks), old(other.clocks))
      ensures Dominates(clocks, old(clocks)) && Dominates(clocks, old(other.clocks))
      ensures forall n :: n in old(clocks) && n !in old(other.clocks) ==> clocks[n] == old(clocks)[n]
    {
      var incoming := other.clocks;
      ghost var start := clocks;
      clocks := MergeInto(clocks, incoming);
      JoinUpperBound(start, incoming);
    }

    function ToHash(): (h: ClockHash)
      reads this
    {
      ClockHash(clocks)
    }

    /** `from_h`: a new clock (its default node supplied by the caller) that copies every entry. */
    static method FromHash(h: ClockHash, defaultNode: NodeId) returns (c: VectorClock)
      ensures fresh(c)
      ensures c.clocks == h.clocks && c.defaultNode == defaultNode
      ensures c.ToHash() == h
    {
      c := new VectorClock(defaultNode);
      var pending := h.clocks.Keys;
      while pending != {}
        invariant pending <= h.clocks.Keys
        invariant c.clocks == Restrict(h.clocks, h.clocks.Keys - pending)
        invariant c.defaultNode == defaultNode
        decreases pending
      {
        var node :| node in pending;
        c.clocks := c.clocks[node := h.clocks[node]];
        assert c.clocks == Restrict(h.clocks, h.clocks.Keys - (pending - {node}));
        pending := pending - {node};
      }
      RestrictBounds(h.clocks);
    }
  }
}
