/**
 * PNCounter: a counter that goes up and down, kept as two grow-only per-node tallies
 * (`positive`, `negative`), a `base` that garbage collection folds departed nodes into,
 * and a cached total that `value` reports.
 */
module PNCounters {
  import opened CrdtBase
  import opened PointwiseMax

  /** The sum of all amounts in a tally. */
  ghost function Sum(m: Counts): (r: int)
    decreases |m|
  {
    if m == map[] then 0
    else
      var k :| k in m;
      m[k] + Sum(m - {k})
  }

  /** Any key can be split off the sum, whichever key `Sum` happens to pick first. */
  lemma {:induction false} SumRemove(m: Counts, x: NodeId)
    requires x in m
    ensures Sum(m) == m[x] + Sum(m - {x})
    decreases |m|
  {
    var k :| k in m && Sum(m) == m[k] + Sum(m - {k});
    if k != x {
      SumRemove(m - {k}, x);
      SumRemove(m - {x}, k);
      assert m - {k} - {x} == m - {x} - {k};
    }
  }

  /** Overwriting one entry changes the sum by the difference. */
  lemma SumUpdate(m: Counts, k: NodeId, v: int)
    ensures Sum(m[k := v]) == Sum(m) - ValueOr0(m, k) + v
  {
    SumRemove(m[k := v], k);
    assert m[k := v] - {k} == m - {k};
    if k in m {
      SumRemove(m, k);
    } else {
      assert m - {k} == m;
    }
  }

  /** Serialized form written by `to_h` and read back by `from_h`. */
  datatype CounterHash = CounterHash(
    nodeIdentity: NodeId, baseValue: int, cachedValue: int, positive: Counts, negative: Counts)

  class PNCounter {
    const nodeIdentity: NodeId
    var base: int
    var cached: int
    var positive: Counts
    var negative: Counts

    /** The value the counter stands for. */
    ghost function Total(): (r: int)
      reads this
    {
      base + Sum(positive) - Sum(negative)
    }

    /** The cached value agrees with the tallies. */
    ghost predicate Consistent()
      reads this
    {
      cached == Total()
    }

    constructor (nodeIdentity: NodeId, base: int)
      ensures this.nodeIdentity == nodeIdentity && this.base == base
      ensures positive == map[] && negative == map[] && cached == base
      ensures Consistent()
    {
      this.nodeIdentity := nodeIdentity;
      this.base := base;
      cached := base;
      positive := map[];
      negative := map[];
    }

    /** Adds `amount` to the tally of `source`; the amount's sign is not checked. */
    method Increase(amount: int, source: NodeId)
      modifies this
      ensures positive == old(positive)[source := ValueOr0(old(positive), source) + amount]
      ensures negative == old(negative) && base == old(base)
      ensures cached == old(cached) + amount
      ensures Total() == old(Total()) + amount
      ensures Consistent() == old(Consistent())
    {
      SumUpdate(positive, source, ValueOr0(positive, source) + amount);
      positive := positive[source := ValueOr0(positive, source) + amount];
      cached := cached + amount;
    }

    /** Adds `amount` to the negative tally of `source`; the amount's sign is not checked. */
    method Decrease(amount: int, source: NodeId)
      modifies this
      ensures negative == old(negative)[source := ValueOr0(old(negative), source) + amount]
      ensures positive == old(positive) && base == old(base)
      ensures cached == old(cached) - amount
      ensures Total() == old(Total()) - amount
      ensures Consistent() == old(Consistent())
    {
      SumUpdate(negative, source, ValueOr0(negative, source) + amount);
      negative := negative[source := ValueOr0(negative, source) + amount];
      cached := cached - amount;
    }

    /** `counter + x`: a positive `x` goes to this node's positive tally, anything else
        (zero included) to its negative tally as `-x`. */
    method Add(x: int)
      modifies this
      ensures x > 0 ==> (positive == old(positive)[nodeIdentity := ValueOr0(old(positive), nodeIdentity) + x]
                         && negative == old(negative))
      ensures x <= 0 ==> (negative == old(negative)[nodeIdentity := ValueOr0(old(negative), nodeIdentity) - x]
                          && positive == old(positive))
      ensures base == old(base)
      ensures cached == old(cached) + x && Total() == old(Total()) + x
      ensures Consistent() == old(Consistent())
    {
      if x > 0 {
        Increase(x, nodeIdentity);
      } else {
        Decrease(-x, nodeIdentity);
      }
    }

    /** `counter - x`: a positive `x` goes to this node's negative tally, anything else
        (zero included) to its positive tally as `-x`. */
    method Subtract(x: int)
      modifies this
      ensures x > 0 ==> (negative == old(negative)[nodeIdentity := ValueOr0(old(negative), nodeIdentity) + x]
                         && positive == old(positive))
      ensures x <= 0 ==> (positive == old(positive)[nodeIdentity := ValueOr0(old(positive), nodeIdentity) - x]
                          && negative == old(negative))
      ensures base == old(base)
      ensures cached == old(cached) - x && Total() == old(Total()) - x
      ensures Consistent() == old(Consistent())
    {
      if x > 0 {
        Decrease(x, nodeIdentity);
      } else {
        Increase(-x, nodeIdentity);
      }
    }

    /** The reported value is the cached one; it is the true total only while `Consistent()`. */
    function Value(): (v: int)
      reads this
      ensures Consistent() ==> v == base + Sum(positive) - Sum(negative)
    {
      cached
    }

    /**
     * One-way merge: each tally becomes the per-node maximum of both sides. The cached value
     * is left as it was, as in the source, so `Value()` can be stale afterwards
     * (see `MergeLeavesValueStale`).
     */
    method Merge(other: PNCounter)
      modifies this
      ensures positive == Join(old(positive), old(other.positive))
      ensures negative == Join(old(negative), old(other.negative))
      ensures Dominates(positive, old(positive)) && Dominates(negative, old(negative))
      ensures base == old(base) && cached == old(cached)
      ensures old(Consistent()) ==>
        (Consistent() <==> Sum(positive) - Sum(negative) == old(Sum(positive) - Sum(negative)))
    {
      var incoming, outgoing := other.positive, other.negative;
      ghost var startPositive, startNegative := positive, negative;
      positive := MergeInto(positive, incoming);
      negative := MergeInto(negative, outgoing);
      JoinUpperBound(startPositive, incoming);
      JoinUpperBound(startNegative, outgoing);
    }

    /**
     * Folds the departed node's tallies into `base` and forgets them. The source reads both
     * entries unconditionally, so both must exist. The cached value is not touched; the
     * total it should equal is preserved.
     */
    method Gc(node: NodeId)
      requires node in positive && node in negative
      modifies this
      ensures base == old(base) + old(positive)[node] - old(negative)[node]
      ensures positive == old(positive) - {node} && negative == old(negative) - {node}
      ensures cached == old(cached)
      ensures Total() == old(Total())
      ensures Consistent() == old(Consistent())
    {
      SumRemove(positive, node);
      SumRemove(negative, node);
      base := base + positive[node];
      base := base - negative[node];
      positive := positive - {node};
      negative := negative - {node};
    }

    function ToHash(): (h: CounterHash)
      reads this
    {
      CounterHash(nodeIdentity, base, cached, positive, negative)
    }

    /**
     * `from_h`: a fresh counter on the hash's base, replaying every positive entry through
     * `Increase` and every negative one through `Decrease`. The hash's cached value is
     * ignored; the rebuilt counter is always consistent.
     */
    static method FromHash(h: CounterHash) returns (c: PNCounter)
      ensures fresh(c)
      ensures c.nodeIdentity == h.nodeIdentity && c.base == h.baseValue
      ensures c.positive == h.positive && c.negative == h.negative
      ensures c.Consistent()
    {
      c := new PNCounter(h.nodeIdentity, h.baseValue);
      RestrictBounds(h.positive);
      RestrictBounds(h.negative);

      var pending := h.positive.Keys;
      while pending != {}
        invariant pending <= h.positive.Keys
        invariant c.positive == Restrict(h.positive, h.positive.Keys - pending)
        invariant c.negative == map[] && c.base == h.baseValue && c.nodeIdentity == h.nodeIdentity
        invariant c.Consistent()
        decreases pending
      {
        var source :| source in pending;
        c.Increase(h.positive[source], source);
        assert c.positive == Restrict(h.positive, h.positive.Keys - (pending - {source}));
        pending := pending - {source};
      }

      pending := h.negative.Keys;
      while pending != {}
        invariant pending <= h.negative.Keys
        invariant c.negative == Restrict(h.negative, h.negative.Keys - pending)
        invariant c.positive == h.positive && c.base == h.baseValue && c.nodeIdentity == h.nodeIdentity
        invariant c.Consistent()
        decreases pending
      {
        var source :| source in pending;
        c.Decrease(h.negative[source], source);
        assert c.negative == Restrict(h.negative, h.negative.Keys - (pending - {source}));
        pending := pending - {source};
      }
    }
  }

  /** Reloading a consistent counter's hash reproduces every field, the cached value included. */
  lemma ReloadOfConsistentIsExact(h: CounterHash, c: PNCounter)
    requires c.nodeIdentity == h.nodeIdentity && c.base == h.baseValue
    requires c.positive == h.positive && c.negative == h.negative && c.Consistent()
    requires h.cachedValue == h.baseValue + Sum(h.positive) - Sum(h.negative)
    ensures c.ToHash() == h
  {
  }

  /**
   * The source's merge does not refresh the cached value. Replica A does `increase(5)` and
   * reports 5, replica B does `decrease(2)` and reports -2; after A merges B its tallies
   * stand for 3, but A still reports 5.
   */
  method MergeLeavesValueStale() returns (a: PNCounter)
    ensures a.Value() == 5 && a.Total() == 3 && !a.Consistent()
  {
    a := new PNCounter("a", 0);
    var b := new PNCounter("b", 0);
    a.Increase(5, "a");
    b.Decrease(2, "b");
    assert a.positive == map["a" := 5] && a.negative == map[];
    assert b.positive == map[] && b.negative == map["b" := 2];
    a.Merge(b);
    assert a.positive == map["a" := 5] by {
      assert a.positive.Keys == {"a"};
    }
    assert a.negative == map["b" := 2] by {
      assert a.negative.Keys == {"b"};
    }
    SumRemove(a.positive, "a");
    SumRemove(a.negative, "b");
    assert a.positive - {"a"} == map[] && a.negative - {"b"} == map[];
  }
}
