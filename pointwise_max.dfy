/**
 * The per-node maximum that PNCounter and VectorClock use to merge their counter maps,
 * with the join-semilattice laws it satisfies.
 */
module PointwiseMax {
  import opened CrdtBase

  /** Per-node counters, as kept in a Ruby hash from node identity to number. */
  type Counts = map<NodeId, int>

  function Max(a: int, b: int): (r: int) { if a < b then b else a }

  /** The entry `m` holds for `k`, or 0 when it has none (Ruby's `h[k] ||= 0`). */
  function ValueOr0(m: Counts, k: NodeId): (r: int) { if k in m then m[k] else 0 }

  /** The merged map: every key of either side, carrying the larger of the two amounts. */
  function Join(local: Counts, other: Counts): (r: Counts) {
    map k | k in local.Keys + other.Keys ::
      if k !in other then local[k]
      else if k !in local then other[k]
      else Max(local[k], other[k])
  }

  /** `a` holds every key of `b` with an amount at least as large. */
  ghost predicate Dominates(a: Counts, b: Counts) {
    forall k :: k in b ==> k in a && b[k] <= a[k]
  }

  /** One pass of the source's merge loop body, for the incoming entry `k => v`. */
  function Absorb(m: Counts, k: NodeId, v: int): (r: Counts)
    ensures r.Keys == m.Keys + {k}
    ensures r[k] == if k in m then Max(m[k], v) else v
    ensures forall j :: j in m && j != k ==> r[j] == m[j]
  {
    if k in m && !(m[k] < v) then m else m[k := v]
  }

  /** Absorbing one more incoming entry extends the partial join by that key. */
  lemma AbsorbExtendsJoin(local: Counts, other: Counts, done: set<NodeId>, k: NodeId)
    requires k in other && k !in done
    ensures Absorb(Join(local, Restrict(other, done)), k, other[k])
         == Join(local, Restrict(other, done + {k}))
  {
    var lhs := Absorb(Join(local, Restrict(other, done)), k, other[k]);
    var rhs := Join(local, Restrict(other, done + {k}));
    assert lhs.Keys == rhs.Keys;
    forall j | j in lhs ensures lhs[j] == rhs[j] {
      assert j != k ==> (j in Restrict(other, done) <==> j in Restrict(other, done + {k}));
    }
  }

  /**
   * The source's merge loop over one incoming hash: for each incoming entry, a missing key
   * is written, an existing key is overwritten only when the incoming amount is larger.
   */
  method MergeInto(local: Counts, incoming: Counts) returns (r: Counts)
    ensures r == Join(local, incoming)
  {
    JoinRestrictNone(local, incoming);
    r := local;
    var pending := incoming.Keys;
    ghost var done: set<NodeId> := {};
    while pending != {}
      invariant done == incoming.Keys - pending && pending <= incoming.Keys
      invariant r == Join(local, Restrict(incoming, done))
      decreases pending
    {
      var source :| source in pending;
      var amount := incoming[source];
      AbsorbExtendsJoin(local, incoming, done, source);
      var current := if source in r then Some(r[source]) else None;
      if current.Some? {
        if current.value < amount {
          r := r[source := amount];
        }
      } else {
        r := r[source := amount];
      }
      pending := pending - {source};
      done := done + {source};
    }
  }

  /** An empty restriction joins nothing in; the full restriction is the whole map. */
  lemma JoinRestrictNone(local: Counts, other: Counts)
    ensures Join(local, Restrict(other, {})) == local
    ensures Restrict(other, other.Keys) == other
  {
    RestrictBounds(other);
    assert Join(local, map[]) == local;
  }

  /** The merge result dominates both inputs: no entry ever decreases. */
  lemma JoinUpperBound(a: Counts, b: Counts)
    ensures Dominates(Join(a, b), a) && Dominates(Join(a, b), b)
  {
  }

  /** Any map dominating both inputs dominates their merge: the merge adds nothing else. */
  lemma JoinLeast(a: Counts, b: Counts, c: Counts)
    requires Dominates(c, a) && Dominates(c, b)
    ensures Dominates(c, Join(a, b))
  {
  }

  /** Every merged entry is the entry of one of the two sides. */
  lemma JoinPicksAnInput(a: Counts, b: Counts, k: NodeId)
    requires k in Join(a, b)
    ensures (k in a && Join(a, b)[k] == a[k]) || (k in b && Join(a, b)[k] == b[k])
  {
  }

  lemma JoinIdempotent(a: Counts)
    ensures Join(a, a) == a
  {
    assert Join(a, a).Keys == a.Keys;
  }

  lemma JoinCommutes(a: Counts, b: Counts)
    ensures Join(a, b) == Join(b, a)
  {
    assert Join(a, b).Keys == Join(b, a).Keys;
  }

  lemma JoinAssociates(a: Counts, b: Counts, c: Counts)
    ensures Join(Join(a, b), c) == Join(a, Join(b, c))
  {
    var lhs, rhs := Join(Join(a, b), c), Join(a, Join(b, c));
    assert lhs.Keys == rhs.Keys;
  }

  /** Merging a state the local one already dominates changes nothing. */
  lemma JoinAbsorbsDominated(a: Counts, b: Counts)
    requires Dominates(a, b)
    ensures Join(a, b) == a
  {
    assert Join(a, b).Keys == a.Keys;
  }
}
