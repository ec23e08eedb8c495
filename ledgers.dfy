/**
 * The observed/removed token ledger that ORSet keeps per item and ORGraph keeps per edge,
 * and the union-then-subtract merge both use.
 */
module Ledgers {
  import opened CrdtBase

  datatype Ledger = Ledger(observed: set<Token>, removed: set<Token>)

  /** The record `||=` creates for a key seen for the first time. */
  const EMPTY: Ledger := Ledger({}, {})

  function LedgerOf<K>(m: map<K, Ledger>, k: K): (r: Ledger) {
    if k in m then m[k] else EMPTY
  }

  /** The item (or edge) is present: some token is still observed. */
  predicate Live(l: Ledger) {
    l.observed != {}
  }

  /** No token is both observed and removed. */
  predicate Separated(l: Ledger) {
    l.observed !! l.removed
  }

  ghost predicate AllSeparated<K>(m: map<K, Ledger>) {
    forall k :: k in m ==> Separated(m[k])
  }

  /** Every token of `node` in the ledger has a counter below `bound`. */
  ghost predicate IssuedBelow(l: Ledger, node: NodeId, bound: int) {
    forall t :: (t in l.observed || t in l.removed) && t.node == node ==> t.counter < bound
  }

  /** Records one more observed token. */
  function Observe(l: Ledger, t: Token): (r: Ledger)
    ensures Live(r) && t in r.observed && r.removed == l.removed
  {
    Ledger(l.observed + {t}, l.removed)
  }

  /** Moves every observed token to the removed side. */
  function Retire(l: Ledger): (r: Ledger)
    ensures !Live(r)
    ensures r.removed == l.removed + l.observed
  {
    Ledger({}, l.removed + l.observed)
  }

  /** Union both ledgers, then take the removed tokens out of the observed ones. */
  function MergeLedger(local: Ledger, other: Ledger): (r: Ledger) {
    var removed := local.removed + other.removed;
    Ledger((local.observed + other.observed) - removed, removed)
  }

  /** The source's per-key merge: keys of `other` are merged into (a fresh record for) the
      local one; keys only in `local` are untouched. */
  function MergeLedgers<K>(local: map<K, Ledger>, other: map<K, Ledger>): (r: map<K, Ledger>) {
    map k | k in local.Keys + other.Keys ::
      if k in other then MergeLedger(LedgerOf(local, k), other[k]) else local[k]
  }

  /** After a merge no token is both observed and removed, every removed token of either side
      stays removed, and no observed token is invented. */
  lemma MergeLedgerSeparates(local: Ledger, other: Ledger)
    ensures Separated(MergeLedger(local, other))
    ensures forall t :: t in local.removed || t in other.removed ==>
      t in MergeLedger(local, other).removed && t !in MergeLedger(local, other).observed
    ensures MergeLedger(local, other).observed <= local.observed + other.observed
  {
  }

  /** Add wins: the merged record is live exactly when some token observed on either side is
      removed on neither. */
  lemma AddWins(local: Ledger, other: Ledger)
    ensures Live(MergeLedger(local, other)) <==>
      exists t :: (t in local.observed || t in other.observed) && t !in local.removed && t !in other.removed
  {
    var m := MergeLedger(local, other);
    if Live(m) {
      var t :| t in m.observed;
      assert (t in local.observed || t in other.observed) && t !in local.removed && t !in other.removed;
    }
    if exists t :: (t in local.observed || t in other.observed) && t !in local.removed && t !in other.removed {
      var t :| (t in local.observed || t in other.observed) && t !in local.removed && t !in other.removed;
      assert t in m.observed;
    }
  }

  lemma MergeLedgerIdempotent(l: Ledger)
    requires Separated(l)
    ensures MergeLedger(l, l) == l
  {
  }

  lemma MergeLedgerCommutes(a: Ledger, b: Ledger)
    ensures MergeLedger(a, b) == MergeLedger(b, a)
  {
  }

  lemma MergeLedgerAssociates(a: Ledger, b: Ledger, c: Ledger)
    ensures MergeLedger(MergeLedger(a, b), c) == MergeLedger(a, MergeLedger(b, c))
  {
  }

  /** A merge never breaks separation, and makes every merged key separated. */
  lemma MergeLedgersSeparated<K>(local: map<K, Ledger>, other: map<K, Ledger>)
    requires AllSeparated(local)
    ensures AllSeparated(MergeLedgers(local, other))
  {
  }

  /** Given separated ledgers, merging a copy of oneself changes nothing. */
  lemma MergeLedgersIdempotent<K>(m: map<K, Ledger>)
    requires AllSeparated(m)
    ensures MergeLedgers(m, m) == m
  {
    var mm := MergeLedgers(m, m);
    assert mm.Keys == m.Keys;
    forall k | k in mm ensures mm[k] == m[k] {
      MergeLedgerIdempotent(m[k]);
    }
  }

  /** Between separated states the merge is commutative: keys on one side only would be
      returned unmerged from that side and merged with a fresh record from the other, and
      those agree exactly when the record is separated. */
  lemma MergeLedgersCommute<K>(a: map<K, Ledger>, b: map<K, Ledger>)
    requires AllSeparated(a) && AllSeparated(b)
    ensures MergeLedgers(a, b) == MergeLedgers(b, a)
  {
    var ab, ba := MergeLedgers(a, b), MergeLedgers(b, a);
    assert ab.Keys == ba.Keys;
    forall k | k in ab ensures ab[k] == ba[k] {
      MergeLedgerCommutes(LedgerOf(a, k), LedgerOf(b, k));
    }
  }

  /** Without separation a keyed merge is not commutative: the record only in `a` comes back
      unmerged one way and cleaned the other way. */
  lemma MergeLedgersNeedSeparation()
    ensures var t := Token("n", 0);
            var a := map[1 := Ledger({t}, {t})];
            MergeLedgers(a, map[]) != MergeLedgers(map[], a)
  {
    var t := Token("n", 0);
    var a := map[1 := Ledger({t}, {t})];
    assert MergeLedgers(a, map[])[1] == a[1];
    assert MergeLedgers(map[], a)[1] == Ledger({}, {t});
  }

  /** Merging an already merged record into a fresh one changes nothing. */
  lemma MergeIntoEmptyIsNoop(a: Ledger, b: Ledger)
    ensures MergeLedger(EMPTY, MergeLedger(a, b)) == MergeLedger(a, b)
  {
  }

  /** Pointwise form of associativity, one key at a time. */
  lemma MergeLedgersAssociateAt<K>(a: map<K, Ledger>, b: map<K, Ledger>, c: map<K, Ledger>, k: K)
    requires k in a || k in b || k in c
    ensures MergeLedgers(MergeLedgers(a, b), c)[k] == MergeLedgers(a, MergeLedgers(b, c))[k]
  {
    var la, lb, lc := LedgerOf(a, k), LedgerOf(b, k), LedgerOf(c, k);
    if k in c {
      if k in b {
        MergeLedgerAssociates(la, lb, lc);
      } else if k in a {
        MergeLedgerAssociates(la, EMPTY, lc);
      } else {
        MergeLedgerAssociates(EMPTY, EMPTY, lc);
      }
    } else if k in b {
      MergeIntoEmptyIsNoop(EMPTY, lb);
    }
  }

  lemma MergeLedgersKeys<K>(a: map<K, Ledger>, b: map<K, Ledger>)
    ensures MergeLedgers(a, b).Keys == a.Keys + b.Keys
  {
  }

  lemma MergeLedgersAssociate<K>(a: map<K, Ledger>, b: map<K, Ledger>, c: map<K, Ledger>)
    ensures MergeLedgers(MergeLedgers(a, b), c) == MergeLedgers(a, MergeLedgers(b, c))
  {
    var ab, bc := MergeLedgers(a, b), MergeLedgers(b, c);
    MergeLedgersKeys(a, b);
    MergeLedgersKeys(b, c);
    MergeLedgersKeys(ab, c);
    MergeLedgersKeys(a, bc);
    var lhs, rhs := MergeLedgers(ab, c), MergeLedgers(a, bc);
    forall k | k in lhs ensures lhs[k] == rhs[k] {
      MergeLedgersAssociateAt(a, b, c, k);
    }
  }
}
