/**
 * ORSet: an add-wins set. Each item keeps a ledger of the tokens that added it (`observed`)
 * and of the tokens whose adds were removed (`removed`).
 */
module ORSets {
  import opened CrdtBase
  import opened Ledgers

  /** Serialized form written by `to_h`. */
  datatype SetHash<Item> = SetHash(nodeIdentity: NodeId, tokenCounter: int, items: map<Item, Ledger>)

  class ORSet<Item(==)> {
    const nodeIdentity: NodeId
    var tokenCounter: int
    var items: map<Item, Ledger>

    /** Every token this replica has issued so far is below its counter, so the next one is new. */
    ghost predicate CounterAhead()
      reads this
    {
      forall i :: i in items ==> IssuedBelow(items[i], nodeIdentity, tokenCounter)
    }

    constructor (nodeIdentity: NodeId, tokenCounter: int)
      ensures this.nodeIdentity == nodeIdentity && this.tokenCounter == tokenCounter
      ensures items == map[]
      ensures CounterAhead()
    {
      this.nodeIdentity := nodeIdentity;
      this.tokenCounter := tokenCounter;
      items := map[];
    }

    /** `has?`: the item has a record whose observed ledger is not empty. */
    predicate Has(item: Item)
      reads this
    {
      item in items && Live(items[item])
    }

    /** `each`: the items that are present, and only those. */
    function Elements(): (r: set<Item>)
      reads this
      ensures r <= items.Keys
      ensures forall i | i in items :: i in r <==> Has(i)
    {
      set i | i in items && Live(items[i])
    }

    /**
     * Observes `item` under the token (this node, current counter), then bumps the counter.
     * While `CounterAhead()` holds the token has never been issued before.
     */
    method Add(item: Item)
      modifies this
      ensures tokenCounter == old(tokenCounter) + 1
      ensures items == old(items)[item := Observe(LedgerOf(old(items), item), Token(nodeIdentity, old(tokenCounter)))]
      ensures Has(item)
      ensures forall i :: i in old(items) && i != item ==> items[i] == old(items)[i]
      ensures old(CounterAhead()) ==> CounterAhead()
      ensures old(CounterAhead()) ==> forall i :: i in old(items) ==>
        Token(nodeIdentity, old(tokenCounter)) !in old(items)[i].observed &&
        Token(nodeIdentity, old(tokenCounter)) !in old(items)[i].removed
    {
      var token := Token(nodeIdentity, tokenCounter);
      tokenCounter := tokenCounter + 1;
      if item !in items {
        items := items[item := EMPTY];
      }
      items := items[item := Observe(items[item], token)];
    }

    /** Moves every observed token of `item` to its removed ledger. The source looks the record
        up unconditionally, so it must exist. */
    method Remove(item: Item)
      requires item in items
      modifies this
      ensures items == old(items)[item := Retire(old(items)[item])]
      ensures !Has(item)
      ensures items.Keys == old(items).Keys
      ensures forall i :: i in old(items) && i != item ==> items[i] == old(items)[i]
      ensures tokenCounter == old(tokenCounter)
      ensures old(CounterAhead()) ==> CounterAhead()
    {
      items := items[item := Retire(items[item])];
    }

    /**
     * One-way merge: for every item of `other`, both ledgers are unioned into the local record
     * (created empty if missing) and the removed tokens are then taken out of the observed
     * ones. Items absent from `other` are untouched.
     */
    method Merge(other: ORSet<Item>)
      modifies this
      ensures items == MergeLedgers(old(items), old(other.items))
      ensures tokenCounter == old(tokenCounter)
      ensures forall i :: i in old(other.items) ==> Separated(items[i])
      ensures forall i :: i in old(items) && i !in old(other.items) ==> items[i] == old(items)[i]
    {
      var incoming := other.items;
      ghost var start := items;
      var pending := incoming.Keys;
      ghost var done: set<Item> := {};
      while pending != {}
        invariant done == incoming.Keys - pending && pending <= incoming.Keys
        invariant items.Keys == start.Keys + done
        invariant forall i :: i in items ==>
          items[i] == if i in done then MergeLedger(LedgerOf(start, i), incoming[i]) else start[i]
        invariant tokenCounter == old(tokenCounter)
        decreases pending
      {
        var item :| item in pending;
        var record := incoming[item];
        if item !in items {
          items := items[item := EMPTY];
        }
        var observed := items[item].observed + record.observed;
        var removed := items[item].removed + record.removed;
        observed := observed - removed;
        items := items[item := Ledger(observed, removed)];
        pending := pending - {item};
        done := done + {item};
      }
      assert items == MergeLedgers(start, incoming);
      forall i | i in incoming ensures Separated(items[i]) {
        MergeLedgerSeparates(LedgerOf(start, i), incoming[i]);
      }
    }

    function ToHash(): (h: SetHash<Item>)
      reads this
    {
      SetHash(nodeIdentity, tokenCounter, items)
    }

    /** `from_h`: a set with the hash's identity and counter, each record copied into a fresh
        empty one. */
    static method FromHash(h: SetHash<Item>) returns (s: ORSet<Item>)
      ensures fresh(s)
      ensures s.ToHash() == h
    {
      s := new ORSet(h.nodeIdentity, h.tokenCounter);
      var pending := h.items.Keys;
      ghost var done: set<Item> := {};
      while pending != {}
        invariant done == h.items.Keys - pending && pending <= h.items.Keys
        invariant s.items.Keys == done
        invariant forall i :: i in s.items ==> s.items[i] == h.items[i]
        invariant s.nodeIdentity == h.nodeIdentity && s.tokenCounter == h.tokenCounter
        decreases pending
      {
        var item :| item in pending;
        var record := h.items[item];
        s.items := s.items[item := EMPTY];
        s.items := s.items[item := Ledger(s.items[item].observed + record.observed, s.items[item].removed + record.removed)];
        pending := pending - {item};
        done := done + {item};
      }
      assert s.items == h.items;
    }
  }

  /** `has?` and `each` agree: an item is reported present exactly when iteration yields it,
      and an item the set has no record for is absent. */
  lemma HasAgreesWithEach<Item>(s: ORSet<Item>, item: Item)
    ensures s.Has(item) <==> item in s.Elements()
    ensures item !in s.items ==> !s.Has(item)
  {
  }

  /** A present item stays present after merging a replica that never removed any of its
      tokens. */
  lemma MergeKeepsUnremovedItems<Item>(local: map<Item, Ledger>, other: map<Item, Ledger>, item: Item)
    requires item in local && Live(local[item]) && Separated(local[item])
    requires item in other ==> other[item].removed !! local[item].observed
    ensures item in MergeLedgers(local, other) && Live(MergeLedgers(local, other)[item])
  {
    if item in other {
      var t :| t in local[item].observed;
      assert t in MergeLedgers(local, other)[item].observed;
    }
  }

  /**
   * Reload, remove, merge back: after `add(x)` a second replica reloaded from the hash
   * removes `x` (retiring exactly the tokens it saw), and merging that replica back makes `x`
   * absent on the original.
   */
  lemma RemoteRemoveWins<Item>(items: map<Item, Ledger>, x: Item)
    requires x in items
    ensures var remote := items[x := Retire(items[x])];
            x in MergeLedgers(items, remote) && !Live(MergeLedgers(items, remote)[x])
  {
  }
}
