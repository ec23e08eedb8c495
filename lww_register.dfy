/**
 * LWWRegister: one value stamped with (seconds, nanoseconds, tiebreaker). The stamp fields
 * start out unset (Ruby's `nil`) and are written together by `set` and by `merge`.
 */
module LWWRegisters {
  import opened CrdtBase

  /** The three stamp fields, each possibly unset. */
  datatype Stamp = Stamp(timestamp: Option<int>, nsec: Option<int>, tiebreaker: Option<int>)

  /** What the source's merge does with an incoming register. `Raise` is the case where Ruby
      compares an integer with `nil` and raises, before anything has been written. */
  datatype Decision = Keep | Adopt | Raise

  /** The register's observable state: its value and its stamp. */
  datatype Snapshot<T> = Snapshot(value: Option<T>, stamp: Stamp)

  /** Every field of the stamp is set. */
  predicate Complete(s: Stamp) {
    s.timestamp.Some? && s.nsec.Some? && s.tiebreaker.Some?
  }

  /** Ruby's `a >= b` on two possibly-nil integers: `None` when either is nil (it raises). */
  function AtLeast(a: Option<int>, b: Option<int>): (r: Option<bool>)
    ensures r.Some? <==> a.Some? && b.Some?
    ensures r.Some? ==> (r.value <==> a.value >= b.value)
  {
    if a.None? || b.None? then None else Some(a.value >= b.value)
  }

  /**
   * The guard chain of the source's merge: nothing to do when the incoming timestamp is
   * unset; otherwise each field in turn must be `>=` its local counterpart. The comparison is
   * field by field, not lexicographic.
   */
  function Decide(local: Stamp, incoming: Stamp): (r: Decision)
    ensures r == Adopt ==> Complete(local) && Complete(incoming)
    ensures r == Raise ==> incoming.timestamp.Some? && !(Complete(local) && Complete(incoming))
  {
    if incoming.timestamp.None? then Keep
    else match AtLeast(incoming.timestamp, local.timestamp)
      case None => Raise
      case Some(false) => Keep
      case Some(true) =>
        match AtLeast(incoming.nsec, local.nsec)
        case None => Raise
        case Some(false) => Keep
        case Some(true) =>
          match AtLeast(incoming.tiebreaker, local.tiebreaker)
          case None => Raise
          case Some(false) => Keep
          case Some(true) => Adopt
  }

  /** The state after merging `incoming` into `local`; on `Raise` nothing has changed. */
  function Merged<T>(local: Snapshot<T>, incoming: Snapshot<T>): (r: Snapshot<T>)
    ensures r == local || r == incoming
    ensures r != local ==> Complete(local.stamp) && Complete(r.stamp)
  {
    if Decide(local.stamp, incoming.stamp) == Adopt then incoming else local
  }

  /** The incoming register is adopted exactly when all six fields are set and each incoming
      field is at least the local one. */
  lemma AdoptIffFieldwiseAtLeast(local: Stamp, incoming: Stamp)
    ensures Decide(local, incoming) == Adopt <==>
      Complete(local) && Complete(incoming) &&
      incoming.timestamp.value >= local.timestamp.value &&
      incoming.nsec.value >= local.nsec.value &&
      incoming.tiebreaker.value >= local.tiebreaker.value
  {
  }

  /** With whole stamps on both sides the merge never raises, and an unset incoming stamp is
      always ignored. */
  lemma RaiseOnlyOnUnsetFields(local: Stamp, incoming: Stamp)
    ensures incoming.timestamp.None? ==> Decide(local, incoming) == Keep
    ensures Complete(local) && Complete(incoming) ==> Decide(local, incoming) != Raise
    ensures local == Stamp(None, None, None) && Complete(incoming) ==> Decide(local, incoming) == Raise
  {
  }

  /** A merge never moves any set stamp field backwards. */
  lemma MergedStampMonotone<T>(local: Snapshot<T>, incoming: Snapshot<T>)
    requires Complete(local.stamp)
    ensures var r := Merged(local, incoming).stamp;
      Complete(r) &&
      r.timestamp.value >= local.stamp.timestamp.value &&
      r.nsec.value >= local.stamp.nsec.value &&
      r.tiebreaker.value >= local.stamp.tiebreaker.value
  {
  }

  /** Merging a register with an identical stamp keeps value and stamp; in particular merging
      a copy of itself changes nothing. */
  lemma MergeSameStampKeepsState<T>(local: Snapshot<T>, incoming: Snapshot<T>)
    requires incoming.stamp == local.stamp
    ensures Merged(local, incoming).stamp == local.stamp
    ensures Merged(local, local) == local
  {
  }

  /**
   * The component-wise rule is not commutative: two registers whose stamps are not
   * field-wise comparable each keep their own value, whichever side merges.
   */
  lemma MergeIsNotCommutative()
    ensures var a := Snapshot(Some(1), Stamp(Some(2), Some(0), Some(1)));
            var b := Snapshot(Some(2), Stamp(Some(1), Some(5), Some(1)));
            Merged(a, b) == a && Merged(b, a) == b && Merged(a, b) != Merged(b, a)
  {
  }

  /**
   * A write that is later by (seconds, nanoseconds, tiebreaker) order is still rejected when
   * its nanosecond field is smaller.
   */
  lemma LaterWriteCanBeRejected()
    ensures Decide(Stamp(Some(1), Some(900), Some(7)), Stamp(Some(2), Some(100), Some(7))) == Keep
  {
  }

  /** Serialized form written by `to_h`. */
  datatype RegisterHash<T> = RegisterHash(
    value: Option<T>, timestamp: Option<int>, timestampNsec: Option<int>,
    timestampTiebreaker: Option<int>, tiebreaker: int)

  class LWWRegister<T> {
    /** The register's own tiebreaker, fixed at construction. */
    const tiebreaker: int
    var value: Option<T>
    var timestamp: Option<int>
    var timestampNsec: Option<int>
    var timestampTiebreaker: Option<int>

    function Stamped(): (s: Stamp)
      reads this
    {
      Stamp(timestamp, timestampNsec, timestampTiebreaker)
    }

    function Observed(): (s: Snapshot<T>)
      reads this
    {
      Snapshot(value, Stamped())
    }

    constructor (tiebreaker: int)
      ensures this.tiebreaker == tiebreaker
      ensures value == None && Stamped() == Stamp(None, None, None)
    {
      this.tiebreaker := tiebreaker;
      value := None;
      timestamp, timestampNsec, timestampTiebreaker := None, None, None;
    }

    /** Writes `v`, stamped with the caller-supplied time and this register's tiebreaker. */
    method Set(v: T, seconds: int, nanoseconds: int)
      modifies this
      ensures Get() == Some(v)
      ensures Stamped() == Stamp(Some(seconds), Some(nanoseconds), Some(tiebreaker))
    {
      value := Some(v);
      timestamp := Some(seconds);
      timestampNsec := Some(nanoseconds);
      timestampTiebreaker := Some(tiebreaker);
    }

    function Get(): (r: Option<T>)
      reads this
    {
      value
    }

    /**
     * One-way merge: adopts the other register's value and all three stamp fields when the
     * guard chain of `Decide` lets it through; otherwise nothing changes. The register's own
     * tiebreaker is a constant and so is never written.
     */
    method Merge(other: LWWRegister<T>) returns (d: Decision)
      modifies this
      ensures d == Decide(old(Stamped()), old(other.Stamped()))
      ensures Observed() == Merged(old(Observed()), old(other.Observed()))
      ensures d == Adopt ==> value == old(other.value) && Stamped() == old(other.Stamped())
      ensures d != Adopt ==> value == old(value) && Stamped() == old(Stamped())
    {
      if other.timestamp.None? { return Keep; }
      if timestamp.None? { return Raise; }
      if other.timestamp.value < timestamp.value { return Keep; }
      if other.timestampNsec.None? || timestampNsec.None? { return Raise; }
      if other.timestampNsec.value < timestampNsec.value { return Keep; }
      if other.timestampTiebreaker.None? || timestampTiebreaker.None? { return Raise; }
      if other.timestampTiebreaker.value < timestampTiebreaker.value { return Keep; }
      value := other.value;
      timestamp := other.timestamp;
      timestampNsec := other.timestampNsec;
      timestampTiebreaker := other.timestampTiebreaker;
      d := Adopt;
    }

    function ToHash(): (h: RegisterHash<T>)
      reads this
    {
      RegisterHash(value, timestamp, timestampNsec, timestampTiebreaker, tiebreaker)
    }

    /** `from_h`: a register on the hash's tiebreaker with every other field copied. */
    static method FromHash(h: RegisterHash<T>) returns (r: LWWRegister<T>)
      ensures fresh(r)
      ensures r.ToHash() == h
    {
      r := new LWWRegister(h.tiebreaker);
      r.value := h.value;
      r.timestamp := h.timestamp;
      r.timestampNsec := h.timestampNsec;
      r.timestampTiebreaker := h.timestampTiebreaker;
    }
  }
}
