/** Identities and tokens shared by every replicated type. */
module CrdtBase {

  /** A replica identity. The library accepts any comparable value; strings stand for them here. */
  type NodeId = string

  /** Ruby's `nil` or a present value. */
  datatype Option<T> = None | Some(value: T)

  /** An event token: the issuing replica and that replica's counter when it issued the token. */
  datatype Token = Token(node: NodeId, counter: int)

  /** The entries of `m` whose keys lie in `keys`: what a loop over a hash has visited so far. */
  function Restrict<K, V>(m: map<K, V>, keys: set<K>): (r: map<K, V>)
    ensures r.Keys == m.Keys * keys
    ensures forall k :: k in r ==> r[k] == m[k]
  {
    map k | k in m && k in keys :: m[k]
  }

  lemma RestrictBounds<K, V>(m: map<K, V>)
    ensures Restrict(m, {}) == map[] && Restrict(m, m.Keys) == m
  {
  }
}
