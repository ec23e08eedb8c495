/** The Ruby Array operations the graph applies to its adjacency lists. */
module ArrayOps {
  import opened CrdtBase

  /** Ruby's `a - [x]` and `a.delete(x)`: every occurrence of `x` dropped, the rest in order. */
  function RemoveAll(s: seq<Token>, x: Token): (r: seq<Token>)
    ensures forall y :: y in r <==> y in s && y != x
    ensures |r| <= |s|
    ensures multiset(r) == multiset(s)[x := 0]
  {
    if s == [] then []
    else
      assert s == [s[0]] + s[1..];
      (if s[0] == x then [] else [s[0]]) + RemoveAll(s[1..], x)
  }

  lemma RemoveAllCons(a: Token, s: seq<Token>, x: Token)
    ensures RemoveAll([a] + s, x) == (if a == x then [] else [a]) + RemoveAll(s, x)
  {
    assert ([a] + s)[1..] == s;
  }

  predicate NoDuplicates(s: seq<Token>) {
    forall i, j :: 0 <= i < j < |s| ==> s[i] != s[j]
  }

  lemma DistinctCons(h: Token, rest: seq<Token>)
    ensures NoDuplicates([h] + rest) <==> h !in rest && NoDuplicates(rest)
  {
    var s := [h] + rest;
    if h !in rest && NoDuplicates(rest) {
      forall i, j | 0 <= i < j < |s| ensures s[i] != s[j] {
        if i == 0 {
          assert s[j] == rest[j - 1];
        } else {
          assert s[i] == rest[i - 1] && s[j] == rest[j - 1];
        }
      }
    }
    if NoDuplicates(s) {
      forall j | 0 <= j < |rest| ensures rest[j] != h {
        assert s[0] == h && rest[j] == s[j + 1] && 0 < j + 1 < |s|;
      }
      forall i, j | 0 <= i < j < |rest| ensures rest[i] != rest[j] {
        assert rest[i] == s[i + 1] && rest[j] == s[j + 1];
      }
    }
  }

  /** Keeps the first occurrence of each element, in order. */
  function Dedup(s: seq<Token>): (r: seq<Token>)
    ensures forall y :: y in r <==> y in s
    ensures NoDuplicates(r)
    decreases |s|
  {
    if s == [] then []
    else
      var prefix := Dedup(s[..|s| - 1]);
      if s[|s| - 1] in prefix then prefix else prefix + [s[|s| - 1]]
  }

  /** Ruby's `a | b`: the elements of either list, without duplicates, in order of first
      occurrence. */
  function Union(a: seq<Token>, b: seq<Token>): (r: seq<Token>)
    ensures forall y :: y in r <==> y in a || y in b
    ensures NoDuplicates(r)
  {
    Dedup(a + b)
  }

  /** A list that already has no duplicates is its own deduplication. */
  lemma {:induction false} DedupOfDistinct(s: seq<Token>)
    requires NoDuplicates(s)
    ensures Dedup(s) == s
    decreases |s|
  {
    if s != [] {
      var init := s[..|s| - 1];
      assert NoDuplicates(init);
      DedupOfDistinct(init);
      assert s[|s| - 1] !in init;
      assert init + [s[|s| - 1]] == s;
    }
  }

  /** Unioning a list with itself only drops its duplicates. */
  lemma UnionSelf(a: seq<Token>)
    requires NoDuplicates(a)
    ensures Union(a, a) == a
  {
    DedupOfDistinct(a);
    UnionAbsorbs(a, a);
  }

  /** Unioning in a list whose elements are all present already changes nothing, once the
      receiver is free of duplicates. */
  lemma {:induction false} UnionAbsorbs(a: seq<Token>, b: seq<Token>)
    requires NoDuplicates(a)
    requires forall y :: y in b ==> y in a
    ensures Union(a, b) == a
    decreases |b|
  {
    if b == [] {
      assert a + b == a;
      DedupOfDistinct(a);
    } else {
      var init := b[..|b| - 1];
      assert a + b == (a + init) + [b[|b| - 1]];
      assert (a + b)[..|a + b| - 1] == a + init;
      UnionAbsorbs(a, init);
      assert b[|b| - 1] in Dedup(a + init);
    }
  }
}
