/** Layer by layer, position by position: the recurrence that decoding computes, for any layer
    functions. One definition recomputes every row of every earlier position; the cached machine
    keeps the rows of earlier positions and computes one position at a time. */
module Recurrence {

  /** The layer functions: the vector of a token; the key and value row a layer makes at a position; and what
      the layer hands on, given all rows up to the position. */
  datatype Steps<!X, !R> = Steps(embed: int -> X,
                               key: (nat, X, nat) -> R,
                               value: (nat, X, nat) -> R,
                               next: (nat, X, seq<R>, seq<R>, nat) -> X)

  /** The vector that enters layer l at position p, from the tokens alone. */
  function Hidden<X, R>(s: Steps<X, R>, tokens: seq<int>, l: nat, p: nat): X
    requires p < |tokens|
    decreases l, 0, 0
  {
    if l == 0 then s.embed(tokens[p])
    else s.next(l - 1, Hidden(s, tokens, l - 1, p), Keys(s, tokens, l - 1, p + 1), Values(s, tokens, l - 1, p + 1), p)
  }

  /** The key rows of layer l at positions 0 .. n. */
  function Keys<X, R>(s: Steps<X, R>, tokens: seq<int>, l: nat, n: nat): (r: seq<R>)
    requires n <= |tokens|
    ensures |r| == n
    decreases l, 1, n
  {
    if n == 0 then [] else Keys(s, tokens, l, n - 1) + [s.key(l, Hidden(s, tokens, l, n - 1), n - 1)]
  }

  function Values<X, R>(s: Steps<X, R>, tokens: seq<int>, l: nat, n: nat): (r: seq<R>)
    requires n <= |tokens|
    ensures |r| == n
    decreases l, 1, n
  {
    if n == 0 then [] else Values(s, tokens, l, n - 1) + [s.value(l, Hidden(s, tokens, l, n - 1), n - 1)]
  }

  /** What enters a layer depends on the tokens up to the position only. */
  lemma {:induction false} HiddenIsCausal<X, R>(s: Steps<X, R>, a: seq<int>, b: seq<int>, l: nat, p: nat)
    requires p < |a| && p < |b| && a[..p + 1] == b[..p + 1]
    ensures Hidden(s, a, l, p) == Hidden(s, b, l, p)
    decreases l, 0, 0
  {
    if l == 0 {
      assert a[p] == a[..p + 1][p] == b[..p + 1][p] == b[p];
    } else {
      HiddenIsCausal(s, a, b, l - 1, p);
      RowsAreCausal(s, a, b, l - 1, p + 1);
    }
  }

  lemma {:induction false} RowsAreCausal<X, R>(s: Steps<X, R>, a: seq<int>, b: seq<int>, l: nat, n: nat)
    requires n <= |a| && n <= |b| && a[..n] == b[..n]
    ensures Keys(s, a, l, n) == Keys(s, b, l, n) && Values(s, a, l, n) == Values(s, b, l, n)
    decreases l, 1, n
  {
    if n > 0 {
      assert a[..n - 1] == a[..n][..n - 1] == b[..n][..n - 1] == b[..n - 1];
      RowsAreCausal(s, a, b, l, n - 1);
      HiddenIsCausal(s, a, b, l, n - 1);
    }
  }

  lemma {:induction false} KeyAt<X, R>(s: Steps<X, R>, tokens: seq<int>, l: nat, n: nat, p: nat)
    requires p < n <= |tokens|
    ensures Keys(s, tokens, l, n)[p] == s.key(l, Hidden(s, tokens, l, p), p)
    ensures Values(s, tokens, l, n)[p] == s.value(l, Hidden(s, tokens, l, p), p)
    decreases n
  {
    if p < n - 1 { KeyAt(s, tokens, l, n - 1, p); }
  }

  /** What enters the next layer: the layer applied to its input and the rows of the positions so far. */
  lemma HiddenUnfolds<X, R>(s: Steps<X, R>, tokens: seq<int>, l: nat, p: nat, ks: seq<R>, vs: seq<R>)
    requires p < |tokens| && |ks| == |vs| == p + 1
    requires forall j :: 0 <= j <= p ==> ks[j] == s.key(l, Hidden(s, tokens, l, j), j)
    requires forall j :: 0 <= j <= p ==> vs[j] == s.value(l, Hidden(s, tokens, l, j), j)
    ensures Hidden(s, tokens, l + 1, p) == s.next(l, Hidden(s, tokens, l, p), ks, vs, p)
  {
    forall j | 0 <= j <= p ensures Keys(s, tokens, l, p + 1)[j] == ks[j] && Values(s, tokens, l, p + 1)[j] == vs[j] {
      KeyAt(s, tokens, l, p + 1, j);
    }
    assert Keys(s, tokens, l, p + 1) == ks && Values(s, tokens, l, p + 1) == vs;
  }

  /** What the cache holds, by layer and position. */
  type Cache<R> = (nat, nat) -> R

  /** The cache holds the rows of the first n positions in the first `layers` layers. */
  ghost predicate Holds<X, R>(s: Steps<X, R>, tokens: seq<int>, layers: nat, n: nat, keys: Cache<R>, values: Cache<R>)
    requires n <= |tokens|
  {
    forall l: nat, p: nat :: l < layers && p < n ==> HoldsAt(s, tokens, l, p, keys, values)
  }

  ghost predicate HoldsAt<X, R>(s: Steps<X, R>, tokens: seq<int>, l: nat, p: nat, keys: Cache<R>, values: Cache<R>)
    requires p < |tokens|
  {
    && keys(l, p) == s.key(l, Hidden(s, tokens, l, p), p)
    && values(l, p) == s.value(l, Hidden(s, tokens, l, p), p)
  }

  /** Rows 0 .. n of a layer, read from a cache. */
  function CacheRows<R>(c: Cache<R>, l: nat, n: nat): (r: seq<R>)
    ensures |r| == n && forall p :: 0 <= p < n ==> r[p] == c(l, p)
  {
    seq(n, p requires 0 <= p < n => c(l, p))
  }

  /** Rows read from a cache that holds them are the recomputed rows. */
  lemma CachedRowsAreRecomputed<X, R>(s: Steps<X, R>, tokens: seq<int>, l: nat, n: nat, keys: Cache<R>, values: Cache<R>)
    requires n <= |tokens| && forall p: nat :: p < n ==> HoldsAt(s, tokens, l, p, keys, values)
    ensures CacheRows(keys, l, n) == Keys(s, tokens, l, n) && CacheRows(values, l, n) == Values(s, tokens, l, n)
  {
    forall p | 0 <= p < n
      ensures CacheRows(keys, l, n)[p] == Keys(s, tokens, l, n)[p] && CacheRows(values, l, n)[p] == Values(s, tokens, l, n)[p]
    {
      assert HoldsAt(s, tokens, l, p, keys, values);
      KeyAt(s, tokens, l, n, p);
    }
  }

  /** One layer of cached decoding at position pos computes what the recomputation does. */
  lemma CachedStepIsRecomputed<X, R>(s: Steps<X, R>, tokens: seq<int>, l: nat, pos: nat, x: X, keys: Cache<R>, values: Cache<R>)
    requires pos < |tokens| && x == Hidden(s, tokens, l, pos)
    requires forall p: nat :: p < pos + 1 ==> HoldsAt(s, tokens, l, p, keys, values)
    ensures s.next(l, x, CacheRows(keys, l, pos + 1), CacheRows(values, l, pos + 1), pos) == Hidden(s, tokens, l + 1, pos)
  {
    CachedRowsAreRecomputed(s, tokens, l, pos + 1, keys, values);
  }

  /** While position pos is being computed: every earlier position's rows are in the cache, and those of pos
      itself in the first l layers. */
  ghost predicate Done<X, R>(s: Steps<X, R>, tokens: seq<int>, layers: nat, l: nat, pos: nat, keys: Cache<R>, values: Cache<R>)
    requires pos < |tokens|
  {
    forall l': nat, p: nat :: l' < layers && (p < pos || (p == pos && l' < l)) ==> HoldsAt(s, tokens, l', p, keys, values)
  }

  /** k1 differs from k0, at positions up to pos, in the row of layer l at pos only. */
  ghost predicate SameBut<R>(k0: Cache<R>, k1: Cache<R>, layers: nat, l: nat, pos: nat) {
    forall l': nat, p: nat :: l' < layers && p <= pos && (l' != l || p != pos) ==> k1(l', p) == k0(l', p)
  }

  /** One layer of cached decoding: writing the layer's own rows at pos and reading rows 0 .. pos gives what
      the recomputation gives, and one more layer is done. */
  lemma CachedStep<X, R>(s: Steps<X, R>, tokens: seq<int>, layers: nat, l: nat, pos: nat, x: X,
                         k0: Cache<R>, v0: Cache<R>, k1: Cache<R>, v1: Cache<R>)
    requires pos < |tokens| && l < layers && Done(s, tokens, layers, l, pos, k0, v0) && x == Hidden(s, tokens, l, pos)
    requires SameBut(k0, k1, layers, l, pos) && SameBut(v0, v1, layers, l, pos)
    requires k1(l, pos) == s.key(l, x, pos) && v1(l, pos) == s.value(l, x, pos)
    ensures Done(s, tokens, layers, l + 1, pos, k1, v1)
    ensures s.next(l, x, CacheRows(k1, l, pos + 1), CacheRows(v1, l, pos + 1), pos) == Hidden(s, tokens, l + 1, pos)
  {
    forall l': nat, p: nat | l' < layers && (p < pos || (p == pos && l' < l + 1))
      ensures HoldsAt(s, tokens, l', p, k1, v1)
    {
      if l' != l || p != pos { assert HoldsAt(s, tokens, l', p, k0, v0); }
    }
    CachedStepIsRecomputed(s, tokens, l, pos, x, k1, v1);
  }

  /** Before the first layer of a position nothing of it is needed; after the last, its rows are held as well. */
  lemma DoneIsHolds<X, R>(s: Steps<X, R>, tokens: seq<int>, layers: nat, pos: nat, keys: Cache<R>, values: Cache<R>)
    requires pos < |tokens|
    ensures Done(s, tokens, layers, 0, pos, keys, values) <==> Holds(s, tokens, layers, pos, keys, values)
    ensures Done(s, tokens, layers, layers, pos, keys, values) <==> Holds(s, tokens, layers, pos + 1, keys, values)
  {
  }

  /** Rows of a prefix serve every extension of it. */
  lemma HoldsForExtension<X, R>(s: Steps<X, R>, a: seq<int>, b: seq<int>, layers: nat, n: nat, keys: Cache<R>, values: Cache<R>)
    requires n <= |a| && a <= b && Holds(s, a, layers, n, keys, values)
    ensures Holds(s, b, layers, n, keys, values)
  {
    forall l: nat, p: nat | l < layers && p < n ensures HoldsAt(s, b, l, p, keys, values) {
      assert HoldsAt(s, a, l, p, keys, values);
      assert b[..p + 1] == a[..p + 1];
      HiddenIsCausal(s, a, b, l, p);
    }
  }
}
