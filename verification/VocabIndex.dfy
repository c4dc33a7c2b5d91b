/** The chained hash index over the vocabulary in gguf.c and the linear scan it replaces. */
module VocabIndex {
  import opened CStrings

  const HASH_SIZE: nat := 32768

  // ---------------------------------------------------------------------
  // Hashing
  // ---------------------------------------------------------------------

  /** hash * 33 + byte in 32 bits, over the bytes of s. */
  function Hash(s: seq<Byte>): nat {
    if s == [] then 5381 else (Hash(s[..|s| - 1]) * 33 + s[|s| - 1]) % 0x1_0000_0000
  }

  function Bucket(s: seq<Byte>): (h: nat)
    ensures h < HASH_SIZE
  {
    Hash(s) % HASH_SIZE
  }

  /** The same polynomial in unbounded integers. */
  function Polynomial(s: seq<Byte>): nat {
    if s == [] then 5381 else 33 * Polynomial(s[..|s| - 1]) + s[|s| - 1]
  }

  /** Neither the 32-bit arithmetic nor the reduction to a bucket loses anything else: the bucket is the polynomial
      modulo 32768. */
  lemma {:induction false} BucketIsPolynomial(s: seq<Byte>)
    ensures Hash(s) == Polynomial(s) % 0x1_0000_0000 && Bucket(s) == Polynomial(s) % 32768
  {
    if s != [] {
      BucketIsPolynomial(s[..|s| - 1]);
      WrapTimes(Polynomial(s[..|s| - 1]), s[|s| - 1]);
    }
    WrapTwice(Polynomial(s));
  }

  lemma WrapTimes(p: nat, b: nat)
    ensures (p % 0x1_0000_0000 * 33 + b) % 0x1_0000_0000 == (33 * p + b) % 0x1_0000_0000
  {
    var q, r := p / 0x1_0000_0000, p % 0x1_0000_0000;
    assert 33 * p + b == (33 * q) * 0x1_0000_0000 + (r * 33 + b);
    SameRemainder(33 * p + b, 33 * q, r * 33 + b);
  }

  lemma SameRemainder(n: nat, q: nat, r: nat)
    requires n == q * 0x1_0000_0000 + r
    ensures n % 0x1_0000_0000 == r % 0x1_0000_0000
  {
  }

  lemma WrapTwice(n: nat)
    ensures n % 0x1_0000_0000 % 32768 == n % 32768
  {
    var q, r := n / 0x1_0000_0000, n % 0x1_0000_0000;
    assert n == (q * 131072) * 32768 + r;
  }

  method HashStr(s: seq<Byte>) returns (h: nat)
    ensures h == Bucket(s)
  {
    var hash: nat := 5381;
    for i := 0 to |s|
      invariant hash == Hash(s[..i])
    {
      assert s[..i + 1][..i] == s[..i];
      hash := (hash * 32 + hash + s[i]) % 0x1_0000_0000;
    }
    assert s[..|s|] == s;
    h := hash % HASH_SIZE;
  }

  // ---------------------------------------------------------------------
  // Matching
  // ---------------------------------------------------------------------

  /** The test of both searches: equal lengths, and equal up to the first NUL. */
  predicate Matches(token: seq<Byte>, query: seq<Byte>) {
    |token| == |query| && StringAt(token, 0) == StringAt(query, 0)
  }

  /** For a query without NUL bytes the test is equality. */
  lemma MatchIsEquality(token: seq<Byte>, query: seq<Byte>)
    requires 0 !in query
    ensures Matches(token, query) <==> token == query
  {
    StringIs(query, 0, query);
    if Matches(token, query) {
      StringStands(token, 0);
      assert token[0..0 + |query|] == query;
    }
  }

  /** What the index can find: a match in the query's own bucket. */
  predicate Hit(token: seq<Byte>, query: seq<Byte>) {
    Bucket(token) == Bucket(query) && Matches(token, query)
  }

  ghost predicate IsFirstMatch(tokens: seq<seq<Byte>>, query: seq<Byte>, r: int) {
    && -1 <= r < |tokens|
    && (r >= 0 ==> Matches(tokens[r], query))
    && forall k :: 0 <= k < (if r < 0 then |tokens| else r) ==> !Matches(tokens[k], query)
  }

  ghost predicate IsLastHit(tokens: seq<seq<Byte>>, query: seq<Byte>, r: int) {
    && -1 <= r < |tokens|
    && (r >= 0 ==> Hit(tokens[r], query))
    && forall k :: r < k < |tokens| ==> !Hit(tokens[k], query)
  }

  /** For every query without NUL bytes the index finds a token exactly when the scan does, namely when the query
      is one; it returns the largest such index where the scan returns the smallest; so the two answers are the
      same exactly when the query does not occur twice. */
  lemma IndexAgreesWithScan(tokens: seq<seq<Byte>>, query: seq<Byte>, index: int, scan: int)
    requires 0 !in query && IsLastHit(tokens, query, index) && IsFirstMatch(tokens, query, scan)
    ensures index >= 0 <==> query in tokens
    ensures scan >= 0 <==> query in tokens
    ensures forall k :: 0 <= k < |tokens| && tokens[k] == query ==> scan <= k <= index
    ensures query in tokens ==> tokens[index] == tokens[scan] == query
    ensures index == scan <==> forall j, k :: 0 <= j < k < |tokens| ==> tokens[j] != query || tokens[k] != query
  {
    forall k | 0 <= k < |tokens|
      ensures Matches(tokens[k], query) <==> tokens[k] == query
      ensures Hit(tokens[k], query) <==> tokens[k] == query
    {
      MatchIsEquality(tokens[k], query);
    }
    if index >= 0 { assert Hit(tokens[index], query); }
    if scan >= 0 { assert Matches(tokens[scan], query); }
  }

  /** With a NUL in the query they can differ: the scan finds a token that agrees up to the NUL only, and the
      index looks in another bucket. No query in gguf.c holds a NUL: pieces are stretches of a text that ends at
      its first one, and the others are fixed strings. */
  lemma NulQueriesDiffer()
    ensures var tokens, query := [[0, 2]], [0, 1];
      IsFirstMatch(tokens, query, 0) && IsLastHit(tokens, query, -1)
  {
    var token: seq<Byte>, query: seq<Byte> := [0, 2], [0, 1];
    assert token[..1] == [0] && query[..1] == [0] && [0][..0] == [];
    assert Hash([]) == 5381 && Hash([0]) == 177573;
    assert Hash(token) == 5859911 && Hash(query) == 5859910;
  }

  // ---------------------------------------------------------------------
  // Chains
  // ---------------------------------------------------------------------

  function Buckets(tokens: seq<seq<Byte>>): (bs: seq<nat>)
    ensures |bs| == |tokens|
  {
    if tokens == [] then [] else [Bucket(tokens[0])] + Buckets(tokens[1..])
  }

  lemma {:induction false} BucketsAre(tokens: seq<seq<Byte>>)
    ensures forall i :: 0 <= i < |tokens| ==> Buckets(tokens)[i] == Bucket(tokens[i])
  {
    if tokens != [] { BucketsAre(tokens[1..]); }
  }

  /** The largest index below n that stands in bucket h; -1 when there is none. */
  function Latest(buckets: seq<nat>, h: nat, n: nat): (r: int)
    requires n <= |buckets|
    ensures -1 <= r < n
  {
    if n == 0 then -1 else if buckets[n - 1] == h then n - 1 else Latest(buckets, h, n - 1)
  }

  lemma {:induction false} LatestIs(buckets: seq<nat>, h: nat, n: nat)
    requires n <= |buckets|
    ensures Latest(buckets, h, n) >= 0 ==> buckets[Latest(buckets, h, n)] == h
    ensures forall k :: Latest(buckets, h, n) < k < n ==> buckets[k] != h
  {
    if n > 0 { LatestIs(buckets, h, n - 1); }
  }

  /** U+2581 in UTF-8 occurs in s. */
  ghost predicate HasBlock(s: seq<Byte>) {
    exists j :: 0 <= j && j + 3 <= |s| && BlockAt(s, j)
  }

  predicate BlockAt(s: seq<Byte>, j: nat)
    requires j + 3 <= |s|
  {
    s[j] == 0xE2 && s[j + 1] == 0x96 && s[j + 2] == 0x81
  }

  /** Each bucket's chain over the first n indices starts at the largest of them; -1 is NULL. */
  ghost predicate HeadsAt(buckets: seq<nat>, heads: seq<int>, n: nat)
    requires n <= |buckets|
  {
    |heads| == HASH_SIZE && forall h :: 0 <= h < HASH_SIZE ==> heads[h] == Latest(buckets, h, n)
  }

  /** Each link leads to the next smaller index of its bucket. */
  ghost predicate LinksAt(buckets: seq<nat>, next: seq<int>, n: nat)
    requires n <= |buckets|
  {
    n <= |next| && forall i :: 0 <= i < n ==> next[i] == Latest(buckets, buckets[i], i)
  }

  lemma ChainGrows(buckets: seq<nat>, heads: seq<int>, next: seq<int>, heads': seq<int>, next': seq<int>, i: nat, h: nat)
    requires i < |buckets| && HeadsAt(buckets, heads, i) && LinksAt(buckets, next, i) && i < |next|
    requires h == buckets[i] < HASH_SIZE && heads' == heads[h := i] && next' == next[i := heads[h]]
    ensures HeadsAt(buckets, heads', i + 1) && LinksAt(buckets, next', i + 1)
  {
  }

  ghost predicate Chained(buckets: seq<nat>, heads: seq<int>, next: seq<int>) {
    HeadsAt(buckets, heads, |buckets|) && LinksAt(buckets, next, |buckets|)
  }

  class Vocabulary {
    const tokens: seq<seq<Byte>>
    var hashed: bool
    var heads: array<int>
    var next: array<int>
    var sentencePiece: bool
    var addBos: int

    ghost predicate Valid()
      reads this, heads, next
    {
      hashed ==>
        && heads.Length == HASH_SIZE && next.Length == |tokens| && heads != next
        && Chained(Buckets(tokens), heads[..], next[..])
    }

    /** Chains strictly descend, so every walk ends. */
    lemma ChainsDescend(i: nat)
      requires Valid() && hashed && i < |tokens|
      ensures -1 <= next[i] < i
    {
    }

    /** build_vocab_hash_table: addBos is the value read from the file or -1, and enough says whether the entries
        could be allocated. */
    constructor (tokens: seq<seq<Byte>>, addBos: int, enough: bool)
      ensures Valid() && this.tokens == tokens && hashed == enough
      ensures enough ==>
        && (sentencePiece <==> exists i :: 0 <= i < |tokens| && HasBlock(tokens[i]))
        && this.addBos == if addBos == -1 then (if sentencePiece then 1 else 0) else addBos
      ensures !enough ==> !sentencePiece && this.addBos == addBos
    {
      this.tokens := tokens;
      this.hashed := false;
      heads := new int[HASH_SIZE](_ => -1);
      next := new int[|tokens|];
      this.sentencePiece := false;
      this.addBos := addBos;
      new;
      if enough {
        DetectSentencePiece();
        if this.addBos == -1 {
          this.addBos := if sentencePiece then 1 else 0;
        }
        FillChains();
        hashed := true;
      }
    }

    method DetectSentencePiece()
      modifies `sentencePiece
      ensures sentencePiece <==> exists i :: 0 <= i < |tokens| && HasBlock(tokens[i])
    {
      sentencePiece := false;
      for i := 0 to |tokens|
        invariant !sentencePiece && forall k :: 0 <= k < i ==> !HasBlock(tokens[k])
      {
        var found := FindBlock(tokens[i]);
        if found {
          sentencePiece := true;
          return;
        }
      }
    }

    method FindBlock(s: seq<Byte>) returns (found: bool)
      ensures found <==> HasBlock(s)
    {
      if |s| < 3 {
        return false;
      }
      for j := 0 to |s| - 2
        invariant forall k :: 0 <= k < j ==> !BlockAt(s, k)
      {
        if BlockAt(s, j) {
          return true;
        }
      }
      return false;
    }

    /** Each token goes to the front of its bucket's chain. */
    method FillChains()
      requires heads.Length == HASH_SIZE && next.Length == |tokens| && heads != next
      requires forall h :: 0 <= h < HASH_SIZE ==> heads[h] == -1
      modifies heads, next
      ensures Chained(Buckets(tokens), heads[..], next[..])
    {
      ghost var buckets := Buckets(tokens);
      assert HeadsAt(buckets, heads[..], 0);
      for i := 0 to |tokens|
        invariant HeadsAt(buckets, heads[..], i) && LinksAt(buckets, next[..], i)
      {
        AddToChain(i, buckets);
      }
    }

    method AddToChain(i: nat, ghost buckets: seq<nat>)
      requires heads.Length == HASH_SIZE && next.Length == |tokens| == |buckets| && heads != next && i < |tokens|
      requires buckets == Buckets(tokens)
      requires HeadsAt(buckets, heads[..], i) && LinksAt(buckets, next[..], i)
      modifies heads, next
      ensures HeadsAt(buckets, heads[..], i + 1) && LinksAt(buckets, next[..], i + 1)
    {
      BucketsAre(tokens);
      var h := HashStr(tokens[i]);
      ghost var heads0, next0 := heads[..], next[..];
      next[i] := heads[h];
      heads[h] := i;
      ChainGrows(buckets, heads0, next0, heads[..], next[..], i, h);
    }

    /** The sequential search, used when there is no index. */
    method FindLinear(query: seq<Byte>) returns (r: int)
      ensures IsFirstMatch(tokens, query, r)
    {
      for i := 0 to |tokens|
        invariant forall k :: 0 <= k < i ==> !Matches(tokens[k], query)
      {
        var same := SameToken(i, query);
        if same {
          return i;
        }
      }
      return -1;
    }

    method SameToken(i: nat, query: seq<Byte>) returns (same: bool)
      requires i < |tokens|
      ensures same <==> Matches(tokens[i], query)
    {
      if |tokens[i]| != |query| {
        return false;
      }
      var r := StrNCmp(tokens[i], query, |query|);
      same := r == 0;
    }

    /** find_token_by_str. */
    method FindToken(query: seq<Byte>) returns (r: int)
      requires Valid()
      ensures hashed ==> IsLastHit(tokens, query, r)
      ensures !hashed ==> IsFirstMatch(tokens, query, r)
    {
      if !hashed {
        r := FindLinear(query);
        return;
      }
      var h := HashStr(query);
      r := Walk(query, h);
    }

    /** The walk along a chain. */
    method Walk(query: seq<Byte>, h: nat) returns (r: int)
      requires Valid() && hashed && h == Bucket(query)
      ensures IsLastHit(tokens, query, r)
    {
      ghost var buckets := Buckets(tokens);
      ghost var n: nat := |tokens|;
      assert heads[..][h] == heads[h];
      r := heads[h];
      while r != -1
        invariant n <= |tokens| && r == Latest(buckets, h, n)
        invariant NoHitFrom(tokens, query, n)
        decreases r
      {
        NoneBetween(tokens, query, buckets, n);
        var same := SameToken(r, query);
        if same {
          return;
        }
        NoHitHere(tokens, query, r);
        n := r;
        assert next[..][r] == next[r];
        r := next[r];
      }
      NoneBetween(tokens, query, buckets, n);
    }
  }

  ghost predicate NoHitFrom(tokens: seq<seq<Byte>>, query: seq<Byte>, n: nat) {
    forall k :: n <= k < |tokens| ==> !Hit(tokens[k], query)
  }

  lemma NoHitHere(tokens: seq<seq<Byte>>, query: seq<Byte>, n: nat)
    requires n < |tokens| && NoHitFrom(tokens, query, n + 1) && !Matches(tokens[n], query)
    ensures NoHitFrom(tokens, query, n)
  {
  }

  /** A link leaves out nothing of its own bucket. */
  lemma NoneBetween(tokens: seq<seq<Byte>>, query: seq<Byte>, buckets: seq<nat>, n: nat)
    requires buckets == Buckets(tokens) && n <= |tokens| && NoHitFrom(tokens, query, n)
    ensures var r := Latest(buckets, Bucket(query), n);
      NoHitFrom(tokens, query, r + 1) && (r >= 0 ==> buckets[r] == Bucket(query) == Bucket(tokens[r]))
  {
    BucketsAre(tokens);
    LatestIs(buckets, Bucket(query), n);
  }
}
