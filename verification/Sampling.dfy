/** Token sampling of gguf_generate: softmax, descending sort, nucleus cut, draw. Over the reals. */
module Sampling {
  import opened Quicksort

  // ---------------------------------------------------------------------
  // Sums over prefixes and over sets of tokens
  // ---------------------------------------------------------------------

  /** Sum of the first n values. */
  function Prefix(p: seq<real>, n: nat): real
    requires n <= |p|
  {
    if n == 0 then 0.0 else Prefix(p, n - 1) + p[n - 1]
  }

  /** Sum of the values whose tag is in tokens. */
  ghost function SumIn(ps: seq<Pair>, tokens: set<int>): real {
    if ps == [] then 0.0 else (if ps[0].1 in tokens then ps[0].0 else 0.0) + SumIn(ps[1..], tokens)
  }

  ghost function CountIn(ps: seq<Pair>, tokens: set<int>): nat {
    if ps == [] then 0 else (if ps[0].1 in tokens then 1 else 0) + CountIn(ps[1..], tokens)
  }

  lemma {:induction false} SumInSplit(a: seq<Pair>, b: seq<Pair>, tokens: set<int>)
    ensures SumIn(a + b, tokens) == SumIn(a, tokens) + SumIn(b, tokens)
    ensures CountIn(a + b, tokens) == CountIn(a, tokens) + CountIn(b, tokens)
  {
    if a == [] { assert a + b == b; }
    else {
      assert (a + b)[1..] == a[1..] + b;
      SumInSplit(a[1..], b, tokens);
    }
  }

  function Share(q: Pair, tokens: set<int>): real { if q.1 in tokens then q.0 else 0.0 }

  function Without(ps: seq<Pair>, k: nat): seq<Pair>
    requires k < |ps|
  {
    ps[..k] + ps[k + 1..]
  }

  lemma SumInWithout(ps: seq<Pair>, k: nat, tokens: set<int>)
    requires k < |ps|
    ensures SumIn(ps, tokens) == Share(ps[k], tokens) + SumIn(Without(ps, k), tokens)
    ensures CountIn(ps, tokens) == (if ps[k].1 in tokens then 1 else 0) + CountIn(Without(ps, k), tokens)
  {
    assert ps == ps[..k] + ([ps[k]] + ps[k + 1..]);
    SumInSplit(ps[..k], [ps[k]] + ps[k + 1..], tokens);
    SumInSplit(ps[..k], ps[k + 1..], tokens);
  }

  lemma WithoutMultiset(ps: seq<Pair>, k: nat)
    requires k < |ps|
    ensures multiset(Without(ps, k)) == multiset(ps) - multiset{ps[k]}
  {
    assert ps == ps[..k] + ([ps[k]] + ps[k + 1..]);
  }

  /** Sums and counts do not depend on the order of the pairs. */
  lemma {:induction false} SumInOrderless(a: seq<Pair>, b: seq<Pair>, tokens: set<int>)
    requires multiset(a) == multiset(b)
    ensures SumIn(a, tokens) == SumIn(b, tokens) && CountIn(a, tokens) == CountIn(b, tokens)
    decreases |a|
  {
    if a == [] {
      assert |multiset(b)| == 0 && b == [];
    } else {
      assert a[0] in multiset(b);
      var k :| 0 <= k < |b| && b[k] == a[0];
      WithoutMultiset(a, 0);
      WithoutMultiset(b, k);
      SumInOrderless(Without(a, 0), Without(b, k), tokens);
      SumInWithout(a, 0, tokens);
      SumInWithout(b, k, tokens);
    }
  }

  function Values(ps: seq<Pair>): (r: seq<real>)
    ensures |r| == |ps| && forall k :: 0 <= k < |ps| ==> r[k] == ps[k].0
  {
    seq(|ps|, k requires 0 <= k < |ps| => ps[k].0)
  }

  /** In descending order no choice of c entries beats the first c. */
  lemma {:induction false} FirstAreLargest(ps: seq<Pair>, tokens: set<int>, n: nat)
    requires n <= |ps| && Descending(Values(ps), 0, |ps|)
    ensures CountIn(ps[..n], tokens) <= n
    ensures SumIn(ps[..n], tokens) <= Prefix(Values(ps), CountIn(ps[..n], tokens))
  {
    if n > 0 {
      FirstAreLargest(ps, tokens, n - 1);
      assert ps[..n] == ps[..n - 1] + [ps[n - 1]];
      SumInSplit(ps[..n - 1], [ps[n - 1]], tokens);
      var c := CountIn(ps[..n - 1], tokens);
      assert Values(ps)[c] >= Values(ps)[n - 1];
    } else {
      assert ps[..0] == [];
    }
  }

  /** The pairs (p[0], 0), (p[1], 1), ... in token order. */
  function Tagged(p: seq<real>): (r: seq<Pair>)
    ensures |r| == |p| && forall k :: 0 <= k < |p| ==> r[k] == (p[k], k)
  {
    seq(|p|, k requires 0 <= k < |p| => (p[k], k))
  }

  ghost predicate Tokens(tokens: set<int>, n: nat) {
    forall t :: t in tokens ==> 0 <= t < n
  }

  /** Total probability of a set of tokens. */
  ghost function Mass(p: seq<real>, tokens: set<int>): real { SumIn(Tagged(p), tokens) }

  /** Each token of the vocabulary is counted once. */
  lemma {:induction false} CountIsSize(p: seq<real>, tokens: set<int>, n: nat)
    requires n <= |p| && Tokens(tokens, n)
    ensures CountIn(Tagged(p)[..n], tokens) == |tokens|
  {
    if n == 0 {
      assert forall t :: t !in tokens;
      assert Tagged(p)[..0] == [] && tokens == {};
    } else {
      var rest := tokens - {n - 1};
      assert Tagged(p)[..n] == Tagged(p)[..n - 1] + [Tagged(p)[n - 1]];
      SumInSplit(Tagged(p)[..n - 1], [Tagged(p)[n - 1]], tokens);
      CountIsSize(p, rest, n - 1);
      CountIgnores(Tagged(p)[..n - 1], tokens, n - 1);
      if n - 1 in tokens { assert tokens == rest + {n - 1}; } else { assert tokens == rest; }
    }
  }

  lemma {:induction false} CountIgnores(ps: seq<Pair>, tokens: set<int>, t: int)
    requires forall k :: 0 <= k < |ps| ==> ps[k].1 != t
    ensures CountIn(ps, tokens) == CountIn(ps, tokens - {t})
  {
    if ps != [] { CountIgnores(ps[1..], tokens, t); }
  }

  // ---------------------------------------------------------------------
  // The nucleus
  // ---------------------------------------------------------------------

  /** n is where the running sum first reaches topP, or everything when it never does. */
  ghost predicate IsCut(sorted: seq<real>, topP: real, n: nat) {
    && 1 <= n <= |sorted|
    && (forall m: nat :: 1 <= m < n ==> Prefix(sorted, m) < topP)
    && (n < |sorted| ==> Prefix(sorted, n) >= topP)
  }

  /** ps is the token list of p in descending order of probability. */
  ghost predicate Ranks(p: seq<real>, ps: seq<Pair>) {
    multiset(ps) == multiset(Tagged(p)) && Descending(Values(ps), 0, |ps|)
  }

  lemma RanksLength(p: seq<real>, ps: seq<Pair>)
    requires Ranks(p, ps)
    ensures |ps| == |p|
  {
    assert |multiset(ps)| == |ps| && |multiset(Tagged(p))| == |p|;
  }

  /** No set of fewer tokens than the cut keeps reaches topP. */
  lemma CutIsOptimal(p: seq<real>, ps: seq<Pair>, topP: real, n: nat, tokens: set<int>)
    requires Ranks(p, ps) && topP > 0.0 && IsCut(Values(ps), topP, n)
    requires Tokens(tokens, |p|) && |tokens| < n
    ensures Mass(p, tokens) < topP
  {
    RanksLength(p, ps);
    SumInOrderless(ps, Tagged(p), tokens);
    assert Tagged(p)[..|p|] == Tagged(p) && ps[..|ps|] == ps;
    CountIsSize(p, tokens, |p|);
    FirstAreLargest(ps, tokens, |ps|);
  }

  /** The tokens of the first n ranks. */
  ghost function Kept(ps: seq<Pair>, n: nat): set<int>
    requires n <= |ps|
  {
    set k | 0 <= k < n :: ps[k].1
  }

  /** A ranking lists every token once. */
  lemma RankedOnce(p: seq<real>, ps: seq<Pair>)
    requires Ranks(p, ps)
    ensures forall k :: 0 <= k < |ps| ==> 0 <= ps[k].1 < |p| && ps[k].0 == p[ps[k].1]
    ensures forall j, k :: 0 <= j < k < |ps| ==> ps[j].1 != ps[k].1
  {
    forall k | 0 <= k < |ps| ensures 0 <= ps[k].1 < |p| && ps[k].0 == p[ps[k].1] {
      assert ps[k] in multiset(ps);
      assert ps[k] in Tagged(p);
    }
    forall j, k | 0 <= j < k < |ps| ensures ps[j].1 != ps[k].1 {
      if ps[j].1 == ps[k].1 {
        CountTwice(ps, j, k);
        SumInOrderless(ps, Tagged(p), {ps[j].1});
        assert Tagged(p)[..|p|] == Tagged(p);
        CountIsSize(p, {ps[j].1}, |p|);
      }
    }
  }

  lemma CountTwice(ps: seq<Pair>, j: int, k: int)
    requires 0 <= j < k < |ps| && ps[j].1 == ps[k].1
    ensures CountIn(ps, {ps[j].1}) >= 2
  {
    var t := {ps[j].1};
    assert ps == ps[..j] + [ps[j]] + (ps[j + 1..k] + [ps[k]] + ps[k + 1..]);
    SumInSplit(ps[..j] + [ps[j]], ps[j + 1..k] + [ps[k]] + ps[k + 1..], t);
    SumInSplit(ps[..j], [ps[j]], t);
    SumInSplit(ps[j + 1..k] + [ps[k]], ps[k + 1..], t);
    SumInSplit(ps[j + 1..k], [ps[k]], t);
  }

  lemma KeptSize(ps: seq<Pair>, n: nat)
    requires n <= |ps| && forall j, k :: 0 <= j < k < |ps| ==> ps[j].1 != ps[k].1
    ensures |Kept(ps, n)| == n
  {
    if n > 0 {
      KeptSize(ps, n - 1);
      assert Kept(ps, n) == Kept(ps, n - 1) + {ps[n - 1].1};
      assert ps[n - 1].1 !in Kept(ps, n - 1);
    }
  }

  /** The kept tokens weigh what the running sum says. */
  lemma {:induction false} KeptMass(ps: seq<Pair>, n: nat)
    requires n <= |ps| && forall j, k :: 0 <= j < k < |ps| ==> ps[j].1 != ps[k].1
    ensures SumIn(ps, Kept(ps, n)) == Prefix(Values(ps), n)
  {
    assert ps == ps[..n] + ps[n..];
    SumInSplit(ps[..n], ps[n..], Kept(ps, n));
    AllIn(ps, n, Kept(ps, n));
    NoneIn(ps[n..], Kept(ps, n));
  }

  lemma {:induction false} AllIn(ps: seq<Pair>, n: nat, tokens: set<int>)
    requires n <= |ps| && forall k :: 0 <= k < n ==> ps[k].1 in tokens
    ensures SumIn(ps[..n], tokens) == Prefix(Values(ps), n)
  {
    if n > 0 {
      AllIn(ps, n - 1, tokens);
      assert ps[..n] == ps[..n - 1] + [ps[n - 1]];
      SumInSplit(ps[..n - 1], [ps[n - 1]], tokens);
    }
  }

  lemma {:induction false} NoneIn(ps: seq<Pair>, tokens: set<int>)
    requires forall k :: 0 <= k < |ps| ==> ps[k].1 !in tokens
    ensures SumIn(ps, tokens) == 0.0
  {
    if ps != [] { NoneIn(ps[1..], tokens); }
  }

  /** A smallest most probable set: the tokens outside are no more probable than those inside, it reaches
      topP unless it is everything, and no smaller set does. */
  ghost predicate Nucleus(p: seq<real>, topP: real, kept: set<int>) {
    && Tokens(kept, |p|) && kept != {}
    && (forall a, b :: a in kept && 0 <= b < |p| && b !in kept ==> p[a] >= p[b])
    && (|kept| < |p| ==> Mass(p, kept) >= topP)
    && (forall tokens: set<int> :: Tokens(tokens, |p|) && |tokens| < |kept| ==> Mass(p, tokens) < topP)
  }

  lemma CutKeepsNucleus(p: seq<real>, ps: seq<Pair>, topP: real, n: nat)
    requires Ranks(p, ps) && topP > 0.0 && IsCut(Values(ps), topP, n)
    ensures Nucleus(p, topP, Kept(ps, n)) && |Kept(ps, n)| == n
  {
    RanksLength(p, ps);
    RankedOnce(p, ps);
    KeptSize(ps, n);
    KeptMass(ps, n);
    SumInOrderless(ps, Tagged(p), Kept(ps, n));
    assert ps[0].1 in Kept(ps, n);
    forall a, b | a in Kept(ps, n) && 0 <= b < |p| && b !in Kept(ps, n) ensures p[a] >= p[b] {
      OutsideRanksLower(p, ps, n, a, b);
    }
    forall tokens: set<int> | Tokens(tokens, |p|) && |tokens| < n ensures Mass(p, tokens) < topP {
      CutIsOptimal(p, ps, topP, n, tokens);
    }
  }

  lemma OutsideRanksLower(p: seq<real>, ps: seq<Pair>, n: nat, a: int, b: int)
    requires Ranks(p, ps) && n <= |ps| && a in Kept(ps, n) && 0 <= b < |p| && b !in Kept(ps, n)
    ensures 0 <= a < |p| && p[a] >= p[b]
  {
    RankedOnce(p, ps);
    var i :| 0 <= i < n && ps[i].1 == a;
    assert Tagged(p)[b] in multiset(Tagged(p));
    assert (p[b], b) in multiset(ps);
    var j :| 0 <= j < |ps| && ps[j] == (p[b], b);
    assert j >= n;
    assert Values(ps)[i] >= Values(ps)[j];
  }

  // ---------------------------------------------------------------------
  // The draw
  // ---------------------------------------------------------------------

  /** r lies in the cumulative interval of rank k; the first interval is closed below. */
  ghost predicate InInterval(sorted: seq<real>, k: nat, r: real)
    requires k < |sorted|
  {
    (k == 0 || Prefix(sorted, k) < r) && r <= Prefix(sorted, k + 1)
  }

  lemma {:induction false} PrefixGrows(p: seq<real>, m: nat, n: nat)
    requires m <= n <= |p| && forall k :: 0 <= k < n ==> p[k] >= 0.0
    ensures Prefix(p, m) <= Prefix(p, n)
    decreases n
  {
    if m < n { PrefixGrows(p, m, n - 1); }
  }

  /** The intervals of non-negative probabilities do not overlap, so at most one holds r. */
  lemma IntervalsDisjoint(p: seq<real>, j: nat, k: nat, r: real)
    requires j < k < |p| && (forall i :: 0 <= i < |p| ==> p[i] >= 0.0)
    ensures !(InInterval(p, j, r) && InInterval(p, k, r))
  {
    PrefixGrows(p, j + 1, k);
  }

  /** With non-negative values the interval that holds r is that of the first rank at which the running sum is at
      least r. */
  lemma IntervalIsFirst(p: seq<real>, k: nat, r: real)
    requires k < |p| && forall i :: 0 <= i < |p| ==> p[i] >= 0.0
    ensures InInterval(p, k, r) <==> r <= Prefix(p, k + 1) && forall n: nat :: 0 < n <= k ==> Prefix(p, n) < r
  {
    if InInterval(p, k, r) {
      forall n: nat | 0 < n <= k ensures Prefix(p, n) < r { PrefixGrows(p, n, k); }
    } else if k > 0 {
      assert r <= Prefix(p, k) || Prefix(p, k + 1) < r;
    }
  }

  /** Running sum up to the cut. */
  method Cut(probs: array<real>, topP: real) returns (n: nat, cumsum: real)
    requires probs.Length > 0
    ensures IsCut(probs[..], topP, n) && cumsum == Prefix(probs[..], n)
  {
    cumsum, n := 0.0, 0;
    for i := 0 to probs.Length
      invariant n == i && cumsum == Prefix(probs[..], n)
      invariant forall m: nat :: 1 <= m <= n ==> Prefix(probs[..], m) < topP
    {
      cumsum := cumsum + probs[i];
      n := n + 1;
      if cumsum >= topP {
        return;
      }
    }
  }

  /** Walks the kept ranks until the running sum reaches r; the last one is the fallback. */
  method Draw(probs: array<real>, indices: array<int>, n: nat, r: real) returns (token: int, ghost k: nat)
    requires 0 < n <= probs.Length == indices.Length
    ensures k < n && token == indices[k]
    ensures r <= Prefix(probs[..], n) ==> InInterval(probs[..], k, r)
    ensures r > Prefix(probs[..], n) ==> k == n - 1 || InInterval(probs[..], k, r)
  {
    var sum := 0.0;
    token, k := indices[n - 1], n - 1;
    for i := 0 to n
      invariant sum == Prefix(probs[..], i) && (i > 0 ==> r > sum)
      invariant k == n - 1 && token == indices[k]
    {
      sum := sum + probs[i];
      if r <= sum {
        return indices[i], i;
      }
    }
  }

  // ---------------------------------------------------------------------
  // The sampler
  // ---------------------------------------------------------------------

  /** Largest of the values. */
  ghost predicate IsMax(values: seq<real>, m: real) {
    m in values && forall k :: 0 <= k < |values| ==> values[k] <= m
  }

  function Total(p: seq<real>): real { Prefix(p, |p|) }

  /** Unnormalised softmax weights of scaled logits. */
  function Weights(v: seq<real>, m: real, exp: real -> real): (r: seq<real>)
    ensures |r| == |v| && forall k :: 0 <= k < |r| ==> r[k] == exp(v[k] - m)
  {
    seq(|v|, k requires 0 <= k < |v| => exp(v[k] - m))
  }

  function Normalised(w: seq<real>): (r: seq<real>)
    requires Total(w) != 0.0
    ensures |r| == |w| && forall k :: 0 <= k < |r| ==> r[k] == w[k] / Total(w)
  {
    seq(|w|, k requires 0 <= k < |w| => w[k] / Total(w))
  }

  lemma {:induction false} ScaledPrefix(p: seq<real>, q: seq<real>, c: real, n: nat)
    requires c != 0.0 && n <= |p| == |q| && forall k :: 0 <= k < |p| ==> q[k] == p[k] / c
    ensures Prefix(q, n) == Prefix(p, n) / c
  {
    if n > 0 { ScaledPrefix(p, q, c, n - 1); }
  }

  /** Softmax values sum to one, whatever their signs. */
  lemma NormalisedSumsToOne(w: seq<real>)
    requires Total(w) != 0.0
    ensures Total(Normalised(w)) == 1.0
  {
    ScaledPrefix(w, Normalised(w), Total(w), |w|);
    SelfQuotient(Total(w));
  }

  lemma SelfQuotient(c: real)
    requires c != 0.0
    ensures c / c == 1.0
  {
  }

  method MaxScaled(logits: array<real>, temperature: real) returns (m: real)
    requires logits.Length > 0 && temperature > 0.0
    ensures exists k :: 0 <= k < logits.Length && m == logits[k] / temperature
    ensures forall k :: 0 <= k < logits.Length ==> logits[k] / temperature <= m
  {
    m := logits[0] / temperature;
    for i := 1 to logits.Length
      invariant exists k :: 0 <= k < i && m == logits[k] / temperature
      invariant forall k :: 0 <= k < i ==> logits[k] / temperature <= m
    {
      var scaled := logits[i] / temperature;
      if scaled > m {
        m := scaled;
      }
    }
  }

  /** Fills probs with weights, indices with 0, 1, 2, ... */
  method FillWeights(logits: array<real>, temperature: real, m: real, exp: real -> real, probs: array<real>, indices: array<int>)
    returns (sum: real)
    requires temperature > 0.0 && logits.Length == probs.Length == indices.Length && logits != probs
    modifies probs, indices
    ensures probs[..] == Weights(Scaled(logits[..], temperature), m, exp) && sum == Total(probs[..])
    ensures forall k :: 0 <= k < indices.Length ==> indices[k] == k
  {
    sum := 0.0;
    ghost var w := Weights(Scaled(logits[..], temperature), m, exp);
    for i := 0 to logits.Length
      invariant sum == Prefix(w, i)
      invariant forall k :: 0 <= k < i ==> probs[k] == w[k] && indices[k] == k
    {
      probs[i] := exp(logits[i] / temperature - m);
      sum := sum + probs[i];
      indices[i] := i;
    }
    assert probs[..] == w;
  }

  method Normalise(probs: array<real>, sum: real)
    requires sum != 0.0 && sum == Total(probs[..])
    modifies probs
    ensures probs[..] == Normalised(old(probs[..]))
  {
    for i := 0 to probs.Length
      invariant forall k :: 0 <= k < i ==> probs[k] == old(probs[k]) / sum
      invariant forall k :: i <= k < probs.Length ==> probs[k] == old(probs[k])
    {
      probs[i] := probs[i] / sum;
    }
  }

  /** The greedy fallback: first largest logit. */
  method Greedy(logits: array<real>) returns (token: int)
    requires logits.Length > 0
    ensures 0 <= token < logits.Length
    ensures forall k :: 0 <= k < logits.Length ==> logits[k] <= logits[token]
    ensures forall k :: 0 <= k < token ==> logits[k] < logits[token]
  {
    token := 0;
    for i := 1 to logits.Length
      invariant 0 <= token < i
      invariant forall k :: 0 <= k < i ==> logits[k] <= logits[token]
      invariant forall k :: 0 <= k < token ==> logits[k] < logits[token]
    {
      if logits[i] > logits[token] {
        token := i;
      }
    }
  }

  function Scaled(logits: seq<real>, temperature: real): (r: seq<real>)
    requires temperature > 0.0
    ensures |r| == |logits| && forall k :: 0 <= k < |r| ==> r[k] == logits[k] / temperature
  {
    seq(|logits|, k requires 0 <= k < |logits| => logits[k] / temperature)
  }

  function MaxOf(v: seq<real>): (m: real)
    requires v != []
    ensures IsMax(v, m)
  {
    if |v| == 1 then v[0]
    else
      var m := MaxOf(v[..|v| - 1]);
      if v[|v| - 1] > m then v[|v| - 1] else m
  }

  lemma MaxIsUnique(v: seq<real>, m: real)
    requires v != [] && IsMax(v, m)
    ensures m == MaxOf(v)
  {
  }

  /** The softmax weights of scaled logits v. */
  function SoftmaxWeights(v: seq<real>, exp: real -> real): seq<real>
    requires v != []
  {
    Weights(v, MaxOf(v), exp)
  }

  function MinOf(v: seq<real>): (m: real)
    requires v != []
    ensures m in v && forall k :: 0 <= k < |v| ==> m <= v[k]
  {
    if |v| == 1 then v[0]
    else
      var m := MinOf(v[..|v| - 1]);
      if v[|v| - 1] < m then v[|v| - 1] else m
  }

  /** How far apart the scaled logits lie. */
  function Spread(v: seq<real>): real
    requires v != []
  {
    MaxOf(v) - MinOf(v)
  }

  /** What is needed of the program's exp: it is 1 at zero, and where it is negative it stays so further left. */
  ghost predicate SignFalls(exp: real -> real) {
    exp(0.0) == 1.0 && forall x, y :: y <= x <= 0.0 && exp(x) < 0.0 ==> exp(y) < 0.0
  }

  /** No weight is negative exactly when the series is not negative at the largest distance. */
  lemma WeightsIff(v: seq<real>, exp: real -> real)
    requires v != [] && SignFalls(exp)
    ensures (forall k :: 0 <= k < |v| ==> SoftmaxWeights(v, exp)[k] >= 0.0)
      <==> exp(-Spread(v)) >= 0.0
  {
    SmallestDecides(v, SoftmaxWeights(v, exp), exp);
    assert -Spread(v) == MinOf(v) - MaxOf(v);
  }

  lemma SmallestDecides(v: seq<real>, w: seq<real>, exp: real -> real)
    requires v != [] && |w| == |v| && SignFalls(exp) && forall k :: 0 <= k < |v| ==> w[k] == exp(v[k] - MaxOf(v))
    ensures (forall k :: 0 <= k < |v| ==> w[k] >= 0.0) <==> exp(MinOf(v) - MaxOf(v)) >= 0.0
  {
    var top, low := MaxOf(v), MinOf(v);
    var j :| 0 <= j < |v| && v[j] == low;
    forall k | 0 <= k < |v| && w[k] < 0.0 ensures exp(low - top) < 0.0 {
      assert low - top <= v[k] - top <= 0.0;
    }
    assert w[j] == exp(low - top);
  }

  /** The largest logit has weight 1. */
  lemma TopWeight(v: seq<real>, exp: real -> real) returns (k: nat)
    requires v != [] && SignFalls(exp)
    ensures k < |v| && SoftmaxWeights(v, exp)[k] == 1.0
  {
    var i :| 0 <= i < |v| && v[i] == MaxOf(v);
    k := i;
  }

  lemma TotalPositive(w: seq<real>, k: nat)
    requires k < |w| && w[k] == 1.0 && forall i :: 0 <= i < |w| ==> w[i] >= 0.0
    ensures Total(w) > 0.0
  {
    PrefixGrows(w, 0, k);
    PrefixGrows(w, k + 1, |w|);
  }

  ghost function Softmax(v: seq<real>, exp: real -> real): (p: seq<real>)
    requires v != [] && Total(SoftmaxWeights(v, exp)) != 0.0
    ensures |p| == |v|
  {
    Normalised(SoftmaxWeights(v, exp))
  }

  /** What softmax computes sums to one; it is a probability distribution exactly when the series is not
      negative at the distance between the lowest and the highest scaled logit. */
  lemma DistributionIff(v: seq<real>, exp: real -> real)
    requires v != [] && Total(SoftmaxWeights(v, exp)) != 0.0
    requires SignFalls(exp)
    ensures Total(Softmax(v, exp)) == 1.0
    ensures Distribution(Softmax(v, exp)) <==> exp(-Spread(v)) >= 0.0
  {
    var w, p := SoftmaxWeights(v, exp), Softmax(v, exp);
    NormalisedSumsToOne(w);
    WeightsIff(v, exp);
    var k := TopWeight(v, exp);
    if exp(-Spread(v)) >= 0.0 {
      TotalPositive(w, k);
      forall i | 0 <= i < |w| ensures p[i] >= 0.0 { QuotientNonNegative(w[i], Total(w)); }
    }
    if Distribution(p) {
      DenominatorPositive(Total(w), p[k]);
      forall i | 0 <= i < |w| ensures w[i] >= 0.0 { NumeratorNonNegative(w[i], Total(w)); }
    }
  }

  lemma QuotientNonNegative(a: real, b: real)
    requires a >= 0.0 && b > 0.0
    ensures a / b >= 0.0
  {
  }

  /** Then the sum of the weights is not zero. */
  lemma UsableTotal(v: seq<real>, exp: real -> real)
    requires v != [] && SignFalls(exp) && exp(-Spread(v)) >= 0.0
    ensures Total(SoftmaxWeights(v, exp)) > 0.0
  {
    WeightsIff(v, exp);
    var k := TopWeight(v, exp);
    TotalPositive(SoftmaxWeights(v, exp), k);
  }

  lemma DenominatorPositive(b: real, q: real)
    requires b != 0.0 && q == 1.0 / b && q >= 0.0
    ensures b > 0.0
  {
    assert q * b == 1.0;
  }

  lemma NumeratorNonNegative(a: real, b: real)
    requires b > 0.0 && a / b >= 0.0
    ensures a >= 0.0
  {
    assert (a / b) * b == a;
  }

  lemma {:induction false} NonPositivePrefix(p: seq<real>, n: nat)
    requires n <= |p| && forall k :: 0 <= k < n ==> p[k] <= 0.0
    ensures Prefix(p, n) <= 0.0
  {
    if n > 0 { NonPositivePrefix(p, n - 1); }
  }

  /** Ranking does not change the total. */
  lemma RankedTotal(p: seq<real>, ps: seq<Pair>)
    requires Ranks(p, ps)
    ensures Total(Values(ps)) == Total(p)
  {
    RanksLength(p, ps);
    RankedOnce(p, ps);
    var tokens := Kept(Tagged(p), |p|);
    assert forall t :: 0 <= t < |p| ==> Tagged(p)[t].1 in tokens;
    AllIn(ps, |ps|, tokens);
    AllIn(Tagged(p), |p|, tokens);
    assert ps[..|ps|] == ps && Tagged(p)[..|p|] == Tagged(p) && Values(Tagged(p)) == p;
    SumInOrderless(ps, Tagged(p), tokens);
  }

  /** The top rank, and with it every cut, has positive probability. */
  lemma TopPositive(sorted: seq<real>, n: nat)
    requires Descending(sorted, 0, |sorted|) && 0 < n <= |sorted| && Total(sorted) > 0.0
    requires forall i :: 0 <= i < |sorted| ==> sorted[i] >= 0.0
    ensures sorted[0] > 0.0 && Prefix(sorted, n) > 0.0
  {
    if sorted[0] <= 0.0 { NonPositivePrefix(sorted, |sorted|); }
    assert Prefix(sorted, 1) == Prefix(sorted, 0) + sorted[0];
    PrefixGrows(sorted, 1, n);
  }

  lemma ShareOf(u: real, c: real, r: real)
    requires 0.0 <= u < 1.0 && c > 0.0 && r == u * c
    ensures 0.0 <= r <= c
  {
  }

  /** Fills probs with the softmax values and indices with the token numbers. */
  method SoftmaxInto(logits: array<real>, temperature: real, exp: real -> real, probs: array<real>, indices: array<int>)
    requires logits.Length > 0 && temperature > 0.0 && Total(SoftmaxWeights(Scaled(logits[..], temperature), exp)) != 0.0
    requires logits.Length == probs.Length == indices.Length && logits != probs
    modifies probs, indices
    ensures probs[..] == Softmax(Scaled(logits[..], temperature), exp)
    ensures forall k :: 0 <= k < indices.Length ==> indices[k] == k
  {
    var m := MaxScaled(logits, temperature);
    MaxScaledIs(logits[..], temperature, m);
    var sum := FillWeights(logits, temperature, m, exp, probs, indices);
    Normalise(probs, sum);
  }

  /** Sorts probabilities in token order into a ranking. */
  method Rank(probs: array<real>, indices: array<int>)
    requires probs.Length == indices.Length && forall k :: 0 <= k < indices.Length ==> indices[k] == k
    modifies probs, indices
    ensures Ranks(old(probs[..]), Pairs(probs[..], indices[..], 0, probs.Length))
  {
    ghost var p := probs[..];
    assert Pairs(probs[..], indices[..], 0, probs.Length) == Tagged(p);
    QuicksortLogits(probs, indices, 0, probs.Length - 1);
    assert Values(Pairs(probs[..], indices[..], 0, probs.Length)) == probs[..];
  }

  lemma MaxScaledIs(logits: seq<real>, temperature: real, m: real)
    requires logits != [] && temperature > 0.0
    requires exists k :: 0 <= k < |logits| && m == logits[k] / temperature
    requires forall k :: 0 <= k < |logits| ==> logits[k] / temperature <= m
    ensures m == MaxOf(Scaled(logits, temperature))
  {
    var k :| 0 <= k < |logits| && m == logits[k] / temperature;
    assert Scaled(logits, temperature)[k] == m;
    MaxIsUnique(Scaled(logits, temperature), m);
  }

  ghost predicate Distribution(p: seq<real>) {
    Total(p) > 0.0 && forall k :: 0 <= k < |p| ==> p[k] >= 0.0
  }

  /** The outcome of a sampling step: token is the one at rank k of the first n, which are a smallest set of
      tokens that reaches topP. On a distribution the token's cumulative interval contains r and it has
      positive probability. */
  ghost predicate Outcome(p: seq<real>, ps: seq<Pair>, topP: real, n: nat, r: real, k: nat, token: int) {
    && Ranks(p, ps) && |ps| == |p| && k < n <= |ps| && IsCut(Values(ps), topP, n)
    && token == ps[k].1 && Nucleus(p, topP, Kept(ps, n)) && token in Kept(ps, n) && 0 <= token < |p|
    && (Distribution(p) ==> InInterval(Values(ps), k, r) && p[token] > 0.0)
  }

  /** Cut and draw on ranked values: the draw is u times the kept sum. */
  method Pick(probs: array<real>, indices: array<int>, topP: real, u: real, ghost p: seq<real>, ghost ps: seq<Pair>)
    returns (token: int, n: nat, cumsum: real, r: real, ghost k: nat)
    requires probs.Length == indices.Length > 0 && topP > 0.0 && 0.0 <= u < 1.0
    requires Values(ps) == probs[..] && Ranks(p, ps) && forall k :: 0 <= k < |ps| ==> ps[k].1 == indices[k]
    ensures r == u * cumsum && n <= |ps| && cumsum == Prefix(Values(ps), n)
    ensures Outcome(p, ps, topP, n, r, k, token)
  {
    n, cumsum := Cut(probs, topP);
    r := u * cumsum;
    token, k := Draw(probs, indices, n, r);
    PickedWell(p, ps, topP, n, k, u, r);
  }

  /** One sampling step, from logits to token. */
  method Sample(logits: array<real>, temperature: real, topP: real, u: real, exp: real -> real)
    returns (token: int, n: nat, cumsum: real, r: real, ghost ps: seq<Pair>, ghost k: nat)
    requires logits.Length > 0 && temperature > 0.0 && topP > 0.0 && 0.0 <= u < 1.0
    requires Total(SoftmaxWeights(Scaled(logits[..], temperature), exp)) != 0.0
    ensures Outcome(Softmax(Scaled(logits[..], temperature), exp), ps, topP, n, r, k, token)
    ensures r == u * cumsum && n <= |ps| && cumsum == Prefix(Values(ps), n)
  {
    var probs := new real[logits.Length];
    var indices := new int[logits.Length];
    SoftmaxInto(logits, temperature, exp, probs, indices);
    token, n, cumsum, r, ps, k := RankAndPick(probs, indices, topP, u);
  }

  method RankAndPick(probs: array<real>, indices: array<int>, topP: real, u: real)
    returns (token: int, n: nat, cumsum: real, r: real, ghost ps: seq<Pair>, ghost k: nat)
    requires probs.Length == indices.Length > 0 && topP > 0.0 && 0.0 <= u < 1.0
    requires forall k :: 0 <= k < indices.Length ==> indices[k] == k
    modifies probs, indices
    ensures Outcome(old(probs[..]), ps, topP, n, r, k, token)
    ensures r == u * cumsum && n <= |ps| && cumsum == Prefix(Values(ps), n)
  {
    ghost var p := probs[..];
    Rank(probs, indices);
    ps := Pairs(probs[..], indices[..], 0, probs.Length);
    assert Values(ps) == probs[..];
    token, n, cumsum, r, k := Pick(probs, indices, topP, u, p, ps);
  }

  /** The draw walks to an entry of the cut; on a distribution that entry's interval contains r. */
  lemma PickedWell(p: seq<real>, ps: seq<Pair>, topP: real, n: nat, k: nat, u: real, r: real)
    requires Ranks(p, ps) && topP > 0.0 && IsCut(Values(ps), topP, n) && k < n <= |ps|
    requires 0.0 <= u < 1.0 && r == u * Prefix(Values(ps), n)
    requires r <= Prefix(Values(ps), n) ==> InInterval(Values(ps), k, r)
    ensures Outcome(p, ps, topP, n, r, k, ps[k].1)
  {
    assert Nucleus(p, topP, Kept(ps, n)) by { CutKeepsNucleus(p, ps, topP, n); }
    RankIsToken(p, ps, k);
    DrawnWell(p, ps, n, k, u, r);
  }

  lemma RankIsToken(p: seq<real>, ps: seq<Pair>, k: nat)
    requires Ranks(p, ps) && k < |ps|
    ensures |ps| == |p| && 0 <= ps[k].1 < |p|
  {
    RanksLength(p, ps);
    RankedOnce(p, ps);
  }

  lemma DrawnWell(p: seq<real>, ps: seq<Pair>, n: nat, k: nat, u: real, r: real)
    requires Ranks(p, ps) && k < n <= |ps| && 0.0 <= u < 1.0 && r == u * Prefix(Values(ps), n)
    requires r <= Prefix(Values(ps), n) ==> InInterval(Values(ps), k, r)
    ensures 0 <= ps[k].1 < |p| && (Distribution(p) ==> InInterval(Values(ps), k, r) && p[ps[k].1] > 0.0)
  {
    RankIsToken(p, ps, k);
    if Distribution(p) {
      DrawnInRange(p, ps, n, u, Prefix(Values(ps), n), r);
      PickedPositive(p, ps, n, k, r);
    }
  }

  lemma DrawnInRange(p: seq<real>, ps: seq<Pair>, n: nat, u: real, c: real, r: real)
    requires Distribution(p) && Ranks(p, ps) && 0 < n <= |ps| && 0.0 <= u < 1.0
    requires c == Prefix(Values(ps), n) && r == u * c
    ensures 0.0 <= r <= c
  {
    assert c > 0.0 by {
      RankedDistribution(p, ps);
      TopPositive(Values(ps), n);
    }
    ShareOf(u, c, r);
  }

  lemma RankedDistribution(p: seq<real>, ps: seq<Pair>)
    requires Distribution(p) && Ranks(p, ps)
    ensures Distribution(Values(ps))
  {
    RankedTotal(p, ps);
    RankedOnce(p, ps);
  }

  lemma PickedPositive(p: seq<real>, ps: seq<Pair>, n: nat, k: nat, r: real)
    requires Distribution(p) && Ranks(p, ps) && k < n <= |ps| && 0.0 <= r && InInterval(Values(ps), k, r)
    ensures 0 <= ps[k].1 < |p| && p[ps[k].1] > 0.0
  {
    RankedOnce(p, ps);
    RankedDistribution(p, ps);
    TopPositive(Values(ps), n);
    assert Prefix(Values(ps), k + 1) == Prefix(Values(ps), k) + Values(ps)[k];
  }
}
