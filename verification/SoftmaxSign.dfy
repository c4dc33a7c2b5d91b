/** When the sampler's softmax is a probability distribution: the twenty-term series of gguf.c is negative
    from about -6.2 on, so it depends on how far apart the scaled logits lie. */
module SoftmaxSign {
  import opened Quicksort
  import opened Sampling
  import ExpSeries

  /** The program's exp. */
  function Series(): real -> real { (x: real) => ExpSeries.Exp(x) }

  ghost predicate SignsOfSeries(exp: real -> real) {
    && SignFalls(exp)
    && (forall x :: -6.0 <= x <= 0.0 ==> exp(x) >= 0.0)
    && (forall x :: x <= -6.5 ==> exp(x) < 0.0)
  }

  lemma SeriesAt(x: real)
    ensures Series()(x) == ExpSeries.Exp(x)
  {
  }

  lemma SeriesSigns()
    ensures SignsOfSeries(Series())
  {
    SeriesFalls();
    forall x | -6.0 <= x <= 0.0 ensures Series()(x) >= 0.0 {
      SeriesAt(x);
      ExpSeries.NonNegativeToSix(x);
    }
    forall x | x <= -6.5 ensures Series()(x) < 0.0 {
      SeriesAt(x);
      ExpSeries.NegativeFromSixAndAHalf(x);
    }
  }

  lemma SeriesFalls()
    ensures SignFalls(Series())
  {
    assert Series()(0.0) == 1.0 by { ExpSeries.AtZero(); }
    forall x, y | y <= x <= 0.0 && Series()(x) < 0.0 ensures Series()(y) < 0.0 { StaysNegative(x, y); }
  }

  lemma StaysNegative(x: real, y: real)
    requires y <= x <= 0.0 && Series()(x) < 0.0
    ensures Series()(y) < 0.0
  {
    SeriesAt(x);
    SeriesAt(y);
    ExpSeries.NegativeFurtherLeft(-x, -y);
  }

  /** With the program's series: softmax values sum to one, and they are a probability distribution exactly when
      the series is not negative at the distance between the lowest and the highest scaled logit. */
  lemma SoftmaxIsDistributionIff(v: seq<real>, exp: real -> real)
    requires v != [] && exp == Series()
    requires Total(SoftmaxWeights(v, exp)) != 0.0
    ensures Total(Softmax(v, exp)) == 1.0
    ensures Distribution(Softmax(v, exp)) <==> exp(-Spread(v)) >= 0.0
  {
    SeriesSigns();
    DistributionIff(v, exp);
  }

  /** Within a spread of 6 the sampler works on a distribution, from 6.5 on it never does. */
  lemma SpreadDecides(v: seq<real>, exp: real -> real)
    requires v != [] && exp == Series()
    ensures Spread(v) <= 6.0 ==>
      Total(SoftmaxWeights(v, exp)) != 0.0 && Distribution(Softmax(v, exp))
    ensures Spread(v) >= 6.5 && Total(SoftmaxWeights(v, exp)) != 0.0 ==>
      !Distribution(Softmax(v, exp))
  {
    SeriesSigns();
    SpreadBounds(v, exp);
  }

  lemma SpreadBounds(v: seq<real>, exp: real -> real)
    requires v != [] && SignsOfSeries(exp)
    ensures Spread(v) <= 6.0 ==>
      Total(SoftmaxWeights(v, exp)) != 0.0 && Distribution(Softmax(v, exp))
    ensures Spread(v) >= 6.5 && Total(SoftmaxWeights(v, exp)) != 0.0 ==>
      !Distribution(Softmax(v, exp))
  {
    var spread := Spread(v);
    if spread <= 6.0 {
      assert exp(-spread) >= 0.0 by { SpreadNonNegative(v); }
      UsableTotal(v, exp);
      DistributionIff(v, exp);
    } else if spread >= 6.5 && Total(SoftmaxWeights(v, exp)) != 0.0 {
      assert exp(-spread) < 0.0;
      DistributionIff(v, exp);
    }
  }

  lemma SpreadNonNegative(v: seq<real>)
    requires v != []
    ensures Spread(v) >= 0.0
  {
  }

  // ---------------------------------------------------------------------
  // Whether the likeliest tokens come first
  // ---------------------------------------------------------------------

  /** What is needed of the program's exp: 1 at zero, less than 1 left of it. */
  ghost predicate OneAtZeroOnly(exp: real -> real) { exp(0.0) == 1.0 && forall x :: x < 0.0 ==> exp(x) < 1.0 }

  lemma SeriesIsOneAtZeroOnly()
    ensures OneAtZeroOnly(Series())
  {
    assert Series()(0.0) == 1.0 by { ExpSeries.AtZero(); }
    forall x | x < 0.0 ensures Series()(x) < 1.0 {
      SeriesAt(x);
      ExpSeries.BelowOne(-x);
    }
  }

  /** p are the weights w, which sum to total, divided by it: in the order of the weights when the sum is
      positive, negative where the weight is positive when it is not. */
  ghost predicate Divided(w: seq<real>, total: real, p: seq<real>) {
    && |w| == |p| && total != 0.0 && Total(p) == 1.0
    && (total > 0.0 ==> forall i, j :: 0 <= i < |w| && 0 <= j < |w| && w[i] <= w[j] ==> p[i] <= p[j])
    && (total > 0.0 ==> forall i, j :: 0 <= i < |w| && 0 <= j < |w| && w[i] < w[j] ==> p[i] < p[j])
    && (total < 0.0 ==> forall i :: 0 <= i < |w| && w[i] > 0.0 ==> p[i] < 0.0)
  }

  /** The weights of scaled logits v are at most 1, and 1 at the largest only. */
  ghost predicate Weigh(v: seq<real>, w: seq<real>) {
    |v| == |w| > 0 && forall k :: 0 <= k < |v| ==> w[k] <= 1.0 && (w[k] == 1.0 <==> v[k] == MaxOf(v))
  }

  lemma SoftmaxDivides(w: seq<real>)
    requires Total(w) != 0.0
    ensures Divided(w, Total(w), Normalised(w))
  {
    var total, p := Total(w), Normalised(w);
    NormalisedSumsToOne(w);
    forall i, j | 0 <= i < |w| && 0 <= j < |w|
      ensures total > 0.0 && w[i] <= w[j] ==> p[i] <= p[j]
      ensures total > 0.0 && w[i] < w[j] ==> p[i] < p[j]
    {
      QuotientsOrdered(w[i], w[j], total);
    }
    forall i | 0 <= i < |w| ensures total < 0.0 && w[i] > 0.0 ==> p[i] < 0.0 { QuotientNegative(w[i], total); }
  }

  lemma QuotientsOrdered(a: real, b: real, c: real)
    requires c != 0.0
    ensures c > 0.0 && a <= b ==> a / c <= b / c
    ensures c > 0.0 && a < b ==> a / c < b / c
  {
  }

  lemma QuotientNegative(a: real, c: real)
    requires c != 0.0
    ensures c < 0.0 && a > 0.0 ==> a / c < 0.0
  {
  }

  lemma SoftmaxWeigh(v: seq<real>, exp: real -> real)
    requires v != [] && OneAtZeroOnly(exp)
    ensures Weigh(v, SoftmaxWeights(v, exp))
  {
    var w := SoftmaxWeights(v, exp);
    forall k | 0 <= k < |v| ensures w[k] <= 1.0 && (w[k] == 1.0 <==> v[k] == MaxOf(v)) {
      assert w[k] == exp(v[k] - MaxOf(v));
    }
  }

  /** With a positive sum the ranks begin with a likeliest token. */
  lemma LikeliestFirst(v: seq<real>, w: seq<real>, total: real, p: seq<real>, ps: seq<Pair>, k: nat)
    requires Weigh(v, w) && Divided(w, total, p) && Ranks(p, ps) && total > 0.0 && k < |v| && v[k] == MaxOf(v)
    ensures |ps| == |p| && 0 <= ps[0].1 < |v| && v[ps[0].1] == MaxOf(v) && p[k] == ps[0].0
  {
    RanksLength(p, ps);
    RankedOnce(p, ps);
    var t := ps[0].1;
    assert p[k] <= ps[0].0 == p[t] by { FirstIsLargest(p, ps, k); }
    assert w[t] <= w[k];
  }

  lemma FirstIsLargest(p: seq<real>, ps: seq<Pair>, k: nat)
    requires Ranks(p, ps) && k < |p|
    ensures ps != [] && p[k] <= ps[0].0
  {
    RanksLength(p, ps);
    assert Tagged(p)[k] in multiset(Tagged(p));
    assert (p[k], k) in multiset(ps);
    var j :| 0 <= j < |ps| && ps[j] == (p[k], k);
    assert Values(ps)[0] >= Values(ps)[j];
  }

  /** With a negative sum every likeliest token has a negative value. */
  lemma LikeliestNegative(v: seq<real>, w: seq<real>, total: real, p: seq<real>)
    requires Weigh(v, w) && Divided(w, total, p) && total < 0.0
    ensures forall k :: 0 <= k < |v| && v[k] == MaxOf(v) ==> p[k] < 0.0
  {
    forall k | 0 <= k < |v| && v[k] == MaxOf(v) ensures p[k] < 0.0 { assert w[k] == 1.0; }
  }

  /** Values in descending order that sum to one reach it before the first negative one. */
  lemma {:induction false} NoNegativeKept(s: seq<real>, topP: real, n: nat, k: nat)
    requires Descending(s, 0, |s|) && Total(s) == 1.0 && topP <= 1.0 && IsCut(s, topP, n) && k < n
    ensures s[k] >= 0.0
  {
    assert Prefix(s, 0) == 0.0;
    if s[k] < 0.0 { PrefixFalls(s, k, |s|); }
  }

  lemma {:induction false} PrefixFalls(s: seq<real>, k: nat, n: nat)
    requires k <= n <= |s| && forall i :: k <= i < |s| ==> s[i] <= 0.0
    ensures Prefix(s, n) <= Prefix(s, k)
  {
    if k < n { PrefixFalls(s, k, n - 1); }
  }

  /** Whether a likeliest token is among those the cut keeps. */
  ghost predicate KeepsLikeliest(v: seq<real>, ps: seq<Pair>, n: nat)
    requires v != [] && n <= |ps|
  {
    exists t :: t in Kept(ps, n) && 0 <= t < |v| && v[t] == MaxOf(v)
  }

  /** Entry k of the ranking is not negative. */
  ghost predicate NoneNegative(p: seq<real>, ps: seq<Pair>, n: nat) {
    n <= |ps| && forall k: nat :: k < n ==> 0 <= ps[k].1 < |p| && p[ps[k].1] == ps[k].0 >= 0.0
  }

  lemma KeptNotNegative(p: seq<real>, ps: seq<Pair>, topP: real, n: nat)
    requires Ranks(p, ps) && Total(p) == 1.0 && topP <= 1.0 && IsCut(Values(ps), topP, n)
    ensures NoneNegative(p, ps, n)
  {
    RankedOnce(p, ps);
    RankedTotal(p, ps);
    forall k: nat | k < n ensures Values(ps)[k] >= 0.0 { NoNegativeKept(Values(ps), topP, n, k); }
  }

  lemma NoneKept(v: seq<real>, p: seq<real>, ps: seq<Pair>, n: nat)
    requires v != [] && |v| == |p| && NoneNegative(p, ps, n) && n > 0
    requires forall k :: 0 <= k < |v| && v[k] == MaxOf(v) ==> p[k] < 0.0
    ensures !KeepsLikeliest(v, ps, n) && v[ps[0].1] != MaxOf(v)
    ensures forall k :: 0 <= k < |v| && v[k] == MaxOf(v) ==> p[k] != ps[0].0
  {
  }

  /** A likeliest token comes first, has the first value, and is kept. */
  ghost predicate LikeliestLeads(v: seq<real>, p: seq<real>, ps: seq<Pair>, n: nat)
    requires v != [] && |v| == |p| && 0 < n <= |ps| && 0 <= ps[0].1 < |v|
  {
    v[ps[0].1] == MaxOf(v) && (exists k :: 0 <= k < |v| && v[k] == MaxOf(v) && p[k] == ps[0].0) && KeepsLikeliest(v, ps, n)
  }

  /** None of these. */
  ghost predicate LikeliestLost(v: seq<real>, p: seq<real>, ps: seq<Pair>, n: nat)
    requires v != [] && |v| == |p| && 0 < n <= |ps| && 0 <= ps[0].1 < |v|
  {
    v[ps[0].1] != MaxOf(v) && !(exists k :: 0 <= k < |v| && v[k] == MaxOf(v) && p[k] == ps[0].0) && !KeepsLikeliest(v, ps, n)
  }

  lemma RankingLeads(v: seq<real>, w: seq<real>, total: real, p: seq<real>, ps: seq<Pair>, n: nat)
    requires Weigh(v, w) && Divided(w, total, p) && Ranks(p, ps) && 0 < n <= |ps| && total > 0.0
    ensures 0 <= ps[0].1 < |v| && LikeliestLeads(v, p, ps, n)
  {
    var k: nat :| k < |v| && v[k] == MaxOf(v);
    LikeliestFirst(v, w, total, p, ps, k);
    assert ps[0].1 in Kept(ps, n);
  }

  lemma RankingLoses(v: seq<real>, w: seq<real>, total: real, p: seq<real>, ps: seq<Pair>, topP: real, n: nat)
    requires Weigh(v, w) && Divided(w, total, p) && Ranks(p, ps) && topP <= 1.0 && IsCut(Values(ps), topP, n) && total < 0.0
    ensures 0 <= ps[0].1 < |v| && LikeliestLost(v, p, ps, n)
  {
    LikeliestNegative(v, w, total, p);
    KeptNotNegative(p, ps, topP, n);
    NoneKept(v, p, ps, n);
  }

  /** With the program's series, for scaled logits v: a likeliest token is ranked first, has the first value and is
      kept by the cut if the weights have a positive sum; if they have a negative one no likeliest token is any of it. */
  lemma LikeliestFirstIff(v: seq<real>, exp: real -> real, ps: seq<Pair>, topP: real, n: nat)
    requires v != [] && exp == Series() && Total(SoftmaxWeights(v, exp)) != 0.0
    requires Ranks(Softmax(v, exp), ps) && topP <= 1.0 && IsCut(Values(ps), topP, n)
    ensures var p, total := Softmax(v, exp), Total(SoftmaxWeights(v, exp));
      && 0 <= ps[0].1 < |v|
      && (v[ps[0].1] == MaxOf(v) <==> total > 0.0)
      && ((exists k :: 0 <= k < |v| && v[k] == MaxOf(v) && p[k] == ps[0].0) <==> total > 0.0)
      && (KeepsLikeliest(v, ps, n) <==> total > 0.0)
  {
    var w, p := SoftmaxWeights(v, exp), Softmax(v, exp);
    assert Weigh(v, w) by {
      SeriesIsOneAtZeroOnly();
      SoftmaxWeigh(v, exp);
    }
    SoftmaxDivides(w);
    RankingIff(v, w, Total(w), p, ps, topP, n);
  }

  lemma RankingIff(v: seq<real>, w: seq<real>, total: real, p: seq<real>, ps: seq<Pair>, topP: real, n: nat)
    requires Weigh(v, w) && Divided(w, total, p) && Ranks(p, ps) && topP <= 1.0 && IsCut(Values(ps), topP, n)
    ensures 0 <= ps[0].1 < |v|
    ensures total > 0.0 ==> LikeliestLeads(v, p, ps, n)
    ensures !(total > 0.0) ==> LikeliestLost(v, p, ps, n)
  {
    if total > 0.0 {
      RankingLeads(v, w, total, p, ps, n);
    } else {
      RankingLoses(v, w, total, p, ps, topP, n);
    }
  }

  // ---------------------------------------------------------------------
  // An input on which they do not
  // ---------------------------------------------------------------------

  function FarLogits(): seq<real> { [0.0, -7.0] }

  /** Logits 0 and -7 at temperature 0.7: the weights have a negative sum, so the value of the likelier token is
      negative, that of the other one above 1, and a cut at 0.9 keeps the less likely token alone. */
  lemma FarLogitTakesOver(exp: real -> real, ps: seq<Pair>, n: nat)
    requires exp == Series()
    ensures Total(SoftmaxWeights(Scaled(FarLogits(), 0.7), exp)) < 0.0
    ensures var p := Softmax(Scaled(FarLogits(), 0.7), exp); p[0] < 0.0 && p[1] > 1.0
    ensures Ranks(Softmax(Scaled(FarLogits(), 0.7), exp), ps) && IsCut(Values(ps), 0.9, n) ==> n == 1 && Kept(ps, n) == {1}
  {
    var v := Scaled(FarLogits(), 0.7);
    assert exp(0.0) == 1.0 && exp(-10.0) < -1.0 by {
      ExpSeries.AtZero();
      ExpSeries.AtTen();
    }
    FarTotal(exp);
    FarValues(v, exp);
    if Ranks(Softmax(v, exp), ps) && IsCut(Values(ps), 0.9, n) {
      LikeliestFirstIff(v, exp, ps, 0.9, n);
      RanksLength(Softmax(v, exp), ps);
      FarCut(v, Softmax(v, exp), ps, n);
    }
  }

  lemma FarValues(v: seq<real>, exp: real -> real)
    requires |v| == 2 && v[0] > v[1] && exp(0.0) == 1.0 && Total(SoftmaxWeights(v, exp)) < 0.0
    ensures var p := Softmax(v, exp); p[0] < 0.0 && p[1] > 1.0
  {
    var w, p := SoftmaxWeights(v, exp), Softmax(v, exp);
    MaxIsUnique(v, v[0]);
    assert w[0] == exp(0.0);
    SoftmaxDivides(w);
    assert Prefix(p, 0) == 0.0 && Prefix(p, 1) == p[0] && Total(p) == p[0] + p[1];
  }

  lemma FarTotal(exp: real -> real)
    requires exp(0.0) == 1.0 && exp(-10.0) < -1.0
    ensures Total(SoftmaxWeights(Scaled(FarLogits(), 0.7), exp)) < 0.0
  {
    var v, w := Scaled(FarLogits(), 0.7), SoftmaxWeights(Scaled(FarLogits(), 0.7), exp);
    assert v[0] == 0.0 && v[1] == -10.0;
    MaxIsUnique(v, 0.0);
    assert w[0] == exp(0.0) && w[1] == exp(-10.0);
    assert Total(w) == w[0] + w[1] by { assert Prefix(w, 0) == 0.0 && Prefix(w, 1) == w[0]; }
  }

  lemma FarCut(v: seq<real>, p: seq<real>, ps: seq<Pair>, n: nat)
    requires |v| == |p| == |ps| == 2 && v[0] > v[1] && Ranks(p, ps) && 1 <= n <= 2 && !KeepsLikeliest(v, ps, n)
    ensures n == 1 && Kept(ps, n) == {1}
  {
    RankedOnce(p, ps);
    MaxIsUnique(v, v[0]);
    assert ps[0].1 != ps[1].1;
    forall k | 0 <= k < n ensures ps[k].1 == 1 { assert ps[k].1 in Kept(ps, n); }
    assert n == 1 && ps[0].1 in Kept(ps, n);
  }
}
