/** The formulas behind the layer functions of the forward pass, under exact arithmetic: what each part computes,
    written without the functions the loops are proved against. */
module TransformerLaws {
  import opened Recurrence
  import opened Transformer
  import opened RotationLaws

  // ---------------------------------------------------------------------
  // Exact arithmetic
  // ---------------------------------------------------------------------

  ghost predicate DivLaw(num: Numerics, a: real, b: real) { b != 0.0 ==> num.div(a, b) * b == a }

  ghost predicate RootLaw(num: Numerics, a: real) {
    a >= 0.0 ==> num.sqrt(a) >= 0.0 && num.sqrt(a) * num.sqrt(a) == a
  }

  ghost predicate ExpLaw(num: Numerics, a: real, b: real) {
    num.exp(a) > 0.0 && num.exp(a + b) == num.exp(a) * num.exp(b)
  }

  lemma SameQuotient(p: real, q: real, b: real)
    requires p * b == q * b && b != 0.0
    ensures p == q
  {
    assert (p - q) * b == 0.0;
  }

  lemma Quotient(num: Numerics, a: real, b: real, q: real)
    requires DivLaw(num, a, b) && b != 0.0 && q * b == a
    ensures num.div(a, b) == q
  {
    SameQuotient(num.div(a, b), q, b);
  }

  lemma Squares(p: real, q: real)
    requires p >= 0.0 && q >= 0.0 && p * p == q * q
    ensures p == q
  {
    LargerSquare(p, q);
    LargerSquare(q, p);
  }

  lemma LargerSquare(p: real, q: real)
    requires p >= 0.0 && q >= 0.0
    ensures p < q ==> p * p < q * q
  {
    if p < q { Grows(q - p, q + p); }
    assert (q - p) * (q + p) == q * q - p * p;
  }

  lemma Grows(a: real, b: real)
    requires a > 0.0 && b > 0.0
    ensures a * b > 0.0
  {
  }

  /** The root is the only non-negative number with that square. */
  lemma Root(num: Numerics, a: real, root: real)
    requires RootLaw(num, a) && root > 0.0 && root * root == a
    ensures num.sqrt(a) == root
  {
    LargerSquare(0.0, root);
    Squares(num.sqrt(a), root);
  }

  // ---------------------------------------------------------------------
  // Inner products
  // ---------------------------------------------------------------------

  /** The inner product with a unit vector is that element. */
  lemma {:induction false} DotUnit(a: Vector, e: Vector, i: nat, n: nat)
    requires forall k :: 0 <= k < n ==> At(e, k) == if k == i then 1.0 else 0.0
    ensures Dot(a, e, n) == if i < n then At(a, i) else 0.0
  {
    if n > 0 {
      DotUnit(a, e, i, n - 1);
      TimesUnit(At(a, n - 1), At(e, n - 1));
    }
  }

  lemma TimesUnit(a: real, e: real)
    ensures e == 1.0 ==> a * e == a
    ensures e == 0.0 ==> a * e == 0.0
  {
  }

  lemma Distribute(a: real, b: real, c: real)
    ensures a * (b + c) == a * b + a * c
  {
  }

  lemma {:induction false} DotAdds(a: Vector, b: Vector, c: Vector, s: Vector, n: nat)
    requires forall k :: 0 <= k < n ==> At(s, k) == At(b, k) + At(c, k)
    ensures Dot(a, s, n) == Dot(a, b, n) + Dot(a, c, n)
  {
    if n > 0 {
      DotAdds(a, b, c, s, n - 1);
      Distribute(At(a, n - 1), At(b, n - 1), At(c, n - 1));
    }
  }

  lemma {:induction false} DotCommutes(a: Vector, b: Vector, n: nat)
    ensures Dot(a, b, n) == Dot(b, a, n)
  {
    if n > 0 { DotCommutes(a, b, n - 1); }
  }

  /** A vector whose elements are t times smaller has an inner product t times smaller. */
  lemma {:induction false} DotScaled(r: Vector, e: Vector, c: Vector, t: real, n: nat)
    requires forall k :: 0 <= k < n ==> Scaled(At(r, k), t, At(e, k))
    ensures Dot(r, c, n) * t == Dot(e, c, n)
  {
    if n > 0 {
      DotScaled(r, e, c, t, n - 1);
      assert Scaled(At(r, n - 1), t, At(e, n - 1));
      ScaledTerm(Dot(r, c, n - 1), At(r, n - 1), At(c, n - 1), t, At(e, n - 1));
    }
  }

  ghost predicate Scaled(r: real, t: real, e: real) { r * t == e }

  lemma ScaledTerm(d: real, r: real, c: real, t: real, e: real)
    requires r * t == e
    ensures (d + r * c) * t == d * t + e * c
  {
    assert r * c * t == r * t * c;
  }

  lemma {:induction false} DotSelf(x: Vector, n: nat)
    ensures Dot(x, x, n) >= 0.0
  {
    if n > 0 {
      DotSelf(x, n - 1);
      Square(At(x, n - 1));
    }
  }

  lemma Square(a: real)
    ensures a * a >= 0.0
  {
  }

  /** A matrix sends a unit vector to its column, and sums to sums. */
  lemma MatVecColumn(m: Matrix, e: Vector, c: nat, r: nat)
    requires r < |m| && |m[r]| == |e| && c < |e|
    requires forall k :: 0 <= k < |e| ==> e[k] == if k == c then 1.0 else 0.0
    ensures MatVec(m, e)[r] == m[r][c]
  {
    DotUnit(m[r], e, c, |e|);
  }

  lemma MatVecAdds(m: Matrix, x: Vector, y: Vector)
    requires |x| == |y|
    ensures MatVec(m, Add(x, y)) == Add(MatVec(m, x), MatVec(m, y))
  {
    forall r | 0 <= r < |m| ensures Dot(m[r], Add(x, y), |x|) == Dot(m[r], x, |x|) + Dot(m[r], y, |y|) {
      DotAdds(m[r], x, y, Add(x, y), |x|);
    }
  }

  /** The residual sum: neutral with zero, the same in both orders. */
  lemma AddLaws(a: Vector, b: Vector)
    requires |a| == |b|
    ensures Add(a, b) == Add(b, a)
    ensures (forall i :: 0 <= i < |b| ==> b[i] == 0.0) ==> Add(a, b) == a
  {
  }

  // ---------------------------------------------------------------------
  // RMS norm
  // ---------------------------------------------------------------------

  lemma NormArithmetic(x: real, s: real, w: real, root: real)
    requires s * root == 1.0
    ensures x * s * w * root == x * w
  {
    assert x * s * w * root == x * w * (s * root);
  }

  lemma ScaleIs(num: Numerics, x: Vector, mean: real, root: real)
    requires 0 < |x| && (forall a, b :: DivLaw(num, a, b)) && forall a :: RootLaw(num, a)
    requires Scaled(mean, |x| as real, Dot(x, x, |x|)) && root > 0.0 && root * root == mean + num.eps
    ensures Scaled(Scale(num, x), root, 1.0)
  {
    assert DivLaw(num, Dot(x, x, |x|), |x| as real) && DivLaw(num, 1.0, root) && RootLaw(num, mean + num.eps);
    Quotient(num, Dot(x, x, |x|), |x| as real, mean);
    Root(num, mean + num.eps, root);
  }

  /** Each normalised element times the root of mean square plus eps is the element times its weight. */
  lemma NormLaw(num: Numerics, x: Vector, w: Vector, mean: real, root: real, i: nat)
    requires i < |x| == |w| && (forall a, b :: DivLaw(num, a, b)) && forall a :: RootLaw(num, a)
    requires Scaled(mean, |x| as real, Dot(x, x, |x|)) && root > 0.0 && root * root == mean + num.eps
    ensures Scaled(RmsNorm(num, x, w)[i], root, x[i] * w[i])
  {
    ScaleIs(num, x, mean, root);
    NormArithmetic(x[i], Scale(num, x), w[i], root);
  }

  // ---------------------------------------------------------------------
  // Softmax
  // ---------------------------------------------------------------------

  /** Max is the largest of the elements. */
  lemma {:induction false} MaxIs(x: Vector, n: nat) returns (k: nat)
    requires 0 < n <= |x|
    ensures k < n && Max(x, n) == x[k] && forall i :: 0 <= i < n ==> x[i] <= x[k]
  {
    k := 0;
    if n > 1 {
      k := MaxIs(x, n - 1);
      if x[n - 1] > x[k] { k := n - 1; }
    }
  }

  /** A sum is the inner product with a vector of ones. */
  lemma {:induction false} SumIs(x: Vector, ones: Vector, n: nat)
    requires forall k :: 0 <= k < n ==> At(ones, k) == 1.0
    ensures Sum(x, n) == Dot(x, ones, n)
  {
    if n > 0 {
      SumIs(x, ones, n - 1);
      TimesUnit(At(x, n - 1), At(ones, n - 1));
    }
  }

  lemma {:induction false} SumPositive(e: Vector, n: nat)
    requires 0 < n <= |e| && forall k :: 0 <= k < n ==> e[k] > 0.0
    ensures Sum(e, n) > 0.0
  {
    if n > 1 { SumPositive(e, n - 1); }
  }

  lemma Rescale(r: real, s: real, e: real, m: real, t: real, f: real)
    requires r * s == e && s * m == t && e * m == f
    ensures r * t == f
  {
    assert r * t == r * s * m;
  }

  lemma ShareIs(num: Numerics, e: Vector, i: nat)
    requires i < |e| && (forall k :: 0 <= k < |e| ==> e[k] > 0.0) && forall a, b :: DivLaw(num, a, b)
    ensures Scaled(Shares(num, e)[i], Sum(e, |e|), e[i])
  {
    SumPositive(e, |e|);
    assert DivLaw(num, e[i], Sum(e, |e|));
  }

  lemma ExpShifted(num: Numerics, v: real, top: real, e: real)
    requires e == num.exp(v - top) && forall a, b :: ExpLaw(num, a, b)
    ensures e > 0.0 && Scaled(e, num.exp(top), num.exp(v))
  {
    assert ExpLaw(num, v - top, top);
  }

  lemma ExpsShifted(num: Numerics, x: Vector, f: Vector)
    requires |x| == |f| && (forall k :: 0 <= k < |x| ==> f[k] == num.exp(x[k])) && forall a, b :: ExpLaw(num, a, b)
    ensures forall k :: 0 <= k < |x| ==> Exps(num, x)[k] > 0.0 && Scaled(Exps(num, x)[k], num.exp(Max(x, |x|)), f[k])
  {
    forall k | 0 <= k < |x|
      ensures Exps(num, x)[k] > 0.0 && Scaled(Exps(num, x)[k], num.exp(Max(x, |x|)), f[k])
    {
      ExpShifted(num, x[k], Max(x, |x|), Exps(num, x)[k]);
    }
  }

  lemma ShareOfScaled(num: Numerics, e: Vector, f: Vector, t: real, i: nat)
    requires i < |e| == |f| && forall k :: 0 <= k < |e| ==> e[k] > 0.0 && Scaled(e[k], t, f[k])
    requires forall a, b :: DivLaw(num, a, b)
    ensures Scaled(Shares(num, e)[i], Sum(f, |f|), f[i])
  {
    ShareIs(num, e, i);
    SumScaled(e, f, t, |e|);
    Rescale(Shares(num, e)[i], Sum(e, |e|), e[i], t, Sum(f, |f|), f[i]);
  }

  lemma {:induction false} SumScaled(e: Vector, f: Vector, t: real, n: nat)
    requires n <= |e| == |f| && forall k :: 0 <= k < n ==> Scaled(e[k], t, f[k])
    ensures Scaled(Sum(e, n), t, Sum(f, n))
  {
    if n > 0 {
      SumScaled(e, f, t, n - 1);
      assert Scaled(e[n - 1], t, f[n - 1]);
      Distribute(t, Sum(e, n - 1), e[n - 1]);
    }
  }

  /** Softmax is exp(x_i) divided by the sum of all exp(x_j): subtracting the largest first changes nothing. */
  lemma SoftmaxIs(num: Numerics, x: Vector, f: Vector, i: nat)
    requires i < |x| == |f| && forall k :: 0 <= k < |x| ==> f[k] == num.exp(x[k])
    requires (forall a, b :: DivLaw(num, a, b)) && forall a, b :: ExpLaw(num, a, b)
    ensures Scaled(Softmax(num, x)[i], Sum(f, |f|), f[i])
  {
    ExpsShifted(num, x, f);
    ShareOfScaled(num, Exps(num, x), f, num.exp(Max(x, |x|)), i);
  }

  // ---------------------------------------------------------------------
  // Attention
  // ---------------------------------------------------------------------

  /** A score times the root of the head size is the inner product of query and key. */
  lemma ScoreIs(num: Numerics, q: Vector, k: Vector, root: real, s: real)
    requires root > 0.0 && root * root == |q| as real && Scaled(s, root, Dot(q, k, |q|))
    requires DivLaw(num, 1.0, root) && RootLaw(num, |q| as real)
    ensures ScoreAt(num, q, k) == s
  {
    Root(num, |q| as real, root);
    OverRoot(Dot(q, k, |q|), num.div(1.0, root), root, s);
  }

  lemma OverRoot(d: real, inverse: real, root: real, s: real)
    requires inverse * root == 1.0 && root > 0.0 && s * root == d
    ensures d * inverse == s
  {
    assert d * inverse * root == d * (inverse * root);
    SameQuotient(d * inverse, s, root);
  }

  lemma {:induction false} MixIsDot(weights: Vector, vs: seq<Vector>, column: Vector, i: nat, n: nat)
    requires n <= |vs| == |column| && forall p :: 0 <= p < n ==> column[p] == At(vs[p], i)
    ensures MixAt(weights, vs, i, n) == Dot(weights, column, n)
  {
    if n > 0 { MixIsDot(weights, vs, column, i, n - 1); }
  }

  lemma ScoresAre(num: Numerics, q: Vector, ks: seq<Vector>, s: Vector, root: real)
    requires |s| == |ks| && root > 0.0 && root * root == |q| as real
    requires forall p :: 0 <= p < |ks| ==> Scaled(s[p], root, Dot(q, ks[p], |q|))
    requires (forall a, b :: DivLaw(num, a, b)) && forall a :: RootLaw(num, a)
    ensures Scores(num, q, ks) == s
  {
    forall p | 0 <= p < |ks| ensures Scores(num, q, ks)[p] == s[p] {
      assert DivLaw(num, 1.0, root) && RootLaw(num, |q| as real);
      ScoreIs(num, q, ks[p], root, s[p]);
    }
  }

  lemma SoftmaxAll(num: Numerics, x: Vector, f: Vector)
    requires |x| == |f| && forall k :: 0 <= k < |x| ==> f[k] == num.exp(x[k])
    requires (forall a, b :: DivLaw(num, a, b)) && forall a, b :: ExpLaw(num, a, b)
    ensures forall k :: 0 <= k < |x| ==> Scaled(Softmax(num, x)[k], Sum(f, |f|), f[k])
  {
    forall k | 0 <= k < |x| ensures Scaled(Softmax(num, x)[k], Sum(f, |f|), f[k]) {
      SoftmaxIs(num, x, f, k);
    }
  }

  lemma SharesScaled(num: Numerics, e: Vector)
    requires Sum(e, |e|) != 0.0 && forall a, b :: DivLaw(num, a, b)
    ensures forall k :: 0 <= k < |e| ==> Scaled(Shares(num, e)[k], Sum(e, |e|), e[k])
  {
    forall k | 0 <= k < |e| ensures Scaled(Shares(num, e)[k], Sum(e, |e|), e[k]) {
      assert DivLaw(num, e[k], Sum(e, |e|));
    }
  }

  lemma SharesTotal(num: Numerics, e: Vector)
    requires Sum(e, |e|) != 0.0 && forall a, b :: DivLaw(num, a, b)
    ensures Sum(Shares(num, e), |e|) == 1.0
  {
    SharesScaled(num, e);
    SumScaled(Shares(num, e), e, Sum(e, |e|), |e|);
    SameQuotient(Sum(Shares(num, e), |e|), 1.0, Sum(e, |e|));
  }

  /** The shares sum to one; of the exponential function nothing is needed but that its values do not sum to zero. */
  lemma SharesSumToOne(num: Numerics, x: Vector)
    requires Sum(Exps(num, x), |x|) != 0.0 && forall a, b :: DivLaw(num, a, b)
    ensures Sum(Softmax(num, x), |x|) == 1.0
  {
    SharesTotal(num, Exps(num, x));
  }

  lemma SharesOrdered(num: Numerics, e: Vector, i: nat, j: nat)
    requires i < |e| && j < |e| && e[i] <= e[j] && Sum(e, |e|) > 0.0 && forall a, b :: DivLaw(num, a, b)
    ensures Shares(num, e)[i] <= Shares(num, e)[j]
  {
    SharesScaled(num, e);
    assert Scaled(Shares(num, e)[i], Sum(e, |e|), e[i]) && Scaled(Shares(num, e)[j], Sum(e, |e|), e[j]);
    SmallerShare(Shares(num, e)[i], Shares(num, e)[j], Sum(e, |e|), e[i], e[j]);
  }

  lemma ExpAt(num: Numerics, x: Vector, top: real, i: nat)
    requires i < |x| && top == Max(x, |x|)
    ensures Exps(num, x)[i] == num.exp(x[i] - top)
  {
  }

  /** They keep the order in which exp puts the scores. */
  lemma SharesKeepOrder(num: Numerics, x: Vector, top: real, i: nat, j: nat)
    requires i < |x| && j < |x| && top == Max(x, |x|) && num.exp(x[i] - top) <= num.exp(x[j] - top)
    requires Sum(Exps(num, x), |x|) > 0.0 && forall a, b :: DivLaw(num, a, b)
    ensures Softmax(num, x)[i] <= Softmax(num, x)[j]
  {
    ExpAt(num, x, top, i);
    ExpAt(num, x, top, j);
    SharesOrdered(num, Exps(num, x), i, j);
  }

  lemma SmallerShare(p: real, q: real, t: real, e: real, f: real)
    requires t > 0.0 && p * t == e && q * t == f && e <= f
    ensures p <= q
  {
    if p > q { Grows(p - q, t); }
  }

  /** Attention of one head: with scores q . k / sqrt(d), each element is the sum of the values weighted by
      exp(score), divided by the sum of those weights. */
  lemma AttendHeadIs(num: Numerics, q: Vector, ks: seq<Vector>, vs: seq<Vector>, root: real, s: Vector, e: Vector,
                     column: Vector, i: nat)
    requires i < |q| && |ks| == |vs| == |s| == |e| == |column| && root > 0.0 && root * root == |q| as real
    requires forall p :: 0 <= p < |ks| ==> Scaled(s[p], root, Dot(q, ks[p], |q|))
    requires forall p :: 0 <= p < |ks| ==> e[p] == num.exp(s[p])
    requires forall p :: 0 <= p < |ks| ==> column[p] == At(vs[p], i)
    requires (forall a, b :: DivLaw(num, a, b)) && (forall a :: RootLaw(num, a)) && forall a, b :: ExpLaw(num, a, b)
    ensures Scaled(AttendHead(num, q, ks, vs)[i], Sum(e, |e|), Dot(e, column, |e|))
  {
    ScoresAre(num, q, ks, s, root);
    SoftmaxAll(num, s, e);
    MixScaled(Softmax(num, s), e, vs, column, Sum(e, |e|), |q|, i);
  }

  lemma MixScaled(r: Vector, e: Vector, vs: seq<Vector>, column: Vector, t: real, d: nat, i: nat)
    requires i < d && |r| == |e| == |vs| == |column| && forall p :: 0 <= p < |vs| ==> column[p] == At(vs[p], i)
    requires forall p :: 0 <= p < |r| ==> Scaled(r[p], t, e[p])
    ensures Scaled(Mix(r, vs, d)[i], t, Dot(e, column, |e|))
  {
    MixIsDot(r, vs, column, i, |vs|);
    DotScaled(r, e, column, t, |e|);
  }

  /** Key/value head g serves exactly the s query heads from g * s on. */
  lemma KvHeadServes(m: Model, s: nat, h: nat, g: nat)
    requires m.kvHeads > 0 && s > 0 && m.heads == m.kvHeads * s
    ensures KvHead(m, h) == g <==> g * s <= h < g * s + s
  {
    GroupIs(m.heads, m.kvHeads, s);
    QuotientIs(h, s, g);
  }

  lemma GroupIs(heads: nat, kv: nat, s: nat)
    requires kv > 0 && heads == kv * s
    ensures heads / kv == s
  {
    QuotientIs(heads, kv, s);
    assert s * kv == kv * s;
  }

  lemma QuotientIs(h: nat, s: nat, g: nat)
    requires s > 0
    ensures h / s == g <==> g * s <= h < g * s + s
  {
    var k := h / s;
    assert h == k * s + h % s;
    if g < k { TimesOrder(g + 1, k, s); }
    if g > k { TimesOrder(k + 1, g, s); }
  }

  lemma TimesOrder(a: nat, b: nat, s: nat)
    requires a <= b
    ensures a * s <= b * s && a * s == (a - 1) * s + s
  {
    assert (b - a) * s >= 0;
  }

  /** Query head h of the attention output reads head g of the key and value rows, s query heads to one of theirs. */
  lemma {:induction false} EachHeadAttends(num: Numerics, m: Model, q: Vector, ks: seq<Vector>, vs: seq<Vector>, n: nat,
                                           h: nat, s: nat, g: nat)
    requires h < n && m.kvHeads > 0 && s > 0 && m.heads == m.kvHeads * s && g * s <= h < g * s + s
    ensures Head(Attention(num, m, q, ks, vs, n), h, m.headDim)
         == AttendHead(num, Head(q, h, m.headDim), HeadOfRows(ks, g, m.headDim), HeadOfRows(vs, g, m.headDim))
  {
    var d := m.headDim;
    AttentionSize(num, m, q, ks, vs, n - 1);
    if h < n - 1 {
      EachHeadAttends(num, m, q, ks, vs, n - 1, h, s, g);
      Below(h, n - 1, d);
    } else {
      KvHeadServes(m, s, h, g);
    }
    HeadOfJoin(Attention(num, m, q, ks, vs, n - 1), AttentionHead(num, m, q, ks, vs, n - 1), h, n - 1, d, h * d, (n - 1) * d);
  }

  // ---------------------------------------------------------------------
  // Query, key and value
  // ---------------------------------------------------------------------

  /** y is a matrix times a vector plus a bias where there is one. */
  ghost predicate Projects(y: Vector, m: Matrix, n: Vector, bias: Option<Vector>) {
    |y| == |m| && forall i :: 0 <= i < |y| ==> y[i] == Dot(m[i], n, |n|) + if bias.Some? then At(bias.value, i) else 0.0
  }

  lemma ProjectsIs(y: Vector, m: Matrix, n: Vector, bias: Option<Vector>)
    requires Projects(y, m, n, bias)
    ensures Biased(MatVec(m, n), bias) == y
  {
  }

  lemma {:induction false} EachHeadNormed(num: Numerics, x: Vector, w: Vector, n: nat, d: nat, h: nat)
    requires h < n
    ensures Head(NormHeads(num, x, w, n, d), h, d) == RmsNorm(num, Head(x, h, d), w)
  {
    NormHeadsSize(num, x, w, n - 1, d);
    if h < n - 1 {
      EachHeadNormed(num, x, w, n - 1, d, h);
      Below(h, n - 1, d);
    }
    HeadOfJoin(NormHeads(num, x, w, n - 1, d), RmsNorm(num, Head(x, n - 1, d), w), h, n - 1, d, h * d, (n - 1) * d);
  }

  lemma HeadIs(num: Numerics, y: Vector, w: Option<Vector>, n: nat, d: nat, pos: nat, h: nat)
    requires h < n
    ensures Head(RotateHeads(num, HeadNormed(num, y, w, n, d), n, d, pos), h, d)
         == RotateHead(num, if w.Some? then RmsNorm(num, Head(y, h, d), w.value) else Head(y, h, d), pos)
  {
    EachHeadTurned(num, HeadNormed(num, y, w, n, d), n, d, pos, h);
    if w.Some? { EachHeadNormed(num, y, w.value, n, d, h); }
  }

  /** Head h of the query: projected from the normalised input, biased, normalised where there is a head norm, and
      turned for the position last. */
  lemma QueryHeadIs(num: Numerics, m: Model, w: Layer, x: Vector, pos: nat, y: Vector, h: nat)
    requires h < m.heads && Projects(y, w.q, RmsNorm(num, x, w.attnNorm), w.qBias)
    ensures Head(Query(num, m, w, x, pos), h, m.headDim)
         == RotateHead(num, if w.qNorm.Some? then RmsNorm(num, Head(y, h, m.headDim), w.qNorm.value) else Head(y, h, m.headDim), pos)
  {
    ProjectsIs(y, w.q, RmsNorm(num, x, w.attnNorm), w.qBias);
    HeadIs(num, y, w.qNorm, m.heads, m.headDim, pos, h);
  }

  /** The same for the key. */
  lemma KeyHeadIs(num: Numerics, m: Model, w: Layer, x: Vector, pos: nat, y: Vector, g: nat)
    requires g < m.kvHeads && Projects(y, w.k, RmsNorm(num, x, w.attnNorm), w.kBias)
    ensures Head(Key(num, m, w, x, pos), g, m.headDim)
         == RotateHead(num, if w.kNorm.Some? then RmsNorm(num, Head(y, g, m.headDim), w.kNorm.value) else Head(y, g, m.headDim), pos)
  {
    ProjectsIs(y, w.k, RmsNorm(num, x, w.attnNorm), w.kBias);
    HeadIs(num, y, w.kNorm, m.kvHeads, m.headDim, pos, g);
  }

  /** The value is projected and biased only. */
  lemma ValueIs(num: Numerics, w: Layer, x: Vector, y: Vector)
    requires Projects(y, w.v, RmsNorm(num, x, w.attnNorm), w.vBias)
    ensures Value(num, w, x) == y
  {
    ProjectsIs(y, w.v, RmsNorm(num, x, w.attnNorm), w.vBias);
  }

  // ---------------------------------------------------------------------
  // Feed-forward half, layer and logits
  // ---------------------------------------------------------------------

  lemma GluArithmetic(q: real, den: real, g: real, u: real, s: real)
    requires q * den == g && den > 0.0 && s * den == g * u
    ensures q * u == s
  {
    assert q * u * den == q * den * u;
    SameQuotient(q * u, s, den);
  }

  /** A gated element times 1 + exp(-gate) is gate times up. */
  lemma GluIs(num: Numerics, g: Vector, u: Vector, i: nat, s: real)
    requires i < |g| == |u| && s * (1.0 + num.exp(-g[i])) == g[i] * u[i]
    requires (forall a, b :: DivLaw(num, a, b)) && forall a, b :: ExpLaw(num, a, b)
    ensures SwiGlu(num, g, u)[i] == s
  {
    var den := 1.0 + num.exp(-g[i]);
    assert ExpLaw(num, -g[i], 0.0) && DivLaw(num, g[i], den);
    GluArithmetic(num.div(g[i], den), den, g[i], u[i], s);
  }

  ghost predicate Gated(num: Numerics, s: Vector, g: Vector, u: Vector) {
    && |s| == |g| == |u|
    && forall i :: 0 <= i < |s| ==> s[i] * (1.0 + num.exp(-g[i])) == g[i] * u[i]
  }

  lemma GatedIs(num: Numerics, s: Vector, g: Vector, u: Vector)
    requires Gated(num, s, g, u) && (forall a, b :: DivLaw(num, a, b)) && forall a, b :: ExpLaw(num, a, b)
    ensures SwiGlu(num, g, u) == s
  {
    forall i | 0 <= i < |s| ensures SwiGlu(num, g, u)[i] == s[i] { GluIs(num, g, u, i, s[i]); }
  }

  /** The feed-forward half adds the down projection of the gated elements to its input. */
  lemma FeedForwardIs(num: Numerics, w: Layer, x: Vector, g: Vector, u: Vector, s: Vector, j: nat)
    requires Projects(g, w.gate, RmsNorm(num, x, w.ffnNorm), None) && Projects(u, w.up, RmsNorm(num, x, w.ffnNorm), None)
    requires Gated(num, s, g, u) && j < |x| == |w.down|
    requires (forall a, b :: DivLaw(num, a, b)) && forall a, b :: ExpLaw(num, a, b)
    ensures FeedForward(num, w, x)[j] == x[j] + Dot(w.down[j], s, |s|)
  {
    ProjectsIs(g, w.gate, RmsNorm(num, x, w.ffnNorm), None);
    ProjectsIs(u, w.up, RmsNorm(num, x, w.ffnNorm), None);
    GatedIs(num, s, g, u);
  }

  /** A layer adds the output projection of its attention to its input and sends that through the feed-forward
      half. */
  lemma LayerIs(num: Numerics, m: Model, w: Layer, x: Vector, ks: seq<Vector>, vs: seq<Vector>, pos: nat, a: Vector, y: Vector)
    requires a == Attention(num, m, Query(num, m, w, x, pos), ks, vs, m.heads) && |a| == m.heads * m.headDim
    requires |y| == |x| == |w.o| && forall j :: 0 <= j < |x| ==> y[j] == x[j] + Dot(w.o[j], a, |a|)
    ensures LayerOut(num, m, w, x, ks, vs, pos) == FeedForward(num, w, y)
  {
    ResidualIs(x, w.o, a, y);
  }

  lemma ResidualIs(x: Vector, o: Matrix, a: Vector, y: Vector)
    requires |y| == |x| == |o| && forall j :: 0 <= j < |x| ==> y[j] == x[j] + Dot(o[j], a, |a|)
    ensures Add(x, MatVec(o, a)) == y
  {
    forall j | 0 <= j < |x| ensures Add(x, MatVec(o, a))[j] == y[j] { assert MatVec(o, a)[j] == Dot(o[j], a, |a|); }
  }

  /** The vector of position p after layer l: the layer applied to its input and to the key and value rows of the
      positions up to p. */
  lemma HiddenIs(num: Numerics, m: Model, tokens: seq<int>, l: nat, p: nat, ks: seq<Vector>, vs: seq<Vector>)
    requires l < |m.layers| && p < |tokens| && |ks| == |vs| == p + 1
    requires forall j :: 0 <= j <= p ==> ks[j] == Key(num, m, m.layers[l], Hidden(StepsOf(num, m), tokens, l, j), j)
    requires forall j :: 0 <= j <= p ==> vs[j] == Value(num, m.layers[l], Hidden(StepsOf(num, m), tokens, l, j))
    ensures Hidden(StepsOf(num, m), tokens, l + 1, p)
         == LayerOut(num, m, m.layers[l], Hidden(StepsOf(num, m), tokens, l, p), ks, vs, p)
  {
    HiddenUnfolds(StepsOf(num, m), tokens, l, p, ks, vs);
  }

  /** Before the first layer stands the embedding row of the token. */
  lemma EmbeddingIs(num: Numerics, m: Model, tokens: seq<int>, p: nat)
    requires p < |tokens| && 0 <= tokens[p] < |m.embd|
    ensures Hidden(StepsOf(num, m), tokens, 0, p) == m.embd[tokens[p]]
  {
  }

  /** The logit of token t is the inner product of row t of the output matrix with the normalised last vector. */
  lemma LogitIs(num: Numerics, m: Model, tokens: seq<int>, p: nat, t: nat, y: Vector)
    requires p < |tokens| && t < |m.out|
    requires y == RmsNorm(num, Hidden(StepsOf(num, m), tokens, |m.layers|, p), m.outNorm)
    ensures |Logits(num, m, tokens, p)| == |m.out| && Logits(num, m, tokens, p)[t] == Dot(m.out[t], y, |y|)
  {
  }
}
