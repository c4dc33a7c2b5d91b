/** What the rotary embedding of gguf.c is for: each pair of a head is turned by its own angle, lengths stay,
    turns add up, and the inner product of a query and a key depends on how far apart they stand only. */
module RotationLaws {
  import opened Transformer

  ghost predicate SumLaw(num: Numerics, a: real, b: real) {
    && num.cos(a + b) == num.cos(a) * num.cos(b) - num.sin(a) * num.sin(b)
    && num.sin(a + b) == num.sin(a) * num.cos(b) + num.cos(a) * num.sin(b)
  }

  ghost predicate CircleLaw(num: Numerics, a: real) { num.cos(a) * num.cos(a) + num.sin(a) * num.sin(a) == 1.0 }

  // ---------------------------------------------------------------------
  // Arithmetic of one plane
  // ---------------------------------------------------------------------

  lemma Units(p: real, q: real, c: real, s: real, r1: real, r2: real)
    requires r1 == p * c - q * s && r2 == p * s + q * c
    ensures p == 1.0 && q == 0.0 ==> r1 == c && r2 == s
    ensures p == 0.0 && q == 1.0 ==> r1 == -s && r2 == c
  {
  }

  lemma Spread(a: real, b: real, c: real, d: real)
    ensures (a - b) * (c - d) == a * c - a * d - b * c + b * d
    ensures (a + b) * (c + d) == a * c + a * d + b * c + b * d
  {
  }

  lemma Regroup(p: real, c: real, u: real, d: real)
    ensures (p * c) * (u * d) == (p * u) * (c * d)
  {
  }

  lemma Combine(x: real, c: real, s: real)
    requires c + s == 1.0
    ensures x * c + x * s == x
  {
    assert x * c + x * s == x * (c + s);
  }

  /** A common turn keeps the inner product of two plane vectors. */
  lemma TurnKeeps(c: real, s: real, p: real, q: real, u: real, v: real)
    requires c * c + s * s == 1.0
    ensures (p * c - q * s) * (u * c - v * s) + (p * s + q * c) * (u * s + v * c) == p * u + q * v
  {
    Spread(p * c, q * s, u * c, v * s);
    Spread(p * s, q * c, u * s, v * c);
    Regroup(p, c, u, c); Regroup(p, c, v, s); Regroup(q, s, u, c); Regroup(q, s, v, s);
    Regroup(p, s, u, s); Regroup(p, s, v, c); Regroup(q, c, u, s); Regroup(q, c, v, c);
    Combine(p * u, c * c, s * s);
    Combine(q * v, c * c, s * s);
  }

  /** Two turns one after the other are the turn by the sum. */
  lemma TurnsCompose(c1: real, s1: real, c2: real, s2: real, p: real, q: real, c: real, s: real)
    requires c == c1 * c2 - s1 * s2 && s == s1 * c2 + c1 * s2
    ensures p * c - q * s == (p * c1 - q * s1) * c2 - (p * s1 + q * c1) * s2
    ensures p * s + q * c == (p * c1 - q * s1) * s2 + (p * s1 + q * c1) * c2
  {
  }

  lemma AnglesAdd(m: nat, t: nat, f: real)
    ensures (m + t) as real * f == m as real * f + t as real * f
  {
  }

  // ---------------------------------------------------------------------
  // A vector whose pairs are those of another one turned
  // ---------------------------------------------------------------------

  /** The angle of pair i, i + 1 of a head of d elements at a position: pos / 10000^(i / d). */
  function Angle(num: Numerics, pos: nat, i: nat, d: nat): real {
    pos as real * num.div(1.0, num.pow(10000.0, num.div(i as real, d as real)))
  }

  ghost predicate PairTurned(r: Vector, x: Vector, n: nat, c: real, s: real) {
    && 2 * n + 1 < |x| == |r|
    && r[2 * n] == x[2 * n] * c - x[2 * n + 1] * s
    && r[2 * n + 1] == x[2 * n] * s + x[2 * n + 1] * c
  }

  ghost predicate PairTurnedAt(num: Numerics, r: Vector, x: Vector, pos: nat, n: nat) {
    PairTurned(r, x, n, num.cos(Angle(num, pos, 2 * n, |x|)), num.sin(Angle(num, pos, 2 * n, |x|)))
  }

  ghost predicate TurnedFor(num: Numerics, r: Vector, x: Vector, pos: nat) {
    |r| == |x| && forall n: nat :: 2 * n + 1 < |x| ==> PairTurnedAt(num, r, x, pos, n)
  }

  /** The inner product of pair n of two vectors. */
  ghost function PairDot(x: Vector, y: Vector, n: nat): real
    requires 2 * n + 1 < |x| == |y|
  {
    x[2 * n] * y[2 * n] + x[2 * n + 1] * y[2 * n + 1]
  }

  lemma PairKept(r: Vector, t: Vector, x: Vector, y: Vector, n: nat, c: real, s: real)
    requires |x| == |y| && PairTurned(r, x, n, c, s) && PairTurned(t, y, n, c, s) && c * c + s * s == 1.0
    ensures PairDot(r, t, n) == PairDot(x, y, n)
  {
    TurnKeeps(c, s, x[2 * n], x[2 * n + 1], y[2 * n], y[2 * n + 1]);
  }

  lemma PairKeptAt(num: Numerics, r: Vector, t: Vector, x: Vector, y: Vector, pos: nat, n: nat)
    requires 2 * n + 1 < |x| == |y| && TurnedFor(num, r, x, pos) && TurnedFor(num, t, y, pos)
    requires forall a :: CircleLaw(num, a)
    ensures PairDot(r, t, n) == PairDot(x, y, n)
  {
    assert PairTurnedAt(num, r, x, pos, n) && PairTurnedAt(num, t, y, pos, n);
    var a := Angle(num, pos, 2 * n, |x|);
    assert CircleLaw(num, a);
    PairKept(r, t, x, y, n, num.cos(a), num.sin(a));
  }

  lemma DotPair(x: Vector, y: Vector, n: nat)
    requires 2 * n + 1 < |x| == |y|
    ensures Dot(x, y, 2 * (n + 1)) == Dot(x, y, 2 * n) + PairDot(x, y, n)
  {
    assert Dot(x, y, 2 * n + 1) == Dot(x, y, 2 * n) + x[2 * n] * y[2 * n];
  }

  lemma {:induction false} DotKept(r: Vector, t: Vector, x: Vector, y: Vector, n: nat)
    requires 2 * n <= |x| == |y| == |r| == |t|
    requires forall k: nat :: k < n ==> PairDot(r, t, k) == PairDot(x, y, k)
    ensures Dot(r, t, 2 * n) == Dot(x, y, 2 * n)
  {
    if n > 0 {
      DotKept(r, t, x, y, n - 1);
      DotPair(x, y, n - 1);
      DotPair(r, t, n - 1);
    }
  }

  lemma PairComposes(x: Vector, y: Vector, z: Vector, w: Vector, n: nat,
                     num: Numerics, a: real, b: real)
    requires PairTurned(y, x, n, num.cos(a), num.sin(a)) && PairTurned(z, y, n, num.cos(b), num.sin(b))
    requires PairTurned(w, x, n, num.cos(a + b), num.sin(a + b)) && SumLaw(num, a, b)
    ensures w[2 * n] == z[2 * n] && w[2 * n + 1] == z[2 * n + 1]
  {
    TurnsCompose(num.cos(a), num.sin(a), num.cos(b), num.sin(b), x[2 * n], x[2 * n + 1], num.cos(a + b), num.sin(a + b));
  }

  lemma PairComposesAt(num: Numerics, x: Vector, y: Vector, z: Vector, w: Vector, m: nat, t: nat, n: nat)
    requires 2 * n + 1 < |x| && TurnedFor(num, y, x, m) && TurnedFor(num, z, y, t) && TurnedFor(num, w, x, m + t)
    requires forall a, b :: SumLaw(num, a, b)
    ensures w[2 * n] == z[2 * n] && w[2 * n + 1] == z[2 * n + 1]
  {
    var a, b := Angle(num, m, 2 * n, |x|), Angle(num, t, 2 * n, |x|);
    assert Angle(num, m + t, 2 * n, |x|) == a + b by {
      AnglesAdd(m, t, num.div(1.0, num.pow(10000.0, num.div((2 * n) as real, |x| as real))));
    }
    assert PairTurnedAt(num, y, x, m, n) && PairTurnedAt(num, z, y, t, n) && PairTurnedAt(num, w, x, m + t, n);
    assert SumLaw(num, a, b);
    PairComposes(x, y, z, w, n, num, a, b);
  }

  // ---------------------------------------------------------------------
  // One head
  // ---------------------------------------------------------------------

  lemma HeadPairTurned(num: Numerics, x: Vector, pos: nat, n: nat)
    requires 2 * n + 1 < |x|
    ensures PairTurnedAt(num, RotateHead(num, x, pos), x, pos, n)
  {
    var i := 2 * n;
    assert i % 2 == 0 && (i + 1) % 2 == 1;
    assert Angle(num, pos, i, |x|) == Theta(num, pos, i, |x|);
  }

  lemma HeadTurned(num: Numerics, x: Vector, pos: nat)
    ensures TurnedFor(num, RotateHead(num, x, pos), x, pos)
  {
    forall n: nat | 2 * n + 1 < |x| ensures PairTurnedAt(num, RotateHead(num, x, pos), x, pos, n) {
      HeadPairTurned(num, x, pos, n);
    }
  }

  /** The first unit vector of a plane goes to the point of its angle on the unit circle, the second one a right
      angle further. */
  lemma UnitsTurn(num: Numerics, x: Vector, pos: nat, n: nat)
    requires 2 * n + 1 < |x|
    ensures var a := pos as real * num.div(1.0, num.pow(10000.0, num.div((2 * n) as real, |x| as real)));
      var r := RotateHead(num, x, pos);
      && (x[2 * n] == 1.0 && x[2 * n + 1] == 0.0 ==> r[2 * n] == num.cos(a) && r[2 * n + 1] == num.sin(a))
      && (x[2 * n] == 0.0 && x[2 * n + 1] == 1.0 ==> r[2 * n] == -num.sin(a) && r[2 * n + 1] == num.cos(a))
  {
    assert Angle(num, pos, 2 * n, |x|) == pos as real * num.div(1.0, num.pow(10000.0, num.div((2 * n) as real, |x| as real)));
    HeadTurned(num, x, pos);
    UnitPair(num, RotateHead(num, x, pos), x, pos, n);
  }

  lemma UnitPair(num: Numerics, r: Vector, x: Vector, pos: nat, n: nat)
    requires 2 * n + 1 < |x| && TurnedFor(num, r, x, pos)
    ensures var a := Angle(num, pos, 2 * n, |x|);
      && (x[2 * n] == 1.0 && x[2 * n + 1] == 0.0 ==> r[2 * n] == num.cos(a) && r[2 * n + 1] == num.sin(a))
      && (x[2 * n] == 0.0 && x[2 * n + 1] == 1.0 ==> r[2 * n] == -num.sin(a) && r[2 * n + 1] == num.cos(a))
  {
    var a := Angle(num, pos, 2 * n, |x|);
    assert PairTurnedAt(num, r, x, pos, n);
    Units(x[2 * n], x[2 * n + 1], num.cos(a), num.sin(a), r[2 * n], r[2 * n + 1]);
  }

  /** Every pair keeps its length. */
  lemma LengthKept(num: Numerics, x: Vector, pos: nat, n: nat)
    requires 2 * n + 1 < |x| && forall a :: CircleLaw(num, a)
    ensures var r := RotateHead(num, x, pos);
      r[2 * n] * r[2 * n] + r[2 * n + 1] * r[2 * n + 1] == x[2 * n] * x[2 * n] + x[2 * n + 1] * x[2 * n + 1]
  {
    HeadTurned(num, x, pos);
    PairKeptAt(num, RotateHead(num, x, pos), RotateHead(num, x, pos), x, x, pos, n);
  }

  lemma AllKept(num: Numerics, r: Vector, t: Vector, x: Vector, y: Vector, pos: nat)
    requires |x| == |y| && |x| % 2 == 0 && TurnedFor(num, r, x, pos) && TurnedFor(num, t, y, pos)
    requires forall a :: CircleLaw(num, a)
    ensures Dot(r, t, |x|) == Dot(x, y, |x|)
  {
    forall k: nat | k < |x| / 2 ensures PairDot(r, t, k) == PairDot(x, y, k) {
      PairKeptAt(num, r, t, x, y, pos, k);
    }
    DotKept(r, t, x, y, |x| / 2);
  }

  /** Turning both vectors for the same position keeps their inner product. */
  lemma CommonTurnKeeps(num: Numerics, x: Vector, y: Vector, pos: nat)
    requires |x| == |y| && |x| % 2 == 0 && forall a :: CircleLaw(num, a)
    ensures Dot(RotateHead(num, x, pos), RotateHead(num, y, pos), |x|) == Dot(x, y, |x|)
  {
    HeadTurned(num, x, pos);
    HeadTurned(num, y, pos);
    AllKept(num, RotateHead(num, x, pos), RotateHead(num, y, pos), x, y, pos);
  }

  lemma AllCompose(num: Numerics, x: Vector, y: Vector, z: Vector, w: Vector, m: nat, t: nat)
    requires |x| % 2 == 0 && TurnedFor(num, y, x, m) && TurnedFor(num, z, y, t) && TurnedFor(num, w, x, m + t)
    requires forall a, b :: SumLaw(num, a, b)
    ensures w == z
  {
    forall i | 0 <= i < |x| ensures w[i] == z[i] {
      PairComposesAt(num, x, y, z, w, m, t, i / 2);
    }
  }

  /** Turning for position m and then for t is turning for m + t. */
  lemma TurnsAddUp(num: Numerics, x: Vector, m: nat, t: nat)
    requires |x| % 2 == 0 && forall a, b :: SumLaw(num, a, b)
    ensures RotateHead(num, x, m + t) == RotateHead(num, RotateHead(num, x, m), t)
  {
    HeadTurned(num, x, m);
    HeadTurned(num, RotateHead(num, x, m), t);
    HeadTurned(num, x, m + t);
    AllCompose(num, x, RotateHead(num, x, m), RotateHead(num, RotateHead(num, x, m), t), RotateHead(num, x, m + t), m, t);
  }

  lemma TurnedFurther(num: Numerics, x: Vector, m: nat, t: nat, m': nat)
    requires |x| % 2 == 0 && m' == m + t && forall a, b :: SumLaw(num, a, b)
    ensures TurnedFor(num, RotateHead(num, x, m'), RotateHead(num, x, m), t)
  {
    TurnsAddUp(num, x, m, t);
    HeadTurned(num, RotateHead(num, x, m), t);
  }

  lemma Shifted(num: Numerics, q: Vector, k: Vector, m: nat, n: nat, t: nat, m': nat, n': nat)
    requires |q| == |k| && |q| % 2 == 0 && m' == m + t && n' == n + t
    requires (forall a, b :: SumLaw(num, a, b)) && forall a :: CircleLaw(num, a)
    ensures Dot(RotateHead(num, q, m'), RotateHead(num, k, n'), |q|)
         == Dot(RotateHead(num, q, m), RotateHead(num, k, n), |q|)
  {
    TurnedFurther(num, q, m, t, m');
    TurnedFurther(num, k, n, t, n');
    AllKept(num, RotateHead(num, q, m'), RotateHead(num, k, n'), RotateHead(num, q, m), RotateHead(num, k, n), t);
  }

  /** The inner product of a query turned for one position with a key turned for another depends on the distance of
      the positions only. */
  lemma RelativePositions(num: Numerics, q: Vector, k: Vector, m: nat, n: nat, m': nat, n': nat)
    requires |q| == |k| && |q| % 2 == 0 && m - n == m' - n'
    requires (forall a, b :: SumLaw(num, a, b)) && forall a :: CircleLaw(num, a)
    ensures Dot(RotateHead(num, q, m), RotateHead(num, k, n), |q|)
         == Dot(RotateHead(num, q, m'), RotateHead(num, k, n'), |q|)
  {
    if m <= m' { Shifted(num, q, k, m, n, m' - m, m', n'); } else { Shifted(num, q, k, m', n', m - m', m, n); }
  }

  // ---------------------------------------------------------------------
  // All heads of a vector
  // ---------------------------------------------------------------------

  lemma HeadOfJoin(x: Vector, y: Vector, h: nat, n: nat, d: nat, hd: nat, nd: nat)
    requires |x| == nd && |y| == d && h <= n && hd == h * d && nd == n * d && (h < n ==> hd + d <= nd)
    ensures h < n ==> Head(x + y, h, d) == Head(x, h, d)
    ensures h == n ==> Head(x + y, h, d) == y
  {
  }

  lemma Below(h: nat, n: nat, d: nat)
    requires h < n
    ensures h * d + d <= n * d
  {
    assert (n - h - 1) * d >= 0;
    assert n * d == (n - h - 1) * d + h * d + d;
  }

  /** Head h of the turned vector is the turned head h. */
  lemma {:induction false} EachHeadTurned(num: Numerics, x: Vector, n: nat, d: nat, pos: nat, h: nat)
    requires h < n
    ensures Head(RotateHeads(num, x, n, d, pos), h, d) == RotateHead(num, Head(x, h, d), pos)
  {
    RotateHeadsSize(num, x, n - 1, d, pos);
    if h < n - 1 {
      EachHeadTurned(num, x, n - 1, d, pos, h);
      Below(h, n - 1, d);
    }
    HeadOfJoin(RotateHeads(num, x, n - 1, d, pos), RotateHead(num, Head(x, n - 1, d), pos), h, n - 1, d, h * d, (n - 1) * d);
  }
}
