/** The loops of the forward pass over its float buffers, each against the vector function it computes. */
module VectorOps {
  import opened Transformer

  lemma {:induction false} DotSame(a: Vector, b: Vector, a': Vector, b': Vector, n: nat)
    requires forall i :: 0 <= i < n ==> At(a, i) == At(a', i) && At(b, i) == At(b', i)
    ensures Dot(a, b, n) == Dot(a', b', n)
  {
    if n > 0 { DotSame(a, b, a', b', n - 1); }
  }

  /** Inner product of two stretches of n elements. */
  method DotAt(x: array<real>, xo: nat, y: array<real>, yo: nat, n: nat, ghost a: Vector, ghost b: Vector) returns (s: real)
    requires xo + n <= x.Length && yo + n <= y.Length
    requires a == x[xo..xo + n] && b == y[yo..yo + n]
    ensures s == Dot(a, b, n)
  {
    s := 0.0;
    for i := 0 to n
      invariant s == Dot(a, b, i)
    {
      assert At(a, i) == x[xo + i] && At(b, i) == y[yo + i];
      s := s + x[xo + i] * y[yo + i];
    }
  }

  lemma SameProduct(a: real, b: real, c: real, a': real, b': real, c': real)
    requires a == a' && b == b' && c == c'
    ensures a * b * c == a' * b' * c'
  {
  }

  /** rmsnorm. */
  method RmsNormInto(num: Numerics, o: array<real>, x: array<real>, w: Vector)
    requires o.Length == x.Length == |w| && o != x
    modifies o
    ensures o[..] == RmsNorm(num, x[..], w)
  {
    ghost var v := x[..];
    var sum := DotAt(x, 0, x, 0, x.Length, v, v);
    var scale := num.div(1.0, num.sqrt(num.div(sum, x.Length as real) + num.eps));
    assert scale == Scale(num, v);
    for i := 0 to x.Length
      invariant forall k :: 0 <= k < i ==> o[k] == NormAt(num, v, w, k)
    {
      o[i] := x[i] * scale * w[i];
      SameProduct(x[i], scale, w[i], At(v, i), Scale(num, v), At(w, i));
    }
  }

  /** A buffer whose front holds the product of a matrix and a vector. */
  function WithProduct(o: Vector, m: Matrix, x: Vector): Vector
    requires |m| <= |o|
  {
    MatVec(m, x) + o[|m|..]
  }

  /** mat_vec_mul: one inner product per row; elements past the last row stay. */
  method MatVecInto(o: array<real>, m: Matrix, x: array<real>)
    requires |m| <= o.Length && IsMatrix(m, |m|, x.Length) && o != x
    modifies o
    ensures o[..|m|] == MatVec(m, x[..]) && o[|m|..] == old(o[|m|..])
    ensures o[..] == WithProduct(old(o[..]), m, x[..])
  {
    for r := 0 to |m|
      invariant forall k :: 0 <= k < r ==> o[k] == Dot(m[k], x[..], x.Length)
      invariant o[|m|..] == old(o[|m|..])
    {
      var s := RowDot(m[r], x);
      o[r] := s;
    }
  }

  method RowDot(row: Vector, x: array<real>) returns (s: real)
    requires |row| == x.Length
    ensures s == Dot(row, x[..], x.Length)
  {
    s := 0.0;
    for c := 0 to x.Length
      invariant s == Dot(row, x[..], c)
    {
      s := s + row[c] * x[c];
    }
  }

  /** Adds an optional bias in place. */
  method AddBias(a: array<real>, bias: Option<Vector>)
    requires Sized(bias, a.Length)
    modifies a
    ensures a[..] == Biased(old(a[..]), bias)
  {
    if bias.Some? {
      ghost var was := a[..];
      for i := 0 to a.Length
        invariant forall k :: 0 <= k < i ==> a[k] == was[k] + bias.value[k]
        invariant forall k :: i <= k < a.Length ==> a[k] == was[k]
      {
        a[i] := a[i] + bias.value[i];
      }
    }
  }

  /** Adds the first a.Length elements of b in place. */
  method AddInto(a: array<real>, b: array<real>)
    requires a.Length <= b.Length && a != b
    modifies a
    ensures a[..] == Add(old(a[..]), b[..a.Length])
  {
    ghost var was := a[..];
    for i := 0 to a.Length
      invariant forall k :: 0 <= k < i ==> a[k] == was[k] + b[k]
      invariant forall k :: i <= k < a.Length ==> a[k] == was[k]
    {
      a[i] := a[i] + b[i];
    }
  }

  method SwiGluInto(num: Numerics, o: array<real>, gate: array<real>, up: array<real>)
    requires o.Length == gate.Length == up.Length && o != gate && o != up
    modifies o
    ensures o[..] == SwiGlu(num, gate[..], up[..])
  {
    ghost var g, u := gate[..], up[..];
    for i := 0 to o.Length
      invariant forall k :: 0 <= k < i ==> o[k] == GluAt(num, g, u, k)
    {
      var silu := num.div(gate[i], 1.0 + num.exp(-gate[i]));
      o[i] := silu * up[i];
      SameProduct(silu, up[i], 1.0, num.div(At(g, i), 1.0 + num.exp(-At(g, i))), At(u, i), 1.0);
    }
  }

  // ---------------------------------------------------------------------
  // One head in place
  // ---------------------------------------------------------------------

  /** a and b agree outside the stretch of n elements from base. */
  ghost predicate OnlyWithin(a: Vector, b: Vector, base: nat, n: nat) {
    |a| == |b| && forall i :: 0 <= i < |a| && !(base <= i < base + n) ==> a[i] == b[i]
  }

  method NormHeadAt(num: Numerics, a: array<real>, base: nat, d: nat, w: Vector)
    requires base + d <= a.Length && |w| == d
    modifies a
    ensures OnlyWithin(old(a[..]), a[..], base, d)
    ensures a[base..base + d] == RmsNorm(num, old(a[base..base + d]), w)
  {
    ghost var x := a[base..base + d];
    var sum := DotAt(a, base, a, base, d, x, x);
    var scale := num.div(1.0, num.sqrt(num.div(sum, d as real) + num.eps));
    assert scale == Scale(num, x);
    for i := 0 to d
      invariant forall k :: 0 <= k < i ==> a[base + k] == NormAt(num, x, w, k)
      invariant forall k :: i <= k < d ==> a[base + k] == x[k]
      invariant OnlyWithin(old(a[..]), a[..], base, d)
    {
      SameProduct(a[base + i], scale, w[i], At(x, i), Scale(num, x), At(w, i));
      a[base + i] := a[base + i] * scale * w[i];
    }
  }

  /** Cosine and sine of a pair's angle. */
  method Turn(num: Numerics, pos: nat, i: nat, d: nat) returns (c: real, s: real)
    ensures c == num.cos(Theta(num, pos, i, d)) && s == num.sin(Theta(num, pos, i, d))
  {
    var theta := pos as real * num.div(1.0, num.pow(10000.0, num.div(i as real, d as real)));
    assert theta == Theta(num, pos, i, d);
    c, s := num.cos(theta), num.sin(theta);
  }

  /** Turns one pair. */
  method RotatePair(num: Numerics, a: array<real>, base: nat, i: nat, d: nat, c: real, s: real,
                    ghost pos: nat, ghost x: Vector, ghost y: Vector, ghost n: nat)
    requires base + d <= a.Length && i + 1 < |x| == d && i == 2 * n && y == RotateHead(num, x, pos)
    requires forall k :: base <= k < base + i ==> a[k] == y[k - base]
    requires forall k :: base + i <= k < base + d ==> a[k] == x[k - base]
    requires c == num.cos(Theta(num, pos, i, d)) && s == num.sin(Theta(num, pos, i, d))
    modifies a
    ensures forall k :: base <= k < base + i + 2 ==> a[k] == y[k - base]
    ensures forall k :: base + i + 2 <= k < base + d ==> a[k] == x[k - base]
    ensures OnlyWithin(old(a[..]), a[..], base, d)
  {
    var v1, v2 := Rotate(a[base + i], a[base + i + 1], c, s);
    assert v1 == y[i] && v2 == y[i + 1] by { PairIs(num, x, pos, n, c, s); }
    StorePair(a, base, i, d, v1, v2, x, y);
  }

  method Rotate(e1: real, e2: real, c: real, s: real) returns (v1: real, v2: real)
    ensures v1 == Turned(e1, e2, c, s) && v2 == Turned2(e1, e2, c, s)
  {
    v1 := e1 * c - e2 * s;
    v2 := e1 * s + e2 * c;
  }

  /** Storing the turned pair finishes two more elements. */
  method StorePair(a: array<real>, base: nat, i: nat, d: nat, v1: real, v2: real, ghost x: Vector, ghost y: Vector)
    requires base + d <= a.Length && i + 1 < d == |x| == |y| && v1 == y[i] && v2 == y[i + 1]
    requires forall k :: base <= k < base + i ==> a[k] == y[k - base]
    requires forall k :: base + i <= k < base + d ==> a[k] == x[k - base]
    modifies a
    ensures forall k :: base <= k < base + i + 2 ==> a[k] == y[k - base]
    ensures forall k :: base + i + 2 <= k < base + d ==> a[k] == x[k - base]
    ensures OnlyWithin(old(a[..]), a[..], base, d)
  {
    a[base + i], a[base + i + 1] := v1, v2;
  }

  lemma PairIs(num: Numerics, x: Vector, pos: nat, n: nat, c: real, s: real)
    requires 2 * n + 1 < |x| && c == num.cos(Theta(num, pos, 2 * n, |x|)) && s == num.sin(Theta(num, pos, 2 * n, |x|))
    ensures RotateHead(num, x, pos)[2 * n] == Turned(x[2 * n], x[2 * n + 1], c, s)
    ensures RotateHead(num, x, pos)[2 * n + 1] == Turned2(x[2 * n], x[2 * n + 1], c, s)
  {
    assert (2 * n) % 2 == 0 && (2 * n + 1) % 2 == 1;
  }

  /** Turns the element pairs of one head in place. */
  method RotateHeadAt(num: Numerics, a: array<real>, base: nat, d: nat, pos: nat)
    requires base + d <= a.Length && d % 2 == 0
    modifies a
    ensures OnlyWithin(old(a[..]), a[..], base, d)
    ensures a[base..base + d] == RotateHead(num, old(a[base..base + d]), pos)
  {
    ghost var x := a[base..base + d];
    ghost var y := RotateHead(num, x, pos);
    var i := 0;
    ghost var pairs: nat := 0;
    while i < d
      invariant i == 2 * pairs && i <= d
      invariant forall k :: base <= k < base + i ==> a[k] == y[k - base]
      invariant forall k :: base + i <= k < base + d ==> a[k] == x[k - base]
      invariant OnlyWithin(old(a[..]), a[..], base, d)
    {
      var c, s := Turn(num, pos, i, d);
      RotatePair(num, a, base, i, d, c, s, pos, x, y, pairs);
      i := i + 2;
      pairs := pairs + 1;
    }
    assert a[base..base + d] == y;
  }

  // ---------------------------------------------------------------------
  // All heads in place
  // ---------------------------------------------------------------------

  lemma HeadInside(h: nat, n: nat, d: nat)
    requires h < n
    ensures h * d + d <= n * d && (h + 1) * d == h * d + d
  {
    TimesOneMore(h, d);
    TimesGrows(h + 1, n, d);
  }

  lemma TimesOneMore(h: nat, d: nat)
    ensures (h + 1) * d == h * d + d
  {
  }

  lemma TimesGrows(m: nat, n: nat, d: nat)
    requires m <= n
    ensures m * d <= n * d
  {
  }

  lemma StretchIsSlice(x: Vector, base: nat, n: nat)
    requires base + n <= |x|
    ensures Stretch(x, base, n) == x[base..base + n]
  {
  }

  lemma HeadIsSlice(x: Vector, h: nat, d: nat, base: nat)
    requires base == h * d && base + d <= |x|
    ensures Head(x, h, d) == x[base..base + d]
  {
    StretchIsSlice(x, base, d);
  }

  /** One more head is done: what was done stays, what comes after is untouched. */
  lemma NextHead(x: Vector, before: Vector, after: Vector, done: Vector, base: nat, d: nat, out: Vector)
    requires |x| == |before| && base + d <= |x| && |out| == d
    requires before[..base] == done && before[base..] == x[base..]
    requires OnlyWithin(before, after, base, d) && after[base..base + d] == out
    ensures after[..base + d] == done + out && after[base + d..] == x[base + d..]
  {
    assert after[..base] == before[..base];
    assert after[..base + d] == after[..base] + after[base..base + d];
    forall i | base + d <= i < |x| ensures after[i] == x[i] {
      assert before[base..][i - base] == x[base..][i - base];
    }
  }

  method NormOne(num: Numerics, a: array<real>, w: Vector, h: nat, base: nat, d: nat, ghost x: Vector)
    requires base == h * d && base + d <= a.Length == |x| && |w| == d
    requires a[..base] == NormHeads(num, x, w, h, d) && a[base..] == x[base..]
    modifies a
    ensures a[..base + d] == NormHeads(num, x, w, h + 1, d) && a[base + d..] == x[base + d..]
  {
    ghost var before := a[..];
    NormHeadAt(num, a, base, d, w);
    assert before[base..base + d] == x[base..][..d] == x[base..base + d];
    HeadIsSlice(x, h, d, base);
    NextHead(x, before, a[..], NormHeads(num, x, w, h, d), base, d, RmsNorm(num, Head(x, h, d), w));
  }

  method NormAllHeads(num: Numerics, a: array<real>, w: Option<Vector>, n: nat, d: nat)
    requires n * d == a.Length && Sized(w, d)
    modifies a
    ensures a[..] == HeadNormed(num, old(a[..]), w, n, d)
  {
    if w.Some? {
      ghost var x := a[..];
      for h := 0 to n
        invariant h * d <= a.Length
        invariant a[..h * d] == NormHeads(num, x, w.value, h, d) && a[h * d..] == x[h * d..]
      {
        HeadInside(h, n, d);
        NormOne(num, a, w.value, h, h * d, d, x);
      }
      assert a[..] == a[..n * d];
    }
  }

  method RotateOne(num: Numerics, a: array<real>, h: nat, base: nat, d: nat, pos: nat, ghost x: Vector)
    requires base == h * d && base + d <= a.Length == |x| && d % 2 == 0
    requires a[..base] == RotateHeads(num, x, h, d, pos) && a[base..] == x[base..]
    modifies a
    ensures a[..base + d] == RotateHeads(num, x, h + 1, d, pos) && a[base + d..] == x[base + d..]
  {
    ghost var before := a[..];
    RotateHeadAt(num, a, base, d, pos);
    assert before[base..base + d] == x[base..][..d] == x[base..base + d];
    HeadIsSlice(x, h, d, base);
    NextHead(x, before, a[..], RotateHeads(num, x, h, d, pos), base, d, RotateHead(num, Head(x, h, d), pos));
  }

  method RotateAllHeads(num: Numerics, a: array<real>, n: nat, d: nat, pos: nat)
    requires n * d == a.Length && d % 2 == 0
    modifies a
    ensures a[..] == RotateHeads(num, old(a[..]), n, d, pos)
  {
    ghost var x := a[..];
    for h := 0 to n
      invariant h * d <= a.Length
      invariant a[..h * d] == RotateHeads(num, x, h, d, pos) && a[h * d..] == x[h * d..]
    {
      HeadInside(h, n, d);
      RotateOne(num, a, h, h * d, d, pos, x);
    }
    assert a[..] == a[..n * d];
  }
}
