/** Block-quantised weights and their 8-lane inner products. A block scales 32 small integers by one
    half-precision number, which is a real here; arithmetic is over the reals. */
module Quant {
  import opened Transformer

  /** Q8_0: 32 signed bytes. */
  datatype BlockQ8 = BlockQ8(d: real, qs: seq<nat>)

  /** Q4_0: 16 bytes of two nibbles, low nibbles first. */
  datatype BlockQ4 = BlockQ4(d: real, qs: seq<nat>)

  const BLOCK: nat := 32

  predicate Bytes(s: seq<nat>, n: nat) { |s| == n && forall i :: 0 <= i < n ==> s[i] < 256 }

  /** A byte read as a signed 8-bit integer. */
  function Signed(b: nat): int { if b < 128 then b else b - 256 }

  // ---------------------------------------------------------------------
  // What the blocks stand for
  // ---------------------------------------------------------------------

  function Quants8(b: BlockQ8): (r: Vector)
    requires Bytes(b.qs, 32)
    ensures |r| == 32
  {
    seq(32, i requires 0 <= i < 32 => Signed(b.qs[i]) as real)
  }

  /** A nibble stands for -8 .. 7. */
  function Centred(nibble: nat): int { nibble - 8 }

  function Quants4(b: BlockQ4): (r: Vector)
    requires Bytes(b.qs, 16)
    ensures |r| == 32
  {
    seq(32, i requires 0 <= i < 32 => if i < 16 then Centred(b.qs[i] % 16) as real else Centred(b.qs[i - 16] / 16) as real)
  }

  function Scaled(x: Vector, d: real): (r: Vector)
    ensures |r| == |x|
  {
    seq(|x|, i requires 0 <= i < |x| => x[i] * d)
  }

  predicate Blocks8(bs: seq<BlockQ8>) { forall i :: 0 <= i < |bs| ==> Bytes(bs[i].qs, 32) }

  predicate Blocks4(bs: seq<BlockQ4>) { forall i :: 0 <= i < |bs| ==> Bytes(bs[i].qs, 16) }

  /** The dequantised row. */
  function Row8(bs: seq<BlockQ8>): (r: Vector)
    requires Blocks8(bs)
    ensures |r| == 32 * |bs|
  {
    if bs == [] then [] else Row8(bs[..|bs| - 1]) + Scaled(Quants8(bs[|bs| - 1]), bs[|bs| - 1].d)
  }

  function Row4(bs: seq<BlockQ4>): (r: Vector)
    requires Blocks4(bs)
    ensures |r| == 32 * |bs|
  {
    if bs == [] then [] else Row4(bs[..|bs| - 1]) + Scaled(Quants4(bs[|bs| - 1]), bs[|bs| - 1].d)
  }

  // ---------------------------------------------------------------------
  // Vector registers
  // ---------------------------------------------------------------------

  type Lanes = v: Vector | |v| == 8 witness [0.0, 0.0, 0.0, 0.0, 0.0, 0.0, 0.0, 0.0]
  type Quad = v: Vector | |v| == 4 witness [0.0, 0.0, 0.0, 0.0]

  /** Sixteen bytes shifted down by eight, zeros coming in. */
  function ShiftDown8(x: seq<nat>): (r: seq<nat>)
    requires |x| == 16
    ensures |r| == 16
  {
    x[8..] + [0, 0, 0, 0, 0, 0, 0, 0]
  }

  /** The low eight bytes, sign-extended and converted. */
  function Convert(x: seq<nat>): Lanes
    requires |x| >= 8
  {
    seq(8, i requires 0 <= i < 8 => Signed(x[i]) as real)
  }

  function Load(v: Vector, base: nat): Lanes
    requires base + 8 <= |v|
  {
    v[base..base + 8]
  }

  function Mul(a: Lanes, b: Lanes): Lanes { seq(8, i requires 0 <= i < 8 => a[i] * b[i]) }

  function Fma(a: Lanes, b: Lanes, c: Lanes): Lanes { seq(8, i requires 0 <= i < 8 => a[i] * b[i] + c[i]) }

  function AddQuads(a: Quad, b: Quad): Quad { [a[0] + b[0], a[1] + b[1], a[2] + b[2], a[3] + b[3]] }

  function Shuffle(a: Quad, b: Quad, z: nat, y: nat, x: nat, w: nat): Quad
    requires z < 4 && y < 4 && x < 4 && w < 4
  {
    [a[w], a[x], b[y], b[z]]
  }

  /** Adds the eight lanes: halves, then two shuffles. */
  function HorizontalSum(acc: Lanes): real {
    var sum := AddQuads(acc[..4], acc[4..]);
    var sum1 := AddQuads(sum, Shuffle(sum, sum, 1, 0, 3, 2));
    var sum2 := AddQuads(sum1, Shuffle(sum1, sum1, 0, 1, 0, 1));
    sum2[0]
  }

  lemma HorizontalSumIsSum(acc: Lanes)
    ensures HorizontalSum(acc) == acc[0] + acc[1] + acc[2] + acc[3] + acc[4] + acc[5] + acc[6] + acc[7]
  {
  }

  // ---------------------------------------------------------------------
  // Lanes compute the plain sum
  // ---------------------------------------------------------------------

  function Term(f: Vector, v: Vector, i: nat): real { At(f, i) * At(v, i) }

  lemma DotBy8(f: Vector, v: Vector, n: nat)
    ensures Dot(f, v, n + 8) == Dot(f, v, n) + Term(f, v, n) + Term(f, v, n + 1) + Term(f, v, n + 2) + Term(f, v, n + 3)
      + Term(f, v, n + 4) + Term(f, v, n + 5) + Term(f, v, n + 6) + Term(f, v, n + 7)
  {
    DotBy4(f, v, n);
    DotBy4(f, v, n + 4);
  }

  lemma DotBy4(f: Vector, v: Vector, n: nat)
    ensures Dot(f, v, n + 4) == Dot(f, v, n) + Term(f, v, n) + Term(f, v, n + 1) + Term(f, v, n + 2) + Term(f, v, n + 3)
  {
    DotNext(f, v, n);
    DotNext(f, v, n + 1);
    DotNext(f, v, n + 2);
    DotNext(f, v, n + 3);
  }

  lemma DotNext(f: Vector, v: Vector, n: nat)
    ensures Dot(f, v, n + 1) == Dot(f, v, n) + Term(f, v, n)
  {
  }

  function Accumulated(f: Vector, v: Vector): Lanes
    requires |f| == |v| == 32
  {
    Fma(f[24..32], v[24..32], Fma(f[16..24], v[16..24], Fma(f[8..16], v[8..16], Mul(f[0..8], v[0..8]))))
  }

  function Gathered(f: Vector, v: Vector, j: nat): real {
    Term(f, v, j) + Term(f, v, j + 8) + Term(f, v, j + 16) + Term(f, v, j + 24)
  }

  /** Lane j of the accumulator gathers elements j, 8+j, 16+j and 24+j. */
  lemma LaneGathers(f: Vector, v: Vector, j: nat)
    requires |f| == |v| == 32 && j < 8
    ensures Accumulated(f, v)[j] == Gathered(f, v, j)
  {
    assert f[0..8][j] == f[j] && v[0..8][j] == v[j];
    assert f[8..16][j] == f[j + 8] && v[8..16][j] == v[j + 8];
    assert f[16..24][j] == f[j + 16] && v[16..24][j] == v[j + 16];
    assert f[24..32][j] == f[j + 24] && v[24..32][j] == v[j + 24];
  }

  lemma GatheredSum(f: Vector, v: Vector)
    ensures Gathered(f, v, 0) + Gathered(f, v, 1) + Gathered(f, v, 2) + Gathered(f, v, 3)
      + Gathered(f, v, 4) + Gathered(f, v, 5) + Gathered(f, v, 6) + Gathered(f, v, 7) == Dot(f, v, BLOCK)
  {
    var t := TermsOf(f, v);
    assert Dot(f, v, BLOCK) == Eight(t, 0) + Eight(t, 8) + Eight(t, 16) + Eight(t, 24) by { DotBy32(f, v); }
    Regrouped(t);
  }

  function TermsOf(f: Vector, v: Vector): nat -> real { (i: nat) => Term(f, v, i) }

  function Eight(t: nat -> real, n: nat): real {
    t(n) + t(n + 1) + t(n + 2) + t(n + 3) + t(n + 4) + t(n + 5) + t(n + 6) + t(n + 7)
  }

  function Fourth(t: nat -> real, j: nat): real { t(j) + t(j + 8) + t(j + 16) + t(j + 24) }

  lemma DotBy32(f: Vector, v: Vector)
    ensures var t := TermsOf(f, v); Dot(f, v, BLOCK) == Eight(t, 0) + Eight(t, 8) + Eight(t, 16) + Eight(t, 24)
  {
    DotBy8(f, v, 0);
    DotBy8(f, v, 8);
    DotBy8(f, v, 16);
    DotBy8(f, v, 24);
  }

  lemma Regrouped(t: nat -> real)
    ensures Fourth(t, 0) + Fourth(t, 1) + Fourth(t, 2) + Fourth(t, 3) + Fourth(t, 4) + Fourth(t, 5) + Fourth(t, 6) + Fourth(t, 7)
      == Eight(t, 0) + Eight(t, 8) + Eight(t, 16) + Eight(t, 24)
  {
  }

  /** Over the reals the lane order does not matter: the block's inner product comes out. */
  lemma LanesComputeDot(f: Vector, v: Vector)
    requires |f| == |v| == 32
    ensures HorizontalSum(Accumulated(f, v)) == Dot(f, v, BLOCK)
  {
    var acc := Accumulated(f, v);
    HorizontalSumIsSum(acc);
    forall j: nat | j < 8 ensures acc[j] == Gathered(f, v, j) { LaneGathers(f, v, j); }
    GatheredSum(f, v);
  }

  // ---------------------------------------------------------------------
  // Registers hold the block's integers
  // ---------------------------------------------------------------------

  /** Loads and conversions of a Q8_0 block: the four registers are its 32 integers in order. */
  lemma Registers8(b: BlockQ8)
    requires Bytes(b.qs, 32)
    ensures var lo, hi := b.qs[..16], b.qs[16..];
      && Convert(lo) == Quants8(b)[0..8] && Convert(ShiftDown8(lo)) == Quants8(b)[8..16]
      && Convert(hi) == Quants8(b)[16..24] && Convert(ShiftDown8(hi)) == Quants8(b)[24..32]
  {
  }

  /** 16-bit lanes shifted right by four: the bytes of lane i are 2i and 2i+1. */
  function ShiftLanes4(x: seq<nat>): (r: seq<nat>)
    requires Bytes(x, 16)
    ensures |r| == 16
  {
    seq(16, i requires 0 <= i < 16 =>
      if i % 2 == 0 then (x[i] + 256 * x[i + 1]) / 16 % 256 else (x[i - 1] + 256 * x[i]) / 16 / 256)
  }

  function Mask4(x: seq<nat>): (r: seq<nat>)
    ensures |r| == |x|
  {
    seq(|x|, i requires 0 <= i < |x| => x[i] % 16)
  }

  /** Byte-wise subtraction of 8, wrapping. */
  function Minus8(x: seq<nat>): (r: seq<nat>)
    ensures |r| == |x|
  {
    seq(|x|, i requires 0 <= i < |x| => (x[i] + 248) % 256)
  }

  /** The shift works on pairs of bytes, but after masking each byte is its own high nibble. */
  lemma HighNibbles(x: seq<nat>, i: nat)
    requires Bytes(x, 16) && i < 16
    ensures Mask4(ShiftLanes4(x))[i] == x[i] / 16
  {
    if i % 2 == 0 { LowByteShift(x[i], x[i + 1]); } else { HighByteShift(x[i - 1], x[i]); }
  }

  lemma LowByteShift(lo: nat, hi: nat)
    requires lo < 256 && hi < 256
    ensures (lo + 256 * hi) / 16 % 256 % 16 == lo / 16
  {
    Sixteenth(lo, hi);
    LowNibble(lo / 16, hi);
  }

  lemma Sixteenth(lo: nat, hi: nat)
    ensures (lo + 256 * hi) / 16 == lo / 16 + 16 * hi
  {
  }

  lemma LowNibble(n: nat, hi: nat)
    requires n < 16
    ensures (n + 16 * hi) % 256 % 16 == n
  {
    var x := n + 16 * hi;
    NibbleOfByte(x);
    NibbleIs(x, hi, n);
  }

  lemma NibbleIs(x: nat, hi: nat, n: nat)
    requires x == 16 * hi + n && n < 16
    ensures x % 16 == n
  {
  }

  lemma NibbleOfByte(x: nat)
    ensures x % 256 % 16 == x % 16
  {
  }

  lemma HighByteShift(lo: nat, hi: nat)
    requires lo < 256 && hi < 256
    ensures (lo + 256 * hi) / 16 / 256 % 16 == hi / 16
  {
    Sixteenth(lo, hi);
  }

  /** Subtracting 8 from a nibble in byte arithmetic and sign-extending centres it. */
  lemma CentredByte(n: nat)
    requires n < 16
    ensures Signed((n + 248) % 256) == Centred(n)
  {
  }

  function Low4(b: BlockQ4): seq<nat> { Minus8(Mask4(b.qs)) }

  function High4(b: BlockQ4): seq<nat>
    requires Bytes(b.qs, 16)
  {
    Minus8(Mask4(ShiftLanes4(b.qs)))
  }

  /** Loads, shifts, masks and conversions of a Q4_0 block give its 32 integers in order. */
  lemma Registers4(b: BlockQ4)
    requires Bytes(b.qs, 16)
    ensures |Low4(b)| == |High4(b)| == 16
    ensures Convert(Low4(b)) == Quants4(b)[0..8] && Convert(ShiftDown8(Low4(b))) == Quants4(b)[8..16]
    ensures Convert(High4(b)) == Quants4(b)[16..24] && Convert(ShiftDown8(High4(b))) == Quants4(b)[24..32]
  {
    forall i: nat | i < 16 ensures Signed(Low4(b)[i]) as real == Quants4(b)[i] && Signed(High4(b)[i]) as real == Quants4(b)[i + 16] {
      CentredByte(b.qs[i] % 16);
      HighNibbles(b.qs, i);
      CentredByte(b.qs[i] / 16);
    }
    RegistersOf(Low4(b), Quants4(b)[..16]);
    RegistersOf(High4(b), Quants4(b)[16..]);
  }

  lemma RegistersOf(x: seq<nat>, f: Vector)
    requires |x| == |f| == 16 && forall i :: 0 <= i < 16 ==> Signed(x[i]) as real == f[i]
    ensures Convert(x) == f[0..8] && Convert(ShiftDown8(x)) == f[8..16]
  {
  }

  // ---------------------------------------------------------------------
  // Whole rows
  // ---------------------------------------------------------------------

  lemma {:induction false} ScaledDot(f: Vector, d: real, v: Vector, n: nat)
    ensures Dot(Scaled(f, d), v, n) == Dot(f, v, n) * d
  {
    if n > 0 {
      ScaledDot(f, d, v, n - 1);
      Distribute(Dot(f, v, n - 1), At(f, n - 1), At(v, n - 1), d);
      assert At(Scaled(f, d), n - 1) == At(f, n - 1) * d;
    }
  }

  lemma Distribute(s: real, a: real, b: real, d: real)
    ensures (s + a * b) * d == s * d + (a * d) * b
  {
  }

  lemma {:induction false} DotConcat(a: Vector, b: Vector, v: Vector, n: nat)
    requires n <= |b|
    ensures Dot(a + b, v, |a| + n) == Dot(a, v, |a|) + Dot(b, Stretch(v, |a|, |b|), n)
  {
    if n > 0 {
      DotConcat(a, b, v, n - 1);
      DotNext(a + b, v, |a| + n - 1);
      DotNext(b, Stretch(v, |a|, |b|), n - 1);
    } else {
      DotPrefix(a, b, v, |a|);
    }
  }

  lemma {:induction false} DotPrefix(a: Vector, b: Vector, v: Vector, n: nat)
    requires n <= |a|
    ensures Dot(a + b, v, n) == Dot(a, v, n)
  {
    if n > 0 { DotPrefix(a, b, v, n - 1); }
  }

  /** One more block. */
  lemma NextBlock(row: Vector, f: Vector, d: real, v: Vector, n: nat)
    requires |f| == n && |row| + n <= |v|
    ensures Dot(row + Scaled(f, d), v, |row| + n) == Dot(row, v, |row|) + Dot(f, v[|row|..|row| + n], n) * d
  {
    var w := v[|row|..|row| + n];
    DotConcat(row, Scaled(f, d), v, n);
    assert Stretch(v, |row|, n) == w;
    ScaledDot(f, d, w, n);
  }

  lemma AddBlock(row: Vector, f: Vector, d: real, v: Vector, base: nat, before: real, part: real)
    requires |f| == BLOCK && |row| == base && base + BLOCK <= |v|
    requires before == Dot(row, v, base) && part == Dot(f, v[base..base + BLOCK], BLOCK) * d
    ensures before + part == Dot(row + Scaled(f, d), v, base + BLOCK)
  {
    NextBlock(row, f, d, v, BLOCK);
  }

  lemma LoadIs(v: Vector, base: nat, k: nat)
    requires base + BLOCK <= |v| && k + 8 <= BLOCK
    ensures Load(v, base + k) == v[base..base + BLOCK][k..k + 8]
  {
    var a, b := v[base + k..base + k + 8], v[base..base + BLOCK][k..k + 8];
    forall i | 0 <= i < 8 ensures a[i] == b[i] {}
    assert a == b;
  }

  /** Four multiply-adds over 32 elements and the sum of the lanes. */
  function LaneSum(f0: Lanes, f1: Lanes, f2: Lanes, f3: Lanes, v: Vector, base: nat): real
    requires base + BLOCK <= |v|
  {
    HorizontalSum(Fma(f3, Load(v, base + 24), Fma(f2, Load(v, base + 16), Fma(f1, Load(v, base + 8), Mul(f0, Load(v, base))))))
  }

  lemma LaneSumIs(f0: Lanes, f1: Lanes, f2: Lanes, f3: Lanes, v: Vector, base: nat, f: Vector)
    requires base + BLOCK <= |v| && |f| == BLOCK
    requires f0 == f[0..8] && f1 == f[8..16] && f2 == f[16..24] && f3 == f[24..32]
    ensures LaneSum(f0, f1, f2, f3, v, base) == Dot(f, v[base..base + BLOCK], BLOCK)
  {
    var w := v[base..base + BLOCK];
    LoadIs(v, base, 0);
    LoadIs(v, base, 8);
    LoadIs(v, base, 16);
    LoadIs(v, base, 24);
    LanesComputeDot(f, w);
  }

  method BlockSum(f0: Lanes, f1: Lanes, f2: Lanes, f3: Lanes, v: Vector, base: nat) returns (sum: real)
    requires base + BLOCK <= |v|
    ensures sum == LaneSum(f0, f1, f2, f3, v, base)
  {
    var acc := Mul(f0, Load(v, base + 0));
    acc := Fma(f1, Load(v, base + 8), acc);
    acc := Fma(f2, Load(v, base + 16), acc);
    acc := Fma(f3, Load(v, base + 24), acc);
    sum := HorizontalSum(acc);
  }

  /** What the loads, conversions and multiply-adds make of a Q8_0 block. */
  function LaneDot8(b: BlockQ8, v: Vector, base: nat): real
    requires Bytes(b.qs, 32) && base + BLOCK <= |v|
  {
    var lo, hi := b.qs[..16], b.qs[16..];
    LaneSum(Convert(lo), Convert(ShiftDown8(lo)), Convert(hi), Convert(ShiftDown8(hi)), v, base)
  }

  lemma LaneDot8Is(b: BlockQ8, v: Vector, base: nat)
    requires Bytes(b.qs, 32) && base + BLOCK <= |v|
    ensures LaneDot8(b, v, base) == Dot(Quants8(b), v[base..base + BLOCK], BLOCK)
  {
    Registers8(b);
    var lo, hi := b.qs[..16], b.qs[16..];
    LaneSumIs(Convert(lo), Convert(ShiftDown8(lo)), Convert(hi), Convert(ShiftDown8(hi)), v, base, Quants8(b));
  }

  method BlockDot8(b: BlockQ8, v: Vector, base: nat) returns (sum: real)
    requires Bytes(b.qs, 32) && base + BLOCK <= |v|
    ensures sum == Dot(Quants8(b), v[base..base + BLOCK], BLOCK)
  {
    LaneDot8Is(b, v, base);
    var lo, hi := b.qs[..16], b.qs[16..];
    sum := BlockSum(Convert(lo), Convert(ShiftDown8(lo)), Convert(hi), Convert(ShiftDown8(hi)), v, base);
  }

  /** What the loads, shifts, masks, conversions and multiply-adds make of a Q4_0 block. */
  function LaneDot4(b: BlockQ4, v: Vector, base: nat): real
    requires Bytes(b.qs, 16) && base + BLOCK <= |v|
  {
    LaneSum(Convert(Low4(b)), Convert(ShiftDown8(Low4(b))), Convert(High4(b)), Convert(ShiftDown8(High4(b))), v, base)
  }

  lemma LaneDot4Is(b: BlockQ4, v: Vector, base: nat)
    requires Bytes(b.qs, 16) && base + BLOCK <= |v|
    ensures LaneDot4(b, v, base) == Dot(Quants4(b), v[base..base + BLOCK], BLOCK)
  {
    Registers4(b);
    LaneSumIs(Convert(Low4(b)), Convert(ShiftDown8(Low4(b))), Convert(High4(b)), Convert(ShiftDown8(High4(b))), v, base, Quants4(b));
  }

  method BlockDot4(b: BlockQ4, v: Vector, base: nat) returns (sum: real)
    requires Bytes(b.qs, 16) && base + BLOCK <= |v|
    ensures sum == Dot(Quants4(b), v[base..base + BLOCK], BLOCK)
  {
    LaneDot4Is(b, v, base);
    var lo, hi := Minus8(Mask4(b.qs)), Minus8(Mask4(ShiftLanes4(b.qs)));
    sum := BlockSum(Convert(lo), Convert(ShiftDown8(lo)), Convert(hi), Convert(ShiftDown8(hi)), v, base);
  }

  /** parts(0) + ... + parts(n - 1) */
  function SumOf(parts: nat -> real, n: nat): real { if n == 0 then 0.0 else SumOf(parts, n - 1) + parts(n - 1) }

  function Products(sums: nat -> real, scales: nat -> real): nat -> real { (b: nat) => sums(b) * scales(b) }

  /** The lane sum of each block of a Q8_0 row. */
  function Sums8(bs: seq<BlockQ8>, v: Vector): nat -> real {
    (b: nat) => if b < |bs| && Bytes(bs[b].qs, 32) && b * BLOCK + BLOCK <= |v| then LaneDot8(bs[b], v, b * BLOCK) else 0.0
  }

  function Scales8(bs: seq<BlockQ8>): nat -> real { (b: nat) => if b < |bs| then bs[b].d else 0.0 }

  /** The 8-lane computation of a Q8_0 row of n blocks: each block's lane sum times its scale, added up. */
  function LaneRow8(bs: seq<BlockQ8>, v: Vector, n: nat): real { SumOf(Products(Sums8(bs, v), Scales8(bs)), n) }

  ghost function BlockPart8(b: BlockQ8, v: Vector, base: nat): real
    requires Bytes(b.qs, 32) && base + BLOCK <= |v|
  {
    Dot(Quants8(b), v[base..base + BLOCK], BLOCK) * b.d
  }

  lemma {:induction false} Sum8Is(bs: seq<BlockQ8>, v: Vector, n: nat, parts: nat -> real)
    requires Blocks8(bs) && n <= |bs| && BLOCK * n <= |v|
    requires forall b: nat :: b < n ==> parts(b) == BlockPart8(bs[b], v, b * BLOCK)
    ensures SumOf(parts, n) == Dot(Row8(bs[..n]), v, BLOCK * n)
  {
    if n > 0 {
      Sum8Is(bs, v, n - 1, parts);
      RowStep8(bs, v, n, SumOf(parts, n - 1), parts(n - 1));
    }
  }

  lemma RowStep8(bs: seq<BlockQ8>, v: Vector, n: nat, before: real, part: real)
    requires Blocks8(bs) && 0 < n <= |bs| && BLOCK * n <= |v| && before == Dot(Row8(bs[..n - 1]), v, BLOCK * (n - 1))
    requires part == BlockPart8(bs[n - 1], v, (n - 1) * BLOCK)
    ensures before + part == Dot(Row8(bs[..n]), v, BLOCK * n)
  {
    var b, base: nat := bs[n - 1], (n - 1) * BLOCK;
    Row8Next(bs, n);
    AddBlock(Row8(bs[..n - 1]), Quants8(b), b.d, v, base, before, part);
  }

  lemma Row8Next(bs: seq<BlockQ8>, n: nat)
    requires Blocks8(bs) && 0 < n <= |bs|
    ensures Row8(bs[..n]) == Row8(bs[..n - 1]) + Scaled(Quants8(bs[n - 1]), bs[n - 1].d)
  {
    assert bs[..n][..n - 1] == bs[..n - 1];
  }

  /** It is the inner product of the dequantised row. */
  lemma LaneRow8Is(bs: seq<BlockQ8>, v: Vector, n: nat)
    requires Blocks8(bs) && n <= |bs| && BLOCK * n <= |v|
    ensures LaneRow8(bs, v, n) == Dot(Row8(bs[..n]), v, BLOCK * n)
  {
    forall b: nat | b < n ensures Sums8(bs, v)(b) == Dot(Quants8(bs[b]), v[b * BLOCK..b * BLOCK + BLOCK], BLOCK) {
      LaneDot8Is(bs[b], v, b * BLOCK);
    }
    Products8Sum(bs, v, n, Sums8(bs, v), Scales8(bs));
  }

  lemma Products8Sum(bs: seq<BlockQ8>, v: Vector, n: nat, sums: nat -> real, scales: nat -> real)
    requires Blocks8(bs) && n <= |bs| && BLOCK * n <= |v|
    requires forall b: nat :: b < n ==> sums(b) == Dot(Quants8(bs[b]), v[b * BLOCK..b * BLOCK + BLOCK], BLOCK)
    requires forall b: nat :: b < n ==> scales(b) == bs[b].d
    ensures SumOf(Products(sums, scales), n) == Dot(Row8(bs[..n]), v, BLOCK * n)
  {
    Sum8Is(bs, v, n, Products(sums, scales));
  }

  /** dot_product_q8_0_f32. */
  method DotQ8(bs: seq<BlockQ8>, v: Vector, n: nat) returns (total: real)
    requires Blocks8(bs) && n / BLOCK <= |bs| && n <= |v|
    ensures total == LaneRow8(bs, v, n / BLOCK)
  {
    total := DotBlocks8(bs, v, n / BLOCK);
    LaneRow8Is(bs, v, n / BLOCK);
  }

  /** Its loop over the blocks. */
  method DotBlocks8(bs: seq<BlockQ8>, v: Vector, n: nat) returns (total: real)
    requires Blocks8(bs) && n <= |bs| && BLOCK * n <= |v|
    ensures total == Dot(Row8(bs[..n]), v, BLOCK * n)
  {
    total := 0.0;
    for b := 0 to n
      invariant total == Dot(Row8(bs[..b]), v, BLOCK * b)
    {
      var sum := BlockDot8(bs[b], v, b * BLOCK);
      RowStep8(bs, v, b + 1, total, sum * bs[b].d);
      total := total + sum * bs[b].d;
    }
  }

  /** The lane sum of each block of a Q4_0 row. */
  function Sums4(bs: seq<BlockQ4>, v: Vector): nat -> real {
    (b: nat) => if b < |bs| && Bytes(bs[b].qs, 16) && b * BLOCK + BLOCK <= |v| then LaneDot4(bs[b], v, b * BLOCK) else 0.0
  }

  function Scales4(bs: seq<BlockQ4>): nat -> real { (b: nat) => if b < |bs| then bs[b].d else 0.0 }

  /** The 8-lane computation of a Q4_0 row of n blocks: each block's lane sum times its scale, added up. */
  function LaneRow4(bs: seq<BlockQ4>, v: Vector, n: nat): real { SumOf(Products(Sums4(bs, v), Scales4(bs)), n) }

  ghost function BlockPart4(b: BlockQ4, v: Vector, base: nat): real
    requires Bytes(b.qs, 16) && base + BLOCK <= |v|
  {
    Dot(Quants4(b), v[base..base + BLOCK], BLOCK) * b.d
  }

  lemma {:induction false} Sum4Is(bs: seq<BlockQ4>, v: Vector, n: nat, parts: nat -> real)
    requires Blocks4(bs) && n <= |bs| && BLOCK * n <= |v|
    requires forall b: nat :: b < n ==> parts(b) == BlockPart4(bs[b], v, b * BLOCK)
    ensures SumOf(parts, n) == Dot(Row4(bs[..n]), v, BLOCK * n)
  {
    if n > 0 {
      Sum4Is(bs, v, n - 1, parts);
      RowStep4(bs, v, n, SumOf(parts, n - 1), parts(n - 1));
    }
  }

  lemma RowStep4(bs: seq<BlockQ4>, v: Vector, n: nat, before: real, part: real)
    requires Blocks4(bs) && 0 < n <= |bs| && BLOCK * n <= |v| && before == Dot(Row4(bs[..n - 1]), v, BLOCK * (n - 1))
    requires part == BlockPart4(bs[n - 1], v, (n - 1) * BLOCK)
    ensures before + part == Dot(Row4(bs[..n]), v, BLOCK * n)
  {
    var b, base: nat := bs[n - 1], (n - 1) * BLOCK;
    Row4Next(bs, n);
    AddBlock(Row4(bs[..n - 1]), Quants4(b), b.d, v, base, before, part);
  }

  lemma Row4Next(bs: seq<BlockQ4>, n: nat)
    requires Blocks4(bs) && 0 < n <= |bs|
    ensures Row4(bs[..n]) == Row4(bs[..n - 1]) + Scaled(Quants4(bs[n - 1]), bs[n - 1].d)
  {
    assert bs[..n][..n - 1] == bs[..n - 1];
  }

  /** It is the inner product of the dequantised row. */
  lemma LaneRow4Is(bs: seq<BlockQ4>, v: Vector, n: nat)
    requires Blocks4(bs) && n <= |bs| && BLOCK * n <= |v|
    ensures LaneRow4(bs, v, n) == Dot(Row4(bs[..n]), v, BLOCK * n)
  {
    forall b: nat | b < n ensures Sums4(bs, v)(b) == Dot(Quants4(bs[b]), v[b * BLOCK..b * BLOCK + BLOCK], BLOCK) {
      LaneDot4Is(bs[b], v, b * BLOCK);
    }
    Products4Sum(bs, v, n, Sums4(bs, v), Scales4(bs));
  }

  lemma Products4Sum(bs: seq<BlockQ4>, v: Vector, n: nat, sums: nat -> real, scales: nat -> real)
    requires Blocks4(bs) && n <= |bs| && BLOCK * n <= |v|
    requires forall b: nat :: b < n ==> sums(b) == Dot(Quants4(bs[b]), v[b * BLOCK..b * BLOCK + BLOCK], BLOCK)
    requires forall b: nat :: b < n ==> scales(b) == bs[b].d
    ensures SumOf(Products(sums, scales), n) == Dot(Row4(bs[..n]), v, BLOCK * n)
  {
    Sum4Is(bs, v, n, Products(sums, scales));
  }

  /** dot_product_q4_0_f32. */
  method DotQ4(bs: seq<BlockQ4>, v: Vector, n: nat) returns (total: real)
    requires Blocks4(bs) && n / BLOCK <= |bs| && n <= |v|
    ensures total == LaneRow4(bs, v, n / BLOCK)
  {
    total := DotBlocks4(bs, v, n / BLOCK);
    LaneRow4Is(bs, v, n / BLOCK);
  }

  /** Its loop over the blocks. */
  method DotBlocks4(bs: seq<BlockQ4>, v: Vector, n: nat) returns (total: real)
    requires Blocks4(bs) && n <= |bs| && BLOCK * n <= |v|
    ensures total == Dot(Row4(bs[..n]), v, BLOCK * n)
  {
    total := 0.0;
    for b := 0 to n
      invariant total == Dot(Row4(bs[..b]), v, BLOCK * b)
    {
      var sum := BlockDot4(bs[b], v, b * BLOCK);
      RowStep4(bs, v, b + 1, total, sum * bs[b].d);
      total := total + sum * bs[b].d;
    }
  }

  // ---------------------------------------------------------------------
  // Dequantisation and the row loop
  // ---------------------------------------------------------------------

  /** The inner loop of dequantize_q8_0. */
  method DequantizeBlock8(b: BlockQ8, dest: array<real>, base: nat)
    requires Bytes(b.qs, 32) && base + 32 <= dest.Length
    modifies dest
    ensures dest[base..base + 32] == Scaled(Quants8(b), b.d) && dest[..base] == old(dest[..base])
  {
    ghost var f := Scaled(Quants8(b), b.d);
    for i := 0 to 32
      invariant dest[..base] == old(dest[..base])
      invariant forall k :: base <= k < base + i ==> dest[k] == f[k - base]
    {
      var x := Signed(b.qs[i]) as real;
      assert x == Quants8(b)[i];
      dest[base + i] := x * b.d;
    }
  }

  /** dequantize_q8_0. */
  method DequantizeQ8(bs: seq<BlockQ8>, dest: array<real>, n: nat)
    requires Blocks8(bs) && n / BLOCK <= |bs| && n <= dest.Length
    modifies dest
    ensures dest[..BLOCK * (n / BLOCK)] == Row8(bs[..n / BLOCK])
  {
    for b := 0 to n / BLOCK
      invariant dest[..BLOCK * b] == Row8(bs[..b])
    {
      DequantizeBlock8(bs[b], dest, b * BLOCK);
      assert dest[..BLOCK * (b + 1)] == dest[..BLOCK * b] + dest[BLOCK * b..BLOCK * b + 32];
      assert bs[..b + 1][..b] == bs[..b];
    }
  }

  lemma Element4(b: BlockQ4, i: nat, lo: real, hi: real)
    requires Bytes(b.qs, 16) && i < 16 && lo == Centred(b.qs[i] % 16) as real && hi == Centred(b.qs[i] / 16) as real
    ensures var f := Scaled(Quants4(b), b.d); f[i] == lo * b.d && f[i + 16] == hi * b.d
  {
  }

  /** The inner loop of dequantize_q4_0: low nibbles to the first half, high nibbles to the second. */
  method DequantizeBlock4(b: BlockQ4, dest: array<real>, base: nat)
    requires Bytes(b.qs, 16) && base + 32 <= dest.Length
    modifies dest
    ensures dest[base..base + 32] == Scaled(Quants4(b), b.d) && dest[..base] == old(dest[..base])
  {
    ghost var f := Scaled(Quants4(b), b.d);
    for i := 0 to 16
      invariant dest[..base] == old(dest[..base])
      invariant forall k :: base <= k < base + i ==> dest[k] == f[k - base]
      invariant forall k :: base + 16 <= k < base + 16 + i ==> dest[k] == f[k - base]
    {
      var lo, hi := Centred(b.qs[i] % 16) as real, Centred(b.qs[i] / 16) as real;
      Element4(b, i, lo, hi);
      dest[base + i] := lo * b.d;
      dest[base + i + 16] := hi * b.d;
    }
  }

  /** dequantize_q4_0. */
  method DequantizeQ4(bs: seq<BlockQ4>, dest: array<real>, n: nat)
    requires Blocks4(bs) && n / BLOCK <= |bs| && n <= dest.Length
    modifies dest
    ensures dest[..BLOCK * (n / BLOCK)] == Row4(bs[..n / BLOCK])
  {
    for b := 0 to n / BLOCK
      invariant dest[..BLOCK * b] == Row4(bs[..b])
    {
      DequantizeBlock4(bs[b], dest, b * BLOCK);
      assert dest[..BLOCK * (b + 1)] == dest[..BLOCK * b] + dest[BLOCK * b..BLOCK * b + 32];
      assert bs[..b + 1][..b] == bs[..b];
    }
  }
}
