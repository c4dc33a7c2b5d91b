/** What the emulator core computes for a gate, from the bytes of the weights on, and what mat_vec_mul therefore
    returns: the dequantised matrix times the input vector. */
module Emulator {
  import opened Transformer
  import opened Gate
  import opened GateProofs
  import opened VectorOps
  import Quant

  type Octet = n: nat | n < 256

  /** The memory weights lie in, and what two bytes mean as a half-precision and four as a single-precision number. */
  datatype Store = Store(bytes: nat -> Octet, half: (Octet, Octet) -> real, float: (Octet, Octet, Octet, Octet) -> real)

  /** Sizes of the packed structs block_q8_0 and block_q4_0. */
  const SIZE8: nat := 34
  const SIZE4: nat := 18

  function OctetsAt(s: Store, a: nat, n: nat): (r: seq<nat>)
    ensures Quant.Bytes(r, n)
  {
    if n == 0 then [] else OctetsAt(s, a, n - 1) + [s.bytes(a + n - 1)]
  }

  function HalfAt(s: Store, a: nat): real { s.half(s.bytes(a), s.bytes(a + 1)) }

  function FloatAt(s: Store, a: nat): real { s.float(s.bytes(a), s.bytes(a + 1), s.bytes(a + 2), s.bytes(a + 3)) }

  /** The n Q8_0 blocks from address a on. */
  function Blocks8At(s: Store, a: nat, n: nat): (r: seq<Quant.BlockQ8>)
    ensures |r| == n && Quant.Blocks8(r)
  {
    seq(n, (b: nat) => Quant.BlockQ8(HalfAt(s, a + b * SIZE8), OctetsAt(s, a + b * SIZE8 + 2, 32)))
  }

  function Blocks4At(s: Store, a: nat, n: nat): (r: seq<Quant.BlockQ4>)
    ensures |r| == n && Quant.Blocks4(r)
  {
    seq(n, (b: nat) => Quant.BlockQ4(HalfAt(s, a + b * SIZE4), OctetsAt(s, a + b * SIZE4 + 2, 16)))
  }

  function FloatsAt(s: Store, a: nat, n: nat): (r: Vector)
    ensures |r| == n
  {
    seq(n, (c: nat) => FloatAt(s, a + 4 * c))
  }

  function Row8At(s: Store, weights: nat, cols: nat, r: nat): seq<Quant.BlockQ8> {
    Blocks8At(s, weights + r * (cols / 32 * SIZE8), cols / 32)
  }

  function Row4At(s: Store, weights: nat, cols: nat, r: nat): seq<Quant.BlockQ4> {
    Blocks4At(s, weights + r * (cols / 32 * SIZE4), cols / 32)
  }

  function FloatRowAt(s: Store, weights: nat, cols: nat, r: nat): Vector { FloatsAt(s, weights + 4 * (r * cols), cols) }

  // ---------------------------------------------------------------------
  // The emulator's row loop
  // ---------------------------------------------------------------------

  /** What the emulator writes for row r of a gate, by the gate's format. */
  function RowOf(s: Store, weights: nat, quant: nat, cols: nat, r: nat, v: Vector): real
    requires |v| == cols
  {
    if quant == 8 then Quant.LaneRow8(Row8At(s, weights, cols, r), v, cols / 32)
    else if quant == 4 then Quant.LaneRow4(Row4At(s, weights, cols, r), v, cols / 32)
    else Dot(FloatRowAt(s, weights, cols, r), v, cols)
  }

  function Rows(s: Store): RowValue {
    (weights: nat, quant: nat, cols: nat, r: nat, v: Vector) => if |v| == cols then RowOf(s, weights, quant, cols, r, v) else 0.0
  }

  /** One row, by the format. */
  method ComputeRow(s: Store, weights: nat, quant: nat, cols: nat, r: nat, v: Vector) returns (x: real)
    requires |v| == cols
    ensures x == Rows(s)(weights, quant, cols, r, v)
  {
    if quant == 8 {
      x := Quant.DotQ8(Row8At(s, weights, cols, r), v, cols);
    } else if quant == 4 {
      x := Quant.DotQ4(Row4At(s, weights, cols, r), v, cols);
    } else {
      x := FloatProduct(s, weights, cols, r, v, FloatRowAt(s, weights, cols, r));
    }
  }

  method FloatProduct(s: Store, weights: nat, cols: nat, r: nat, v: Vector, ghost row: Vector) returns (x: real)
    requires |v| == cols && row == FloatRowAt(s, weights, cols, r)
    ensures x == Dot(row, v, cols)
  {
    x := 0.0;
    for c := 0 to cols
      invariant x == Dot(row, v, c)
    {
      assert row[c] == FloatAt(s, weights + 4 * (r * cols + c));
      x := x + FloatAt(s, weights + 4 * (r * cols + c)) * v[c];
    }
  }

  /** Buffers inside memory, output apart from input. */
  predicate Buffers(job: Job, size: nat) {
    && job.input + job.cols <= size && job.output + job.rows <= size
    && (job.input + job.cols <= job.output || job.output + job.rows <= job.input)
  }

  /** The emulator's work on one gate leaves memory as the interleaving model says. */
  method RunGate(s: Store, job: Job, mem: array<real>)
    requires Buffers(job, mem.Length)
    modifies mem
    ensures mem[..] == Product(Rows(s), old(mem[..]), job, job.rows)
  {
    ghost var before := mem[..];
    for r := 0 to job.rows
      invariant mem[..] == Product(Rows(s), before, job, r)
    {
      var v := mem[job.input..job.input + job.cols];
      InputIs(Rows(s), before, job, r, mem[..]);
      var x := ComputeRow(s, job.weights, job.quant, job.cols, r, v);
      ProductNext(Rows(s), before, job, r, mem[..], x);
      mem[job.output + r] := x;
    }
  }

  /** The input buffer is still what it was. */
  lemma InputIs(row: RowValue, before: Vector, job: Job, r: nat, m: Vector)
    requires Buffers(job, |before|) && r <= job.rows && m == Product(row, before, job, r)
    ensures m[job.input..job.input + job.cols] == Stretch(before, job.input, job.cols)
  {
    InputKept(row, before, job, r);
    assert m[job.input..job.input + job.cols] == Stretch(m, job.input, job.cols);
  }

  lemma ProductNext(row: RowValue, before: Vector, job: Job, r: nat, m: Vector, x: real)
    requires Buffers(job, |before|) && r < job.rows && m == Product(row, before, job, r)
    requires x == row(job.weights, job.quant, job.cols, r, Stretch(before, job.input, job.cols))
    ensures m[job.output + r := x] == Product(row, before, job, r + 1)
  {
  }

  // ---------------------------------------------------------------------
  // The dequantised matrix
  // ---------------------------------------------------------------------

  /** A row as dequantize_q8_0 and dequantize_q4_0 expand it, by the tensor's type: 8 is Q8_0, 2 is Q4_0. */
  function DequantisedRow(s: Store, type_: nat, weights: nat, cols: nat, r: nat): Vector {
    if type_ == 8 then Quant.Row8(Row8At(s, weights, cols, r))
    else if type_ == 2 then Quant.Row4(Row4At(s, weights, cols, r))
    else FloatRowAt(s, weights, cols, r)
  }

  function DequantisedMatrix(s: Store, type_: nat, weights: nat, rows: nat, cols: nat): (m: Matrix)
    ensures |m| == rows && forall r: nat :: r < rows ==> m[r] == DequantisedRow(s, type_, weights, cols, r)
  {
    seq(rows, (r: nat) => DequantisedRow(s, type_, weights, cols, r))
  }

  /** mat_vec_mul's format for a tensor type. */
  function QuantOf(type_: nat): nat { if type_ == 8 then 8 else if type_ == 2 then 4 else 0 }

  lemma {:induction false} DotBeyond(a: Vector, v: Vector, n: nat)
    requires |a| <= n
    ensures Dot(a, v, n) == Dot(a, v, |a|)
  {
    if |a| < n { DotBeyond(a, v, n - 1); }
  }

  /** The format mat_vec_mul chooses makes the emulator compute the inner product with the dequantised row. */
  lemma RowIsInnerProduct(s: Store, type_: nat, weights: nat, cols: nat, r: nat, v: Vector)
    requires |v| == cols
    ensures Rows(s)(weights, QuantOf(type_), cols, r, v) == Dot(DequantisedRow(s, type_, weights, cols, r), v, cols)
  {
    var n := cols / 32;
    if type_ == 8 {
      var row := Row8At(s, weights, cols, r);
      Quant.LaneRow8Is(row, v, n);
      assert row[..n] == row;
      DotBeyond(Quant.Row8(row), v, cols);
    } else if type_ == 2 {
      var row := Row4At(s, weights, cols, r);
      Quant.LaneRow4Is(row, v, n);
      assert row[..n] == row;
      DotBeyond(Quant.Row4(row), v, cols);
    }
  }

  // ---------------------------------------------------------------------
  // mat_vec_mul
  // ---------------------------------------------------------------------

  /** The gate mat_vec_mul fills. */
  function MatVecJob(out: nat, weights: nat, vec: nat, rows: nat, cols: nat, type_: nat): Job {
    var size := if type_ == 8 then rows * (cols / 32) * SIZE8 else if type_ == 2 then rows * (cols / 32) * SIZE4 else rows * cols * 4;
    Job(weights, size, vec, cols * 4, out, rows * 4, rows, cols, QuantOf(type_))
  }

  /** Its product is the dequantised matrix times the input. */
  lemma ProductIsMatVec(s: Store, before: Vector, out: nat, weights: nat, vec: nat, rows: nat, cols: nat, type_: nat)
    requires out + rows <= |before|
    ensures var job := MatVecJob(out, weights, vec, rows, cols, type_);
      Stretch(Product(Rows(s), before, job, rows), out, rows)
      == MatVec(DequantisedMatrix(s, type_, weights, rows, cols), Stretch(before, vec, cols))
  {
    var job, v := MatVecJob(out, weights, vec, rows, cols, type_), Stretch(before, vec, cols);
    var w := DequantisedMatrix(s, type_, weights, rows, cols);
    forall r: nat | r < rows ensures Rows(s)(weights, job.quant, cols, r, v) == Dot(w[r], v, cols) {
      RowIsInnerProduct(s, type_, weights, cols, r, v);
    }
    ProductOfRows(Rows(s), before, job, w, v);
  }

  lemma ProductOfRows(row: RowValue, before: Vector, job: Job, w: Matrix, v: Vector)
    requires job.output + job.rows <= |before| && |w| == job.rows && v == Stretch(before, job.input, job.cols)
    requires forall r: nat :: r < job.rows ==> row(job.weights, job.quant, job.cols, r, v) == Dot(w[r], v, job.cols)
    ensures Stretch(Product(row, before, job, job.rows), job.output, job.rows) == MatVec(w, v)
  {
    ProductIs(row, before, job, job.rows);
    StretchIsMatVec(Product(row, before, job, job.rows), job.output, w, v);
  }

  /** Whenever a call of mat_vec_mul returns, in any interleaving with the emulator, the output buffer holds the
      dequantised matrix times the input vector the call was made with, and no other memory has changed. */
  lemma MatVecMulReturns(s: Store, start: Sys, events: seq<Event>, c: Client,
                         out: nat, weights: nat, vec: nat, rows: nat, cols: nat, type_: nat)
    requires Init(start)
    ensures Runs(Rows(s), start, events)
    ensures var t := Run(Rows(s), start, events);
      t.call == MatVecJob(out, weights, vec, rows, cols, type_) && t.cpu.WAIT? && CpuStep(t, c).cpu.CLIENT? ==>
        && Stretch(t.mem, out, rows) == MatVec(DequantisedMatrix(s, type_, weights, rows, cols), Stretch(t.before, vec, cols))
        && |t.mem| == |t.before|
        && forall i :: 0 <= i < |t.mem| && !(out <= i < out + rows) ==> t.mem[i] == t.before[i]
  {
    ReturnsOwnProduct(Rows(s), start, events, c);
    InitInv(Rows(s), start);
    RunKeepsInv(Rows(s), start, events);
    var t := Run(Rows(s), start, events);
    if t.call == MatVecJob(out, weights, vec, rows, cols, type_) && t.cpu.WAIT? {
      ProductIsMatVec(s, t.before, out, weights, vec, rows, cols, type_);
      ProductIs(Rows(s), t.before, t.call, rows);
    }
  }

  /** A returning call leaves in its output buffer what the direct product of the forward pass leaves there. */
  lemma ReturnsDirectProduct(s: Store, start: Sys, events: seq<Event>, c: Client,
                             out: nat, weights: nat, vec: nat, rows: nat, cols: nat, type_: nat, size: nat)
    requires Init(start) && rows <= size
    ensures Runs(Rows(s), start, events)
    ensures var t := Run(Rows(s), start, events);
      && t.call == MatVecJob(out, weights, vec, rows, cols, type_) && t.cpu.WAIT? && CpuStep(t, c).cpu.CLIENT?
      && out + size <= |t.before|
      ==>
        && |t.mem| == |t.before|
        && t.mem[out..out + size]
           == WithProduct(t.before[out..out + size], DequantisedMatrix(s, type_, weights, rows, cols), Stretch(t.before, vec, cols))
  {
    MatVecMulReturns(s, start, events, c, out, weights, vec, rows, cols, type_);
    var t := Run(Rows(s), start, events);
    if |t.mem| == |t.before| && out + size <= |t.before| {
      BufferSplits(t.before, t.mem, out, rows, size);
    }
  }

  lemma BufferSplits(before: Vector, after: Vector, out: nat, rows: nat, size: nat)
    requires |before| == |after| && out + size <= |before| && rows <= size
    ensures (forall i :: 0 <= i < |after| && !(out <= i < out + rows) ==> after[i] == before[i]) ==>
      after[out..out + size] == Stretch(after, out, rows) + before[out..out + size][rows..]
  {
  }
}
