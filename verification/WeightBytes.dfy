/** Where the weights of a matrix lie in memory, from the writer's side: a block is its two scale bytes followed by
    its quants, a matrix is its rows one after the other. What the emulator computes from such memory is the product
    with the matrix that was written. */
module WeightBytes {
  import opened Transformer
  import opened Gate
  import opened GateProofs
  import opened Emulator
  import Quant

  /** One thing in a row of weights: a block with the two bytes of its half-precision scale and its 32 small integers,
      or the four bytes of a single-precision number. */
  datatype Cell =
    | Block(lo: Octet, hi: Octet, q: seq<int>)
    | Float(b0: Octet, b1: Octet, b2: Octet, b3: Octet)

  datatype Format = Q8 | Q4 | F32

  predicate Within(b: Cell, low: int, high: int) { b.Block? && |b.q| == 32 && forall i :: 0 <= i < 32 ==> low <= b.q[i] < high }

  /** The two's complement byte of a number -128 .. 127. */
  function ByteOf(q: int): Octet
    requires -128 <= q < 128
  {
    if q < 0 then q + 256 else q
  }

  /** Two numbers -8 .. 7 in one byte, the first in the low nibble. */
  function PairOf(low: int, high: int): Octet
    requires -8 <= low < 8 && -8 <= high < 8
  {
    (low + 8) + 16 * (high + 8)
  }

  function Quants8(q: seq<int>): (r: seq<Octet>)
    requires forall i :: 0 <= i < |q| ==> -128 <= q[i] < 128
    ensures |r| == |q| && forall i :: 0 <= i < |q| ==> r[i] == ByteOf(q[i])
  {
    if q == [] then [] else Quants8(q[..|q| - 1]) + [ByteOf(q[|q| - 1])]
  }

  /** The first n pairs of 32 numbers: element i and element i + 16 share a byte. */
  function Quants4(q: seq<int>, n: nat): (r: seq<Octet>)
    requires |q| == 32 && n <= 16 && forall i :: 0 <= i < 32 ==> -8 <= q[i] < 8
    ensures |r| == n && forall i :: 0 <= i < n ==> r[i] == PairOf(q[i], q[i + 16])
  {
    if n == 0 then [] else Quants4(q, n - 1) + [PairOf(q[n - 1], q[n + 15])]
  }

  /** The bytes of a cell; one that the format has no place for has none. */
  function Pack(f: Format, c: Cell): seq<Octet> {
    match f
    case Q8 => if Within(c, -128, 128) then [c.lo, c.hi] + Quants8(c.q) else []
    case Q4 => if Within(c, -8, 8) then [c.lo, c.hi] + Quants4(c.q, 16) else []
    case F32 => if c.Float? then [c.b0, c.b1, c.b2, c.b3] else []
  }

  /** Byte strings one after the other. */
  function Concat(chunks: seq<seq<Octet>>): seq<Octet> {
    if chunks == [] then [] else Concat(chunks[..|chunks| - 1]) + chunks[|chunks| - 1]
  }

  function Cells(f: Format, row: seq<Cell>): (r: seq<seq<Octet>>)
    ensures |r| == |row|
  {
    if row == [] then [] else Cells(f, row[..|row| - 1]) + [Pack(f, row[|row| - 1])]
  }

  lemma {:induction false} CellsAt(f: Format, row: seq<Cell>, b: nat)
    requires b < |row|
    ensures Cells(f, row)[b] == Pack(f, row[b])
  {
    if b < |row| - 1 { CellsAt(f, row[..|row| - 1], b); }
  }

  /** The bytes of a row, and of a matrix. */
  function PackRow(f: Format, row: seq<Cell>): seq<Octet> { Concat(Cells(f, row)) }

  function PackedRows(f: Format, m: seq<seq<Cell>>): (r: seq<seq<Octet>>)
    ensures |r| == |m| && forall i :: 0 <= i < |m| ==> r[i] == PackRow(f, m[i])
  {
    if m == [] then [] else PackedRows(f, m[..|m| - 1]) + [PackRow(f, m[|m| - 1])]
  }

  function PackMatrix(f: Format, m: seq<seq<Cell>>): seq<Octet> { Concat(PackedRows(f, m)) }

  /** Memory holds these bytes from an address on. */
  ghost predicate Holds(s: Store, a: nat, bytes: seq<Octet>) {
    bytes == [] || (Holds(s, a, bytes[..|bytes| - 1]) && s.bytes(a + |bytes| - 1) == bytes[|bytes| - 1])
  }

  lemma {:induction false} HoldsIff(s: Store, a: nat, bytes: seq<Octet>)
    ensures Holds(s, a, bytes) <==> forall i :: 0 <= i < |bytes| ==> s.bytes(a + i) == bytes[i]
  {
    if bytes != [] {
      var front := bytes[..|bytes| - 1];
      HoldsIff(s, a, front);
      assert forall i :: 0 <= i < |front| ==> front[i] == bytes[i];
    }
  }

  // ---------------------------------------------------------------------
  // Things of equal size one after the other
  // ---------------------------------------------------------------------

  lemma TimesNext(n: nat, size: nat)
    requires n > 0
    ensures n * size == (n - 1) * size + size
  {
  }

  /** Where thing i of a number of things of equal size lies. */
  function Place(a: nat, i: nat, size: nat): nat { a + i * size }

  ghost predicate AllOf(chunks: seq<seq<Octet>>, size: nat) { forall i :: 0 <= i < |chunks| ==> |chunks[i]| == size }

  lemma {:induction false} ConcatSize(chunks: seq<seq<Octet>>, size: nat)
    requires AllOf(chunks, size)
    ensures |Concat(chunks)| == |chunks| * size
  {
    if chunks != [] {
      ConcatSize(chunks[..|chunks| - 1], size);
      TimesNext(|chunks|, size);
    }
  }

  lemma {:induction false} HoldsParts(s: Store, a: nat, x: seq<Octet>, y: seq<Octet>)
    requires Holds(s, a, x + y)
    ensures Holds(s, a, x) && Holds(s, a + |x|, y)
  {
    if y == [] {
      assert x + y == x;
    } else {
      assert (x + y)[..|x + y| - 1] == x + y[..|y| - 1];
      HoldsParts(s, a, x, y[..|y| - 1]);
    }
  }

  /** String i lies i sizes behind the start. */
  lemma {:induction false} ChunkHolds(s: Store, a: nat, chunks: seq<seq<Octet>>, size: nat, i: nat)
    requires i < |chunks| && Holds(s, a, Concat(chunks)) && AllOf(chunks, size)
    ensures Holds(s, Place(a, i, size), chunks[i])
  {
    var front := chunks[..|chunks| - 1];
    HoldsParts(s, a, Concat(front), chunks[|chunks| - 1]);
    ConcatSize(front, size);
    if i < |chunks| - 1 { ChunkHolds(s, a, front, size, i); }
  }

  // ---------------------------------------------------------------------
  // What is read back
  // ---------------------------------------------------------------------

  lemma {:induction false} OctetIs(s: Store, a: nat, n: nat, i: nat)
    requires i < n
    ensures OctetsAt(s, a, n)[i] == s.bytes(a + i)
  {
    if i < n - 1 { OctetIs(s, a, n - 1, i); }
  }

  lemma Read8(s: Store, a: nat, b: Cell, i: nat)
    requires Within(b, -128, 128) && Holds(s, a, Pack(Q8, b)) && i < 32
    ensures s.bytes(a) == b.lo && s.bytes(a + 1) == b.hi && OctetsAt(s, a + 2, 32)[i] == ByteOf(b.q[i])
  {
    var p := Pack(Q8, b);
    HoldsIff(s, a, p);
    OctetIs(s, a + 2, 32, i);
    assert p[0] == b.lo && p[1] == b.hi && p[i + 2] == ByteOf(b.q[i]);
    assert s.bytes(a + 0) == p[0] && s.bytes(a + 1) == p[1] && s.bytes(a + (i + 2)) == p[i + 2];
  }

  lemma Read4(s: Store, a: nat, b: Cell, i: nat)
    requires Within(b, -8, 8) && Holds(s, a, Pack(Q4, b)) && i < 16
    ensures s.bytes(a) == b.lo && s.bytes(a + 1) == b.hi && OctetsAt(s, a + 2, 16)[i] == PairOf(b.q[i], b.q[i + 16])
  {
    var p := Pack(Q4, b);
    HoldsIff(s, a, p);
    OctetIs(s, a + 2, 16, i);
    assert p[0] == b.lo && p[1] == b.hi && p[i + 2] == PairOf(b.q[i], b.q[i + 16]);
    assert s.bytes(a + 0) == p[0] && s.bytes(a + 1) == p[1] && s.bytes(a + (i + 2)) == p[i + 2];
  }

  lemma Nibbles(low: int, high: int)
    requires -8 <= low < 8 && -8 <= high < 8
    ensures PairOf(low, high) % 16 == low + 8 && PairOf(low, high) / 16 == high + 8
  {
  }

  /** A block that was read has the scale and the numbers of the one that was meant. */
  ghost predicate Means8(s: Store, q: Quant.BlockQ8, c: Cell) {
    && Within(c, -128, 128) && Quant.Bytes(q.qs, 32) && q.d == s.half(c.lo, c.hi)
    && forall i :: 0 <= i < 32 ==> Quant.Quants8(q)[i] == c.q[i] as real
  }

  lemma Block8Read(s: Store, a: nat, b: Cell, q: Quant.BlockQ8)
    requires Within(b, -128, 128) && Holds(s, a, Pack(Q8, b)) && q == Quant.BlockQ8(HalfAt(s, a), OctetsAt(s, a + 2, 32))
    ensures Means8(s, q, b)
  {
    forall i: nat | i < 32 ensures Quant.Quants8(q)[i] == b.q[i] as real { Number8Read(s, a, b, i); }
    Number8Read(s, a, b, 0);
  }

  lemma Number8Read(s: Store, a: nat, b: Cell, i: nat)
    requires Within(b, -128, 128) && Holds(s, a, Pack(Q8, b)) && i < 32
    ensures HalfAt(s, a) == s.half(b.lo, b.hi)
    ensures Quant.Quants8(Quant.BlockQ8(HalfAt(s, a), OctetsAt(s, a + 2, 32)))[i] == b.q[i] as real
  {
    Read8(s, a, b, i);
  }

  lemma NibblesRead(b: Quant.BlockQ4, k: nat, low: int, high: int)
    requires Quant.Bytes(b.qs, 16) && k < 16 && -8 <= low < 8 && -8 <= high < 8 && b.qs[k] == PairOf(low, high)
    ensures Quant.Quants4(b)[k] == low as real && Quant.Quants4(b)[k + 16] == high as real
  {
    Nibbles(low, high);
    assert Quant.Quants4(b)[k] == Quant.Centred(b.qs[k] % 16) as real;
    assert Quant.Quants4(b)[k + 16] == Quant.Centred(b.qs[k] / 16) as real;
  }

  /** A block that was read has the scale and the numbers of the one that was meant. */
  ghost predicate Means4(s: Store, q: Quant.BlockQ4, c: Cell) {
    && Within(c, -8, 8) && Quant.Bytes(q.qs, 16) && q.d == s.half(c.lo, c.hi)
    && forall i :: 0 <= i < 32 ==> Quant.Quants4(q)[i] == c.q[i] as real
  }

  lemma Block4Read(s: Store, a: nat, b: Cell, q: Quant.BlockQ4)
    requires Within(b, -8, 8) && Holds(s, a, Pack(Q4, b)) && q == Quant.BlockQ4(HalfAt(s, a), OctetsAt(s, a + 2, 16))
    ensures Means4(s, q, b)
  {
    forall i: nat | i < 32 ensures Quant.Quants4(q)[i] == b.q[i] as real { Number4Read(s, a, b, i); }
    Number4Read(s, a, b, 0);
  }

  lemma Number4Read(s: Store, a: nat, b: Cell, i: nat)
    requires Within(b, -8, 8) && Holds(s, a, Pack(Q4, b)) && i < 32
    ensures HalfAt(s, a) == s.half(b.lo, b.hi)
    ensures Quant.Quants4(Quant.BlockQ4(HalfAt(s, a), OctetsAt(s, a + 2, 16)))[i] == b.q[i] as real
  {
    var k := i % 16;
    assert k < 16 && (i == k || i == k + 16);
    Read4(s, a, b, k);
    NibblesRead(Quant.BlockQ4(HalfAt(s, a), OctetsAt(s, a + 2, 16)), k, b.q[k], b.q[k + 16]);
  }

  lemma ScaledAt(v: Vector, i: nat, scale: real, x: real, d: real)
    requires i < |v| && v[i] == x && scale == d
    ensures Quant.Scaled(v, scale)[i] == x * d
  {
  }

  lemma InFront(x: Vector, y: Vector, i: nat)
    requires i < |x|
    ensures (x + y)[i] == x[i]
  {
  }

  lemma Behind(x: Vector, y: Vector, i: nat)
    requires i < |y|
    ensures (x + y)[|x| + i] == y[i]
  {
  }

  /** Element i of block b of a dequantised row. */
  lemma {:induction false} Row8Element(bs: seq<Quant.BlockQ8>, b: nat, i: nat)
    requires Quant.Blocks8(bs) && b < |bs| && i < 32
    ensures Quant.Row8(bs)[32 * b + i] == Quant.Scaled(Quant.Quants8(bs[b]), bs[b].d)[i]
  {
    var front, last := bs[..|bs| - 1], bs[|bs| - 1];
    assert Quant.Row8(bs) == Quant.Row8(front) + Quant.Scaled(Quant.Quants8(last), last.d);
    if b < |bs| - 1 {
      Row8Element(front, b, i);
      InFront(Quant.Row8(front), Quant.Scaled(Quant.Quants8(last), last.d), 32 * b + i);
    } else {
      Behind(Quant.Row8(front), Quant.Scaled(Quant.Quants8(last), last.d), i);
    }
  }

  lemma {:induction false} Row4Element(bs: seq<Quant.BlockQ4>, b: nat, i: nat)
    requires Quant.Blocks4(bs) && b < |bs| && i < 32
    ensures Quant.Row4(bs)[32 * b + i] == Quant.Scaled(Quant.Quants4(bs[b]), bs[b].d)[i]
  {
    var front, last := bs[..|bs| - 1], bs[|bs| - 1];
    assert Quant.Row4(bs) == Quant.Row4(front) + Quant.Scaled(Quant.Quants4(last), last.d);
    if b < |bs| - 1 {
      Row4Element(front, b, i);
      InFront(Quant.Row4(front), Quant.Scaled(Quant.Quants4(last), last.d), 32 * b + i);
    } else {
      Behind(Quant.Row4(front), Quant.Scaled(Quant.Quants4(last), last.d), i);
    }
  }

  /** Element i of block b of row r is that block's number times its scale. */
  ghost predicate ElementIs(s: Store, d: Matrix, m: seq<seq<Cell>>, r: nat, b: nat, i: nat)
    requires r < |d| && r < |m| && b < |m[r]| && 32 * b + i < |d[r]| && m[r][b].Block? && i < |m[r][b].q|
  {
    d[r][32 * b + i] == m[r][b].q[i] as real * s.half(m[r][b].lo, m[r][b].hi)
  }

  lemma ElementFrom(s: Store, d: Matrix, m: seq<seq<Cell>>, r: nat, b: nat, i: nat, x: real, half: real)
    requires r < |d| && r < |m| && b < |m[r]| && 32 * b + i < |d[r]| && m[r][b].Block? && i < |m[r][b].q|
    requires x == m[r][b].q[i] as real && half == s.half(m[r][b].lo, m[r][b].hi) && d[r][32 * b + i] == x * half
    ensures ElementIs(s, d, m, r, b, i)
  {
  }

  ghost predicate IsBlocks(m: seq<seq<Cell>>, rows: nat, n: nat, low: int, high: int) {
    |m| == rows && forall r :: 0 <= r < rows ==> |m[r]| == n && forall b :: 0 <= b < n ==> Within(m[r][b], low, high)
  }

  /** d is the matrix of the numbers of these blocks times their scales. */
  ghost predicate StandsFor(s: Store, d: Matrix, m: seq<seq<Cell>>, rows: nat, n: nat, low: int, high: int) {
    && IsBlocks(m, rows, n, low, high) && IsMatrix(d, rows, 32 * n)
    && forall r: nat, b: nat, i: nat :: r < rows && b < n && i < 32 ==> ElementIs(s, d, m, r, b, i)
  }

  lemma BlocksOf(cols: nat, n: nat)
    requires 32 * n <= cols < 32 * n + 32
    ensures cols / 32 == n
  {
  }

  lemma SameElements(s: Store, d: Matrix, e: Matrix, m: seq<seq<Cell>>, rows: nat, n: nat, low: int, high: int)
    requires StandsFor(s, d, m, rows, n, low, high) && StandsFor(s, e, m, rows, n, low, high)
    ensures d == e
  {
    forall r: nat, c: nat | r < rows && c < 32 * n ensures d[r][c] == e[r][c] {
      assert ElementIs(s, d, m, r, c / 32, c % 32) && ElementIs(s, e, m, r, c / 32, c % 32);
    }
    forall r: nat | r < rows ensures d[r] == e[r] {}
  }

  lemma Block8Place(s: Store, base: nat, n: nat, b: nat, a: nat, q: Quant.BlockQ8)
    requires b < n && a == Place(base, b, 34) && q == Blocks8At(s, base, n)[b]
    ensures q == Quant.BlockQ8(HalfAt(s, a), OctetsAt(s, a + 2, 32))
  {
  }

  lemma CellFound8(s: Store, base: nat, row: seq<Cell>, b: nat, a: nat, c: Cell)
    requires b < |row| && Holds(s, base, PackRow(Q8, row)) && forall b :: 0 <= b < |row| ==> Within(row[b], -128, 128)
    requires a == Place(base, b, 34) && c == row[b]
    ensures Within(c, -128, 128) && Holds(s, a, Pack(Q8, c))
  {
    Row8Size(row);
    ChunkHolds(s, base, Cells(Q8, row), 34, b);
    CellsAt(Q8, row, b);
  }

  lemma Row8Size(row: seq<Cell>)
    requires forall b :: 0 <= b < |row| ==> Within(row[b], -128, 128)
    ensures AllOf(Cells(Q8, row), 34) && |PackRow(Q8, row)| == |row| * 34
  {
    forall b | 0 <= b < |row| ensures |Cells(Q8, row)[b]| == 34 { CellsAt(Q8, row, b); }
    ConcatSize(Cells(Q8, row), 34);
  }

  ghost predicate RowMeans8(s: Store, bs: seq<Quant.BlockQ8>, row: seq<Cell>) {
    |bs| == |row| && forall b :: 0 <= b < |row| ==> Means8(s, bs[b], row[b])
  }

  lemma Cell8Means(s: Store, base: nat, row: seq<Cell>, b: nat, q: Quant.BlockQ8, a: nat, c: Cell)
    requires Holds(s, base, PackRow(Q8, row)) && (forall b :: 0 <= b < |row| ==> Within(row[b], -128, 128)) && b < |row|
    requires q == Blocks8At(s, base, |row|)[b] && a == Place(base, b, 34) && c == row[b]
    ensures Means8(s, q, c)
  {
    CellFound8(s, base, row, b, a, c);
    Block8Place(s, base, |row|, b, a, q);
    Block8Read(s, a, c, q);
  }

  lemma Row8Read(s: Store, base: nat, row: seq<Cell>)
    requires Holds(s, base, PackRow(Q8, row)) && forall b :: 0 <= b < |row| ==> Within(row[b], -128, 128)
    ensures RowMeans8(s, Blocks8At(s, base, |row|), row)
  {
    forall b: nat | b < |row| ensures Means8(s, Blocks8At(s, base, |row|)[b], row[b]) {
      Cell8Means(s, base, row, b, Blocks8At(s, base, |row|)[b], Place(base, b, 34), row[b]);
    }
  }

  lemma Rows8Size(m: seq<seq<Cell>>, rows: nat, n: nat, row: nat)
    requires IsBlocks(m, rows, n, -128, 128) && row == n * 34
    ensures AllOf(PackedRows(Q8, m), row) && |PackMatrix(Q8, m)| == rows * row
  {
    forall r | 0 <= r < rows ensures |PackedRows(Q8, m)[r]| == row { Row8Size(m[r]); }
    ConcatSize(PackedRows(Q8, m), row);
  }

  lemma RowFound8(s: Store, weights: nat, rows: nat, m: seq<seq<Cell>>, n: nat, r: nat)
    requires IsBlocks(m, rows, n, -128, 128) && r < rows && Holds(s, weights, PackMatrix(Q8, m))
    ensures Holds(s, Place(weights, r, n * 34), PackRow(Q8, m[r]))
  {
    Rows8Size(m, rows, n, n * 34);
    ChunkHolds(s, weights, PackedRows(Q8, m), n * 34, r);
  }

  lemma Row8Place(s: Store, weights: nat, cols: nat, n: nat, r: nat)
    requires cols / 32 == n
    ensures Row8At(s, weights, cols, r) == Blocks8At(s, Place(weights, r, n * 34), n)
  {
  }

  lemma Element8Of(bs: seq<Quant.BlockQ8>, b: nat, i: nat, x: real, d: real)
    requires Quant.Blocks8(bs) && b < |bs| && i < 32 && Quant.Quants8(bs[b])[i] == x && bs[b].d == d
    ensures Quant.Row8(bs)[32 * b + i] == x * d
  {
    Row8Element(bs, b, i);
    ScaledAt(Quant.Quants8(bs[b]), i, bs[b].d, x, d);
  }

  lemma Element8(s: Store, bs: seq<Quant.BlockQ8>, row: seq<Cell>, b: nat, i: nat, x: real, d: real)
    requires b < |row| && i < 32 && RowMeans8(s, bs, row) && Quant.Blocks8(bs)
    requires x == row[b].q[i] as real && d == s.half(row[b].lo, row[b].hi)
    ensures Quant.Row8(bs)[32 * b + i] == x * d
  {
    assert Means8(s, bs[b], row[b]);
    Element8Of(bs, b, i, x, d);
  }

  lemma Row8Is(s: Store, weights: nat, rows: nat, cols: nat, m: seq<seq<Cell>>, n: nat, r: nat)
    requires IsBlocks(m, rows, n, -128, 128) && cols / 32 == n && r < rows && Holds(s, weights, PackMatrix(Q8, m))
    ensures RowMeans8(s, Row8At(s, weights, cols, r), m[r])
  {
    RowFound8(s, weights, rows, m, n, r);
    Row8Place(s, weights, cols, n, r);
    Row8Read(s, Place(weights, r, n * 34), m[r]);
  }

  lemma Row8Stands(s: Store, bs: seq<Quant.BlockQ8>, m: seq<seq<Cell>>, e: Matrix, rows: nat, n: nat, r: nat)
    requires IsBlocks(m, rows, n, -128, 128) && r < rows == |e| && RowMeans8(s, bs, m[r]) && Quant.Blocks8(bs)
    requires e[r] == Quant.Row8(bs)
    ensures |e[r]| == 32 * n && forall b: nat, i: nat :: b < n && i < 32 ==> ElementIs(s, e, m, r, b, i)
  {
    forall b: nat, i: nat | b < n && i < 32 ensures ElementIs(s, e, m, r, b, i) {
      var x, d := m[r][b].q[i] as real, s.half(m[r][b].lo, m[r][b].hi);
      Element8(s, bs, m[r], b, i, x, d);
      ElementFrom(s, e, m, r, b, i, x, d);
    }
  }

  lemma Row8Unpacks(s: Store, weights: nat, rows: nat, cols: nat, m: seq<seq<Cell>>, n: nat, r: nat, e: Matrix)
    requires IsBlocks(m, rows, n, -128, 128) && cols / 32 == n && r < rows == |e| && Holds(s, weights, PackMatrix(Q8, m))
    requires e[r] == Quant.Row8(Row8At(s, weights, cols, r))
    ensures |e[r]| == 32 * n && forall b: nat, i: nat :: b < n && i < 32 ==> ElementIs(s, e, m, r, b, i)
  {
    Row8Is(s, weights, rows, cols, m, n, r);
    Row8Stands(s, Row8At(s, weights, cols, r), m, e, rows, n, r);
  }

  lemma Packed8Stands(s: Store, weights: nat, rows: nat, cols: nat, m: seq<seq<Cell>>, n: nat, e: Matrix)
    requires IsBlocks(m, rows, n, -128, 128) && cols / 32 == n && Holds(s, weights, PackMatrix(Q8, m)) && |e| == rows
    requires forall r: nat :: r < rows ==> e[r] == Quant.Row8(Row8At(s, weights, cols, r))
    ensures StandsFor(s, e, m, rows, n, -128, 128)
  {
    forall r: nat | r < rows
      ensures |e[r]| == 32 * n && forall b: nat, i: nat :: b < n && i < 32 ==> ElementIs(s, e, m, r, b, i)
    {
      Row8Unpacks(s, weights, rows, cols, m, n, r, e);
    }
  }

  /** A packed Q8_0 matrix dequantises to the matrix it was packed from. */
  lemma Packed8IsDequantised(s: Store, weights: nat, rows: nat, cols: nat, m: seq<seq<Cell>>, n: nat, d: Matrix)
    requires 32 * n <= cols < 32 * n + 32 && StandsFor(s, d, m, rows, n, -128, 128) && Holds(s, weights, PackMatrix(Q8, m))
    ensures DequantisedMatrix(s, 8, weights, rows, cols) == d
  {
    BlocksOf(cols, n);
    Packed8Stands(s, weights, rows, cols, m, n, DequantisedMatrix(s, 8, weights, rows, cols));
    SameElements(s, DequantisedMatrix(s, 8, weights, rows, cols), d, m, rows, n, -128, 128);
  }

  lemma Block4Place(s: Store, base: nat, n: nat, b: nat, a: nat, q: Quant.BlockQ4)
    requires b < n && a == Place(base, b, 18) && q == Blocks4At(s, base, n)[b]
    ensures q == Quant.BlockQ4(HalfAt(s, a), OctetsAt(s, a + 2, 16))
  {
  }

  lemma CellFound4(s: Store, base: nat, row: seq<Cell>, b: nat, a: nat, c: Cell)
    requires b < |row| && Holds(s, base, PackRow(Q4, row)) && forall b :: 0 <= b < |row| ==> Within(row[b], -8, 8)
    requires a == Place(base, b, 18) && c == row[b]
    ensures Within(c, -8, 8) && Holds(s, a, Pack(Q4, c))
  {
    Row4Size(row);
    ChunkHolds(s, base, Cells(Q4, row), 18, b);
    CellsAt(Q4, row, b);
  }

  lemma Row4Size(row: seq<Cell>)
    requires forall b :: 0 <= b < |row| ==> Within(row[b], -8, 8)
    ensures AllOf(Cells(Q4, row), 18) && |PackRow(Q4, row)| == |row| * 18
  {
    forall b | 0 <= b < |row| ensures |Cells(Q4, row)[b]| == 18 { CellsAt(Q4, row, b); }
    ConcatSize(Cells(Q4, row), 18);
  }

  ghost predicate RowMeans4(s: Store, bs: seq<Quant.BlockQ4>, row: seq<Cell>) {
    |bs| == |row| && forall b :: 0 <= b < |row| ==> Means4(s, bs[b], row[b])
  }

  lemma Cell4Means(s: Store, base: nat, row: seq<Cell>, b: nat, q: Quant.BlockQ4, a: nat, c: Cell)
    requires Holds(s, base, PackRow(Q4, row)) && (forall b :: 0 <= b < |row| ==> Within(row[b], -8, 8)) && b < |row|
    requires q == Blocks4At(s, base, |row|)[b] && a == Place(base, b, 18) && c == row[b]
    ensures Means4(s, q, c)
  {
    CellFound4(s, base, row, b, a, c);
    Block4Place(s, base, |row|, b, a, q);
    Block4Read(s, a, c, q);
  }

  lemma Row4Read(s: Store, base: nat, row: seq<Cell>)
    requires Holds(s, base, PackRow(Q4, row)) && forall b :: 0 <= b < |row| ==> Within(row[b], -8, 8)
    ensures RowMeans4(s, Blocks4At(s, base, |row|), row)
  {
    forall b: nat | b < |row| ensures Means4(s, Blocks4At(s, base, |row|)[b], row[b]) {
      Cell4Means(s, base, row, b, Blocks4At(s, base, |row|)[b], Place(base, b, 18), row[b]);
    }
  }

  lemma Rows4Size(m: seq<seq<Cell>>, rows: nat, n: nat, row: nat)
    requires IsBlocks(m, rows, n, -8, 8) && row == n * 18
    ensures AllOf(PackedRows(Q4, m), row) && |PackMatrix(Q4, m)| == rows * row
  {
    forall r | 0 <= r < rows ensures |PackedRows(Q4, m)[r]| == row { Row4Size(m[r]); }
    ConcatSize(PackedRows(Q4, m), row);
  }

  lemma RowFound4(s: Store, weights: nat, rows: nat, m: seq<seq<Cell>>, n: nat, r: nat)
    requires IsBlocks(m, rows, n, -8, 8) && r < rows && Holds(s, weights, PackMatrix(Q4, m))
    ensures Holds(s, Place(weights, r, n * 18), PackRow(Q4, m[r]))
  {
    Rows4Size(m, rows, n, n * 18);
    ChunkHolds(s, weights, PackedRows(Q4, m), n * 18, r);
  }

  lemma Row4Place(s: Store, weights: nat, cols: nat, n: nat, r: nat)
    requires cols / 32 == n
    ensures Row4At(s, weights, cols, r) == Blocks4At(s, Place(weights, r, n * 18), n)
  {
  }

  lemma Element4Of(bs: seq<Quant.BlockQ4>, b: nat, i: nat, x: real, d: real)
    requires Quant.Blocks4(bs) && b < |bs| && i < 32 && Quant.Quants4(bs[b])[i] == x && bs[b].d == d
    ensures Quant.Row4(bs)[32 * b + i] == x * d
  {
    Row4Element(bs, b, i);
    ScaledAt(Quant.Quants4(bs[b]), i, bs[b].d, x, d);
  }

  lemma Element4(s: Store, bs: seq<Quant.BlockQ4>, row: seq<Cell>, b: nat, i: nat, x: real, d: real)
    requires b < |row| && i < 32 && RowMeans4(s, bs, row) && Quant.Blocks4(bs)
    requires x == row[b].q[i] as real && d == s.half(row[b].lo, row[b].hi)
    ensures Quant.Row4(bs)[32 * b + i] == x * d
  {
    assert Means4(s, bs[b], row[b]);
    Element4Of(bs, b, i, x, d);
  }

  lemma Row4Is(s: Store, weights: nat, rows: nat, cols: nat, m: seq<seq<Cell>>, n: nat, r: nat)
    requires IsBlocks(m, rows, n, -8, 8) && cols / 32 == n && r < rows && Holds(s, weights, PackMatrix(Q4, m))
    ensures RowMeans4(s, Row4At(s, weights, cols, r), m[r])
  {
    RowFound4(s, weights, rows, m, n, r);
    Row4Place(s, weights, cols, n, r);
    Row4Read(s, Place(weights, r, n * 18), m[r]);
  }

  lemma Row4Stands(s: Store, bs: seq<Quant.BlockQ4>, m: seq<seq<Cell>>, e: Matrix, rows: nat, n: nat, r: nat)
    requires IsBlocks(m, rows, n, -8, 8) && r < rows == |e| && RowMeans4(s, bs, m[r]) && Quant.Blocks4(bs)
    requires e[r] == Quant.Row4(bs)
    ensures |e[r]| == 32 * n && forall b: nat, i: nat :: b < n && i < 32 ==> ElementIs(s, e, m, r, b, i)
  {
    forall b: nat, i: nat | b < n && i < 32 ensures ElementIs(s, e, m, r, b, i) {
      var x, d := m[r][b].q[i] as real, s.half(m[r][b].lo, m[r][b].hi);
      Element4(s, bs, m[r], b, i, x, d);
      ElementFrom(s, e, m, r, b, i, x, d);
    }
  }

  lemma Row4Unpacks(s: Store, weights: nat, rows: nat, cols: nat, m: seq<seq<Cell>>, n: nat, r: nat, e: Matrix)
    requires IsBlocks(m, rows, n, -8, 8) && cols / 32 == n && r < rows == |e| && Holds(s, weights, PackMatrix(Q4, m))
    requires e[r] == Quant.Row4(Row4At(s, weights, cols, r))
    ensures |e[r]| == 32 * n && forall b: nat, i: nat :: b < n && i < 32 ==> ElementIs(s, e, m, r, b, i)
  {
    Row4Is(s, weights, rows, cols, m, n, r);
    Row4Stands(s, Row4At(s, weights, cols, r), m, e, rows, n, r);
  }

  lemma Packed4Stands(s: Store, weights: nat, rows: nat, cols: nat, m: seq<seq<Cell>>, n: nat, e: Matrix)
    requires IsBlocks(m, rows, n, -8, 8) && cols / 32 == n && Holds(s, weights, PackMatrix(Q4, m)) && |e| == rows
    requires forall r: nat :: r < rows ==> e[r] == Quant.Row4(Row4At(s, weights, cols, r))
    ensures StandsFor(s, e, m, rows, n, -8, 8)
  {
    forall r: nat | r < rows
      ensures |e[r]| == 32 * n && forall b: nat, i: nat :: b < n && i < 32 ==> ElementIs(s, e, m, r, b, i)
    {
      Row4Unpacks(s, weights, rows, cols, m, n, r, e);
    }
  }

  /** A packed Q4_0 matrix dequantises to the matrix it was packed from. */
  lemma Packed4IsDequantised(s: Store, weights: nat, rows: nat, cols: nat, m: seq<seq<Cell>>, n: nat, d: Matrix)
    requires 32 * n <= cols < 32 * n + 32 && StandsFor(s, d, m, rows, n, -8, 8) && Holds(s, weights, PackMatrix(Q4, m))
    ensures DequantisedMatrix(s, 2, weights, rows, cols) == d
  {
    BlocksOf(cols, n);
    Packed4Stands(s, weights, rows, cols, m, n, DequantisedMatrix(s, 2, weights, rows, cols));
    SameElements(s, DequantisedMatrix(s, 2, weights, rows, cols), d, m, rows, n, -8, 8);
  }

  ghost predicate AllFloats(m: seq<seq<Cell>>, rows: nat, cols: nat) {
    |m| == rows && forall r :: 0 <= r < rows ==> |m[r]| == cols && forall c :: 0 <= c < cols ==> m[r][c].Float?
  }

  ghost predicate IsFloats(s: Store, d: Matrix, m: seq<seq<Cell>>, rows: nat, cols: nat) {
    && AllFloats(m, rows, cols) && IsMatrix(d, rows, cols)
    && forall r, c :: 0 <= r < rows && 0 <= c < cols ==> d[r][c] == s.float(m[r][c].b0, m[r][c].b1, m[r][c].b2, m[r][c].b3)
  }

  lemma FloatRead(s: Store, a: nat, f: Cell)
    requires f.Float? && Holds(s, a, Pack(F32, f))
    ensures FloatAt(s, a) == s.float(f.b0, f.b1, f.b2, f.b3)
  {
    var p := Pack(F32, f);
    HoldsIff(s, a, p);
    assert p == [f.b0, f.b1, f.b2, f.b3];
    assert s.bytes(a + 0) == p[0] && s.bytes(a + 1) == p[1] && s.bytes(a + 2) == p[2] && s.bytes(a + 3) == p[3];
  }

  lemma FloatRowSize(row: seq<Cell>)
    requires forall c :: 0 <= c < |row| ==> row[c].Float?
    ensures AllOf(Cells(F32, row), 4) && |PackRow(F32, row)| == |row| * 4
  {
    forall c | 0 <= c < |row| ensures |Cells(F32, row)[c]| == 4 { CellsAt(F32, row, c); }
    ConcatSize(Cells(F32, row), 4);
  }

  lemma FloatInRow(s: Store, base: nat, row: seq<Cell>, c: nat)
    requires c < |row| && (forall c :: 0 <= c < |row| ==> row[c].Float?) && Holds(s, base, PackRow(F32, row))
    ensures FloatsAt(s, base, |row|)[c] == s.float(row[c].b0, row[c].b1, row[c].b2, row[c].b3)
  {
    FloatRowSize(row);
    ChunkHolds(s, base, Cells(F32, row), 4, c);
    CellsAt(F32, row, c);
    FloatRead(s, Place(base, c, 4), row[c]);
  }

  lemma FloatRowsSize(m: seq<seq<Cell>>, rows: nat, cols: nat, row: nat)
    requires AllFloats(m, rows, cols) && row == cols * 4
    ensures AllOf(PackedRows(F32, m), row) && |PackMatrix(F32, m)| == rows * row
  {
    forall r | 0 <= r < rows ensures |PackedRows(F32, m)[r]| == row { FloatRowSize(m[r]); }
    ConcatSize(PackedRows(F32, m), row);
  }

  lemma FloatRowFound(s: Store, weights: nat, rows: nat, cols: nat, m: seq<seq<Cell>>, r: nat)
    requires AllFloats(m, rows, cols) && r < rows && Holds(s, weights, PackMatrix(F32, m))
    ensures Holds(s, Place(weights, r, cols * 4), PackRow(F32, m[r]))
  {
    FloatRowsSize(m, rows, cols, cols * 4);
    ChunkHolds(s, weights, PackedRows(F32, m), cols * 4, r);
  }

  lemma FloatRowPlace(s: Store, weights: nat, cols: nat, r: nat)
    ensures FloatRowAt(s, weights, cols, r) == FloatsAt(s, Place(weights, r, cols * 4), cols)
  {
    assert Place(weights, r, cols * 4) == weights + 4 * (r * cols);
  }

  lemma FloatRowIs(s: Store, base: nat, row: seq<Cell>, d: Vector)
    requires (forall c :: 0 <= c < |row| ==> row[c].Float?) && Holds(s, base, PackRow(F32, row)) && |d| == |row|
    requires forall c :: 0 <= c < |row| ==> d[c] == s.float(row[c].b0, row[c].b1, row[c].b2, row[c].b3)
    ensures FloatsAt(s, base, |row|) == d
  {
    forall c: nat | c < |row| ensures FloatsAt(s, base, |row|)[c] == d[c] { FloatInRow(s, base, row, c); }
  }

  /** A matrix of single-precision numbers is read as it was written. */
  lemma FloatsAreRead(s: Store, type_: nat, weights: nat, rows: nat, cols: nat, m: seq<seq<Cell>>, d: Matrix)
    requires type_ != 8 && type_ != 2 && IsFloats(s, d, m, rows, cols) && Holds(s, weights, PackMatrix(F32, m))
    ensures DequantisedMatrix(s, type_, weights, rows, cols) == d
  {
    forall r: nat | r < rows ensures FloatRowAt(s, weights, cols, r) == d[r] {
      FloatRowFound(s, weights, rows, cols, m, r);
      FloatRowPlace(s, weights, cols, r);
      FloatRowIs(s, Place(weights, r, cols * 4), m[r], d[r]);
    }
    assert forall r: nat :: r < rows ==> DequantisedMatrix(s, type_, weights, rows, cols)[r] == d[r];
  }

  // ---------------------------------------------------------------------
  // mat_vec_mul over packed weights
  // ---------------------------------------------------------------------

  /** Memory holds the matrix d, packed in the tensor's type: 8 is Q8_0, 2 is Q4_0, anything else single precision. */
  ghost predicate HoldsMatrix(s: Store, weights: nat, type_: nat, rows: nat, cols: nat, d: Matrix) {
    if type_ == 8 then
      exists m, n: nat :: 32 * n <= cols < 32 * n + 32 && StandsFor(s, d, m, rows, n, -128, 128) && Holds(s, weights, PackMatrix(Q8, m))
    else if type_ == 2 then
      exists m, n: nat :: 32 * n <= cols < 32 * n + 32 && StandsFor(s, d, m, rows, n, -8, 8) && Holds(s, weights, PackMatrix(Q4, m))
    else
      exists m :: IsFloats(s, d, m, rows, cols) && Holds(s, weights, PackMatrix(F32, m))
  }

  lemma HeldIsDequantised(s: Store, weights: nat, type_: nat, rows: nat, cols: nat, d: Matrix)
    requires HoldsMatrix(s, weights, type_, rows, cols, d)
    ensures DequantisedMatrix(s, type_, weights, rows, cols) == d
  {
    if type_ == 8 {
      var m, n: nat :| 32 * n <= cols < 32 * n + 32 && StandsFor(s, d, m, rows, n, -128, 128) && Holds(s, weights, PackMatrix(Q8, m));
      Packed8IsDequantised(s, weights, rows, cols, m, n, d);
    } else if type_ == 2 {
      var m, n: nat :| 32 * n <= cols < 32 * n + 32 && StandsFor(s, d, m, rows, n, -8, 8) && Holds(s, weights, PackMatrix(Q4, m));
      Packed4IsDequantised(s, weights, rows, cols, m, n, d);
    } else {
      var m :| IsFloats(s, d, m, rows, cols) && Holds(s, weights, PackMatrix(F32, m));
      FloatsAreRead(s, type_, weights, rows, cols, m, d);
    }
  }

  /** The sizes a gate names are the bytes of the packed matrix and of the two float vectors. */
  lemma GateSizes(out: nat, weights: nat, vec: nat, rows: nat, cols: nat, type_: nat, n: nat,
                  m: seq<seq<Cell>>, f: seq<seq<Cell>>)
    requires 32 * n <= cols < 32 * n + 32
    ensures var job := MatVecJob(out, weights, vec, rows, cols, type_);
      && job.inputSize == 4 * cols && job.outputSize == 4 * rows
      && (type_ == 8 && IsBlocks(m, rows, n, -128, 128) ==> job.weightsSize == |PackMatrix(Q8, m)|)
      && (type_ == 2 && IsBlocks(m, rows, n, -8, 8) ==> job.weightsSize == |PackMatrix(Q4, m)|)
      && (type_ != 8 && type_ != 2 && AllFloats(f, rows, cols) ==> job.weightsSize == |PackMatrix(F32, f)|)
  {
    BlocksOf(cols, n);
    if type_ == 8 && IsBlocks(m, rows, n, -128, 128) { Rows8Size(m, rows, n, n * 34); Reorder(rows, n, 34); }
    if type_ == 2 && IsBlocks(m, rows, n, -8, 8) { Rows4Size(m, rows, n, n * 18); Reorder(rows, n, 18); }
    if type_ != 8 && type_ != 2 && AllFloats(f, rows, cols) {
      FloatRowsSize(f, rows, cols, cols * 4);
      Reorder(rows, cols, 4);
    }
  }

  lemma Reorder(rows: nat, n: nat, size: nat)
    ensures rows * (n * size) == rows * n * size
  {
  }

  /** When memory holds a packed matrix, a returning call of mat_vec_mul leaves its product with the input vector in
      the output buffer and nothing else anywhere. */
  lemma PackedProductReturns(s: Store, start: Sys, events: seq<Event>, c: Client,
                             out: nat, weights: nat, vec: nat, rows: nat, cols: nat, type_: nat, d: Matrix)
    requires Init(start) && HoldsMatrix(s, weights, type_, rows, cols, d)
    ensures Runs(Rows(s), start, events)
    ensures var t := Run(Rows(s), start, events);
      t.call == MatVecJob(out, weights, vec, rows, cols, type_) && t.cpu.WAIT? && CpuStep(t, c).cpu.CLIENT? ==>
        && |t.mem| == |t.before| && out + rows <= |t.mem| && vec + cols <= |t.before|
        && (forall r :: 0 <= r < rows ==> t.mem[out + r] == Dot(d[r], t.before[vec..vec + cols], cols))
        && forall i :: 0 <= i < |t.mem| && !(out <= i < out + rows) ==> t.mem[i] == t.before[i]
  {
    HeldIsDequantised(s, weights, type_, rows, cols, d);
    MatVecMulReturns(s, start, events, c, out, weights, vec, rows, cols, type_);
    InitInv(Rows(s), start);
    RunKeepsInv(Rows(s), start, events);
    var t := Run(Rows(s), start, events);
    if t.call == MatVecJob(out, weights, vec, rows, cols, type_) && t.cpu.WAIT? && CpuStep(t, c).cpu.CLIENT? {
      ProductElements(t.mem, out, rows, d, t.before, vec, cols);
    }
  }

  lemma ProductElements(mem: Vector, out: nat, rows: nat, d: Matrix, before: Vector, vec: nat, cols: nat)
    requires out + rows <= |mem| && vec + cols <= |before|
    requires Stretch(mem, out, rows) == MatVec(d, Stretch(before, vec, cols))
    ensures |d| == rows && forall r :: 0 <= r < rows ==> mem[out + r] == Dot(d[r], before[vec..vec + cols], cols)
  {
    assert Stretch(before, vec, cols) == before[vec..vec + cols];
    forall r | 0 <= r < rows ensures mem[out + r] == Dot(d[r], before[vec..vec + cols], cols) {
      assert Stretch(mem, out, rows)[r] == mem[out + r];
    }
  }
}
