/** The part of the GGUF file format that gguf.c reads ("File Structure" of the GGUF specification): what a
    writer puts into a file, byte by byte. */
module GgufFormat {
  import opened CStrings
  import opened Division

  // ---------------------------------------------------------------------
  // Little-endian numbers
  // ---------------------------------------------------------------------

  const U32: nat := 4
  const U64: nat := 8

  function Le(n: nat, w: nat): (r: seq<Byte>)
    ensures |r| == w
  {
    if w == 0 then [] else [n % 256] + Le(n / 256, w - 1)
  }

  function FromLe(s: seq<Byte>): nat {
    if s == [] then 0 else s[0] + 256 * FromLe(s[1..])
  }

  function Pow256(w: nat): (r: nat)
    ensures r > 0
  {
    if w == 0 then 1 else 256 * Pow256(w - 1)
  }

  lemma {:induction false} LeRoundTrip(n: nat, w: nat)
    requires n < Pow256(w)
    ensures FromLe(Le(n, w)) == n
  {
    if w > 0 { LeRoundTrip(n / 256, w - 1); }
  }

  /** Byte k of a number stands for 256^k: the lowest byte comes first. */
  lemma {:induction false} LeByte(n: nat, w: nat, k: nat)
    requires k < w
    ensures Le(n, w)[k] == n / Pow256(k) % 256
  {
    if k > 0 {
      LeByte(n / 256, w - 1, k - 1);
      TwoDivisions(n, 256, Pow256(k - 1));
    }
  }

  // ---------------------------------------------------------------------
  // Metadata
  // ---------------------------------------------------------------------

  /** The value types; arrays hold scalars or strings, never arrays. Scalars are kept as their bytes. */
  datatype Value =
    | Scalar(kind: nat, raw: seq<Byte>)
    | Text(text: seq<Byte>)
    | Scalars(kind: nat, count: nat, raw: seq<Byte>)
    | Texts(texts: seq<seq<Byte>>)

  datatype Pair = Pair(key: seq<Byte>, value: Value)

  /** Bytes of a scalar of a type: UINT8, INT8, UINT16, INT16, UINT32, INT32, FLOAT32, BOOL, and UINT64, INT64,
      FLOAT64 behind STRING and ARRAY. */
  function Width(kind: nat): nat {
    if kind == 0 || kind == 1 || kind == 7 then 1
    else if kind == 2 || kind == 3 then 2
    else if kind == 4 || kind == 5 || kind == 6 then 4
    else if kind == 10 || kind == 11 || kind == 12 then 8
    else 0
  }

  /** The table of the specification, by value type; STRING and ARRAY have no fixed width. */
  lemma WidthIs(kind: nat)
    ensures Width(kind) == if kind < 13 then [1, 1, 2, 2, 4, 4, 4, 1, 0, 0, 8, 8, 8][kind] else 0
  {
  }

  predicate ShortText(s: seq<Byte>) { |s| < Pow256(U32) }

  ghost predicate ValidValue(v: Value) {
    match v
    case Scalar(kind, raw) => Width(kind) > 0 && |raw| == Width(kind)
    case Text(text) => ShortText(text)
    case Scalars(kind, count, raw) => Width(kind) > 0 && count < Pow256(U64) && |raw| == count * Width(kind)
    case Texts(texts) => |texts| < Pow256(U64) && forall k :: 0 <= k < |texts| ==> ShortText(texts[k])
  }

  function TypeOf(v: Value): nat {
    match v
    case Scalar(kind, _) => kind
    case Text(_) => 8
    case _ => 9
  }

  function EncodeText(s: seq<Byte>): seq<Byte> { Le(|s|, U64) + s }

  function EncodeTexts(ts: seq<seq<Byte>>): seq<Byte> {
    if ts == [] then [] else EncodeText(ts[0]) + EncodeTexts(ts[1..])
  }

  function EncodeValue(v: Value): seq<Byte> {
    match v
    case Scalar(_, raw) => raw
    case Text(text) => EncodeText(text)
    case Scalars(kind, count, raw) => Le(kind, U32) + (Le(count, U64) + raw)
    case Texts(texts) => Le(8, U32) + (Le(|texts|, U64) + EncodeTexts(texts))
  }

  /** "general.alignment" */
  const ALIGNMENT: seq<Byte> := [103, 101, 110, 101, 114, 97, 108, 46, 97, 108, 105, 103, 110, 109, 101, 110, 116]

  /** "tokenizer.ggml.tokens" */
  const TOKENS: seq<Byte> :=
    [116, 111, 107, 101, 110, 105, 122, 101, 114, 46, 103, 103, 109, 108, 46, 116, 111, 107, 101, 110, 115]

  /** The alignment is a UINT32, as the specification has it. */
  ghost predicate ValidPair(p: Pair) {
    && ShortText(p.key) && ValidValue(p.value)
    && (p.key == ALIGNMENT ==> p.value.Scalar? && p.value.kind == 4)
  }

  function EncodePair(p: Pair): seq<Byte> {
    EncodeText(p.key) + (Le(TypeOf(p.value), U32) + EncodeValue(p.value))
  }

  function EncodePairs(ps: seq<Pair>): seq<Byte> {
    if ps == [] then [] else EncodePair(ps[0]) + EncodePairs(ps[1..])
  }

  /** The alignment that a list of pairs sets, when it was a before: the last pair with the key decides. */
  function AlignmentAfter(ps: seq<Pair>, a: nat): nat {
    if ps == [] then a
    else AlignmentAfter(ps[1..], if ps[0].key == ALIGNMENT && ps[0].value.Scalar? then FromLe(ps[0].value.raw) else a)
  }

  /** The last pair with the key decides, whatever the alignment was before. */
  lemma {:induction false} LastAlignmentDecides(ps: seq<Pair>, a: nat, k: nat)
    requires (forall i :: 0 <= i < |ps| ==> ValidPair(ps[i])) && k < |ps| && ValidPair(ps[k])
    requires ps[k].key == ALIGNMENT && forall i :: k < i < |ps| ==> ps[i].key != ALIGNMENT
    ensures AlignmentAfter(ps, a) == FromLe(ps[k].value.raw)
  {
    var a' := if ps[0].key == ALIGNMENT && ps[0].value.Scalar? then FromLe(ps[0].value.raw) else a;
    if k > 0 {
      LastAlignmentDecides(ps[1..], a', k - 1);
    } else {
      NoAlignmentKeeps(ps[1..], a');
    }
  }

  lemma {:induction false} NoAlignmentKeeps(ps: seq<Pair>, a: nat)
    requires forall i :: 0 <= i < |ps| ==> ps[i].key != ALIGNMENT
    ensures AlignmentAfter(ps, a) == a
  {
    if ps != [] { NoAlignmentKeeps(ps[1..], a); }
  }

  /** The token strings that a list of pairs sets. */
  function TokensAfter(ps: seq<Pair>, ts: seq<seq<Byte>>): seq<seq<Byte>> {
    if ps == [] then ts
    else TokensAfter(ps[1..], if ps[0].key == TOKENS && ps[0].value.Texts? then ps[0].value.texts else ts)
  }

  /** The last token list decides; without one the list stays. */
  lemma {:induction false} LastTokensDecide(ps: seq<Pair>, ts: seq<seq<Byte>>, k: int)
    requires -1 <= k < |ps| && forall i :: k < i < |ps| ==> ps[i].key != TOKENS || !ps[i].value.Texts?
    requires k >= 0 ==> ps[k].key == TOKENS && ps[k].value.Texts?
    ensures TokensAfter(ps, ts) == if k >= 0 then ps[k].value.texts else ts
  {
    if ps != [] {
      LastTokensDecide(ps[1..], if ps[0].key == TOKENS && ps[0].value.Texts? then ps[0].value.texts else ts, if k >= 0 then k - 1 else -1);
    }
  }

  // ---------------------------------------------------------------------
  // Tensor infos and the file
  // ---------------------------------------------------------------------

  datatype Tensor = Tensor(name: seq<Byte>, dims: seq<nat>, kind: nat, offset: nat)

  ghost predicate ValidTensor(t: Tensor) {
    && ShortText(t.name) && |t.dims| <= 4 && (forall d :: 0 <= d < |t.dims| ==> t.dims[d] < Pow256(U64))
    && t.kind < Pow256(U32) && t.offset < Pow256(U64)
  }

  function EncodeDims(ds: seq<nat>): seq<Byte> {
    if ds == [] then [] else Le(ds[0], U64) + EncodeDims(ds[1..])
  }

  function EncodeTensor(t: Tensor): seq<Byte> {
    EncodeText(t.name) + (Le(|t.dims|, U32) + (EncodeDims(t.dims) + (Le(t.kind, U32) + Le(t.offset, U64))))
  }

  function EncodeTensors(ts: seq<Tensor>): seq<Byte> {
    if ts == [] then [] else EncodeTensor(ts[0]) + EncodeTensors(ts[1..])
  }

  /** "GGUF" */
  const MAGIC: seq<Byte> := [71, 71, 85, 70]

  /** The names that the reader looks for, in ASCII. */
  lemma NamesAre()
    ensures |ALIGNMENT| == |"general.alignment"| && forall i :: 0 <= i < |ALIGNMENT| ==> ALIGNMENT[i] == "general.alignment"[i] as int
    ensures |TOKENS| == |"tokenizer.ggml.tokens"| && forall i :: 0 <= i < |TOKENS| ==> TOKENS[i] == "tokenizer.ggml.tokens"[i] as int
    ensures |MAGIC| == |"GGUF"| && forall i :: 0 <= i < |MAGIC| ==> MAGIC[i] == "GGUF"[i] as int
  {
  }

  const MAX_TENSORS: nat := 512

  ghost predicate ValidContents(ps: seq<Pair>, ts: seq<Tensor>) {
    && |ps| < Pow256(U64) && (forall i :: 0 <= i < |ps| ==> ValidPair(ps[i]))
    && |ts| <= MAX_TENSORS && forall i :: 0 <= i < |ts| ==> ValidTensor(ts[i])
  }

  /** Everything before the padding and the tensor data. */
  function EncodeFile(version: nat, ps: seq<Pair>, ts: seq<Tensor>): seq<Byte> {
    MAGIC + (Le(version, U32) + (Le(|ts|, U64) + (Le(|ps|, U64) + (EncodePairs(ps) + EncodeTensors(ts)))))
  }

  lemma Le4(n: nat)
    requires n < 256
    ensures Le(n, 4) == [n, 0, 0, 0]
  {
    assert Le(0, 1) == [0] + Le(0, 0) && Le(0, 2) == [0] + Le(0, 1) && Le(0, 3) == [0] + Le(0, 2);
    assert Le(n, 4) == [n] + Le(0, 3);
  }

  lemma Le8(n: nat)
    requires n < 256
    ensures Le(n, 8) == [n, 0, 0, 0, 0, 0, 0, 0]
  {
    Le4(0);
    assert Le(0, 5) == [0] + Le(0, 4) && Le(0, 6) == [0] + Le(0, 5) && Le(0, 7) == [0] + Le(0, 6);
    assert Le(n, 8) == [n] + Le(0, 7);
  }

  lemma TextBytes(c: Byte)
    ensures EncodeText([c]) == [1, 0, 0, 0, 0, 0, 0, 0, c]
  {
    Le8(1);
  }

  lemma ValueBytes(kind: nat, raw: seq<Byte>, c: Byte)
    requires kind < 256 && |raw| < 256
    ensures EncodeValue(Scalars(kind, |raw|, raw)) == [kind, 0, 0, 0] + ([|raw|, 0, 0, 0, 0, 0, 0, 0] + raw)
    ensures EncodeValue(Texts([[c]])) == [8, 0, 0, 0] + ([1, 0, 0, 0, 0, 0, 0, 0] + [1, 0, 0, 0, 0, 0, 0, 0, c])
  {
    Le4(kind);
    Le8(|raw|);
    Le4(8);
    Le8(1);
    TextBytes(c);
    assert EncodeTexts([[c]]) == EncodeText([c]) + EncodeTexts([]);
  }

  /** The bytes of a metadata pair: the length of the key and the key, the value type, and the value; a number is
      its bytes, a text its length and bytes, an array its element type, its length and its elements. */
  lemma PairBytes(k: Byte, kind: nat, raw: seq<Byte>, c: Byte)
    requires kind < 256 && |raw| < 256
    ensures var key: seq<Byte> := [1, 0, 0, 0, 0, 0, 0, 0, k];
      && EncodePair(Pair([k], Scalar(kind, raw))) == key + ([kind, 0, 0, 0] + raw)
      && EncodePair(Pair([k], Text([c]))) == key + ([8, 0, 0, 0] + [1, 0, 0, 0, 0, 0, 0, 0, c])
      && EncodePair(Pair([k], Scalars(kind, |raw|, raw))) == key + ([9, 0, 0, 0] + ([kind, 0, 0, 0] + ([|raw|, 0, 0, 0, 0, 0, 0, 0] + raw)))
      && EncodePair(Pair([k], Texts([[c]])))
         == key + ([9, 0, 0, 0] + ([8, 0, 0, 0] + ([1, 0, 0, 0, 0, 0, 0, 0] + [1, 0, 0, 0, 0, 0, 0, 0, c])))
  {
    TextBytes(k);
    TextBytes(c);
    ValueBytes(kind, raw, c);
    Le4(kind);
    Le4(8);
    Le4(9);
  }

  lemma DimsBytes(rows: nat, cols: nat)
    requires rows < 256 && cols < 256
    ensures EncodeDims([rows, cols]) == [rows, 0, 0, 0, 0, 0, 0, 0] + [cols, 0, 0, 0, 0, 0, 0, 0]
  {
    Le8(rows);
    Le8(cols);
    assert [rows, cols][1..] == [cols] && [cols][1..] == [];
    assert EncodeDims([cols]) == Le(cols, 8) + EncodeDims([]);
    assert EncodeDims([rows, cols]) == Le(rows, 8) + EncodeDims([cols]);
  }

  /** The bytes of a tensor info: name, number of dimensions, dimensions, type, offset. */
  lemma TensorBytes(c: Byte, rows: nat, cols: nat, kind: nat, offset: nat)
    requires rows < 256 && cols < 256 && kind < 256 && offset < 256
    ensures EncodeTensor(Tensor([c], [rows, cols], kind, offset))
         == [1, 0, 0, 0, 0, 0, 0, 0, c] + ([2, 0, 0, 0] + ([rows, 0, 0, 0, 0, 0, 0, 0] + [cols, 0, 0, 0, 0, 0, 0, 0]
            + ([kind, 0, 0, 0] + [offset, 0, 0, 0, 0, 0, 0, 0])))
  {
    TextBytes(c);
    DimsBytes(rows, cols);
    Le8(offset);
    Le4(2);
    Le4(kind);
  }

  lemma ListBytes(p: Pair, q: Pair, t: Tensor, u: Tensor)
    ensures EncodePairs([p, q]) == EncodePair(p) + EncodePair(q) && EncodeTensors([t, u]) == EncodeTensor(t) + EncodeTensor(u)
  {
    assert [p, q][1..] == [q] && [q][1..] == [] && [t, u][1..] == [u] && [u][1..] == [];
    assert EncodePairs([q]) == EncodePair(q) + EncodePairs([]);
    assert EncodeTensors([u]) == EncodeTensor(u) + EncodeTensors([]);
  }

  /** The bytes of a file: magic, version, number of tensors, number of pairs, pairs, tensor infos. */
  lemma FileBytes(version: nat, p: Pair, q: Pair, t: Tensor, u: Tensor)
    requires version < 256
    ensures EncodeFile(version, [p, q], [t, u])
         == [71, 71, 85, 70] + ([version, 0, 0, 0] + ([2, 0, 0, 0, 0, 0, 0, 0] + ([2, 0, 0, 0, 0, 0, 0, 0]
            + (EncodePair(p) + EncodePair(q) + (EncodeTensor(t) + EncodeTensor(u))))))
    ensures EncodeFile(version, [], [t, u])
         == [71, 71, 85, 70] + ([version, 0, 0, 0] + ([2, 0, 0, 0, 0, 0, 0, 0] + ([0, 0, 0, 0, 0, 0, 0, 0]
            + (EncodeTensor(t) + EncodeTensor(u)))))
  {
    Le8(2);
    Le8(0);
    Le4(version);
    ListBytes(p, q, t, u);
    assert EncodePairs([]) + EncodeTensors([t, u]) == EncodeTensors([t, u]);
  }

  // ---------------------------------------------------------------------
  // Alignment
  // ---------------------------------------------------------------------

  /** x & ~m, bit by bit. */
  function AndNot(x: nat, m: nat): nat {
    if x == 0 then 0 else 2 * AndNot(x / 2, m / 2) + (if x % 2 == 1 && m % 2 == 0 then 1 else 0)
  }

  /** (cursor + a - 1) & ~(a - 1); with a == 0 the mask is all ones in 64 bits. */
  function AlignUp(cursor: nat, a: nat): nat {
    if a == 0 then 0 else AndNot(cursor + a - 1, a - 1)
  }

  predicate PowerOfTwo(a: nat) {
    a == 1 || (a > 0 && a % 2 == 0 && PowerOfTwo(a / 2))
  }

  ghost predicate LeastMultiple(a: nat, from: nat, r: nat) {
    a > 0 && r % a == 0 && from <= r < from + a
  }

  lemma {:induction false} ClearsLowBits(x: nat, a: nat)
    requires PowerOfTwo(a)
    ensures AndNot(x, a - 1) == x - x % a
    decreases a
  {
    if a == 1 {
      NothingCleared(x);
    } else {
      ClearsLowBits(x / 2, a / 2);
      ClearsOneMore(x, a, a / 2);
    }
  }

  lemma ClearsOneMore(x: nat, a: nat, h: nat)
    requires h > 0 && a == 2 * h && AndNot(x / 2, h - 1) == x / 2 - x / 2 % h
    ensures AndNot(x, a - 1) == x - x % a
  {
    AndNotOdd(x, a - 1, h - 1);
    HalveModulo(x, h);
    CombineHalves(x, a, h);
  }

  lemma AndNotOdd(x: nat, m: nat, m': nat)
    requires m == 2 * m' + 1
    ensures AndNot(x, m) == 2 * AndNot(x / 2, m')
  {
    assert m / 2 == m' && m % 2 == 1;
  }

  lemma CombineHalves(x: nat, a: nat, h: nat)
    requires h > 0 && a == 2 * h && x % (2 * h) == 2 * (x / 2 % h) + x % 2
    ensures 2 * (x / 2 - x / 2 % h) == x - x % a
  {
  }

  lemma {:induction false} NothingCleared(x: nat)
    ensures AndNot(x, 0) == x
  {
    if x > 0 { NothingCleared(x / 2); }
  }

  lemma {:induction false} AllCleared(x: nat)
    ensures AndNot(x, x) == 0
  {
    if x > 0 { AllCleared(x / 2); }
  }

  lemma HalveModulo(x: nat, h: nat)
    requires h > 0
    ensures x % (2 * h) == 2 * (x / 2 % h) + x % 2
  {
    var y := x / 2;
    var q, r := y / h, y % h;
    DivisionIs(y, h);
    assert q * (2 * h) == 2 * (q * h);
    RemainderIs(x, 2 * h, q, 2 * r + x % 2);
  }

  lemma RemainderIs(x: nat, a: nat, q: nat, r: nat)
    requires a > 0 && x == q * a + r && r < a
    ensures x % a == r
  {
    DivisionIs(x, a);
    SameRemainder(a, q, r, x / a, x % a);
  }

  lemma SameRemainder(a: nat, q: nat, r: nat, q': nat, r': nat)
    requires q * a + r == q' * a + r' && r < a && r' < a
    ensures r == r'
  {
    if q < q' {
      Spread(a, q, q');
    } else if q' < q {
      Spread(a, q', q);
    }
  }

  lemma {:induction false} LowestBit(a: nat)
    requires a > 0
    ensures AndNot(a, a - 1) == a <==> PowerOfTwo(a)
  {
    if a % 2 == 0 {
      LowestBit(a / 2);
      assert (a - 1) / 2 == a / 2 - 1;
    } else {
      AllCleared(a / 2);
      assert (a - 1) / 2 == a / 2;
    }
  }

  /** The bit formula gives the least multiple of the alignment at or after every cursor exactly when the
      alignment is a power of two. */
  lemma AlignsIffPowerOfTwo(a: nat)
    requires a > 0
    ensures (forall cursor: nat :: LeastMultiple(a, cursor, AlignUp(cursor, a))) <==> PowerOfTwo(a)
  {
    if PowerOfTwo(a) {
      forall cursor: nat ensures LeastMultiple(a, cursor, AlignUp(cursor, a)) {
        var x := cursor + a - 1;
        ClearsLowBits(x, a);
        RoundsDown(x, a);
      }
    } else {
      LowestBit(a);
      if LeastMultiple(a, 1, AlignUp(1, a)) {
        OnlyMultiple(a, AlignUp(1, a));
      }
    }
  }

  lemma RoundsDown(x: nat, a: nat)
    requires a > 0
    ensures (x - x % a) % a == 0 && x < (x - x % a) + a && x - x % a >= 0
  {
    DivisionIs(x, a);
    RemainderIs(x / a * a, a, x / a, 0);
  }

  lemma OnlyMultiple(a: nat, r: nat)
    requires a > 0 && r % a == 0 && 1 <= r < 1 + a
    ensures r == a
  {
    if r < a { RemainderIs(r, a, 0, r); }
  }
}
