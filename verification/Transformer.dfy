/** What one layer of the forward pass computes, as functions on vectors. Numbers are reals and the
    elementary functions are left open. The functions are total: outside a vector they read 0, which
    a model of consistent shapes never does. */
module Transformer {
  import opened Recurrence

  /** The elementary functions, as whatever the program's series compute; div is the machine's division. */
  datatype Numerics = Numerics(exp: real -> real, sqrt: real -> real, cos: real -> real, sin: real -> real,
                               pow: (real, real) -> real, div: (real, real) -> real, eps: real)

  type Vector = seq<real>
  type Matrix = seq<Vector>

  datatype Option<T> = None | Some(value: T)

  /** The weights of one layer, dequantised. Biases and head norms may be absent. */
  datatype Layer = Layer(attnNorm: Vector, q: Matrix, k: Matrix, v: Matrix,
                         qBias: Option<Vector>, kBias: Option<Vector>, vBias: Option<Vector>,
                         qNorm: Option<Vector>, kNorm: Option<Vector>, o: Matrix,
                         ffnNorm: Vector, gate: Matrix, up: Matrix, down: Matrix)

  datatype Model = Model(embd: Matrix, layers: seq<Layer>, outNorm: Vector, out: Matrix,
                         dim: nat, heads: nat, kvHeads: nat, headDim: nat, ffn: nat)
  {
    function QDim(): nat { heads * headDim }
    function KvDim(): nat { kvHeads * headDim }
  }

  function At(v: Vector, i: int): real { if 0 <= i < |v| then v[i] else 0.0 }

  // ---------------------------------------------------------------------
  // Vectors
  // ---------------------------------------------------------------------

  /** Inner product of the first n elements. */
  function Dot(a: Vector, b: Vector, n: nat): real {
    if n == 0 then 0.0 else Dot(a, b, n - 1) + At(a, n - 1) * At(b, n - 1)
  }

  function MatVec(m: Matrix, x: Vector): (r: Vector)
    ensures |r| == |m|
  {
    seq(|m|, i requires 0 <= i < |m| => Dot(m[i], x, |x|))
  }

  function Add(a: Vector, b: Vector): (r: Vector)
    ensures |r| == |a|
  {
    seq(|a|, i requires 0 <= i < |a| => a[i] + At(b, i))
  }

  function Biased(x: Vector, bias: Option<Vector>): (r: Vector)
    ensures |r| == |x|
  {
    if bias.Some? then Add(x, bias.value) else x
  }

  /** One over the root mean square. */
  function Scale(num: Numerics, x: Vector): real {
    num.div(1.0, num.sqrt(num.div(Dot(x, x, |x|), |x| as real) + num.eps))
  }

  function NormAt(num: Numerics, x: Vector, w: Vector, i: nat): real { At(x, i) * Scale(num, x) * At(w, i) }

  function RmsNorm(num: Numerics, x: Vector, w: Vector): (r: Vector)
    ensures |r| == |x|
  {
    seq(|x|, i requires 0 <= i < |x| => NormAt(num, x, w, i))
  }

  // ---------------------------------------------------------------------
  // Heads: a vector of n * d elements is n heads of d
  // ---------------------------------------------------------------------

  /** The n elements from base on. */
  function Stretch(x: Vector, base: nat, n: nat): (r: Vector)
    ensures |r| == n && forall i :: 0 <= i < n ==> r[i] == At(x, base + i)
  {
    seq(n, i requires 0 <= i < n => At(x, base + i))
  }

  function Head(x: Vector, h: nat, d: nat): (r: Vector)
    ensures |r| == d
  {
    Stretch(x, h * d, d)
  }

  /** The first n heads, each normalised on its own. */
  function NormHeads(num: Numerics, x: Vector, w: Vector, n: nat, d: nat): Vector {
    if n == 0 then [] else NormHeads(num, x, w, n - 1, d) + RmsNorm(num, Head(x, n - 1, d), w)
  }

  function HeadNormed(num: Numerics, x: Vector, w: Option<Vector>, n: nat, d: nat): Vector {
    if w.Some? then NormHeads(num, x, w.value, n, d) else x
  }

  /** The rotation angle of element pair i, i+1 of a head. */
  function Theta(num: Numerics, pos: nat, i: nat, d: nat): real {
    pos as real * num.div(1.0, num.pow(10000.0, num.div(i as real, d as real)))
  }

  /** First and second coordinate of a plane vector turned by an angle of cosine c and sine s. */
  function Turned(e1: real, e2: real, c: real, s: real): real { e1 * c - e2 * s }

  function Turned2(e1: real, e2: real, c: real, s: real): real { e1 * s + e2 * c }

  /** Rotary embedding: the plane of each even element and its successor is turned by its angle. */
  function Rotated(num: Numerics, x: Vector, pos: nat, i: nat): real {
    if i % 2 == 0
    then Turned(At(x, i), At(x, i + 1), num.cos(Theta(num, pos, i, |x|)), num.sin(Theta(num, pos, i, |x|)))
    else Turned2(At(x, i - 1), At(x, i), num.cos(Theta(num, pos, i - 1, |x|)), num.sin(Theta(num, pos, i - 1, |x|)))
  }

  function RotateHead(num: Numerics, x: Vector, pos: nat): (r: Vector)
    ensures |r| == |x|
  {
    seq(|x|, i requires 0 <= i < |x| => Rotated(num, x, pos, i))
  }

  function RotateHeads(num: Numerics, x: Vector, n: nat, d: nat, pos: nat): Vector {
    if n == 0 then [] else RotateHeads(num, x, n - 1, d, pos) + RotateHead(num, Head(x, n - 1, d), pos)
  }

  // ---------------------------------------------------------------------
  // Attention
  // ---------------------------------------------------------------------

  /** Head g of each row. */
  function HeadOfRows(rows: seq<Vector>, g: nat, d: nat): (r: seq<Vector>)
    ensures |r| == |rows| && forall p :: 0 <= p < |rows| ==> r[p] == Head(rows[p], g, d)
  {
    seq(|rows|, p requires 0 <= p < |rows| => Head(rows[p], g, d))
  }

  function ScoreAt(num: Numerics, q: Vector, k: Vector): real { Dot(q, k, |q|) * num.div(1.0, num.sqrt(|q| as real)) }

  function Scores(num: Numerics, q: Vector, ks: seq<Vector>): (r: Vector)
    ensures |r| == |ks|
  {
    seq(|ks|, p requires 0 <= p < |ks| => ScoreAt(num, q, ks[p]))
  }

  /** Largest of the first n elements. */
  function Max(x: Vector, n: nat): real {
    if n <= 1 then At(x, 0) else if At(x, n - 1) > Max(x, n - 1) then At(x, n - 1) else Max(x, n - 1)
  }

  function Sum(x: Vector, n: nat): real {
    if n == 0 then 0.0 else Sum(x, n - 1) + At(x, n - 1)
  }

  function Exps(num: Numerics, x: Vector): (r: Vector)
    ensures |r| == |x|
  {
    seq(|x|, i requires 0 <= i < |x| => num.exp(x[i] - Max(x, |x|)))
  }

  function Shares(num: Numerics, e: Vector): (r: Vector)
    ensures |r| == |e|
  {
    seq(|e|, i requires 0 <= i < |e| => num.div(e[i], Sum(e, |e|)))
  }

  function Softmax(num: Numerics, x: Vector): (r: Vector)
    ensures |r| == |x|
  {
    Shares(num, Exps(num, x))
  }

  /** Element i of the weighted sum of the first n value vectors. */
  function MixAt(weights: Vector, vs: seq<Vector>, i: nat, n: nat): real
    requires n <= |vs|
  {
    if n == 0 then 0.0 else MixAt(weights, vs, i, n - 1) + At(weights, n - 1) * At(vs[n - 1], i)
  }

  function Mix(weights: Vector, vs: seq<Vector>, d: nat): (r: Vector)
    ensures |r| == d
  {
    seq(d, i requires 0 <= i < d => MixAt(weights, vs, i, |vs|))
  }

  function AttendHead(num: Numerics, q: Vector, ks: seq<Vector>, vs: seq<Vector>): (r: Vector)
    ensures |r| == |q|
  {
    Mix(Softmax(num, Scores(num, q, ks)), vs, |q|)
  }

  /** Query heads per key/value head. */
  function Group(m: Model): nat { if m.kvHeads == 0 then 0 else m.heads / m.kvHeads }

  /** Query head h reads key/value head h / Group. */
  function KvHead(m: Model, h: nat): nat { if Group(m) == 0 then 0 else h / Group(m) }

  /** The output of head h. */
  function AttentionHead(num: Numerics, m: Model, q: Vector, ks: seq<Vector>, vs: seq<Vector>, h: nat): (r: Vector)
    ensures |r| == m.headDim
  {
    var g := KvHead(m, h);
    AttendHead(num, Head(q, h, m.headDim), HeadOfRows(ks, g, m.headDim), HeadOfRows(vs, g, m.headDim))
  }

  /** The outputs of the first n heads, one after the other. */
  function Attention(num: Numerics, m: Model, q: Vector, ks: seq<Vector>, vs: seq<Vector>, n: nat): Vector {
    if n == 0 then []
    else Attention(num, m, q, ks, vs, n - 1) + AttentionHead(num, m, q, ks, vs, n - 1)
  }

  // ---------------------------------------------------------------------
  // Layers
  // ---------------------------------------------------------------------

  function Query(num: Numerics, m: Model, w: Layer, x: Vector, pos: nat): Vector {
    var y := Biased(MatVec(w.q, RmsNorm(num, x, w.attnNorm)), w.qBias);
    RotateHeads(num, HeadNormed(num, y, w.qNorm, m.heads, m.headDim), m.heads, m.headDim, pos)
  }

  function Key(num: Numerics, m: Model, w: Layer, x: Vector, pos: nat): Vector {
    var y := Biased(MatVec(w.k, RmsNorm(num, x, w.attnNorm)), w.kBias);
    RotateHeads(num, HeadNormed(num, y, w.kNorm, m.kvHeads, m.headDim), m.kvHeads, m.headDim, pos)
  }

  function Value(num: Numerics, w: Layer, x: Vector): Vector {
    Biased(MatVec(w.v, RmsNorm(num, x, w.attnNorm)), w.vBias)
  }

  function GluAt(num: Numerics, gate: Vector, up: Vector, i: nat): real {
    num.div(At(gate, i), 1.0 + num.exp(-At(gate, i))) * At(up, i)
  }

  function SwiGlu(num: Numerics, gate: Vector, up: Vector): (r: Vector)
    ensures |r| == |gate|
  {
    seq(|gate|, i requires 0 <= i < |gate| => GluAt(num, gate, up, i))
  }

  function FeedForward(num: Numerics, w: Layer, x: Vector): Vector {
    var y := RmsNorm(num, x, w.ffnNorm);
    Add(x, MatVec(w.down, SwiGlu(num, MatVec(w.gate, y), MatVec(w.up, y))))
  }

  /** Attention over the given key and value rows, added back. */
  function Attended(num: Numerics, m: Model, w: Layer, x: Vector, q: Vector, ks: seq<Vector>, vs: seq<Vector>): Vector {
    Add(x, MatVec(w.o, Attention(num, m, q, ks, vs, m.heads)))
  }

  function LayerOut(num: Numerics, m: Model, w: Layer, x: Vector, ks: seq<Vector>, vs: seq<Vector>, pos: nat): Vector {
    FeedForward(num, w, Attended(num, m, w, x, Query(num, m, w, x, pos), ks, vs))
  }

  function LayerAt(m: Model, l: nat): Layer {
    if l < |m.layers| then m.layers[l] else Layer([], [], [], [], None, None, None, None, None, [], [], [], [], [])
  }

  function Embedding(m: Model, token: int): Vector { if 0 <= token < |m.embd| then m.embd[token] else [] }

  /** The model's layers as steps of the recurrence. */
  function StepsOf(num: Numerics, m: Model): Steps<Vector, Vector> {
    Steps(token => Embedding(m, token),
          (l, x, pos) => Key(num, m, LayerAt(m, l), x, pos),
          (l, x, pos) => Value(num, LayerAt(m, l), x),
          (l, x, ks, vs, pos) => LayerOut(num, m, LayerAt(m, l), x, ks, vs, pos))
  }

  /** The logits after position p, recomputed from the tokens without any cache. */
  function Logits(num: Numerics, m: Model, tokens: seq<int>, p: nat): Vector
    requires p < |tokens|
  {
    MatVec(m.out, RmsNorm(num, Hidden(StepsOf(num, m), tokens, |m.layers|, p), m.outNorm))
  }

  /** Logits at a position depend on the tokens up to it only. */
  lemma LogitsAreCausal(num: Numerics, m: Model, a: seq<int>, b: seq<int>, p: nat)
    requires p < |a| && p < |b| && a[..p + 1] == b[..p + 1]
    ensures Logits(num, m, a, p) == Logits(num, m, b, p)
  {
    HiddenIsCausal(StepsOf(num, m), a, b, |m.layers|, p);
  }

  // ---------------------------------------------------------------------
  // Shapes
  // ---------------------------------------------------------------------

  predicate IsMatrix(m: Matrix, rows: nat, cols: nat) {
    |m| == rows && forall i :: 0 <= i < rows ==> |m[i]| == cols
  }

  predicate Sized(o: Option<Vector>, n: nat) { o.Some? ==> |o.value| == n }

  ghost predicate Fits(m: Model, w: Layer) {
    && |w.attnNorm| == m.dim && |w.ffnNorm| == m.dim
    && IsMatrix(w.q, m.QDim(), m.dim) && IsMatrix(w.k, m.KvDim(), m.dim) && IsMatrix(w.v, m.KvDim(), m.dim)
    && Sized(w.qBias, m.QDim()) && Sized(w.kBias, m.KvDim()) && Sized(w.vBias, m.KvDim())
    && Sized(w.qNorm, m.headDim) && Sized(w.kNorm, m.headDim)
    && IsMatrix(w.o, m.dim, m.QDim())
    && IsMatrix(w.gate, m.ffn, m.dim) && IsMatrix(w.up, m.ffn, m.dim) && IsMatrix(w.down, m.dim, m.ffn)
  }

  /** Consistent shapes, as the forward pass needs them: grouped heads divide evenly, head pairs are even, and the
      query buffer, which also receives the attention output, is at least as long as the hidden vector. */
  ghost predicate ValidModel(m: Model) {
    && m.dim > 0 && m.kvHeads > 0 && m.headDim > 0 && m.headDim % 2 == 0
    && m.heads > 0 && m.heads % m.kvHeads == 0
    && m.QDim() >= m.dim
    && IsMatrix(m.embd, |m.embd|, m.dim) && IsMatrix(m.out, |m.out|, m.dim) && |m.outNorm| == m.dim
    && forall l :: 0 <= l < |m.layers| ==> Fits(m, m.layers[l])
  }

  lemma {:induction false} NormHeadsSize(num: Numerics, x: Vector, w: Vector, n: nat, d: nat)
    ensures |NormHeads(num, x, w, n, d)| == n * d
  {
    if n > 0 { NormHeadsSize(num, x, w, n - 1, d); }
  }

  lemma {:induction false} RotateHeadsSize(num: Numerics, x: Vector, n: nat, d: nat, pos: nat)
    ensures |RotateHeads(num, x, n, d, pos)| == n * d
  {
    if n > 0 { RotateHeadsSize(num, x, n - 1, d, pos); }
  }

  lemma {:induction false} AttentionSize(num: Numerics, m: Model, q: Vector, ks: seq<Vector>, vs: seq<Vector>, n: nat)
    ensures |Attention(num, m, q, ks, vs, n)| == n * m.headDim
  {
    if n > 0 { AttentionSize(num, m, q, ks, vs, n - 1); }
  }
}
