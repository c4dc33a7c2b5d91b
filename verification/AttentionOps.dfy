/** The attention loops of the forward pass, reading key and value rows from the flat caches. */
module AttentionOps {
  import opened Recurrence
  import opened Transformer
  import opened VectorOps
  import opened CacheLayout

  /** Row of layer l, position p in a flat cache. */
  function RowOf(c: Vector, l: nat, p: nat, ctx: nat, width: nat): (r: Vector)
    ensures |r| == width
  {
    Stretch(c, Slot(l, p, ctx, width), width)
  }

  function CacheOf(c: Vector, ctx: nat, width: nat): Cache<Vector> {
    (l: nat, p: nat) => RowOf(c, l, p, ctx, width)
  }

  function RowsOf(c: Vector, l: nat, n: nat, ctx: nat, width: nat): (r: seq<Vector>)
    ensures |r| == n && forall p :: 0 <= p < n ==> r[p] == RowOf(c, l, p, ctx, width)
  {
    seq(n, p requires 0 <= p < n => RowOf(c, l, p, ctx, width))
  }

  lemma RowsAreCacheRows(c: Vector, l: nat, n: nat, ctx: nat, width: nat)
    ensures RowsOf(c, l, n, ctx, width) == CacheRows(CacheOf(c, ctx, width), l, n)
  {
  }

  lemma StretchOfStretch(c: Vector, s: nat, width: nat, o: nat, d: nat)
    requires o + d <= width && s + width <= |c|
    ensures Stretch(Stretch(c, s, width), o, d) == c[s + o..s + o + d]
  {
  }

  /** Where head g of a row lies in the flat cache. */
  lemma HeadInCache(c: Vector, l: nat, p: nat, layers: nat, ctx: nat, kvHeads: nat, g: nat, d: nat, off: nat)
    requires l < layers && p < ctx && g < kvHeads && |c| == layers * ctx * (kvHeads * d)
    requires off == Slot(l, p, ctx, kvHeads * d) + g * d
    ensures off + d <= |c| && Head(RowOf(c, l, p, ctx, kvHeads * d), g, d) == c[off..off + d]
  {
    var s, width, o := Slot(l, p, ctx, kvHeads * d), kvHeads * d, g * d;
    SlotInside(l, p, layers, ctx, width);
    HeadInside(g, kvHeads, d);
    StretchOfStretch(c, s, width, o, d);
  }

  /** The flat caches of a model: layers * ctx rows of the key/value width. */
  ghost predicate CacheSized(c: array<real>, m: Model, ctx: nat) {
    c.Length == |m.layers| * ctx * (m.kvHeads * m.headDim)
  }

  /** The key rows of layer l up to position pos, as query head h's group sees them. */
  ghost function GroupRows(c: Vector, m: Model, ctx: nat, l: nat, n: nat, g: nat): (r: seq<Vector>)
    ensures |r| == n && forall p :: 0 <= p < n ==> r[p] == Head(RowOf(c, l, p, ctx, m.kvHeads * m.headDim), g, m.headDim)
  {
    HeadOfRows(RowsOf(c, l, n, ctx, m.kvHeads * m.headDim), g, m.headDim)
  }

  /** One score: query head h against the key of position p. */
  method ScoreOne(num: Numerics, m: Model, ctx: nat, q: array<real>, h: nat, c: array<real>, l: nat, p: nat, g: nat,
                  scale: real, ghost qh: Vector, ghost k: Vector)
    returns (s: real)
    requires p < ctx && l < |m.layers| && g < m.kvHeads && h < m.heads
    requires q.Length == m.heads * m.headDim && CacheSized(c, m, ctx)
    requires qh == Head(q[..], h, m.headDim) && k == Head(RowOf(c[..], l, p, ctx, m.kvHeads * m.headDim), g, m.headDim)
    requires scale == num.div(1.0, num.sqrt(m.headDim as real))
    ensures s == ScoreAt(num, qh, k)
  {
    var d := m.headDim;
    var base, off := h * d, Slot(l, p, ctx, m.kvHeads * d) + g * d;
    HeadInside(h, m.heads, d);
    HeadIsSlice(q[..], h, d, base);
    HeadInCache(c[..], l, p, |m.layers|, ctx, m.kvHeads, g, d, off);
    s := ScoreAtOffsets(num, q, base, c, off, d, scale, qh, k);
  }

  method ScoreAtOffsets(num: Numerics, q: array<real>, base: nat, c: array<real>, off: nat, d: nat, scale: real,
                        ghost qh: Vector, ghost k: Vector)
    returns (s: real)
    requires base + d <= q.Length && off + d <= c.Length && qh == q[base..base + d] && k == c[off..off + d]
    requires scale == num.div(1.0, num.sqrt(d as real))
    ensures s == ScoreAt(num, qh, k)
  {
    var score := DotAt(q, base, c, off, d, qh, k);
    s := score * scale;
    ScoreIs(num, qh, k, d, scale, s);
  }

  /** Scores of query head h against the key rows 0 .. pos+1 of layer l. */
  method ScoresInto(num: Numerics, m: Model, ctx: nat, scores: array<real>, q: array<real>, h: nat, c: array<real>,
                    l: nat, pos: nat, g: nat)
    requires pos < scores.Length && pos < ctx && l < |m.layers| && g < m.kvHeads && h < m.heads
    requires q.Length == m.heads * m.headDim && CacheSized(c, m, ctx) && scores != q && scores != c
    modifies scores
    ensures scores[..pos + 1] == Scores(num, Head(q[..], h, m.headDim), GroupRows(c[..], m, ctx, l, pos + 1, g))
  {
    ghost var qh := Head(q[..], h, m.headDim);
    ghost var ks := GroupRows(c[..], m, ctx, l, pos + 1, g);
    ScoreLoop(num, m, ctx, scores, q, h, c, l, pos, g, qh, ks);
    assert scores[..pos + 1] == Scores(num, qh, ks);
  }

  method ScoreLoop(num: Numerics, m: Model, ctx: nat, scores: array<real>, q: array<real>, h: nat, c: array<real>, l: nat, pos: nat, g: nat,
                   ghost qh: Vector, ghost ks: seq<Vector>)
    requires pos < scores.Length && pos < ctx && l < |m.layers| && g < m.kvHeads && h < m.heads
    requires q.Length == m.heads * m.headDim && CacheSized(c, m, ctx) && scores != q && scores != c
    requires qh == Head(q[..], h, m.headDim) && |ks| == pos + 1
    requires forall p :: 0 <= p < |ks| ==> ks[p] == Head(RowOf(c[..], l, p, ctx, m.kvHeads * m.headDim), g, m.headDim)
    modifies scores
    ensures forall k :: 0 <= k <= pos ==> scores[k] == ScoreAt(num, qh, ks[k])
  {
    var scale := num.div(1.0, num.sqrt(m.headDim as real));
    for p := 0 to pos + 1
      invariant forall k :: 0 <= k < p ==> scores[k] == ScoreAt(num, qh, ks[k])
    {
      var s := ScoreOne(num, m, ctx, q, h, c, l, p, g, scale, qh, ks[p]);
      scores[p] := s;
    }
  }

  lemma ScoreIs(num: Numerics, q: Vector, k: Vector, d: nat, scale: real, s: real)
    requires |q| == d && scale == num.div(1.0, num.sqrt(d as real)) && s == Dot(q, k, d) * scale
    ensures s == ScoreAt(num, q, k)
  {
  }

  method MaxOf(x: array<real>, n: nat) returns (m: real)
    requires 0 < n <= x.Length
    ensures m == Max(x[..n], n)
  {
    ghost var v := x[..n];
    m := x[0];
    for p := 1 to n
      invariant m == Max(v, p)
    {
      if x[p] > m {
        m := x[p];
      }
    }
  }

  /** Softmax of the first n elements, in place. */
  method SoftmaxInPlace(num: Numerics, x: array<real>, n: nat)
    requires 0 < n <= x.Length
    modifies x
    ensures x[..n] == Softmax(num, old(x[..n])) && x[n..] == old(x[n..])
  {
    var max := MaxOf(x, n);
    var sum := ExpsInPlace(num, x, n, max);
    ShareInPlace(num, x, n, sum);
  }

  method ExpsInPlace(num: Numerics, x: array<real>, n: nat, max: real) returns (sum: real)
    requires 0 < n <= x.Length && max == Max(x[..n], n)
    modifies x
    ensures x[..n] == Exps(num, old(x[..n])) && sum == Sum(x[..n], n) && x[n..] == old(x[n..])
  {
    ghost var e := Exps(num, x[..n]);
    ghost var v := x[..n];
    sum := 0.0;
    for p := 0 to n
      invariant forall k :: 0 <= k < p ==> x[k] == e[k]
      invariant forall k :: p <= k < n ==> x[k] == v[k]
      invariant sum == Sum(e, p) && x[n..] == old(x[n..])
    {
      x[p] := num.exp(x[p] - max);
      sum := sum + x[p];
    }
    assert x[..n] == e;
  }

  method ShareInPlace(num: Numerics, x: array<real>, n: nat, sum: real)
    requires 0 < n <= x.Length && sum == Sum(x[..n], n)
    modifies x
    ensures x[..n] == Shares(num, old(x[..n])) && x[n..] == old(x[n..])
  {
    ghost var e := x[..n];
    for p := 0 to n
      invariant forall k :: 0 <= k < p ==> x[k] == num.div(e[k], sum)
      invariant forall k :: p <= k < n ==> x[k] == e[k]
      invariant x[n..] == old(x[n..])
    {
      x[p] := num.div(x[p], sum);
    }
  }

  /** The weighted sum of the first n value vectors. */
  ghost function MixOf(ws: Vector, vs: seq<Vector>, d: nat, n: nat): (r: Vector)
    requires n <= |vs|
    ensures |r| == d && forall i :: 0 <= i < d ==> r[i] == MixAt(ws, vs, i, n)
  {
    seq(d, i requires 0 <= i < d => MixAt(ws, vs, i, n))
  }

  /** Adds one weighted value vector to the head's output. */
  method MixOne(o: array<real>, base: nat, d: nat, weight: real, c: array<real>, off: nat,
                ghost ws: Vector, ghost vs: seq<Vector>, ghost p: nat)
    requires base + d <= o.Length && off + d <= c.Length && o != c && p < |vs| && weight == At(ws, p)
    requires vs[p] == c[off..off + d] && o[base..base + d] == MixOf(ws, vs, d, p)
    modifies o
    ensures o[base..base + d] == MixOf(ws, vs, d, p + 1)
    ensures OnlyWithin(old(o[..]), o[..], base, d)
  {
    ghost var x, y := MixOf(ws, vs, d, p), MixOf(ws, vs, d, p + 1);
    forall k | base <= k < base + d ensures o[k] == x[k - base] { assert o[base..base + d][k - base] == x[k - base]; }
    for i := 0 to d
      invariant forall k :: base <= k < base + i ==> o[k] == y[k - base]
      invariant forall k :: base + i <= k < base + d ==> o[k] == x[k - base]
      invariant OnlyWithin(old(o[..]), o[..], base, d)
    {
      assert c[off + i] == vs[p][i];
      assert y[i] == x[i] + weight * c[off + i];
      o[base + i] := o[base + i] + weight * c[off + i];
    }
    assert o[base..base + d] == y;
  }

  method ZeroInto(o: array<real>, base: nat, d: nat)
    requires base + d <= o.Length
    modifies o
    ensures OnlyWithin(old(o[..]), o[..], base, d) && forall k :: base <= k < base + d ==> o[k] == 0.0
  {
    for i := 0 to d
      invariant forall k :: base <= k < base + i ==> o[k] == 0.0
      invariant OnlyWithin(old(o[..]), o[..], base, d)
    {
      o[base + i] := 0.0;
    }
  }

  /** The weighted sum of the value rows 0 .. pos+1 of layer l, into the head's place. */
  method MixInto(m: Model, ctx: nat, o: array<real>, base: nat, scores: array<real>, c: array<real>, l: nat, pos: nat, g: nat)
    requires base + m.headDim <= o.Length && pos < scores.Length && pos < ctx && l < |m.layers| && g < m.kvHeads
    requires CacheSized(c, m, ctx) && o != c && o != scores
    modifies o
    ensures OnlyWithin(old(o[..]), o[..], base, m.headDim)
    ensures o[base..base + m.headDim] == Mix(scores[..pos + 1], GroupRows(c[..], m, ctx, l, pos + 1, g), m.headDim)
  {
    var d := m.headDim;
    ghost var ws := scores[..pos + 1];
    ghost var vs := GroupRows(c[..], m, ctx, l, pos + 1, g);
    ZeroInto(o, base, d);
    assert o[base..base + d] == MixOf(ws, vs, d, 0);
    for p := 0 to pos + 1
      invariant o[base..base + d] == MixOf(ws, vs, d, p)
      invariant OnlyWithin(old(o[..]), o[..], base, d)
    {
      MixRow(m, ctx, o, base, scores[p], c, l, p, g, ws, vs);
    }
  }

  /** Adds the value row of position p. */
  method MixRow(m: Model, ctx: nat, o: array<real>, base: nat, weight: real, c: array<real>, l: nat, p: nat, g: nat,
                ghost ws: Vector, ghost vs: seq<Vector>)
    requires base + m.headDim <= o.Length && p < ctx && l < |m.layers| && g < m.kvHeads && CacheSized(c, m, ctx) && o != c
    requires p < |vs| && vs[p] == Head(RowOf(c[..], l, p, ctx, m.kvHeads * m.headDim), g, m.headDim)
    requires weight == At(ws, p) && o[base..base + m.headDim] == MixOf(ws, vs, m.headDim, p)
    modifies o
    ensures o[base..base + m.headDim] == MixOf(ws, vs, m.headDim, p + 1)
    ensures OnlyWithin(old(o[..]), o[..], base, m.headDim)
  {
    var off := Slot(l, p, ctx, m.kvHeads * m.headDim) + g * m.headDim;
    HeadInCache(c[..], l, p, |m.layers|, ctx, m.kvHeads, g, m.headDim, off);
    MixOne(o, base, m.headDim, weight, c, off, ws, vs, p);
  }

  /** Heads divide evenly over the key/value heads. */
  lemma KvHeadInRange(m: Model, h: nat)
    requires m.kvHeads > 0 && m.heads % m.kvHeads == 0 && h < m.heads
    ensures Group(m) > 0 && KvHead(m, h) < m.kvHeads
  {
    assert m.heads == Group(m) * m.kvHeads;
    QuotientBelow(h, Group(m), m.kvHeads);
  }

  lemma QuotientBelow(h: nat, g: nat, n: nat)
    requires h < g * n
    ensures g > 0 && 0 <= h / g < n
  {
    var q := h / g;
    assert q * g <= h;
    if q >= n { MulMono(n, q, g); }
  }

  /** One head of attention. */
  method AttendOne(num: Numerics, m: Model, ctx: nat, scores: array<real>, q: array<real>, o: array<real>,
                   kc: array<real>, vc: array<real>, l: nat, pos: nat, h: nat, base: nat)
    requires m.kvHeads > 0 && m.heads % m.kvHeads == 0 && h < m.heads && base + m.headDim <= o.Length
    requires pos < scores.Length && pos < ctx && l < |m.layers| && q.Length == m.heads * m.headDim
    requires CacheSized(kc, m, ctx) && CacheSized(vc, m, ctx)
    requires scores != q && scores != kc && scores != vc && o != scores && o != q && o != kc && o != vc
    modifies scores, o
    ensures OnlyWithin(old(o[..]), o[..], base, m.headDim)
    ensures o[base..base + m.headDim] == AttentionHead(num, m, q[..],
      RowsOf(kc[..], l, pos + 1, ctx, m.kvHeads * m.headDim), RowsOf(vc[..], l, pos + 1, ctx, m.kvHeads * m.headDim), h)
  {
    KvHeadInRange(m, h);
    var g := h / (m.heads / m.kvHeads);
    ScoresInto(num, m, ctx, scores, q, h, kc, l, pos, g);
    SoftmaxInPlace(num, scores, pos + 1);
    MixInto(m, ctx, o, base, scores, vc, l, pos, g);
  }

  /** All heads of attention at position pos of layer l. */
  method AttendAll(num: Numerics, m: Model, ctx: nat, scores: array<real>, q: array<real>, o: array<real>,
                   kc: array<real>, vc: array<real>, l: nat, pos: nat)
    requires m.kvHeads > 0 && m.heads % m.kvHeads == 0
    requires pos < scores.Length && pos < ctx && l < |m.layers| && q.Length == o.Length == m.heads * m.headDim
    requires CacheSized(kc, m, ctx) && CacheSized(vc, m, ctx)
    requires scores != q && scores != kc && scores != vc && o != scores && o != q && o != kc && o != vc
    modifies scores, o
    ensures o[..] == Attention(num, m, q[..],
      RowsOf(kc[..], l, pos + 1, ctx, m.kvHeads * m.headDim), RowsOf(vc[..], l, pos + 1, ctx, m.kvHeads * m.headDim), m.heads)
  {
    ghost var ks := RowsOf(kc[..], l, pos + 1, ctx, m.kvHeads * m.headDim);
    ghost var vs := RowsOf(vc[..], l, pos + 1, ctx, m.kvHeads * m.headDim);
    for h := 0 to m.heads
      invariant h * m.headDim <= o.Length
      invariant o[..h * m.headDim] == Attention(num, m, q[..], ks, vs, h)
    {
      HeadInside(h, m.heads, m.headDim);
      ghost var before := o[..];
      AttendOne(num, m, ctx, scores, q, o, kc, vc, l, pos, h, h * m.headDim);
      NextOutput(before, o[..], h * m.headDim, m.headDim, Attention(num, m, q[..], ks, vs, h), AttentionHead(num, m, q[..], ks, vs, h));
    }
    assert o[..] == o[..m.heads * m.headDim];
  }

  lemma NextOutput(before: Vector, after: Vector, base: nat, d: nat, done: Vector, out: Vector)
    requires base + d <= |before| && OnlyWithin(before, after, base, d)
    requires before[..base] == done && after[base..base + d] == out
    ensures after[..base + d] == done + out
  {
    assert after[..base] == before[..base];
    assert after[..base + d] == after[..base] + after[base..base + d];
  }

  /** memcpy of one row into the cache. */
  method StoreRow(c: array<real>, row: array<real>, l: nat, pos: nat, layers: nat, ctx: nat)
    requires l < layers && pos < ctx && c.Length == layers * ctx * row.Length && c != row
    modifies c
    ensures RowOf(c[..], l, pos, ctx, row.Length) == row[..]
    ensures forall l': nat, p: nat :: l' < layers && p < ctx && (l' != l || p != pos) ==>
      RowOf(c[..], l', p, ctx, row.Length) == RowOf(old(c[..]), l', p, ctx, row.Length)
  {
    var off := Slot(l, pos, ctx, row.Length);
    SlotInside(l, pos, layers, ctx, row.Length);
    CopyInto(c, off, row);
    StretchIsSlice(c[..], off, row.Length);
    forall l': nat, p: nat | l' < layers && p < ctx && (l' != l || p != pos)
      ensures RowOf(c[..], l', p, ctx, row.Length) == RowOf(old(c[..]), l', p, ctx, row.Length)
    {
      SlotsApart(l, pos, l', p, ctx, row.Length);
      StretchElsewhere(old(c[..]), c[..], off, row.Length, Slot(l', p, ctx, row.Length));
    }
  }

  method CopyInto(c: array<real>, off: nat, row: array<real>)
    requires off + row.Length <= c.Length && c != row
    modifies c
    ensures c[off..off + row.Length] == row[..] && OnlyWithin(old(c[..]), c[..], off, row.Length)
  {
    for i := 0 to row.Length
      invariant c[off..off + i] == row[..i]
      invariant OnlyWithin(old(c[..]), c[..], off, row.Length)
    {
      c[off + i] := row[i];
      assert c[off..off + i + 1] == c[off..off + i] + [row[i]];
    }
  }

  lemma StretchElsewhere(before: Vector, after: Vector, off: nat, n: nat, s: nat)
    requires OnlyWithin(before, after, off, n) && (s + n <= off || off + n <= s)
    ensures Stretch(before, s, n) == Stretch(after, s, n)
  {
  }
}
