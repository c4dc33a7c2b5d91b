/** transformer_forward and the generation loop over their global buffers: cached decoding gives the
    logits of the cache-free definition, whatever the buffers and caches held before. */
module Forward {
  import opened Recurrence
  import opened Transformer
  import opened VectorOps
  import opened AttentionOps

  class Engine {
    const num: Numerics
    const m: Model
    const ctx: nat
    const x: array<real>
    const xNorm: array<real>
    const q: array<real>
    const k: array<real>
    const v: array<real>
    const scores: array<real>
    const attn: array<real>
    const gate: array<real>
    const up: array<real>
    const ffn: array<real>
    const logits: array<real>
    const keys: array<real>
    const values: array<real>

    ghost function Buffers(): seq<array<real>> {
      [x, xNorm, q, k, v, scores, attn, gate, up, ffn, logits, keys, values]
    }

    /** Buffers as gguf_init allocates them, all different. */
    ghost predicate Valid() {
      && ValidModel(m) && ctx > 0
      && Sizes()
      && forall i, j :: 0 <= i < j < 13 ==> Buffers()[i] != Buffers()[j]
    }

    ghost predicate Sizes() {
      && x.Length == xNorm.Length == m.dim
      && q.Length == attn.Length == m.heads * m.headDim
      && k.Length == v.Length == m.kvHeads * m.headDim
      && scores.Length == ctx
      && gate.Length == up.Length == ffn.Length == m.ffn
      && logits.Length == |m.out|
      && CacheSized(keys, m, ctx) && CacheSized(values, m, ctx)
    }

    lemma Apart()
      requires Valid()
      ensures x != xNorm && x != q && x != k && x != v && x != scores && x != attn && x != gate && x != up
      ensures x != ffn && x != logits && x != keys && x != values
      ensures xNorm != q && xNorm != k && xNorm != v && xNorm != gate && xNorm != up && xNorm != ffn
      ensures xNorm != logits && xNorm != attn && xNorm != keys && xNorm != values
      ensures q != k && q != v && q != scores && q != attn && q != keys && q != values
      ensures k != v && k != keys && k != values && v != keys && v != values && keys != values
      ensures scores != attn && scores != keys && scores != values && attn != keys && attn != values
      ensures gate != up && gate != ffn && up != ffn
      ensures logits != keys && logits != values && logits != xNorm && gate != keys && gate != values
      ensures up != keys && up != values && ffn != keys && ffn != values
      ensures q != gate && q != up && q != ffn && attn != gate && attn != up && attn != ffn
    {
      var b := Buffers();
      assert b[0] == x && b[1] == xNorm && b[2] == q && b[3] == k && b[4] == v && b[5] == scores && b[6] == attn;
      assert b[7] == gate && b[8] == up && b[9] == ffn && b[10] == logits && b[11] == keys && b[12] == values;
    }

    /** The allocations of gguf_init; the buffers hold arbitrary numbers. */
    constructor (num: Numerics, m: Model, ctx: nat)
      requires ValidModel(m) && ctx > 0
      ensures Valid() && this.num == num && this.m == m && this.ctx == ctx
    {
      this.num, this.m, this.ctx := num, m, ctx;
      x := new real[m.dim];
      xNorm := new real[m.dim];
      q := new real[m.heads * m.headDim];
      k := new real[m.kvHeads * m.headDim];
      v := new real[m.kvHeads * m.headDim];
      scores := new real[ctx];
      attn := new real[m.heads * m.headDim];
      gate := new real[m.ffn];
      up := new real[m.ffn];
      ffn := new real[m.ffn];
      logits := new real[|m.out|];
      keys := new real[|m.layers| * ctx * (m.kvHeads * m.headDim)];
      values := new real[|m.layers| * ctx * (m.kvHeads * m.headDim)];
    }

    /** Query, key and value of position pos from the hidden vector. */
    method Project(w: Layer, pos: nat)
      requires Valid() && Fits(m, w)
      modifies xNorm, q, k, v
      ensures q[..] == Query(num, m, w, x[..], pos)
      ensures k[..] == Key(num, m, w, x[..], pos)
      ensures v[..] == Value(num, w, x[..])
    {
      Apart();
      RmsNormInto(num, xNorm, x, w.attnNorm);
      ProjectHeads(q, w.q, w.qBias, w.qNorm, m.heads, pos);
      ProjectHeads(k, w.k, w.kBias, w.kNorm, m.kvHeads, pos);
      MatVecInto(v, w.v, xNorm);
      assert v[..] == v[..|w.v|];
      AddBias(v, w.vBias);
    }

    /** Projection, bias, head norm and rotation of one of query and key. */
    method ProjectHeads(o: array<real>, mat: Matrix, bias: Option<Vector>, norm: Option<Vector>, n: nat, pos: nat)
      requires o.Length == n * m.headDim && m.headDim % 2 == 0 && o != xNorm
      requires IsMatrix(mat, o.Length, xNorm.Length) && Sized(bias, o.Length) && Sized(norm, m.headDim)
      modifies o
      ensures o[..] == RotateHeads(num, HeadNormed(num, Biased(MatVec(mat, xNorm[..]), bias), norm, n, m.headDim), n, m.headDim, pos)
    {
      MatVecInto(o, mat, xNorm);
      assert o[..] == o[..|mat|];
      AddBias(o, bias);
      NormAllHeads(num, o, norm, n, m.headDim);
      RotateAllHeads(num, o, n, m.headDim, pos);
    }

    /** Output projection into the query buffer, residual, and the feed-forward half of the layer. */
    method Finish(w: Layer)
      requires Valid() && Fits(m, w)
      modifies q, x, xNorm, gate, up, ffn
      ensures x[..] == FeedForward(num, w, Add(old(x[..]), MatVec(w.o, old(attn[..]))))
    {
      Apart();
      MatVecInto(q, w.o, attn);
      assert q[..m.dim] == MatVec(w.o, attn[..]);
      AddInto(x, q);
      RmsNormInto(num, xNorm, x, w.ffnNorm);
      MatVecInto(gate, w.gate, xNorm);
      assert gate[..] == gate[..|w.gate|];
      MatVecInto(up, w.up, xNorm);
      assert up[..] == up[..|w.up|];
      SwiGluInto(num, ffn, gate, up);
      MatVecInto(xNorm, w.down, ffn);
      assert xNorm[..m.dim] == MatVec(w.down, ffn[..]);
      AddInto(x, xNorm);
    }

    ghost function KeyCache(): Cache<Vector>
      reads keys
    {
      CacheOf(keys[..], ctx, m.kvHeads * m.headDim)
    }

    ghost function ValueCache(): Cache<Vector>
      reads values
    {
      CacheOf(values[..], ctx, m.kvHeads * m.headDim)
    }

    /** One layer at one position. */
    method LayerPass(w: Layer, l: nat, pos: nat)
      requires Valid() && l < |m.layers| && w == m.layers[l] && pos < ctx
      modifies x, xNorm, q, k, v, scores, attn, gate, up, ffn, keys, values
      ensures KeyCache()(l, pos) == Key(num, m, w, old(x[..]), pos)
      ensures ValueCache()(l, pos) == Value(num, w, old(x[..]))
      ensures SameBut(old(KeyCache()), KeyCache(), |m.layers|, l, pos)
      ensures SameBut(old(ValueCache()), ValueCache(), |m.layers|, l, pos)
      ensures x[..] == LayerOut(num, m, w, old(x[..]), CacheRows(KeyCache(), l, pos + 1), CacheRows(ValueCache(), l, pos + 1), pos)
    {
      Apart();
      Project(w, pos);
      Store(l, pos);
      Attend(l, pos);
      Finish(w);
    }

    /** The same as a step of the recurrence. */
    method LayerStep(l: nat, pos: nat)
      requires Valid() && l < |m.layers| && pos < ctx
      modifies x, xNorm, q, k, v, scores, attn, gate, up, ffn, keys, values
      ensures KeyCache()(l, pos) == StepsOf(num, m).key(l, old(x[..]), pos)
      ensures ValueCache()(l, pos) == StepsOf(num, m).value(l, old(x[..]), pos)
      ensures SameBut(old(KeyCache()), KeyCache(), |m.layers|, l, pos)
      ensures SameBut(old(ValueCache()), ValueCache(), |m.layers|, l, pos)
      ensures x[..] == StepsOf(num, m).next(l, old(x[..]), CacheRows(KeyCache(), l, pos + 1), CacheRows(ValueCache(), l, pos + 1), pos)
    {
      ghost var x0 := x[..];
      LayerPass(m.layers[l], l, pos);
      StepsAre(num, m, l, x0, CacheRows(KeyCache(), l, pos + 1), CacheRows(ValueCache(), l, pos + 1), pos);
    }

    /** Copies the key and value vectors into their cache rows. */
    method Store(l: nat, pos: nat)
      requires Valid() && l < |m.layers| && pos < ctx
      modifies keys, values
      ensures KeyCache()(l, pos) == k[..] && ValueCache()(l, pos) == v[..]
      ensures SameBut(old(KeyCache()), KeyCache(), |m.layers|, l, pos)
      ensures SameBut(old(ValueCache()), ValueCache(), |m.layers|, l, pos)
    {
      Apart();
      StoreRow(keys, k, l, pos, |m.layers|, ctx);
      StoreRow(values, v, l, pos, |m.layers|, ctx);
    }

    /** All attention heads. */
    method Attend(l: nat, pos: nat)
      requires Valid() && l < |m.layers| && pos < ctx
      modifies scores, attn
      ensures attn[..] == Attention(num, m, q[..], CacheRows(KeyCache(), l, pos + 1), CacheRows(ValueCache(), l, pos + 1), m.heads)
    {
      Apart();
      AttendAll(num, m, ctx, scores, q, attn, keys, values, l, pos);
      RowsAreCacheRows(keys[..], l, pos + 1, ctx, m.kvHeads * m.headDim);
      RowsAreCacheRows(values[..], l, pos + 1, ctx, m.kvHeads * m.headDim);
    }

    /** The caches hold the rows of the first n positions of tokens. */
    ghost predicate Caches(tokens: seq<int>, n: nat)
      requires n <= |tokens|
      reads keys, values
    {
      Holds(StepsOf(num, m), tokens, |m.layers|, n, KeyCache(), ValueCache())
    }

    /** The dequantised embedding row of a token. */
    method Embed(token: int)
      requires Valid() && 0 <= token < |m.embd|
      modifies x
      ensures x[..] == m.embd[token]
    {
      for i := 0 to m.dim
        invariant forall k :: 0 <= k < i ==> x[k] == m.embd[token][k]
      {
        x[i] := m.embd[token][i];
      }
    }

    /** One turn of the layer loop. */
    method RunLayer(l: nat, pos: nat, ghost tokens: seq<int>)
      requires Valid() && l < |m.layers| && pos < ctx && pos < |tokens|
      requires x[..] == Hidden(StepsOf(num, m), tokens, l, pos)
      requires Done(StepsOf(num, m), tokens, |m.layers|, l, pos, KeyCache(), ValueCache())
      modifies x, xNorm, q, k, v, scores, attn, gate, up, ffn, keys, values
      ensures x[..] == Hidden(StepsOf(num, m), tokens, l + 1, pos)
      ensures Done(StepsOf(num, m), tokens, |m.layers|, l + 1, pos, KeyCache(), ValueCache())
    {
      ghost var x0, k0, v0 := x[..], KeyCache(), ValueCache();
      LayerStep(l, pos);
      CachedStep(StepsOf(num, m), tokens, |m.layers|, l, pos, x0, k0, v0, KeyCache(), ValueCache());
    }

    /** The layer loop. */
    method RunLayers(pos: nat, ghost tokens: seq<int>)
      requires Valid() && pos < ctx && pos < |tokens|
      requires x[..] == Hidden(StepsOf(num, m), tokens, 0, pos)
      requires Done(StepsOf(num, m), tokens, |m.layers|, 0, pos, KeyCache(), ValueCache())
      modifies x, xNorm, q, k, v, scores, attn, gate, up, ffn, keys, values
      ensures x[..] == Hidden(StepsOf(num, m), tokens, |m.layers|, pos)
      ensures Done(StepsOf(num, m), tokens, |m.layers|, |m.layers|, pos, KeyCache(), ValueCache())
    {
      for l := 0 to |m.layers|
        invariant x[..] == Hidden(StepsOf(num, m), tokens, l, pos)
        invariant Done(StepsOf(num, m), tokens, |m.layers|, l, pos, KeyCache(), ValueCache())
      {
        RunLayer(l, pos, tokens);
      }
    }

    /** transformer_forward: with the rows of the earlier positions cached, it leaves the logits of the
        cache-free definition and the rows of this position in the cache. Every buffer may start with anything. */
    method TransformerForward(token: int, pos: nat, ghost tokens: seq<int>)
      requires Valid() && pos < ctx && pos < |tokens| && tokens[pos] == token && 0 <= token < |m.embd|
      requires Caches(tokens, pos)
      modifies x, xNorm, q, k, v, scores, attn, gate, up, ffn, logits, keys, values
      ensures logits[..] == Logits(num, m, tokens, pos)
      ensures Caches(tokens, pos + 1)
    {
      Apart();
      Embed(token);
      DoneIsHolds(StepsOf(num, m), tokens, |m.layers|, pos, KeyCache(), ValueCache());
      RunLayers(pos, tokens);
      DoneIsHolds(StepsOf(num, m), tokens, |m.layers|, pos, KeyCache(), ValueCache());
      Output();
    }

    /** Final norm and output projection. */
    method Output()
      requires Valid()
      modifies xNorm, logits
      ensures logits[..] == MatVec(m.out, RmsNorm(num, x[..], m.outNorm))
    {
      Apart();
      RmsNormInto(num, xNorm, x, m.outNorm);
      MatVecInto(logits, m.out, xNorm);
      assert logits[..] == logits[..|m.out|];
    }

    /** Prefill: all prompt tokens but the last. */
    method Prefill(tokens: seq<int>)
      requires Valid() && 0 < |tokens| <= ctx && InVocab(m, tokens)
      modifies x, xNorm, q, k, v, scores, attn, gate, up, ffn, logits, keys, values
      ensures Caches(tokens, |tokens| - 1)
    {
      for i := 0 to |tokens| - 1
        invariant Caches(tokens, i)
      {
        TransformerForward(tokens[i], i, tokens);
      }
    }

    /** One forward pass and one sampled token; the rows cached so far serve whatever token follows. */
    method NextToken(last: int, pos: nat, step: nat, pick: (Vector, nat) -> int,
                     ghost tokens: seq<int>, ghost choose: (seq<int>, nat) -> int)
        returns (next: int)
      requires Valid() && pos < ctx && |tokens| == pos + 1 && tokens[pos] == last && InVocab(m, tokens)
      requires Caches(tokens, pos) && Samples(num, m, pick, choose)
      requires forall lg, i :: 0 <= pick(lg, i) < |m.embd|
      modifies x, xNorm, q, k, v, scores, attn, gate, up, ffn, logits, keys, values
      ensures next == choose(tokens, step) && InVocab(m, tokens + [next])
      ensures Caches(tokens + [next], pos + 1)
    {
      TransformerForward(last, pos, tokens);
      next := pick(logits[..], step);
      assert next == pick(Logits(num, m, tokens, Last(tokens)), step);
      HoldsForExtension(StepsOf(num, m), tokens, tokens + [next], |m.layers|, pos + 1, KeyCache(), ValueCache());
    }

    /** The generation loops: pick is the sampler, fed the logits and the step number. The output is that of the
        generator that recomputes everything from the tokens at every step. */
    method Generate(prompt: seq<int>, maxTokens: nat, eos: int, pick: (Vector, nat) -> int) returns (out: seq<int>)
      requires Valid() && 0 < |prompt| <= ctx && InVocab(m, prompt)
      requires forall lg, i :: 0 <= pick(lg, i) < |m.embd|
      modifies x, xNorm, q, k, v, scores, attn, gate, up, ffn, logits, keys, values
      ensures out == Decode(Recomputed(num, m, pick), ctx, prompt, 0, maxTokens, eos)
      ensures IsGeneration(Recomputed(num, m, pick), ctx, prompt, 0, maxTokens, eos, out)
    {
      DecodeIff(Recomputed(num, m, pick), ctx, prompt, maxTokens, eos, Decode(Recomputed(num, m, pick), ctx, prompt, 0, maxTokens, eos));
      Prefill(prompt);
      out := Continue(prompt[|prompt| - 1], |prompt| - 1, maxTokens, eos, pick, prompt, Recomputed(num, m, pick));
    }

    /** The loop over the new tokens. */
    method Continue(lastPrompt: int, start: nat, maxTokens: nat, eos: int, pick: (Vector, nat) -> int,
                    ghost prompt: seq<int>, ghost choose: (seq<int>, nat) -> int)
        returns (out: seq<int>)
      requires Valid() && |prompt| == start + 1 <= ctx && prompt[start] == lastPrompt && InVocab(m, prompt)
      requires Caches(prompt, start) && Samples(num, m, pick, choose)
      requires forall lg, i :: 0 <= pick(lg, i) < |m.embd|
      modifies x, xNorm, q, k, v, scores, attn, gate, up, ffn, logits, keys, values
      ensures out == Decode(choose, ctx, prompt, 0, maxTokens, eos)
    {
      var last: int, pos: nat := lastPrompt, start;
      out := [];
      var step := 0;
      ghost var tokens := prompt;
      ghost var all := Decode(choose, ctx, prompt, 0, maxTokens, eos);
      while step < maxTokens
        invariant step <= maxTokens && pos < ctx && |tokens| == pos + 1 && tokens[pos] == last && InVocab(m, tokens)
        invariant Caches(tokens, pos)
        invariant out + Decode(choose, ctx, tokens, step, maxTokens, eos) == all
      {
        var next := NextToken(last, pos, step, pick, tokens, choose);
        DecodeStep(choose, ctx, tokens, step, maxTokens, eos, next, out);
        if next == eos {
          return;
        }
        out := out + [next];
        tokens := tokens + [next];
        last := next;
        pos := pos + 1;
        if pos >= ctx {
          return;
        }
        step := step + 1;
      }
    }
  }

  lemma StepsAre(num: Numerics, m: Model, l: nat, x: Vector, ks: seq<Vector>, vs: seq<Vector>, pos: nat)
    requires l < |m.layers|
    ensures StepsOf(num, m).key(l, x, pos) == Key(num, m, m.layers[l], x, pos)
    ensures StepsOf(num, m).value(l, x, pos) == Value(num, m.layers[l], x)
    ensures StepsOf(num, m).next(l, x, ks, vs, pos) == LayerOut(num, m, m.layers[l], x, ks, vs, pos)
  {
  }

  ghost predicate InVocab(m: Model, tokens: seq<int>) {
    forall p :: 0 <= p < |tokens| ==> 0 <= tokens[p] < |m.embd|
  }

  /** Generation by a function that chooses each next token from all tokens so far and the step number. It stops
      at the end token (not output), after maxTokens, or when the context is full. */
  function Decode(choose: (seq<int>, nat) -> int, ctx: nat, tokens: seq<int>, step: nat, maxTokens: nat, eos: int): seq<int>
    decreases maxTokens - step
  {
    if step >= maxTokens then []
    else
      var next := choose(tokens, step);
      if next == eos then []
      else if |tokens| >= ctx then [next]
      else [next] + Decode(choose, ctx, tokens + [next], step + 1, maxTokens, eos)
  }

  lemma DecodeStep(choose: (seq<int>, nat) -> int, ctx: nat, tokens: seq<int>, step: nat, maxTokens: nat, eos: int,
                   next: int, out: seq<int>)
    requires step < maxTokens && next == choose(tokens, step)
    ensures var all := out + Decode(choose, ctx, tokens, step, maxTokens, eos);
      && (next == eos ==> all == out)
      && (next != eos && |tokens| >= ctx ==> all == out + [next])
      && (next != eos && |tokens| < ctx ==> all == (out + [next]) + Decode(choose, ctx, tokens + [next], step + 1, maxTokens, eos))
  {
    if next != eos && |tokens| < ctx {
      Regroup(out, next, Decode(choose, ctx, tokens + [next], step + 1, maxTokens, eos));
    }
  }

  /** What a generation is: each token is the choice from the prompt and the tokens before it and none is the end
      token; there are at most maxTokens, and at most one more than the context has room for; fewer mean that the
      end token was chosen or the context is full. */
  ghost predicate IsGeneration(choose: (seq<int>, nat) -> int, ctx: nat, tokens: seq<int>, step: nat, maxTokens: nat,
                               eos: int, out: seq<int>) {
    && step + |out| <= maxTokens && |tokens| + |out| <= ctx + 1
    && (forall i: nat :: i < |out| ==> out[i] != eos && out[i] == choose(tokens + out[..i], step + i))
    && (step + |out| < maxTokens && |tokens| + |out| <= ctx ==> choose(tokens + out, step + |out|) == eos)
  }

  lemma TailIsGeneration(choose: (seq<int>, nat) -> int, ctx: nat, tokens: seq<int>, step: nat, maxTokens: nat,
                         eos: int, next: int, rest: seq<int>)
    requires next == choose(tokens, step) && next != eos
    requires IsGeneration(choose, ctx, tokens + [next], step + 1, maxTokens, eos, rest)
    ensures IsGeneration(choose, ctx, tokens, step, maxTokens, eos, [next] + rest)
  {
    var out := [next] + rest;
    forall i: nat | i < |out| ensures out[i] != eos && out[i] == choose(tokens + out[..i], step + i) {
      if i == 0 {
        assert tokens + out[..0] == tokens;
      } else {
        assert tokens + out[..i] == (tokens + [next]) + rest[..i - 1];
      }
    }
    assert tokens + out == (tokens + [next]) + rest;
  }

  lemma {:induction false} DecodeIsGeneration(choose: (seq<int>, nat) -> int, ctx: nat, tokens: seq<int>, step: nat,
                                              maxTokens: nat, eos: int)
    requires step <= maxTokens && |tokens| <= ctx
    ensures IsGeneration(choose, ctx, tokens, step, maxTokens, eos, Decode(choose, ctx, tokens, step, maxTokens, eos))
    decreases maxTokens - step
  {
    assert tokens + [] == tokens;
    if step < maxTokens && choose(tokens, step) != eos {
      var next := choose(tokens, step);
      if |tokens| < ctx {
        DecodeIsGeneration(choose, ctx, tokens + [next], step + 1, maxTokens, eos);
        TailIsGeneration(choose, ctx, tokens, step, maxTokens, eos, next,
                         Decode(choose, ctx, tokens + [next], step + 1, maxTokens, eos));
      } else {
        assert tokens + [next][..0] == tokens;
      }
    }
  }

  lemma {:induction false} GenerationsAgree(choose: (seq<int>, nat) -> int, ctx: nat, tokens: seq<int>, step: nat,
                                            maxTokens: nat, eos: int, a: seq<int>, b: seq<int>, n: nat)
    requires IsGeneration(choose, ctx, tokens, step, maxTokens, eos, a)
    requires IsGeneration(choose, ctx, tokens, step, maxTokens, eos, b)
    requires n <= |a| && n <= |b|
    ensures a[..n] == b[..n]
  {
    if n > 0 {
      GenerationsAgree(choose, ctx, tokens, step, maxTokens, eos, a, b, n - 1);
      assert a[n - 1] == choose(tokens + a[..n - 1], step + (n - 1)) == b[n - 1];
      assert a[..n] == a[..n - 1] + [a[n - 1]] && b[..n] == b[..n - 1] + [b[n - 1]];
    }
  }

  lemma Follows(choose: (seq<int>, nat) -> int, ctx: nat, tokens: seq<int>, step: nat, maxTokens: nat, eos: int,
                b: seq<int>, k: nat)
    requires IsGeneration(choose, ctx, tokens, step, maxTokens, eos, b)
    ensures k < |b| ==> b[k] != eos && b[k] == choose(tokens + b[..k], step + k)
  {
  }

  lemma ShorterIsAll(choose: (seq<int>, nat) -> int, ctx: nat, tokens: seq<int>, step: nat, maxTokens: nat, eos: int,
                     a: seq<int>, b: seq<int>)
    requires IsGeneration(choose, ctx, tokens, step, maxTokens, eos, a)
    requires IsGeneration(choose, ctx, tokens, step, maxTokens, eos, b)
    requires |a| <= |b|
    ensures a == b
  {
    GenerationsAgree(choose, ctx, tokens, step, maxTokens, eos, a, b, |a|);
    Follows(choose, ctx, tokens, step, maxTokens, eos, b, |a|);
    assert a == a[..|a|] == b[..|a|];
  }

  /** Decode is the one output that is a generation. */
  lemma DecodeIff(choose: (seq<int>, nat) -> int, ctx: nat, prompt: seq<int>, maxTokens: nat, eos: int, out: seq<int>)
    requires |prompt| <= ctx
    ensures out == Decode(choose, ctx, prompt, 0, maxTokens, eos) <==> IsGeneration(choose, ctx, prompt, 0, maxTokens, eos, out)
  {
    var all := Decode(choose, ctx, prompt, 0, maxTokens, eos);
    DecodeIsGeneration(choose, ctx, prompt, 0, maxTokens, eos);
    if IsGeneration(choose, ctx, prompt, 0, maxTokens, eos, out) {
      if |out| <= |all| {
        ShorterIsAll(choose, ctx, prompt, 0, maxTokens, eos, out, all);
      } else {
        ShorterIsAll(choose, ctx, prompt, 0, maxTokens, eos, all, out);
      }
    }
  }

  lemma Regroup(a: seq<int>, x: int, b: seq<int>)
    ensures a + ([x] + b) == (a + [x]) + b
  {
  }

  function Last(tokens: seq<int>): nat { if tokens == [] then 0 else |tokens| - 1 }

  /** The choice without any cache: sampling from logits recomputed from all tokens. */
  function Recomputed(num: Numerics, m: Model, pick: (Vector, nat) -> int): (seq<int>, nat) -> int {
    (tokens: seq<int>, i: nat) => if tokens == [] then 0 else pick(Logits(num, m, tokens, Last(tokens)), i)
  }

  /** It is the sampler on the logits behind the last token. */
  lemma RecomputedIs(num: Numerics, m: Model, pick: (Vector, nat) -> int, tokens: seq<int>, i: nat)
    requires tokens != []
    ensures Recomputed(num, m, pick)(tokens, i) == pick(Logits(num, m, tokens, |tokens| - 1), i)
  {
    assert Last(tokens) == |tokens| - 1;
  }

  ghost predicate Samples(num: Numerics, m: Model, pick: (Vector, nat) -> int, choose: (seq<int>, nat) -> int) {
    forall tokens: seq<int>, i: nat {:trigger pick(Logits(num, m, tokens, Last(tokens)), i)} ::
      tokens != [] ==> choose(tokens, i) == pick(Logits(num, m, tokens, Last(tokens)), i)
  }
}
