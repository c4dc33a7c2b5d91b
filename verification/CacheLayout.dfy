/** Where the key/value cache keeps each row, how gguf_init caps the context so that the
    cache fits its budget, and why the 32-bit index arithmetic then never wraps. */
module CacheLayout {

  const WORD: nat := 0x1_0000_0000
  const BUDGET: nat := 0x8000_0000
  const MIN_CONTEXT: nat := 256

  // ---------------------------------------------------------------------
  // Rows and slots
  // ---------------------------------------------------------------------

  /** Index of the first element of the row for layer l, position p. */
  function Slot(l: nat, p: nat, ctx: nat, width: nat): nat { l * ctx * width + p * width }

  lemma MulMono(a: nat, b: nat, w: nat)
    requires a <= b
    ensures a * w <= b * w
  {
  }

  lemma RowMono(a: nat, b: nat, w: nat)
    requires a < b
    ensures a * w + w <= b * w
  {
    MulMono(a + 1, b, w);
    assert (a + 1) * w == a * w + w;
  }

  lemma SlotIsRow(l: nat, p: nat, ctx: nat, width: nat)
    ensures Slot(l, p, ctx, width) == (l * ctx + p) * width
  {
  }

  /** Rows lie inside the cache. */
  lemma SlotInside(l: nat, p: nat, layers: nat, ctx: nat, width: nat)
    requires l < layers && p < ctx
    ensures Slot(l, p, ctx, width) + width <= layers * ctx * width
  {
    SlotIsRow(l, p, ctx, width);
    RowMono(l, layers, ctx);
    RowMono(l * ctx + p, layers * ctx, width);
  }

  /** Different (layer, position) pairs have disjoint rows. */
  lemma SlotsApart(l: nat, p: nat, l': nat, p': nat, ctx: nat, width: nat)
    requires p < ctx && p' < ctx && (l != l' || p != p')
    ensures var a, b := Slot(l, p, ctx, width), Slot(l', p', ctx, width);
      a + width <= b || b + width <= a
  {
    SlotIsRow(l, p, ctx, width);
    SlotIsRow(l', p', ctx, width);
    if l < l' { RowMono(l, l', ctx); }
    if l' < l { RowMono(l', l, ctx); }
    var r, r' := l * ctx + p, l' * ctx + p';
    assert r != r';
    if r < r' { RowMono(r, r', width); } else { RowMono(r', r, width); }
  }

  /** Element i of key/value head g in the row of layer l, position p. */
  function Element(l: nat, p: nat, g: nat, i: nat, ctx: nat, kvHeads: nat, headDim: nat): nat {
    Slot(l, p, ctx, kvHeads * headDim) + g * headDim + i
  }

  lemma OffsetInside(g: nat, i: nat, kvHeads: nat, headDim: nat)
    requires g < kvHeads && i < headDim
    ensures g * headDim + i < kvHeads * headDim
  {
    RowMono(g, kvHeads, headDim);
  }

  lemma OffsetsApart(g: nat, i: nat, g': nat, i': nat, headDim: nat)
    requires i < headDim && i' < headDim && g * headDim + i == g' * headDim + i'
    ensures g == g' && i == i'
  {
    if g < g' { RowMono(g, g', headDim); }
    if g' < g { RowMono(g', g, headDim); }
  }

  /** Every element has its place inside the cache ... */
  lemma ElementInside(l: nat, p: nat, g: nat, i: nat, layers: nat, ctx: nat, kvHeads: nat, headDim: nat)
    requires l < layers && p < ctx && g < kvHeads && i < headDim
    ensures Element(l, p, g, i, ctx, kvHeads, headDim) < layers * ctx * (kvHeads * headDim)
  {
    SlotInside(l, p, layers, ctx, kvHeads * headDim);
    OffsetInside(g, i, kvHeads, headDim);
  }

  /** ... and shares it with no other layer, position, head or element. */
  lemma ElementsApart(l: nat, p: nat, g: nat, i: nat, l': nat, p': nat, g': nat, i': nat, ctx: nat, kvHeads: nat, headDim: nat)
    requires p < ctx && g < kvHeads && i < headDim
    requires p' < ctx && g' < kvHeads && i' < headDim
    requires Element(l, p, g, i, ctx, kvHeads, headDim) == Element(l', p', g', i', ctx, kvHeads, headDim)
    ensures l == l' && p == p' && g == g' && i == i'
  {
    var width, o, o' := kvHeads * headDim, g * headDim + i, g' * headDim + i';
    assert o < width by { OffsetInside(g, i, kvHeads, headDim); }
    assert o' < width by { OffsetInside(g', i', kvHeads, headDim); }
    SameSlot(l, p, o, l', p', o', ctx, width);
    OffsetsApart(g, i, g', i', headDim);
  }

  lemma SameSlot(l: nat, p: nat, o: nat, l': nat, p': nat, o': nat, ctx: nat, width: nat)
    requires p < ctx && p' < ctx && o < width && o' < width
    requires Slot(l, p, ctx, width) + o == Slot(l', p', ctx, width) + o'
    ensures l == l' && p == p' && o == o'
  {
    if l != l' || p != p' { SlotsApart(l, p, l', p', ctx, width); }
  }

  // ---------------------------------------------------------------------
  // 32-bit index arithmetic
  // ---------------------------------------------------------------------

  function Wrap(n: nat): nat { n % WORD }

  /** The index expression as the program evaluates it: unsigned 32-bit products and sum. */
  function WrappedSlot(l: nat, p: nat, ctx: nat, width: nat): nat {
    Wrap(Wrap(Wrap(l * ctx) * width) + Wrap(p * width))
  }

  lemma WrapSmall(n: nat)
    requires n < WORD
    ensures Wrap(n) == n
  {
  }

  /** When the whole cache has at most 2^32 elements no index wraps. */
  lemma NoWrap(l: nat, p: nat, layers: nat, ctx: nat, width: nat)
    requires l < layers && p < ctx && width > 0 && layers * ctx * width <= WORD
    ensures WrappedSlot(l, p, ctx, width) == Slot(l, p, ctx, width)
  {
    SlotInside(l, p, layers, ctx, width);
    FactorBelow(l * ctx, width);
    WrapSmall(l * ctx);
    WrapSmall(l * ctx * width);
    WrapSmall(p * width);
    WrapSmall(Slot(l, p, ctx, width));
  }

  lemma FactorBelow(n: nat, w: nat)
    requires w > 0
    ensures n <= n * w
  {
    MulMono(1, w, n);
  }

  /** Whole multiples of 2^32 do not matter. */
  lemma WrapDrops(n: nat, q: nat, r: nat)
    requires n == q * WORD + r
    ensures Wrap(n) == Wrap(r)
  {
  }

  lemma WrapTimes(a: nat, b: nat)
    ensures Wrap(Wrap(a) * b) == Wrap(a * b)
  {
    var q, r := a / WORD, Wrap(a);
    assert a == q * WORD + r;
    assert a * b == (q * b) * WORD + r * b;
    WrapDrops(a * b, q * b, r * b);
  }

  lemma WrapPlus(a: nat, b: nat)
    ensures Wrap(Wrap(a) + Wrap(b)) == Wrap(a + b)
  {
    WrapDrops(a + b, a / WORD + b / WORD, Wrap(a) + Wrap(b));
  }

  /** The program's index is the intended one modulo 2^32. */
  lemma WrappedIsRemainder(l: nat, p: nat, ctx: nat, width: nat)
    ensures WrappedSlot(l, p, ctx, width) == Wrap(Slot(l, p, ctx, width))
  {
    WrapTimes(l * ctx, width);
    WrapPlus(l * ctx * width, p * width);
  }

  lemma SlotGrows(l: nat, p: nat, l': nat, p': nat, ctx: nat, width: nat)
    requires l <= l' && p <= p'
    ensures Slot(l, p, ctx, width) <= Slot(l', p', ctx, width)
  {
    MulMono(l, l', ctx);
    MulMono(l * ctx, l' * ctx, width);
    MulMono(p, p', width);
  }

  lemma RowRightIff(l: nat, p: nat, ctx: nat, width: nat)
    ensures WrappedSlot(l, p, ctx, width) == Slot(l, p, ctx, width) <==> Slot(l, p, ctx, width) < WORD
  {
    WrappedIsRemainder(l, p, ctx, width);
  }

  /** Every row is written where it should be exactly when the last row starts below 2^32. */
  lemma AllRowsRightIff(layers: nat, ctx: nat, width: nat)
    requires layers > 0 && ctx > 0
    ensures (forall l: nat, p: nat :: l < layers && p < ctx ==> WrappedSlot(l, p, ctx, width) == Slot(l, p, ctx, width))
       <==> Slot(layers - 1, ctx - 1, ctx, width) < 0x1_0000_0000
  {
    var l', p': nat := layers - 1, ctx - 1;
    RowRightIff(l', p', ctx, width);
    if Slot(l', p', ctx, width) < WORD {
      forall l: nat, p: nat | l < layers && p < ctx ensures WrappedSlot(l, p, ctx, width) == Slot(l, p, ctx, width) {
        SlotGrows(l, p, l', p', ctx, width);
        RowRightIff(l, p, ctx, width);
      }
    }
  }

  /** First element of a layer's rows, in the whole cache and as the program computes it. */
  function LayerStart(l: nat, ctx: nat, width: nat): nat { l * ctx * width }

  function RowStart(p: nat, width: nat): nat { p * width }

  function HeadStart(g: nat, headDim: nat): nat { g * headDim }

  /** Offset of head g of a cached row as attention reads it: three products, each wrapped by itself, added
      to a pointer. */
  function WrappedHead(l: nat, p: nat, g: nat, ctx: nat, width: nat, headDim: nat): nat {
    Wrap(Wrap(l * ctx) * width) + Wrap(RowStart(p, width)) + Wrap(HeadStart(g, headDim))
  }

  /** The offset that is meant. */
  function HeadSlot(l: nat, p: nat, g: nat, ctx: nat, width: nat, headDim: nat): nat {
    LayerStart(l, ctx, width) + RowStart(p, width) + HeadStart(g, headDim)
  }

  lemma WrappedHeadIs(l: nat, p: nat, g: nat, ctx: nat, width: nat, headDim: nat)
    ensures WrappedHead(l, p, g, ctx, width, headDim)
      == Wrap(LayerStart(l, ctx, width)) + Wrap(RowStart(p, width)) + Wrap(HeadStart(g, headDim))
  {
    WrapTimes(l * ctx, width);
  }

  lemma SumRightIff(x: nat, y: nat, z: nat)
    ensures Wrap(x) + Wrap(y) + Wrap(z) == x + y + z <==> x < WORD && y < WORD && z < WORD
  {
  }

  lemma HeadRightIff(l: nat, p: nat, g: nat, ctx: nat, width: nat, headDim: nat)
    ensures WrappedHead(l, p, g, ctx, width, headDim) == HeadSlot(l, p, g, ctx, width, headDim)
       <==> LayerStart(l, ctx, width) < WORD && RowStart(p, width) < WORD && HeadStart(g, headDim) < WORD
  {
    WrappedHeadIs(l, p, g, ctx, width, headDim);
    SumRightIff(LayerStart(l, ctx, width), RowStart(p, width), HeadStart(g, headDim));
  }

  lemma StartsGrow(l: nat, p: nat, g: nat, l': nat, p': nat, g': nat, ctx: nat, width: nat, headDim: nat)
    requires l <= l' && p <= p' && g <= g'
    ensures LayerStart(l, ctx, width) <= LayerStart(l', ctx, width)
    ensures RowStart(p, width) <= RowStart(p', width) && HeadStart(g, headDim) <= HeadStart(g', headDim)
  {
    MulMono(l, l', ctx);
    MulMono(l * ctx, l' * ctx, width);
    MulMono(p, p', width);
    MulMono(g, g', headDim);
  }

  /** Every head is read where it should be exactly when the last layer, the last row of a layer and the last head
      of a row each start below 2^32; their sum need not. */
  lemma AllHeadsRightIff(layers: nat, ctx: nat, kvHeads: nat, headDim: nat, width: nat)
    requires layers > 0 && ctx > 0 && kvHeads > 0
    ensures (forall l: nat, p: nat, g: nat :: l < layers && p < ctx && g < kvHeads ==>
               WrappedHead(l, p, g, ctx, width, headDim) == HeadSlot(l, p, g, ctx, width, headDim))
       <==> (layers - 1) * ctx * width < 0x1_0000_0000 && (ctx - 1) * width < 0x1_0000_0000
            && (kvHeads - 1) * headDim < 0x1_0000_0000
  {
    var l', p', g': nat := layers - 1, ctx - 1, kvHeads - 1;
    HeadRightIff(l', p', g', ctx, width, headDim);
    if LayerStart(l', ctx, width) < WORD && RowStart(p', width) < WORD && HeadStart(g', headDim) < WORD {
      forall l: nat, p: nat, g: nat | l < layers && p < ctx && g < kvHeads
        ensures WrappedHead(l, p, g, ctx, width, headDim) == HeadSlot(l, p, g, ctx, width, headDim)
      {
        StartsGrow(l, p, g, l', p', g', ctx, width, headDim);
        HeadRightIff(l, p, g, ctx, width, headDim);
      }
    }
  }

  lemma SumAgreesIff(x: nat, y: nat)
    ensures Wrap(x + y) == Wrap(x) + Wrap(y) <==> Wrap(x) + Wrap(y) < WORD
  {
    WrapPlus(x, y);
  }

  /** A row is read where it was written exactly when its two wrapped products add up to less than 2^32. */
  lemma ReadsWhatWasWrittenIff(l: nat, p: nat, ctx: nat, width: nat, headDim: nat)
    ensures WrappedHead(l, p, 0, ctx, width, headDim) == WrappedSlot(l, p, ctx, width)
       <==> l * ctx * width % 0x1_0000_0000 + p * width % 0x1_0000_0000 < 0x1_0000_0000
  {
    WrappedHeadIs(l, p, 0, ctx, width, headDim);
    WrappedIsRemainder(l, p, ctx, width);
    SumAgreesIff(LayerStart(l, ctx, width), RowStart(p, width));
    assert HeadStart(0, headDim) == 0;
  }

  // ---------------------------------------------------------------------
  // The cap on the context length
  // ---------------------------------------------------------------------

  function Pow2(k: nat): (r: nat)
    ensures r >= 1
  {
    if k == 0 then 1 else 2 * Pow2(k - 1)
  }

  /** Bytes of key and value cache for one position. */
  function Unit(layers: nat, width: nat): nat { layers * width * 8 }

  /** Bytes of key and value cache for ctx positions, as the program multiplies them out. */
  function CacheBytes(layers: nat, ctx: nat, width: nat): nat { layers * ctx * width * 4 * 2 }

  /** Two caches of four bytes for each element. */
  lemma CacheBytesIs(layers: nat, ctx: nat, width: nat)
    ensures CacheBytes(layers, ctx, width) == 8 * (layers * ctx * width)
  {
  }

  lemma CacheBytesIsUnits(layers: nat, ctx: nat, width: nat)
    ensures CacheBytes(layers, ctx, width) == ctx * Unit(layers, width)
  {
    assert layers * ctx * width == ctx * (layers * width);
  }

  /** n is the largest power of two that is at most b, or 1 when b is 0. */
  ghost predicate IsPow2Floor(n: nat, b: nat) {
    (exists k :: n == Pow2(k)) && (n <= b || n == 1) && b < 2 * n
  }

  /** The doubling loop. */
  method Pow2Floor(b: nat) returns (n: nat)
    ensures IsPow2Floor(n, b)
  {
    n := 1;
    ghost var k := 0;
    while n * 2 <= b
      invariant n == Pow2(k) && (n <= b || n == 1)
      decreases b - n
    {
      n := n * 2;
      k := k + 1;
    }
  }

  function Positions(layers: nat, width: nat): nat
    requires Unit(layers, width) > 0
  {
    Quotient(BUDGET, Unit(layers, width))
  }

  function Quotient(a: nat, b: nat): nat
    requires b > 0
  {
    a / b
  }

  /** What the cap makes of a context length. */
  ghost predicate Capped(layers: nat, ctx: nat, width: nat, ctx': nat)
    requires Unit(layers, width) > 0
  {
    if CacheBytes(layers, ctx, width) <= BUDGET then ctx' == ctx
    else exists n: nat :: IsPow2Floor(n, Positions(layers, width)) && ctx' == if n < MIN_CONTEXT then MIN_CONTEXT else n
  }

  /** gguf_init's cap. The 32-bit product of layer count and row width must not wrap. */
  method CapContext(layers: nat, ctx: nat, width: nat) returns (ctx': nat)
    requires layers * width < WORD && Unit(layers, width) > 0
    ensures Capped(layers, ctx, width, ctx')
  {
    var size := CacheBytes(layers, ctx, width);
    ctx' := ctx;
    if size > BUDGET {
      var unit := Wrap(layers * width) * 4 * 2;
      WrapSmall(layers * width);
      assert unit == Unit(layers, width);
      var n := Pow2Floor(Quotient(BUDGET, unit));
      assert IsPow2Floor(n, Positions(layers, width));
      ctx' := if n < MIN_CONTEXT then MIN_CONTEXT else n;
    }
  }

  lemma {:induction false} Pow2Jumps(k: nat)
    ensures Pow2(k) < MIN_CONTEXT ==> 2 * Pow2(k) <= MIN_CONTEXT
  {
    assert Pow2(7) == 128 && Pow2(8) == MIN_CONTEXT;
    if k >= 8 { Pow2Grows(8, k); } else { Pow2Grows(k, 7); }
  }

  lemma {:induction false} Pow2Grows(j: nat, k: nat)
    requires j <= k
    ensures Pow2(j) <= Pow2(k)
    decreases k
  {
    if j < k { Pow2Grows(j, k - 1); }
  }

  /** A cap that finds room for 256 positions gives the largest power of two that fits, and shortens the context. */
  lemma CapIsLargestFit(layers: nat, ctx: nat, width: nat, ctx': nat)
    requires Unit(layers, width) > 0 && Capped(layers, ctx, width, ctx')
    requires CacheBytes(layers, 256, width) <= 0x8000_0000 < CacheBytes(layers, ctx, width)
    ensures (exists k :: ctx' == Pow2(k)) && 256 <= ctx' < ctx
    ensures CacheBytes(layers, ctx', width) <= 0x8000_0000 < CacheBytes(layers, 2 * ctx', width)
  {
    CacheBytesIsUnits(layers, 256, width);
    FitsIff(256, Unit(layers, width));
    var unit, b := Unit(layers, width), Positions(layers, width);
    var n: nat :| IsPow2Floor(n, b) && ctx' == if n < MIN_CONTEXT then MIN_CONTEXT else n;
    var k :| n == Pow2(k);
    Pow2Jumps(k);
    FitsIff(n, unit);
    FitsIff(2 * n, unit);
    CacheBytesIsUnits(layers, ctx, width);
    CacheBytesIsUnits(layers, ctx', width);
    CacheBytesIsUnits(layers, 2 * ctx', width);
    if ctx <= n { MulMono(ctx, n, unit); }
  }

  lemma FitsIff(n: nat, unit: nat)
    requires unit > 0
    ensures n * unit <= BUDGET <==> n <= Quotient(BUDGET, unit)
  {
    var q := Quotient(BUDGET, unit);
    assert q * unit <= BUDGET < (q + 1) * unit;
    if n <= q { MulMono(n, q, unit); } else { MulMono(q + 1, n, unit); }
  }

  /** The capped cache keeps to the budget, with a context no longer than asked, exactly when no cap was
      needed or 256 positions fit; with less room the minimum of 256 overrides the budget. */
  lemma CapWithinBudgetIff(layers: nat, ctx: nat, width: nat, ctx': nat)
    requires Unit(layers, width) > 0 && Capped(layers, ctx, width, ctx')
    ensures CacheBytes(layers, ctx', width) <= 0x8000_0000 && ctx' <= ctx
       <==> CacheBytes(layers, ctx, width) <= 0x8000_0000 || CacheBytes(layers, 256, width) <= 0x8000_0000
    ensures ctx' == ctx || ctx' >= 256
    ensures CacheBytes(layers, 256, width) > 0x8000_0000 ==> ctx' == ctx || ctx' == 256
  {
    CacheBytesIsUnits(layers, 256, width);
    FitsIff(256, Unit(layers, width));
    if CacheBytes(layers, ctx, width) > BUDGET {
      if MIN_CONTEXT <= Positions(layers, width) {
        CapIsLargestFit(layers, ctx, width, ctx');
      } else {
        CacheBytesIsUnits(layers, MIN_CONTEXT, width);
        FitsIff(MIN_CONTEXT, Unit(layers, width));
        var n: nat :| IsPow2Floor(n, Positions(layers, width)) && ctx' == if n < MIN_CONTEXT then MIN_CONTEXT else n;
        assert ctx' == MIN_CONTEXT;
      }
    }
  }

  /** Within the budget every index the forward pass computes is the intended one. */
  lemma BudgetMeansNoWrap(layers: nat, ctx: nat, width: nat, l: nat, p: nat)
    requires CacheBytes(layers, ctx, width) <= BUDGET && l < layers && p < ctx && width > 0
    ensures WrappedSlot(l, p, ctx, width) == Slot(l, p, ctx, width)
    ensures Slot(l, p, ctx, width) + width <= layers * ctx * width
  {
    NoWrap(l, p, layers, ctx, width);
    SlotInside(l, p, layers, ctx, width);
  }

  /** So is every offset at which attention reads a head. */
  lemma BudgetMeansHeadsRight(layers: nat, ctx: nat, kvHeads: nat, headDim: nat, l: nat, p: nat, g: nat)
    requires CacheBytes(layers, ctx, kvHeads * headDim) <= BUDGET && l < layers && p < ctx && g < kvHeads && headDim > 0
    ensures var width := kvHeads * headDim;
      && WrappedHead(l, p, g, ctx, width, headDim) == Slot(l, p, ctx, width) + g * headDim
      && WrappedHead(l, p, g, ctx, width, headDim) + headDim <= layers * ctx * width
  {
    var width := kvHeads * headDim;
    HeadEndInside(layers, ctx, kvHeads, headDim, width, l, p, g);
    HeadRightIff(l, p, g, ctx, width, headDim);
  }

  lemma HeadEndInside(layers: nat, ctx: nat, kvHeads: nat, headDim: nat, width: nat, l: nat, p: nat, g: nat)
    requires l < layers && p < ctx && g < kvHeads && width == kvHeads * headDim
    ensures HeadSlot(l, p, g, ctx, width, headDim) == Slot(l, p, ctx, width) + g * headDim
    ensures HeadSlot(l, p, g, ctx, width, headDim) + headDim <= layers * ctx * width
  {
    RowMono(g, kvHeads, headDim);
    SlotInside(l, p, layers, ctx, width);
  }
}
