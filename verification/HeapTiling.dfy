/** Where the heap's blocks lie: over every history in which the blocks a free joins
    fill one stretch of memory, the blocks tile the pages taken from the pool. */
module HeapTiling {
  import opened PagePool
  import opened HeapModel

  // ---------------------------------------------------------------------
  // Counting the blocks that hold an address
  // ---------------------------------------------------------------------

  function In(b: Block, x: nat): nat { if b.Holds(x) then 1 else 0 }

  /** How many blocks of the list hold address x. */
  function Count(bs: seq<Block>, x: nat): nat {
    if bs == [] then 0 else In(bs[0], x) + Count(bs[1..], x)
  }

  function PageOf(x: nat): (p: nat)
    ensures p % PAGE == 0 && p <= x < p + PAGE
  {
    x / PAGE * PAGE
  }

  /** Every address of a taken page is in exactly one block and no other address is in any. */
  ghost predicate Tiled(bs: seq<Block>, taken: set<nat>) {
    forall x: nat :: Count(bs, x) == if PageOf(x) in taken then 1 else 0
  }

  ghost predicate WellFormed(b: Block) {
    b.addr > 0 && b.addr % 8 == 0 && b.size % 8 == 0 && b.size >= 16
  }

  ghost predicate AllWellFormed(bs: seq<Block>) {
    forall i :: 0 <= i < |bs| ==> WellFormed(bs[i])
  }

  /** Pages of `all` that are not in the pool: those the heap has taken. */
  function Taken(s: State, all: set<nat>): set<nat> { all - set p | p in s.pool }

  /** The heap's invariant; `all` is the set of pages that are the heap's or still in the pool. */
  ghost predicate Inv(s: State, all: set<nat>) {
    && Pages(s.pool) && Distinct(s.pool) && (forall p :: p in s.pool ==> p in all)
    && (forall p :: p in all ==> p % PAGE == 0)
    && AllWellFormed(s.blocks)
    && Coalesced(s.blocks)
    && Tiled(s.blocks, Taken(s, all))
  }

  lemma {:induction false} CountConcat(a: seq<Block>, b: seq<Block>, x: nat)
    ensures Count(a + b, x) == Count(a, x) + Count(b, x)
  {
    if a == [] { assert a + b == b; }
    else {
      assert (a + b)[1..] == a[1..] + b;
      CountConcat(a[1..], b, x);
    }
  }

  lemma CountReplace(bs: seq<Block>, k: nat, parts: seq<Block>, x: nat)
    requires k < |bs|
    ensures Count(Replace(bs, k, parts), x) == Count(bs, x) - In(bs[k], x) + Count(parts, x)
  {
    CountConcat(bs[..k] + parts, bs[k + 1..], x);
    CountConcat(bs[..k], parts, x);
    assert bs == bs[..k] + ([bs[k]] + bs[k + 1..]);
    CountConcat(bs[..k], [bs[k]] + bs[k + 1..], x);
  }

  lemma CountAtLeast(bs: seq<Block>, i: nat, x: nat)
    requires i < |bs| && bs[i].Holds(x)
    ensures Count(bs, x) >= 1
  {
    CountReplace(bs, i, [], x);
  }

  lemma CountBoth(bs: seq<Block>, i: nat, j: nat, x: nat)
    requires i < j < |bs| && bs[i].Holds(x) && bs[j].Holds(x)
    ensures Count(bs, x) >= 2
  {
    assert bs == bs[..j] + bs[j..];
    CountConcat(bs[..j], bs[j..], x);
    CountAtLeast(bs[..j], i, x);
    CountAtLeast(bs[j..], 0, x);
  }

  /** In a tiled list no two blocks share an address, so headers and payloads are all disjoint. */
  lemma BlocksDisjoint(bs: seq<Block>, taken: set<nat>, i: nat, j: nat)
    requires Tiled(bs, taken) && i < j < |bs|
    ensures bs[i].End() <= bs[j].addr || bs[j].End() <= bs[i].addr
  {
    if bs[i].addr < bs[j].End() && bs[j].addr < bs[i].End() {
      var x := if bs[i].addr <= bs[j].addr then bs[j].addr else bs[i].addr;
      CountBoth(bs, i, j, x);
      assert false;
    }
  }

  /** Hence a header address names one block. */
  lemma IndexIsUnique(bs: seq<Block>, taken: set<nat>, i: nat)
    requires Tiled(bs, taken) && i < |bs|
    ensures IndexOf(bs, bs[i].addr) == i
  {
    var k := IndexOf(bs, bs[i].addr);
    if k < i { BlocksDisjoint(bs, taken, k, i); }
  }

  // ---------------------------------------------------------------------
  // malloc keeps the tiling
  // ---------------------------------------------------------------------

  lemma CarveTiles(b: Block, size: nat, x: nat)
    requires b.size >= size
    ensures Count(Carve(b, size), x) == In(b, x)
  {
    var c := Carve(b, size);
    if |c| == 2 { assert c[1..] == [c[1]] && Count([c[1]], x) == In(c[1], x); } else { assert c[1..] == []; }
  }

  lemma CarveWellFormed(bs: seq<Block>, k: nat, size: nat)
    requires AllWellFormed(bs) && k < |bs| && bs[k].size >= size && size % 16 == 0 && size >= 16
    ensures AllWellFormed(Replace(bs, k, Carve(bs[k], size)))
  {
    CarveBlocksWellFormed(bs[k], size);
  }

  lemma CarveBlocksWellFormed(b: Block, size: nat)
    requires WellFormed(b) && b.size >= size && size % 16 == 0 && size >= 16
    ensures AllWellFormed(Carve(b, size))
  {
    MultipleOf8(size / 8, b.addr / 8, b.size / 8);
  }

  lemma MultipleOf8(size: nat, addr: nat, whole: int)
    ensures (8 * addr + HDR + 8 * size) % 8 == 0 && (8 * whole - 8 * size - HDR) % 8 == 0
  {
    assert 8 * addr + HDR + 8 * size == 8 * (addr + 3 + size);
    assert 8 * whole - 8 * size - HDR == 8 * (whole - size - 3);
  }

  lemma PagesLessHeader(n: nat)
    requires n > 0
    ensures n * PAGE - HDR >= 16 && (n * PAGE - HDR) % 8 == 0
  {
    assert n * PAGE - HDR == 8 * (n * (PAGE / 8) - 3);
  }

  /** The addresses of n adjacent pages are those whose page is one of the n. */
  lemma RunAddresses(a: nat, n: nat, x: nat)
    requires a % PAGE == 0
    ensures a <= x < a + n * PAGE <==> InRun(PageOf(x), a, n)
  {
    if a <= x < a + n * PAGE {
      var k := x / PAGE - a / PAGE;
      assert k < n && PageOf(x) == Nth(a, k);
    }
  }

  /** A block made of freshly taken pages holds exactly the addresses of those pages. */
  lemma FreshBlockTiles(s: State, s': State, all: set<nat>, b: Block, n: nat)
    requires Tiled(s.blocks, Taken(s, all)) && (forall p :: p in s.pool ==> p in all)
    requires b.addr % PAGE == 0 && b.End() == b.addr + n * PAGE
    requires HoldsRun(s.pool, b.addr, n) && PagesLeft(s.pool, b.addr, n, s'.pool)
    requires s'.blocks == s.blocks + [b]
    ensures Tiled(s'.blocks, Taken(s', all))
  {
    forall x: nat ensures Count(s'.blocks, x) == if PageOf(x) in Taken(s', all) then 1 else 0 {
      CountConcat(s.blocks, [b], x);
      RunAddresses(b.addr, n, x);
      assert Count([b], x) == In(b, x);
      assert InRun(PageOf(x), b.addr, n) ==> PageOf(x) in s.pool;
    }
  }

  /** What Take says of its result: nothing taken, or n adjacent pages removed. */
  ghost predicate Took(pool: seq<nat>, page: nat, rest: seq<nat>, n: nat) {
    if page == 0 then rest == pool
    else HoldsRun(pool, page, n) && PagesLeft(pool, page, n, rest) && Pages(rest) && Distinct(rest) && |rest| + n == |pool|
  }

  lemma TakeTook(pool: seq<nat>, n: nat)
    requires Pages(pool) && Distinct(pool)
    ensures Took(pool, Take(pool, n).0, Take(pool, n).1, n)
  {
    if Take(pool, n).0 == 0 { TakeFailureKeeps(pool, n); } else { TakeRemovesRun(pool, n); }
  }

  lemma AppendKeepsInv(s: State, all: set<nat>, page: nat, rest: seq<nat>, size: nat)
    requires Inv(s, all) && Took(s.pool, page, rest, PagesFor(size))
    ensures Inv(Append(s, page, rest, size).0, all)
  {
    if page != 0 {
      var n := PagesFor(size);
      FirstOfRun(s.pool, page, n);
      PagesLessHeader(n);
      FreshBlockTiles(s, State(s.blocks + [Extent(page, size)], rest), all, Extent(page, size), n);
      AppendKeeps(s.blocks, Extent(page, size));
    }
  }

  lemma AppendKeeps(bs: seq<Block>, b: Block)
    requires AllWellFormed(bs) && Coalesced(bs) && WellFormed(b) && !b.free
    ensures AllWellFormed(bs + [b]) && Coalesced(bs + [b])
  {
  }

  lemma FirstOfRun(pool: seq<nat>, a: nat, n: nat)
    requires Pages(pool) && HoldsRun(pool, a, n) && n > 0
    ensures a > 0 && a % PAGE == 0
  {
    assert Nth(a, 0) in pool;
  }

  lemma MallocKeepsInv(s: State, all: set<nat>, request: nat)
    requires Inv(s, all)
    ensures Inv(Malloc(s, request).0, all)
  {
    if request != 0 {
      var size := Round16(request);
      var k := FirstFit(s.blocks, size);
      if k < |s.blocks| {
        CarveWellFormed(s.blocks, k, size);
        CarveKeepsCoalesced(s.blocks, k, size);
        forall x: nat ensures Count(Malloc(s, request).0.blocks, x) == Count(s.blocks, x) {
          CountReplace(s.blocks, k, Carve(s.blocks[k], size), x);
          CarveTiles(s.blocks[k], size, x);
        }
      } else {
        TakeTook(s.pool, PagesFor(size));
        AppendKeepsInv(s, all, Take(s.pool, PagesFor(size)).0, Take(s.pool, PagesFor(size)).1, size);
      }
    }
  }

  // ---------------------------------------------------------------------
  // What free joins
  // ---------------------------------------------------------------------

  function First(bs: seq<Block>, k: nat): (lo: nat)
    requires k < |bs|
    ensures lo <= k
  {
    if k > 0 && bs[k - 1].free then k - 1 else k
  }

  function Last(bs: seq<Block>, k: nat): (hi: nat)
    requires k < |bs|
    ensures k < hi <= |bs|
  {
    if k + 1 < |bs| && bs[k + 1].free then k + 2 else k + 1
  }

  /** The blocks joined when block k is freed: itself and its free list neighbours. */
  function Joined(bs: seq<Block>, k: nat): (run: seq<Block>)
    requires k < |bs|
    ensures 1 <= |run| <= 3
  {
    Release(bs, k)[First(bs, k)..Last(bs, k)]
  }

  function JoinAll(run: seq<Block>): (b: Block)
    requires run != []
    ensures b.addr == run[0].addr && b.free == run[0].free
    decreases |run|
  {
    if |run| == 1 then run[0] else JoinAll([Join(run[0], run[1])] + run[2..])
  }

  lemma CoalescedAt(bs: seq<Block>, i: nat)
    requires Coalesced(bs) && 0 < i < |bs|
    ensures !bs[i - 1].free || !bs[i].free
  {
  }

  lemma {:induction false} CoalesceFixed(bs: seq<Block>)
    requires Coalesced(bs)
    ensures Coalesce(bs) == bs
    decreases |bs|
  {
    if |bs| >= 2 {
      CoalescedAt(bs, 1);
      CoalesceFixed(bs[1..]);
    }
  }

  lemma TailCoalesced(bs: seq<Block>)
    requires Coalesced(bs) && bs != []
    ensures Coalesced(bs[1..])
  {
  }

  lemma {:induction false} CoalescePrefix(pre: seq<Block>, rest: seq<Block>)
    requires rest != [] && Coalesced(pre + [rest[0]])
    ensures Coalesce(pre + rest) == pre + Coalesce(rest)
    decreases |pre|
  {
    var bs := pre + rest;
    if pre == [] {
      assert bs == rest;
    } else {
      var head := pre + [rest[0]];
      CoalescedAt(head, 1);
      assert bs[0] == head[0] && bs[1] == head[1];
      assert bs[1..] == pre[1..] + rest;
      assert Coalesced(pre[1..] + [rest[0]]) by {
        TailCoalesced(head);
        assert head[1..] == pre[1..] + [rest[0]];
      }
      CoalescePrefix(pre[1..], rest);
      assert Coalesce(bs) == [bs[0]] + Coalesce(bs[1..]);
      Associative([bs[0]], pre[1..], Coalesce(rest));
      assert [bs[0]] + pre[1..] == pre;
    }
  }

  lemma {:induction false} CoalesceRun(run: seq<Block>, rest: seq<Block>)
    requires run != [] && forall i :: 0 <= i < |run| ==> run[i].free
    requires Coalesced(rest) && (rest != [] ==> !rest[0].free)
    ensures Coalesce(run + rest) == [JoinAll(run)] + rest
    decreases |run|
  {
    if |run| == 1 {
      assert Coalesced(run + rest);
      CoalesceFixed(run + rest);
    } else {
      var run' := [Join(run[0], run[1])] + run[2..];
      assert [Join((run + rest)[0], (run + rest)[1])] + (run + rest)[2..] == run' + rest;
      CoalesceRun(run', rest);
    }
  }

  lemma CoalesceAround(pre: seq<Block>, run: seq<Block>, tail: seq<Block>)
    requires run != [] && forall i :: 0 <= i < |run| ==> run[i].free
    requires Coalesced(pre + [run[0]])
    requires Coalesced(tail) && (tail != [] ==> !tail[0].free)
    ensures Coalesce(pre + run + tail) == pre + [JoinAll(run)] + tail
  {
    Associative(pre, run, tail);
    Associative(pre, [JoinAll(run)], tail);
    CoalescePrefix(pre, run + tail);
    CoalesceRun(run, tail);
  }

  lemma Associative(a: seq<Block>, b: seq<Block>, c: seq<Block>)
    ensures a + b + c == a + (b + c)
  {
  }

  lemma JoinedSurroundings(bs: seq<Block>, k: nat)
    requires Coalesced(bs) && k < |bs| && !bs[k].free
    ensures var run, tail := Joined(bs, k), bs[Last(bs, k)..];
      && (forall i :: 0 <= i < |run| ==> run[i].free)
      && Coalesced(bs[..First(bs, k)] + [run[0]])
      && Coalesced(tail) && (tail != [] ==> !tail[0].free)
  {
    var pre := bs[..First(bs, k)];
    if pre != [] {
      assert !pre[|pre| - 1].free by {
        if First(bs, k) < k { CoalescedAt(bs, k - 1); }
      }
    }
    if k + 2 < |bs| { CoalescedAt(bs, k + 2); }
  }

  /** Freeing one block of a coalesced list replaces it and its free neighbours by their join. */
  lemma CoalesceShape(bs: seq<Block>, k: nat)
    requires Coalesced(bs) && k < |bs| && !bs[k].free
    ensures Coalesce(Release(bs, k)) == bs[..First(bs, k)] + [JoinAll(Joined(bs, k))] + bs[Last(bs, k)..]
  {
    ReleaseSplits(bs, k);
    JoinedSurroundings(bs, k);
    CoalesceAround(bs[..First(bs, k)], Joined(bs, k), bs[Last(bs, k)..]);
  }

  /** The joined blocks lie end to end from the first one on. Checked on addresses before the call. */
  predicate Fills(run: seq<Block>) {
    || |run| == 1
    || (|run| == 2 && run[0].End() == run[1].addr)
    || (|run| == 3 && run[0].End() == run[1].addr && run[1].End() == run[2].addr)
    || (|run| == 3 && run[0].End() == run[2].addr && run[2].End() == run[1].addr)
  }

  ghost predicate SameBytes(run: seq<Block>, b: Block) {
    forall x: nat :: Count(run, x) == In(b, x)
  }

  lemma CountThree(run: seq<Block>, x: nat)
    requires 1 <= |run| <= 3
    ensures Count(run, x) == In(run[0], x) + (if |run| > 1 then In(run[1], x) else 0) + (if |run| > 2 then In(run[2], x) else 0)
  {
    if |run| > 1 { assert run[1..][1..] == run[2..]; }
    if |run| > 2 { assert run[2..][1..] == []; }
  }

  lemma JoinAllSize(run: seq<Block>)
    requires 1 <= |run| <= 3
    ensures JoinAll(run).End() == run[0].End() + (if |run| > 1 then run[1].size + HDR else 0) + (if |run| > 2 then run[2].size + HDR else 0)
  {
    if |run| > 1 {
      var run' := [Join(run[0], run[1])] + run[2..];
      if |run| > 2 { assert [Join(run'[0], run'[1])] + run'[2..] == [Join(run'[0], run'[1])]; }
    }
  }

  /** Disjoint blocks hold the same addresses as their join exactly when they lie end to end. */
  lemma FillsIff(run: seq<Block>)
    requires 1 <= |run| <= 3
    requires forall x: nat :: Count(run, x) <= 1
    ensures SameBytes(run, JoinAll(run)) <==> Fills(run)
  {
    var j := JoinAll(run);
    JoinAllSize(run);
    forall x: nat
      ensures Count(run, x) == In(run[0], x) + (if |run| > 1 then In(run[1], x) else 0) + (if |run| > 2 then In(run[2], x) else 0)
    { CountThree(run, x); }
    if SameBytes(run, j) { SameBytesFills(run); }
  }

  lemma SameBytesFills(run: seq<Block>)
    requires 1 <= |run| <= 3 && SameBytes(run, JoinAll(run))
    requires forall x: nat ::
      Count(run, x) == In(run[0], x) + (if |run| > 1 then In(run[1], x) else 0) + (if |run| > 2 then In(run[2], x) else 0)
    ensures Fills(run)
  {
    var j := JoinAll(run);
    JoinAllSize(run);
    assert forall i :: 0 <= i < |run| ==> Count(run, run[i].addr) == In(j, run[i].addr);
    assert forall i :: 0 <= i < |run| ==> Count(run, run[i].End()) == In(j, run[i].End());
  }

  /** A free keeps the tiling exactly when the blocks it joins lie end to end. */
  lemma ReleaseTilesIff(bs: seq<Block>, k: nat, taken: set<nat>)
    requires Tiled(bs, taken) && Coalesced(bs) && k < |bs| && !bs[k].free
    ensures Tiled(Coalesce(Release(bs, k)), taken) <==> Fills(Joined(bs, k))
  {
    var run := Joined(bs, k);
    var bs' := Coalesce(Release(bs, k));
    forall x: nat
      ensures Count(bs', x) == Count(bs, x) - Count(run, x) + In(JoinAll(run), x) && Count(run, x) <= Count(bs, x)
    { CountRelease(bs, k, x); }
    FillsIff(run);
    if Tiled(bs', taken) {
      forall x: nat ensures Count(run, x) == In(JoinAll(run), x) {
        assert Count(bs', x) == Count(bs, x);
      }
    } else {
      var x: nat :| Count(bs', x) != if PageOf(x) in taken then 1 else 0;
      assert Count(bs', x) != Count(bs, x);
    }
  }

  lemma CountRelease(bs: seq<Block>, k: nat, x: nat)
    requires Coalesced(bs) && k < |bs| && !bs[k].free
    ensures Count(Coalesce(Release(bs, k)), x) == Count(bs, x) - Count(Joined(bs, k), x) + In(JoinAll(Joined(bs, k)), x)
    ensures Count(Joined(bs, k), x) <= Count(bs, x)
  {
    var lo, hi, run := First(bs, k), Last(bs, k), Joined(bs, k);
    CoalesceShape(bs, k);
    CountSplice(bs[..lo], [JoinAll(run)], bs[hi..], x);
    CountSplice(bs[..lo], run, bs[hi..], x);
    ReleaseSplits(bs, k);
    ReleaseCounts(bs, k, x);
    assert Count([JoinAll(run)], x) == In(JoinAll(run), x);
  }

  lemma ReleaseSplits(bs: seq<Block>, k: nat)
    requires k < |bs|
    ensures Release(bs, k) == bs[..First(bs, k)] + Joined(bs, k) + bs[Last(bs, k)..]
  {
  }

  /** Marking a block free moves nothing. */
  lemma ReleaseCounts(bs: seq<Block>, k: nat, x: nat)
    requires k < |bs|
    ensures Count(Release(bs, k), x) == Count(bs, x)
  {
    var b := bs[k].(free := true);
    assert Release(bs, k) == Replace(bs, k, [b]);
    CountReplace(bs, k, [b], x);
    assert Count([b], x) == In(b, x);
  }

  lemma CountSplice(a: seq<Block>, b: seq<Block>, c: seq<Block>, x: nat)
    ensures Count(a + b + c, x) == Count(a, x) + Count(b, x) + Count(c, x)
  {
    CountConcat(a + b, c, x);
    CountConcat(a, b, x);
  }

  // ---------------------------------------------------------------------
  // Histories
  // ---------------------------------------------------------------------

  /** The blocks that freeing ptr joins lie end to end; a test on the list before the call. */
  predicate FreeFills(s: State, ptr: nat)
    requires Owned(s, ptr)
  {
    ptr != NULL ==> Fills(Joined(s.blocks, IndexOf(s.blocks, ptr - HDR)))
  }

  /** The same for whatever a heap operation frees; a realloc that moves frees after its malloc. */
  predicate Guard(s: State, op: Op)
    requires Legal(s, op)
  {
    match op
    case DoMalloc(_) => true
    case DoFree(p) => FreeFills(s, p)
    case DoRealloc(p, n) =>
      if p == NULL || (n != 0 && SizeAt(s, p) >= n) then true
      else if n == 0 then FreeFills(s, p)
      else
        var (s', q) := Malloc(s, n);
        q != NULL && Owned(s', p) ==> FreeFills(s', p)
  }

  lemma FreeInvIff(s: State, all: set<nat>, ptr: nat)
    requires Inv(s, all) && Owned(s, ptr)
    ensures Inv(Free(s, ptr), all) <==> FreeFills(s, ptr)
  {
    if ptr != NULL {
      var k := IndexOf(s.blocks, ptr - HDR);
      ReleaseTilesIff(s.blocks, k, Taken(s, all));
      assert Taken(Free(s, ptr), all) == Taken(s, all);
      CoalesceIsComplete(Release(s.blocks, k));
      CoalesceWellFormed(Release(s.blocks, k));
    }
  }

  lemma {:induction false} CoalesceWellFormed(bs: seq<Block>)
    requires AllWellFormed(bs)
    ensures AllWellFormed(Coalesce(bs))
    decreases |bs|
  {
    if |bs| >= 2 {
      if bs[0].free && bs[1].free {
        JoinWellFormed(bs[0], bs[1]);
        CoalesceWellFormed([Join(bs[0], bs[1])] + bs[2..]);
      } else {
        CoalesceWellFormed(bs[1..]);
      }
    }
  }

  lemma JoinWellFormed(a: Block, b: Block)
    requires WellFormed(a) && WellFormed(b)
    ensures WellFormed(Join(a, b))
  {
    SumOf8(a.size / 8, b.size / 8);
  }

  lemma SumOf8(x: nat, y: nat)
    ensures (8 * x + HDR + 8 * y) % 8 == 0
  {
    assert 8 * x + HDR + 8 * y == 8 * (x + 3 + y);
  }

  /** Each operation keeps the invariant exactly when what it frees joins end to end. */
  lemma StepInvIff(s: State, all: set<nat>, op: Op)
    requires Inv(s, all) && Legal(s, op)
    ensures Inv(Step(s, op), all) <==> Guard(s, op)
  {
    match op
    case DoMalloc(n) => MallocKeepsInv(s, all, n);
    case DoFree(p) => FreeInvIff(s, all, p);
    case DoRealloc(p, n) =>
      MallocKeepsInv(s, all, n);
      FreeInvIff(s, all, p);
      var s' := Malloc(s, n).0;
      if Owned(s', p) { FreeInvIff(s', all, p); }
  }

  predicate GuardedRun(s: State, ops: seq<Op>)
    requires LegalRun(s, ops)
    decreases |ops|
  {
    ops == [] || (Guard(s, ops[0]) && GuardedRun(Step(s, ops[0]), ops[1..]))
  }

  /** The invariant holds before the first, between any two and after the last operation. */
  ghost predicate InvThroughout(s: State, all: set<nat>, ops: seq<Op>)
    requires LegalRun(s, ops)
    decreases |ops|
  {
    Inv(s, all) && (ops != [] ==> InvThroughout(Step(s, ops[0]), all, ops[1..]))
  }

  /** Over every legal history: the blocks tile the taken pages throughout if and only if
      every free, also inside realloc, joins blocks that lie end to end. */
  lemma {:induction false} HistoryTilesIff(s: State, all: set<nat>, ops: seq<Op>)
    requires Inv(s, all) && LegalRun(s, ops)
    ensures InvThroughout(s, all, ops) <==> GuardedRun(s, ops)
    decreases |ops|
  {
    if ops != [] {
      StepInvIff(s, all, ops[0]);
      if Guard(s, ops[0]) { HistoryTilesIff(Step(s, ops[0]), all, ops[1..]); }
    }
  }

  /** An empty heap over a pool of distinct aligned pages is a good start. */
  lemma EmptyHeapInv(pool: seq<nat>)
    requires Pages(pool) && Distinct(pool)
    ensures Inv(State([], pool), set p | p in pool)
  {
    forall i | 0 <= i < |pool| ensures pool[i] % PAGE == 0 {}
  }
}
