/** What callers of malloc, free and realloc get: blocks of the asked size, aligned,
    and never touched by operations on other pointers. */
module HeapPointers {
  import opened PagePool
  import opened PoolOrder
  import opened HeapModel
  import opened HeapTiling
  import opened HeapHeaders

  /** The allocated blocks of the list. */
  ghost predicate Live(s: State, b: Block) { !b.free && b in s.blocks }

  /** Owned pointers are exactly the payloads of allocated blocks. */
  lemma OwnedIff(s: State, b: Block)
    requires Separate(s.blocks) && b in s.blocks
    ensures Owned(s, b.Payload()) <==> Live(s, b)
    ensures s.blocks[IndexOf(s.blocks, b.addr)] == b
  {
    var i :| 0 <= i < |s.blocks| && s.blocks[i] == b;
    IndexInSeparate(s.blocks, i);
  }

  lemma OwnedIsLive(s: State, ptr: nat)
    requires Owned(s, ptr) && ptr != NULL
    ensures Live(s, Block(ptr - HDR, SizeAt(s, ptr), false))
  {
  }

  /** What a successful malloc owes its caller: block b, allocated anew, large enough, its payload at a
      multiple of 8 (at 8 modulo 16 in a fresh extent, which is never split); a reused block wastes less
      than 40 bytes over the rounded request. */
  ghost predicate Served(s: State, s': State, b: Block, request: nat) {
    && Live(s', b) && !Live(s, b)
    && b.size >= request && b.Payload() % 8 == 0
    && (s'.pool == s.pool ==> b.size < Round16(request) + 40)
    && (s'.pool != s.pool ==> b.Payload() % 16 == 8)
  }

  /** s' has the allocated blocks of s, and b. */
  ghost predicate Gains(s: State, s': State, b: Block) {
    forall c {:trigger Live(s', c)} {:trigger Live(s, c)} :: Live(s', c) <==> c == b || Live(s, c)
  }

  /** A malloc that passes its test serves the request with a new block and leaves every other allocated
      block alone; one that fails changes nothing. */
  lemma MallocGains(s: State, request: nat) returns (b: Block)
    requires Pages(s.pool) && Separate(s.blocks) && MallocClear(s, request)
    ensures var (s', p) := Malloc(s, request);
      && (p == NULL ==> s' == s)
      && (p != NULL ==> b.Payload() == p && b.size >= request && Live(s', b) && !Live(s, b) && Gains(s, s', b))
  {
    var size := Round16(request);
    var k := FirstFit(s.blocks, size);
    var page := Take(s.pool, PagesFor(size)).0;
    if request == 0 {
      b := Block(0, 0, false);
    } else if k < |s.blocks| {
      b := Carve(s.blocks[k], size)[0];
      ReuseGains(s.blocks, k, size);
    } else {
      b := Extent(page, size);
      if page == NULL { TakeFailureKeeps(s.pool, PagesFor(size)); } else { ExtentGains(s.blocks, b); }
    }
  }

  lemma ReuseGains(bs: seq<Block>, k: nat, size: nat)
    requires Separate(bs) && k < |bs| && Serves(bs[k], size)
    ensures var bs' := Replace(bs, k, Carve(bs[k], size));
      var b := Carve(bs[k], size)[0];
      && b in bs' && b !in bs
      && (forall c: Block :: !c.free ==> (c in bs' <==> c == b || c in bs))
  {
    var parts := Carve(bs[k], size);
    var bs' := Replace(bs, k, parts);
    var b := parts[0];
    assert bs'[k] == b;
    if i :| 0 <= i < |bs| && bs[i] == b {
      IndexInSeparate(bs, i);
      IndexInSeparate(bs, k);
    }
    forall c: Block | !c.free ensures c in bs' <==> c == b || c in bs {
      assert bs == bs[..k] + [bs[k]] + bs[k + 1..];
    }
  }

  lemma ExtentGains(bs: seq<Block>, b: Block)
    requires ApartFromAll(bs, |bs|, b)
    ensures b !in bs && b in bs + [b] && forall c :: c in bs + [b] <==> c == b || c in bs
  {
    forall i | 0 <= i < |bs| ensures bs[i] != b { assert Apart(bs[i], b); }
  }

  /** Over a tiled list the block is also aligned, and wastes little. */
  lemma MallocServes(s: State, all: set<nat>, request: nat) returns (b: Block)
    requires Inv(s, all)
    ensures var (s', p) := Malloc(s, request);
      && (p == NULL ==> s' == s)
      && (p != NULL ==> b.Payload() == p && Served(s, s', b, request) && Gains(s, s', b))
  {
    TiledIsSeparate(s, all);
    TiledIsClear(s, all, request);
    b := MallocGains(s, request);
    if Malloc(s, request).1 != NULL { ServedWell(s, all, request); }
  }

  /** Payload alignment and waste of a served request. */
  lemma ServedWell(s: State, all: set<nat>, request: nat)
    requires Inv(s, all) && Malloc(s, request).1 != NULL
    ensures var (s', p) := Malloc(s, request);
      && p % 8 == 0
      && (s'.pool != s.pool ==> p % 16 == 8)
      && (s'.pool == s.pool ==> forall b :: Live(s', b) && b.Payload() == p ==> b.size < Round16(request) + 40)
  {
    var size := Round16(request);
    var k := FirstFit(s.blocks, size);
    var page := Take(s.pool, PagesFor(size)).0;
    if k < |s.blocks| {
      assert WellFormed(s.blocks[k]);
      MultipleOf8(0, s.blocks[k].addr / 8, 0);
      MallocKeepsInv(s, all, request);
      OnlyAtItsPlace(Malloc(s, request).0, all, k);
    } else {
      TakeTook(s.pool, PagesFor(size));
      FirstOfRun(s.pool, page, PagesFor(size));
      PageIs8Mod16(page);
    }
  }

  lemma OnlyAtItsPlace(s: State, all: set<nat>, k: nat)
    requires Inv(s, all) && k < |s.blocks|
    ensures forall b :: b in s.blocks && b.Payload() == s.blocks[k].Payload() ==> b == s.blocks[k]
  {
    forall b | b in s.blocks && b.addr == s.blocks[k].addr ensures b == s.blocks[k] {
      TiledIsSeparate(s, all);
      OwnedIff(s, b);
      OwnedIff(s, s.blocks[k]);
    }
  }

  lemma PageIs8Mod16(a: nat)
    requires a % PAGE == 0
    ensures (a + HDR) % 16 == 8 && (a + HDR) % 8 == 0
  {
    var q := a / PAGE;
    assert a == q * PAGE;
    EightMod16(q * 0x2_0000 + 1);
  }

  lemma EightMod16(m: nat)
    ensures (16 * m + 8) % 16 == 8 && (16 * m + 8) % 8 == 0
  {
    assert 16 * m + 8 == 8 * (2 * m + 1);
  }

  /** Adjacent pages stand in order in the pool, as in the pool made from an ascending memory map. */
  ghost predicate OrderedPool(pool: seq<nat>) { Pages(pool) && Distinct(pool) && AdjacentInOrder(pool) }

  /** Then malloc fails exactly when no free block is large enough and the pool holds no run of enough
      adjacent pages. */
  lemma MallocFailsIff(s: State, request: nat)
    requires OrderedPool(s.pool) && request > 0
    ensures Malloc(s, request).1 == NULL <==>
      && (forall b :: b in s.blocks && b.free ==> b.size < Round16(request))
      && !exists a :: HoldsRun(s.pool, a, PagesFor(Round16(request)))
  {
    SearchIsComplete(s.pool, PagesFor(Round16(request)));
  }

  lemma MallocKeepsPool(s: State, request: nat)
    requires OrderedPool(s.pool)
    ensures OrderedPool(Malloc(s, request).0.pool)
  {
    TakeTook(s.pool, PagesFor(Round16(request)));
    TakeKeepsOrder(s.pool, PagesFor(Round16(request)));
  }

  lemma StepKeepsPool(s: State, op: Op)
    requires OrderedPool(s.pool) && Legal(s, op)
    ensures OrderedPool(Step(s, op).pool)
  {
    match op
    case DoMalloc(n) => MallocKeepsPool(s, n);
    case DoFree(_) =>
    case DoRealloc(_, n) => MallocKeepsPool(s, n);
  }

  /** After every legal history of the heap malloc fails exactly for want of memory. */
  lemma {:induction false} HistoryMallocFailsIff(s: State, ops: seq<Op>, request: nat)
    requires OrderedPool(s.pool) && LegalRun(s, ops) && request > 0
    ensures var now := Run(s, ops);
      Malloc(now, request).1 == NULL <==>
        && (forall b :: b in now.blocks && b.free ==> b.size < Round16(request))
        && !exists a :: HoldsRun(now.pool, a, PagesFor(Round16(request)))
    decreases |ops|
  {
    if ops == [] {
      MallocFailsIff(s, request);
    } else {
      StepKeepsPool(s, ops[0]);
      HistoryMallocFailsIff(Step(s, ops[0]), ops[1..], request);
    }
  }

  lemma {:induction false} CoalesceKeepsAllocated(bs: seq<Block>, b: Block)
    requires !b.free
    ensures b in Coalesce(bs) <==> b in bs
    decreases |bs|
  {
    if |bs| >= 2 {
      assert bs == [bs[0]] + bs[1..] && bs[1..] == [bs[1]] + bs[2..];
      if bs[0].free && bs[1].free {
        CoalesceKeepsAllocated([Join(bs[0], bs[1])] + bs[2..], b);
      } else {
        CoalesceKeepsAllocated(bs[1..], b);
      }
    }
  }

  /** free ends the life of one block and of no other. */
  lemma FreeKeepsOthers(s: State, ptr: nat, b: Block)
    requires Separate(s.blocks) && Owned(s, ptr)
    ensures Live(Free(s, ptr), b) <==> Live(s, b) && (ptr == NULL || b.Payload() != ptr)
  {
    if ptr != NULL && !b.free {
      var k := IndexOf(s.blocks, ptr - HDR);
      var r := Release(s.blocks, k);
      CoalesceKeepsAllocated(r, b);
      if i :| 0 <= i < |s.blocks| && s.blocks[i] == b {
        IndexInSeparate(s.blocks, i);
        if i != k { assert r[i] == b; }
      }
      if i :| 0 <= i < |r| && r[i] == b {
        assert s.blocks[i] == b;
        IndexInSeparate(s.blocks, i);
      }
    }
  }

  /** s' has the allocated blocks of s other than ptr's, and b. */
  ghost predicate Trades(s: State, s': State, ptr: nat, b: Block) {
    forall c {:trigger Live(s', c)} {:trigger Live(s, c)} :: Live(s', c) <==> c == b || (Live(s, c) && c.Payload() != ptr)
  }

  /** realloc that moves gives a large enough block and ends the old one's life; one that fails for lack
      of memory, or finds the block large enough, changes nothing. */
  lemma ReallocServes(s: State, ptr: nat, size: nat) returns (b: Block)
    requires Pages(s.pool) && Separate(s.blocks) && Owned(s, ptr) && ptr != NULL && size > 0
    requires Moves(s, ptr, size) ==> MallocClear(s, size)
    ensures Realloc(s, ptr, size).1 != NULL ==> b.Payload() == Realloc(s, ptr, size).1 && b.size >= size
    ensures SizeAt(s, ptr) >= size ==> Realloc(s, ptr, size) == (s, ptr)
    ensures Realloc(s, ptr, size).1 == NULL ==> Realloc(s, ptr, size).0 == s
    ensures SizeAt(s, ptr) < size && Realloc(s, ptr, size).1 != NULL ==>
      && !Live(s, b) && Gains(s, Malloc(s, size).0, b) && Trades(s, Realloc(s, ptr, size).0, ptr, b)
      && Owned(Malloc(s, size).0, ptr) && Realloc(s, ptr, size).0 == Free(Malloc(s, size).0, ptr)
  {
    OwnedIsLive(s, ptr);
    var before := Block(ptr - HDR, SizeAt(s, ptr), false);
    if before.size >= size {
      b := before;
    } else {
      b := MallocGains(s, size);
      var (m, q) := Malloc(s, size);
      if q != NULL {
        MallocSeparateIff(s, size);
        assert Live(m, before);
        OwnedIff(m, before);
        OwnedIff(m, b);
        FreeTrades(s, m, ptr, before, b);
      }
    }
  }

  lemma FreeTrades(s: State, m: State, ptr: nat, before: Block, b: Block)
    requires Separate(m.blocks) && Owned(m, ptr) && ptr != NULL && Gains(s, m, b)
    requires Live(s, before) && before.Payload() == ptr && Live(m, b) && !Live(s, b)
    ensures Trades(s, Free(m, ptr), ptr, b)
  {
    assert Live(m, before);
    OwnedIff(m, before);
    OwnedIff(m, b);
    forall c ensures Live(Free(m, ptr), c) <==> c == b || (Live(s, c) && c.Payload() != ptr) {
      FreeKeepsOthers(m, ptr, c);
    }
  }

  /** The blocks a legal, guarded history leaves never overlap, and their payloads start at multiples of 8. */
  lemma {:induction false} HistoryKeepsPayloadsApart(s: State, all: set<nat>, ops: seq<Op>, i: nat, j: nat)
    requires Inv(s, all) && LegalRun(s, ops) && GuardedRun(s, ops)
    requires i < j < |Run(s, ops).blocks|
    ensures var bs := Run(s, ops).blocks;
      && (bs[i].End() <= bs[j].addr || bs[j].End() <= bs[i].addr)
      && bs[i].Payload() % 8 == 0 && bs[j].Payload() % 8 == 0
    decreases |ops|
  {
    if ops == [] {
      BlocksDisjoint(s.blocks, Taken(s, all), i, j);
      assert WellFormed(s.blocks[i]) && WellFormed(s.blocks[j]);
    } else {
      StepInvIff(s, all, ops[0]);
      HistoryKeepsPayloadsApart(Step(s, ops[0]), all, ops[1..], i, j);
    }
  }

  // ---------------------------------------------------------------------
  // The hypothesis is needed
  // ---------------------------------------------------------------------

  const MB: nat := 0x10_0000

  /** Pages are popped from the top, so three one-page extents lie at 8MB, 6MB and 4MB, in list order. */
  function ThreeExtents(): State {
    State([Block(8 * MB, PAGE - HDR, false), Block(6 * MB, PAGE - HDR, false), Block(4 * MB, PAGE - HDR, false)], [])
  }

  lemma ThreeExtentsReached()
    ensures var s := State([], [4 * MB, 6 * MB, 8 * MB]);
      var ops := [DoMalloc(MB), DoMalloc(MB), DoMalloc(MB)];
      LegalRun(s, ops) && Run(s, ops) == ThreeExtents()
  {
    var s := State([], [4 * MB, 6 * MB, 8 * MB]);
    var s1 := State([Block(8 * MB, PAGE - HDR, false)], [4 * MB, 6 * MB]);
    var s2 := State([Block(8 * MB, PAGE - HDR, false), Block(6 * MB, PAGE - HDR, false)], [4 * MB]);
    assert PagesFor(MB) == 1;
    assert Malloc(s, MB).0 == s1;
    assert Malloc(s1, MB).0 == s2;
    assert Malloc(s2, MB).0 == ThreeExtents();
    RunOfThree(s, s1, s2, [DoMalloc(MB), DoMalloc(MB), DoMalloc(MB)]);
  }

  /** Freeing the two lower extents joins list neighbours that do not lie end to end: the joined block
      reaches over the extent at 8MB, and the next large malloc gives out memory that is still in use. */
  lemma JoiningApartBlocksOverlaps()
    ensures
      var ops := [DoFree(6 * MB + HDR), DoFree(4 * MB + HDR), DoMalloc(PAGE + 64)];
      var kept, given := Block(8 * MB, PAGE - HDR, false), Block(6 * MB, PAGE + 64, false);
      && LegalRun(ThreeExtents(), ops)
      && Live(Run(ThreeExtents(), ops), kept) && Live(Run(ThreeExtents(), ops), given)
      && given.addr < kept.Payload() < given.End()
  {
    var a, b, c := Block(8 * MB, PAGE - HDR, false), Block(6 * MB, PAGE - HDR, false), Block(4 * MB, PAGE - HDR, false);
    var b', c' := b.(free := true), c.(free := true);
    var d := Block(6 * MB, 2 * PAGE - HDR, true);
    var s0, s1, s2 := ThreeExtents(), State([a, b', c], []), State([a, d], []);
    FreeMiddle(a, b, c);
    assert Legal(s0, DoFree(6 * MB + HDR)) && Step(s0, DoFree(6 * MB + HDR)) == s1;
    FreeLast(a, b', c);
    assert Legal(s1, DoFree(4 * MB + HDR)) && Step(s1, DoFree(4 * MB + HDR)) == s2;
    SplitLast(a, d, PAGE + 64);
    var ops := [DoFree(6 * MB + HDR), DoFree(4 * MB + HDR), DoMalloc(PAGE + 64)];
    RunOfThree(s0, s1, s2, ops);
  }

  lemma FreeMiddle(a: Block, b: Block, c: Block)
    requires !a.free && !b.free && !c.free && a.addr != b.addr
    ensures IndexOf([a, b, c], b.addr) == 1
    ensures Coalesce(Release([a, b, c], 1)) == [a, b.(free := true), c]
  {
    var bs := [a, b, c];
    assert bs[0] == a && bs[1] == b;
    var r := [a, b.(free := true), c];
    assert Release(bs, 1) == r;
    CoalesceFixed(r);
  }

  lemma FreeLast(a: Block, b: Block, c: Block)
    requires !a.free && b.free && !c.free && a.addr != c.addr && b.addr != c.addr
    ensures IndexOf([a, b, c], c.addr) == 2
    ensures Coalesce(Release([a, b, c], 2)) == [a, Join(b, c)]
  {
    var bs := [a, b, c];
    assert bs[0] == a && bs[1] == b && bs[2] == c;
    CoalesceShape(bs, 2);
    var run := [b, c.(free := true)];
    assert Joined(bs, 2) == run;
    assert run[2..] == [] && [Join(run[0], run[1])] + run[2..] == [Join(run[0], run[1])];
    assert JoinAll(run) == Join(b, c);
  }

  lemma SplitLast(a: Block, d: Block, n: nat)
    requires !a.free && d.free && n > 0 && n % 16 == 0 && d.size >= n + HDR + 16
    ensures var bs := Malloc(State([a, d], []), n).0.blocks;
      |bs| == 3 && bs[0] == a && bs[1] == Block(d.addr, n, false)
  {
    var bs := [a, d];
    assert bs[0] == a && bs[1] == d;
    assert Round16(n) == n && FirstFit(bs, n) == 1;
  }

  lemma RunOfThree(s0: State, s1: State, s2: State, ops: seq<Op>)
    requires |ops| == 3 && Legal(s0, ops[0]) && Step(s0, ops[0]) == s1
    requires Legal(s1, ops[1]) && Step(s1, ops[1]) == s2 && Legal(s2, ops[2])
    ensures LegalRun(s0, ops) && Run(s0, ops) == Step(s2, ops[2])
  {
    assert ops[1..][0] == ops[1] && ops[1..][1..] == [ops[2]] && [ops[2]][1..] == [];
    assert LegalRun(s2, [ops[2]]) && Run(s2, [ops[2]]) == Step(s2, ops[2]);
    assert LegalRun(s1, ops[1..]) && Run(s1, ops[1..]) == Step(s2, ops[2]);
  }
}
