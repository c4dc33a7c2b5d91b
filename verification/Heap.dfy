/** malloc, free and realloc as they run: headers relinked in memory, header stores
    overwriting the bytes they land on, realloc copying byte by byte. */
module Heap {
  import opened PagePool
  import opened HeapModel
  import opened HeapTiling
  import opened HeapHeaders
  import opened HeapPointers
  import opened HeapLinks

  /** Address x is a byte of some block's header. */
  ghost predicate InHeader(bs: seq<Block>, x: int) {
    exists i :: 0 <= i < |bs| && bs[i].addr <= x < bs[i].addr + HDR
  }

  /** No byte of an allocated payload is a header byte. */
  lemma PayloadClearOfHeaders(bs: seq<Block>, c: Block, x: int)
    requires Separate(bs) && c in bs && !c.free && c.Payload() <= x < c.End()
    ensures !InHeader(bs, x)
  {
    var j :| 0 <= j < |bs| && bs[j] == c;
    forall i | 0 <= i < |bs| ensures !(bs[i].addr <= x < bs[i].addr + HDR) {
      if i != j { UsedDisjoint(bs, i, j); }
    }
  }

  /** Memory reaches as far as headers and allocated payloads do. */
  predicate InRam(bs: seq<Block>, limit: nat) {
    forall i :: 0 <= i < |bs| ==> bs[i].addr + Used(bs[i]) <= limit
  }

  /** What malloc writes and gives out exists and is clear of all other headers and given memory. */
  predicate Possible(s: State, request: nat, limit: nat) {
    MallocClear(s, request) && InRam(Malloc(s, request).0.blocks, limit)
  }

  /** Blocks that tile pages lie inside memory; so does what the next malloc writes. */
  lemma TiledIsPossible(s: State, all: set<nat>, request: nat, limit: nat)
    requires Inv(s, all) && forall p :: p in all ==> p + PAGE <= limit
    ensures InRam(s.blocks, limit) && Possible(s, request, limit)
  {
    TiledInRam(s, all, limit);
    TiledIsClear(s, all, request);
    MallocKeepsInv(s, all, request);
    TiledInRam(Malloc(s, request).0, all, limit);
  }

  lemma TiledInRam(s: State, all: set<nat>, limit: nat)
    requires Inv(s, all) && forall p :: p in all ==> p + PAGE <= limit
    ensures InRam(s.blocks, limit)
  {
    forall i | 0 <= i < |s.blocks| ensures s.blocks[i].End() <= limit {
      var b := s.blocks[i];
      CountAtLeast(s.blocks, i, b.End() - 1);
      assert PageOf(b.End() - 1) in all;
    }
  }

  lemma {:induction false} CoalesceInRam(bs: seq<Block>, limit: nat)
    requires InRam(bs, limit)
    ensures InRam(Coalesce(bs), limit)
    decreases |bs|
  {
    if |bs| >= 2 {
      CoalesceInRam(if bs[0].free && bs[1].free then [Join(bs[0], bs[1])] + bs[2..] else bs[1..], limit);
    }
  }

  lemma FirstFitIs(bs: seq<Block>, size: nat, k: nat)
    requires k <= |bs| && (forall i :: 0 <= i < k ==> !Serves(bs[i], size)) && (k < |bs| ==> Serves(bs[k], size))
    ensures FirstFit(bs, size) == k
  {
  }

  /** Headers whose blocks are apart share no byte. */
  lemma HeadersApart(m: Memory, chain: seq<nat>, bs: seq<Block>, k: nat, b: Block)
    requires Shows(m, chain, bs) && ApartFromAll(bs, k, b)
    ensures ApartFrom(chain, k, b.addr)
  {
    forall i | 0 <= i < |chain| && i != k ensures ApartAt(chain[i], b.addr) {
      assert bs[i].addr == chain[i] && Apart(bs[i], b);
    }
  }

  /** Memory bytes may differ only inside the header at a. */
  ghost predicate OnlyHeaderAt(before: seq<bv8>, after: seq<bv8>, a: nat) {
    |before| == |after| && forall x :: 0 <= x < |before| && before[x] != after[x] ==> a <= x < a + HDR
  }

  /** Memory bytes may differ only inside headers of the list. */
  ghost predicate OnlyHeaders(before: seq<bv8>, after: seq<bv8>, bs: seq<Block>) {
    |before| == |after| && forall x :: 0 <= x < |before| && before[x] != after[x] ==> InHeader(bs, x)
  }

  lemma HeaderIsHeader(before: seq<bv8>, after: seq<bv8>, bs: seq<Block>, i: nat)
    requires i < |bs| && OnlyHeaderAt(before, after, bs[i].addr)
    ensures OnlyHeaders(before, after, bs)
  {
  }

  class Heap {
    const pool: Pool
    var ram: seq<bv8>
    var start: nat
    var headers: Memory
    ghost var chain: seq<nat>
    ghost var blocks: seq<Block>

    ghost predicate Linked()
      reads this, pool
    {
      pool.Valid() && Links(headers, start, chain) && Shows(headers, chain, blocks) && ChainApart(chain)
    }

    ghost function Now(): State
      requires Linked()
      reads this, pool, pool.blocks
    {
      State(blocks, pool.Free())
    }

    ghost predicate Valid()
      reads this, pool, pool.blocks
    {
      Linked() && Separate(blocks) && InRam(blocks, |ram|) && PoolInRam(pool.Free(), |ram|)
    }

    /** malloc_init: the list is empty. */
    constructor (pool: Pool, ram: seq<bv8>)
      requires pool.Valid() && PoolInRam(pool.Free(), |ram|)
      ensures Valid() && this.pool == pool && this.ram == ram && Now() == State([], pool.Free())
    {
      this.pool := pool;
      this.ram := ram;
      start := NULL;
      headers := map[];
      chain, blocks := [], [];
    }

    /** Writes a header; the 24 bytes it occupies take whatever values encode it, and any other header that
        shares one of them is lost. */
    method StoreHeader(a: nat, h: Header)
      requires a + HDR <= |ram|
      modifies this`headers, this`ram
      ensures headers == Stored(old(headers), a, h)
      ensures OnlyHeaderAt(old(ram), ram, a)
    {
      headers := Stored(headers, a, h);
      for i := 0 to HDR
        invariant headers == Stored(old(headers), a, h)
        invariant OnlyHeaderAt(old(ram), ram, a)
      {
        var byte: bv8 := *;
        ram := ram[a + i := byte];
      }
    }

    /** Walks the list to the first free block that is large enough. */
    method FindFree(size: nat) returns (curr: nat, prev: nat, ghost k: nat)
      requires Linked()
      ensures k == FirstFit(blocks, size)
      ensures curr == At(chain, FirstFit(blocks, size))
      ensures prev == if k > 0 then chain[k - 1] else NULL
    {
      curr, prev, k := start, NULL, 0;
      while curr != NULL
        invariant k <= |chain| && curr == At(chain, k)
        invariant prev == if k > 0 then chain[k - 1] else NULL
        invariant forall i :: 0 <= i < k ==> !Serves(blocks[i], size)
        decreases |chain| - k
      {
        if headers[curr].isFree && headers[curr].size >= size {
          FirstFitIs(blocks, size, k);
          return;
        }
        prev := curr;
        curr := headers[curr].next;
        k := k + 1;
      }
      FirstFitIs(blocks, size, k);
    }

    /** Cuts header curr to size bytes and writes a free header for the rest behind it. */
    method Split(curr: nat, size: nat)
      requires curr in headers && headers[curr].size >= size + HDR && curr + HDR + size + HDR <= |ram|
      modifies this`headers, this`ram
      ensures headers == SplitMemory(old(headers), curr, size)
      ensures TwoHeadersAt(old(ram), ram, curr, curr + HDR + size)
    {
      var split := curr + HDR + size;
      var h := headers[curr];
      var rest := Header(h.size - size - HDR, true, h.next);
      ghost var m := SplitMemory(headers, curr, size);
      assert m == Stored(Stored(headers, split, rest), curr, h.(size := size, next := split));
      ghost var r0 := ram;
      StoreHeader(split, rest);
      ghost var r1 := ram;
      StoreHeader(curr, h.(size := size, next := split));
      assert TwoHeadersAt(r0, ram, curr, split) by { BothHeaders(r0, r1, ram, curr, split); }
    }

    /** The list now runs through c and stands for bs. */
    ghost method Relink(c: seq<nat>, bs: seq<Block>)
      requires pool.Valid() && Links(headers, start, c) && Shows(headers, c, bs) && ChainApart(c)
      modifies this`chain, this`blocks
      ensures Linked() && chain == c && blocks == bs
    {
      chain, blocks := c, bs;
    }

    method SplitBlock(curr: nat, size: nat, ghost k: nat)
      requires Linked() && k < |chain| && curr == chain[k] && blocks[k].size >= size + HDR
      requires ApartFrom(chain, k, curr + HDR + size) && curr + HDR + size + HDR <= |ram|
      modifies this`headers, this`ram, this`chain, this`blocks
      ensures Linked() && start == old(start)
      ensures blocks == Replace(old(blocks), k, SplitBlocks(old(blocks)[k], size))
      ensures OnlyHeaders(old(ram), ram, blocks)
    {
      ghost var bs, r := blocks, ram;
      assert bs[k] == BlockAt(headers, curr);
      ghost var c := SplitEffect(headers, start, chain, blocks, k, curr, size);
      Split(curr, size);
      Relink(c, Replace(bs, k, SplitBlocks(bs[k], size)));
      assert OnlyHeaders(r, ram, blocks) by { TwoHeaders(r, ram, bs, k, size); }
    }

    /** Rewrites the is_free field of block k. */
    method Mark(curr: nat, isFree: bool, ghost k: nat)
      requires Linked() && k < |chain| && curr == chain[k] && curr + HDR <= |ram|
      modifies this`headers, this`ram, this`blocks
      ensures Linked() && blocks == old(blocks)[k := old(blocks)[k].(free := isFree)]
      ensures OnlyHeaderAt(old(ram), ram, curr)
    {
      SetHeader(headers, start, chain, blocks, k, isFree);
      StoreHeader(curr, headers[curr].(isFree := isFree));
      blocks := blocks[k := blocks[k].(free := isFree)];
    }

    /** Serves a request from block k: splits it if the rest is large enough, and marks it used. */
    method UseBlock(curr: nat, size: nat, ghost k: nat)
      requires Linked() && k < |chain| && curr == chain[k] && Serves(blocks[k], size)
      requires curr + HDR <= |ram|
      requires blocks[k].size >= size + HDR + 16 ==>
        ApartFrom(chain, k, curr + HDR + size) && curr + HDR + size + HDR <= |ram|
      modifies this`headers, this`ram, this`chain, this`blocks
      ensures Linked()
      ensures blocks == Replace(old(blocks), k, Carve(old(blocks)[k], size))
      ensures OnlyHeaders(old(ram), ram, blocks)
    {
      if headers[curr].size >= size + HDR + 16 {
        SplitBlock(curr, size, k);
      }
      ghost var mid, r := blocks, ram;
      assert blocks[k].addr == curr;
      Mark(curr, false, k);
      MarkedHeaders(mid, old(ram), r, ram, k);
      MarkedIsCarved(old(blocks), k, size);
    }

    /** Takes whole pages and writes one header at their start. */
    method RequestSpace(size: nat) returns (b: nat)
      requires pool.Valid() && PoolInRam(pool.Free(), |ram|)
      modifies this`headers, this`ram, pool, pool.blocks
      ensures pool.Valid() && (b, pool.Free()) == Take(old(pool.Free()), PagesFor(size))
      ensures b == NULL ==> headers == old(headers) && ram == old(ram)
      ensures b != NULL ==> headers == Stored(old(headers), b, Header(Extent(b, size).size, false, NULL))
      ensures b != NULL ==> OnlyHeaderAt(old(ram), ram, b)
    {
      ghost var before := pool.Free();
      var n := PagesFor(size);
      b := pool.AllocContiguous(n);
      if b == NULL {
        return;
      }
      FirstTaken(before, n);
      StoreHeader(b, Header(n * PAGE - HDR, false, NULL));
    }

    /** The list is empty: the first extent starts it. */
    method FirstExtent(size: nat) returns (p: nat)
      requires Valid() && start == NULL
      modifies this, pool, pool.blocks
      ensures Linked() && Now() == Grow(old(Now()), size).0 && p == Grow(old(Now()), size).1
      ensures OnlyHeaders(old(ram), ram, blocks)
    {
      assert chain == [] && blocks == [] && blocks + [Extent(NULL, size)] == [Extent(NULL, size)];
      start := RequestSpace(size);
      if start == NULL {
        return NULL;
      }
      chain, blocks := [start], [] + [Extent(start, size)];
      HeaderIsHeader(old(ram), ram, blocks, 0);
      return start + HDR;
    }

    /** No block serves: another extent goes to the end of the list. */
    method NextExtent(prev: nat, size: nat) returns (p: nat)
      requires Valid() && chain != [] && prev == chain[|chain| - 1]
      requires Take(pool.Free(), PagesFor(size)).0 != NULL ==>
        ApartFromAll(blocks, |blocks|, Extent(Take(pool.Free(), PagesFor(size)).0, size))
      modifies this, pool, pool.blocks
      ensures Linked() && Now() == Grow(old(Now()), size).0 && p == Grow(old(Now()), size).1
      ensures OnlyHeaders(old(ram), ram, blocks)
    {
      ghost var s, m, r := Now(), headers, ram;
      assert blocks[|chain| - 1].addr == prev;
      var b := RequestSpace(size);
      if b == NULL {
        return NULL;
      }
      HeadersApart(m, chain, blocks, |chain|, Extent(b, size));
      AppendHeader(m, start, chain, blocks, b, headers[b]);
      LinkLast(prev, b, blocks + [Extent(b, size)]);
      TwoLastHeaders(r, ram, blocks);
      return b + HDR;
    }

    /** Hangs the fresh header b behind the last one. */
    method LinkLast(prev: nat, b: nat, ghost bs: seq<Block>)
      requires pool.Valid() && prev in headers && prev + HDR <= |ram|
      requires Links(Stored(headers, prev, headers[prev].(next := b)), start, chain + [b])
      requires Shows(Stored(headers, prev, headers[prev].(next := b)), chain + [b], bs) && ChainApart(chain + [b])
      modifies this`headers, this`ram, this`chain, this`blocks
      ensures Linked() && blocks == bs && OnlyHeaderAt(old(ram), ram, prev)
    {
      StoreHeader(prev, headers[prev].(next := b));
      Relink(chain + [b], bs);
    }

    /** A free block serves. */
    method Reuse(curr: nat, size: nat, ghost k: nat)
      requires Valid() && k < |chain| && curr == chain[k] && Serves(blocks[k], size)
      requires PartsClear(blocks, k, Carve(blocks[k], size))
      requires InRam(Replace(blocks, k, Carve(blocks[k], size)), |ram|)
      modifies this`headers, this`ram, this`chain, this`blocks
      ensures Linked() && Now() == State(Replace(old(blocks), k, Carve(old(blocks)[k], size)), old(pool.Free()))
      ensures OnlyHeaders(old(ram), ram, blocks)
    {
      CarvePossible(curr, k, size);
      UseBlock(curr, size, k);
    }

    method Allocate(size: nat) returns (p: nat)
      requires Valid() && PlaceClear(Now(), size) && InRam(Place(Now(), size).0.blocks, |ram|)
      modifies this, pool, pool.blocks
      ensures Linked() && OnlyHeaders(old(ram), ram, blocks)
      ensures Now() == Place(old(Now()), size).0 && p == Place(old(Now()), size).1
    {
      ghost var s := Now();
      if start == NULL {
        p := FirstExtent(size);
        assert Now() == Grow(s, size).0 && p == Grow(s, size).1;
        PlaceGrows(s, size);
        return;
      }
      var curr, prev, k := FindFree(size);
      if curr != NULL {
        Reuse(curr, size, k);
        PlaceReuses(s, size);
        assert Now() == Place(s, size).0;
        assert Place(s, size).1 == curr + HDR;
        return curr + HDR;
      }
      p := NextExtent(prev, size);
      assert Now() == Grow(s, size).0 && p == Grow(s, size).1;
      PlaceGrows(s, size);
    }

    method Malloc(request: nat) returns (p: nat)
      requires Valid() && Possible(Now(), request, |ram|)
      modifies this, pool, pool.blocks
      ensures Valid()
      ensures Now() == HeapModel.Malloc(old(Now()), request).0 && p == HeapModel.Malloc(old(Now()), request).1
      ensures |ram| == |old(ram)| && KeepsLive(old(Now()), old(ram), ram)
    {
      if request == 0 {
        return NULL;
      }
      ghost var s, r := Now(), ram;
      p := Allocate(Round16(request));
      MallocSeparateIff(s, request);
      MallocPool(s, request, |ram|);
      KeptByMalloc(s, r, ram, request);
    }

    /** Joins header next, which follows block k and is free like it, into block k. */
    method JoinNext(curr: nat, next: nat, ghost k: nat)
      requires Linked() && k + 1 < |chain| && curr == chain[k] && next == chain[k + 1] && curr + HDR <= |ram|
      modifies this`headers, this`ram, this`chain, this`blocks
      ensures Linked() && start == old(start) && blocks == JoinedAt(old(blocks), k)
      ensures OnlyHeaderAt(old(ram), ram, curr)
    {
      ghost var c := JoinEffect(headers, start, chain, blocks, k);
      ghost var bs := blocks;
      StoreHeader(curr, JoinedHeader(headers[curr], headers[next]));
      Relink(c, JoinedAt(bs, k));
    }

    /** Joins block k with the next; `was` is the list the pass started from, `first` memory at that time. */
    method JoinInPass(curr: nat, next: nat, ghost k: nat, ghost was: seq<Block>, ghost first: seq<bv8>)
      requires Linked() && k + 1 < |chain| && curr == chain[k] && next == chain[k + 1]
      requires blocks[k].free && blocks[k + 1].free
      requires AddressesFrom(blocks, was) && OnlyHeaders(first, ram, was)
      requires forall i :: 0 <= i < |was| ==> was[i].addr + HDR <= |ram|
      modifies this`headers, this`ram, this`chain, this`blocks
      ensures Linked() && start == old(start) && blocks == JoinedAt(old(blocks), k)
      ensures AddressesFrom(blocks, was) && OnlyHeaders(first, ram, was)
    {
      ghost var r := ram;
      ghost var j := AddressFrom(blocks, was, k);
      JoinedAddresses(blocks, was, k);
      JoinNext(curr, next, k);
      OneMoreHeader(first, r, ram, was, j);
    }

    /** One step of the pass: joins the next block into block k or moves on to it. */
    method PassBlock(curr: nat, next: nat, ghost k: nat, ghost was: seq<Block>, ghost first: seq<bv8>)
      returns (curr': nat, ghost k': nat)
      requires Linked() && k + 1 < |chain| && curr == chain[k] && next == chain[k + 1]
      requires AddressesFrom(blocks, was) && OnlyHeaders(first, ram, was)
      requires forall i :: 0 <= i < |was| ==> was[i].addr + HDR <= |ram|
      modifies this`headers, this`ram, this`chain, this`blocks
      ensures Linked() && start == old(start) && k' < |chain| && curr' == chain[k']
      ensures blocks[..k'] + Coalesce(blocks[k'..]) == old(blocks[..k] + Coalesce(blocks[k..]))
      ensures AddressesFrom(blocks, was) && OnlyHeaders(first, ram, was)
      ensures |blocks| - k' < |old(blocks)| - k
    {
      if headers[curr].isFree && headers[next].isFree {
        JoinStep(blocks, k);
        JoinInPass(curr, next, k, was, first);
        return curr, k;
      }
      PassStep(blocks, k);
      return next, k + 1;
    }

    /** The pass over the list that joins free neighbours. */
    method CoalesceList()
      requires Linked() && forall i :: 0 <= i < |blocks| ==> blocks[i].addr + HDR <= |ram|
      modifies this`headers, this`ram, this`chain, this`blocks
      ensures Linked() && blocks == Coalesce(old(blocks))
      ensures OnlyHeaders(old(ram), ram, old(blocks))
    {
      ghost var was, first := blocks, ram;
      ghost var k: nat := 0;
      PassStart(blocks);
      var curr := start;
      while curr != NULL && headers[curr].next != NULL
        invariant Linked() && k <= |blocks| && curr == At(chain, k)
        invariant blocks[..k] + Coalesce(blocks[k..]) == Coalesce(was)
        invariant AddressesFrom(blocks, was) && OnlyHeaders(first, ram, was)
        decreases |blocks| - k
      {
        ChainNext(headers, start, chain, k);
        curr, k := PassBlock(curr, headers[curr].next, k, was, first);
      }
      ChainNext(headers, start, chain, k);
      PassEnd(blocks, k);
    }

    method Free(ptr: nat)
      requires Valid() && Owned(Now(), ptr)
      modifies this`headers, this`ram, this`chain, this`blocks
      ensures Valid() && Now() == HeapModel.Free(old(Now()), ptr)
      ensures OnlyHeaders(old(ram), ram, old(blocks)) && KeepsLive(old(Now()), old(ram), ram)
    {
      ghost var s, r := Now(), ram;
      if ptr == NULL {
        return;
      }
      FreeKeepsSeparate(s, ptr);
      CoalesceInRam(Release(blocks, IndexOf(blocks, ptr - HDR)), |ram|);
      Unlink(ptr - HDR, IndexOf(blocks, ptr - HDR));
      HeadersKeepLive(s.blocks, r, ram);
    }

    /** Marks the block at curr free and coalesces. */
    method Unlink(curr: nat, ghost k: nat)
      requires Valid() && k < |blocks| && blocks[k].addr == curr
      modifies this`headers, this`ram, this`chain, this`blocks
      ensures Linked() && Now() == State(Coalesce(Release(old(blocks), k)), old(pool.Free()))
      ensures OnlyHeaders(old(ram), ram, old(blocks))
    {
      ghost var bs, r := blocks, ram;
      Mark(curr, true, k);
      ghost var mid, r' := blocks, ram;
      CoalesceList();
      ReleasedHeaders(bs, mid, r, r', ram, k);
    }

    /** The byte loop of realloc. */
    method Copy(dest: nat, src: nat, n: nat)
      requires dest + n <= |ram| && src + n <= |ram| && (dest + n <= src || src + n <= dest)
      modifies this`ram
      ensures OnlyRange(old(ram), ram, dest, n) && Copied(old(ram), ram, dest, src, n)
    {
      for i := 0 to n
        invariant OnlyRange(old(ram), ram, dest, n) && Copied(old(ram), ram, dest, src, i)
      {
        assert ram[src + i] == old(ram)[src + i];
        ram := ram[dest + i := ram[src + i]];
      }
    }

    /** Copies ptr's block to the new block at q and frees ptr. */
    method Move(ptr: nat, q: nat, ghost before: Block, ghost b: Block)
      requires Valid() && Live(Now(), before) && Live(Now(), b) && before != b && before.size <= b.size
      requires ptr == before.Payload() && q == b.Payload()
      requires Owned(Now(), ptr)
      modifies this`headers, this`ram, this`chain, this`blocks
      ensures Valid() && Now() == HeapModel.Free(old(Now()), ptr)
      ensures forall c :: Live(old(Now()), c) && c != b ==> Keeps(old(ram), ram, c)
      ensures |ram| == |old(ram)| && CopiedBlock(old(ram), ram, q, ptr, before.size)
    {
      ghost var bs, r0 := blocks, ram;
      CopyFits(headers, chain, bs, before, b, ptr, q, |ram|);
      var n := headers[ptr - HDR].size;
      Copy(q, ptr, n);
      ghost var r1 := ram;
      Free(ptr);
      KeptByMove(bs, r0, r1, ram, before, b);
      CopyKept(bs, r0, r1, ram, before, b);
    }

    /** realloc's way out when the block is too small: a new block, the bytes moved over, the old one freed. */
    method Relocate(ptr: nat, size: nat) returns (q: nat)
      requires Valid() && Owned(Now(), ptr) && Moves(Now(), ptr, size) && Possible(Now(), size, |ram|)
      modifies this, pool, pool.blocks
      ensures Valid()
      ensures Now() == HeapModel.Realloc(old(Now()), ptr, size).0 && q == HeapModel.Realloc(old(Now()), ptr, size).1
      ensures |ram| == |old(ram)| && KeepsLive(old(Now()), old(ram), ram)
      ensures q != NULL ==> CopiedBlock(old(ram), ram, q, ptr, SizeAt(old(Now()), ptr))
    {
      ghost var s, r := Now(), ram;
      ghost var before, b := MovePossible(s, ptr, size);
      q := Malloc(size);
      if q != NULL {
        ghost var r1 := ram;
        Move(ptr, q, before, b);
        KeptByBoth(s, HeapModel.Malloc(s, size).0, r, r1, ram, b);
        CopiedFromKept(r, r1, ram, before, q);
      }
    }

    method Realloc(ptr: nat, size: nat) returns (q: nat)
      requires Valid() && Owned(Now(), ptr)
      requires ptr == NULL || Moves(Now(), ptr, size) ==> Possible(Now(), size, |ram|)
      modifies this, pool, pool.blocks
      ensures Valid()
      ensures Now() == HeapModel.Realloc(old(Now()), ptr, size).0 && q == HeapModel.Realloc(old(Now()), ptr, size).1
      ensures |ram| == |old(ram)| && KeepsLive(old(Now()), old(ram), ram)
      ensures ptr != NULL && q != NULL ==> CopiedBlock(old(ram), ram, q, ptr, SizeAt(old(Now()), ptr))
    {
      if ptr == NULL {
        q := Malloc(size);
        return;
      }
      if size == 0 {
        Free(ptr);
        return NULL;
      }
      ghost var k := IndexOf(blocks, ptr - HDR);
      assert blocks[k] == BlockAt(headers, ptr - HDR);
      if headers[ptr - HDR].size >= size {
        return ptr;
      }
      q := Relocate(ptr, size);
    }

    /** What a split writes lies in memory, clear of the other headers. */
    lemma CarvePossible(curr: nat, k: nat, size: nat)
      requires Linked() && k < |chain| && curr == chain[k] && Serves(blocks[k], size)
      requires PartsClear(blocks, k, Carve(blocks[k], size))
      requires InRam(Replace(blocks, k, Carve(blocks[k], size)), |ram|)
      ensures curr + HDR <= |ram|
      ensures blocks[k].size >= size + HDR + 16 ==>
        ApartFrom(chain, k, curr + HDR + size) && curr + HDR + size + HDR <= |ram|
    {
      var parts := Carve(blocks[k], size);
      var r := Replace(blocks, k, parts);
      assert r[k] == parts[0] && parts[0].addr == curr;
      if |parts| == 2 {
        assert r[k + 1] == parts[1] && parts[1] in parts;
        HeadersApart(headers, chain, blocks, k, parts[1]);
      }
    }
  }

  /** The pool offers distinct pages of memory. */
  ghost predicate PoolInRam(pool: seq<nat>, limit: nat) {
    Pages(pool) && Distinct(pool) && forall p :: p in pool ==> p + PAGE <= limit
  }

  lemma MallocPool(s: State, request: nat, limit: nat)
    requires PoolInRam(s.pool, limit)
    ensures PoolInRam(HeapModel.Malloc(s, request).0.pool, limit)
  {
    TakeTook(s.pool, PagesFor(Round16(request)));
  }

  /** Every block of bs has the address of a block of was. */
  ghost predicate AddressesFrom(bs: seq<Block>, was: seq<Block>) {
    forall i :: 0 <= i < |bs| ==> HasAddress(was, bs[i].addr)
  }

  ghost predicate HasAddress(bs: seq<Block>, a: nat) {
    exists j :: 0 <= j < |bs| && bs[j].addr == a
  }

  /** Before the pass begins. */
  lemma PassStart(bs: seq<Block>)
    ensures bs[..0] + Coalesce(bs[0..]) == Coalesce(bs) && AddressesFrom(bs, bs)
  {
    assert bs[0..] == bs;
    forall i | 0 <= i < |bs| ensures HasAddress(bs, bs[i].addr) {}
  }

  lemma AddressFrom(bs: seq<Block>, was: seq<Block>, k: nat) returns (j: nat)
    requires AddressesFrom(bs, was) && k < |bs|
    ensures j < |was| && was[j].addr == bs[k].addr
  {
    assert HasAddress(was, bs[k].addr);
    var i :| 0 <= i < |was| && was[i].addr == bs[k].addr;
    j := i;
  }

  lemma JoinedAddresses(bs: seq<Block>, was: seq<Block>, k: nat)
    requires AddressesFrom(bs, was) && k + 1 < |bs|
    ensures AddressesFrom(JoinedAt(bs, k), was)
  {
    var r := JoinedAt(bs, k);
    forall i | 0 <= i < |r| ensures HasAddress(was, r[i].addr) {
      assert r[i].addr == bs[if i <= k then i else i + 1].addr;
    }
  }

  lemma OneMoreHeader(r0: seq<bv8>, r1: seq<bv8>, r2: seq<bv8>, bs: seq<Block>, j: nat)
    requires OnlyHeaders(r0, r1, bs) && j < |bs| && OnlyHeaderAt(r1, r2, bs[j].addr)
    ensures OnlyHeaders(r0, r2, bs)
  {
    HeaderIsHeader(r1, r2, bs, j);
  }

  lemma PassEnd(bs: seq<Block>, k: nat)
    requires k <= |bs| <= k + 1
    ensures bs[..k] + Coalesce(bs[k..]) == bs
  {
    if k < |bs| { assert Coalesce(bs[k..]) == bs[k..]; }
  }

  /** Freeing rewrites headers of the list it starts from. */
  lemma ReleasedHeaders(bs: seq<Block>, mid: seq<Block>, r0: seq<bv8>, r1: seq<bv8>, r2: seq<bv8>, k: nat)
    requires k < |bs| && mid == Release(bs, k)
    requires OnlyHeaderAt(r0, r1, bs[k].addr) && OnlyHeaders(r1, r2, mid)
    ensures OnlyHeaders(r0, r2, bs)
  {
    HeaderIsHeader(r0, r1, bs, k);
    forall x | 0 <= x < |r1| && r1[x] != r2[x] ensures InHeader(bs, x) {
      var i :| 0 <= i < |mid| && mid[i].addr <= x < mid[i].addr + HDR;
      assert bs[i].addr == mid[i].addr;
    }
  }

  // ---------------------------------------------------------------------
  // Payload bytes
  // ---------------------------------------------------------------------

  ghost predicate OnlyRange(before: seq<bv8>, after: seq<bv8>, a: nat, n: nat) {
    |before| == |after| && forall x :: 0 <= x < |before| && before[x] != after[x] ==> a <= x < a + n
  }

  /** after has at dest the n bytes that before had at src. */
  ghost predicate Copied(before: seq<bv8>, after: seq<bv8>, dest: nat, src: nat, n: nat)
    requires dest + n <= |after| && src + n <= |before|
  {
    forall x :: dest <= x < dest + n ==> after[x] == before[x - dest + src]
  }

  ghost predicate CopiedBlock(before: seq<bv8>, after: seq<bv8>, dest: nat, src: nat, n: nat) {
    dest + n <= |after| && src + n <= |before| && Copied(before, after, dest, src, n)
  }

  ghost predicate KeepsLive(s: State, before: seq<bv8>, after: seq<bv8>) {
    forall c :: Live(s, c) ==> Keeps(before, after, c)
  }

  /** The payload of block c is the same before and after. */
  ghost predicate Keeps(before: seq<bv8>, after: seq<bv8>, c: Block) {
    c.End() <= |before| == |after| && forall x :: c.Payload() <= x < c.End() ==> before[x] == after[x]
  }

  lemma TwoInRam(bs: seq<Block>, a: Block, b: Block, limit: nat)
    requires Separate(bs) && InRam(bs, limit) && a in bs && b in bs && a != b && !a.free && !b.free
    ensures a.End() <= limit && b.End() <= limit && (a.End() <= b.addr || b.End() <= a.addr)
  {
    var i :| 0 <= i < |bs| && bs[i] == a;
    var j :| 0 <= j < |bs| && bs[j] == b;
    UsedDisjoint(bs, i, j);
  }

  lemma CopyFits(m: Memory, chain: seq<nat>, bs: seq<Block>, a: Block, b: Block, ptr: nat, q: nat, limit: nat)
    requires Shows(m, chain, bs) && Separate(bs) && InRam(bs, limit)
    requires a in bs && b in bs && a != b && !a.free && !b.free && a.size <= b.size
    requires ptr == a.Payload() && q == b.Payload()
    ensures ptr - HDR in m && m[ptr - HDR].size == a.size && a.End() <= limit && b.End() <= limit
    ensures q + a.size <= limit && ptr + a.size <= limit && (q + a.size <= ptr || ptr + a.size <= q)
  {
    var i :| 0 <= i < |bs| && bs[i] == a;
    TwoInRam(bs, a, b, limit);
  }

  /** Writing headers of a separate list keeps every allocated payload of that list. */
  lemma HeadersKeep(bs: seq<Block>, r0: seq<bv8>, r1: seq<bv8>, c: Block)
    requires Separate(bs) && OnlyHeaders(r0, r1, bs) && c in bs && !c.free && c.End() <= |r0|
    ensures Keeps(r0, r1, c)
  {
    forall x | c.Payload() <= x < c.End() ensures r0[x] == r1[x] {
      PayloadClearOfHeaders(bs, c, x);
    }
  }

  lemma HeadersKeepLive(bs: seq<Block>, r0: seq<bv8>, r1: seq<bv8>)
    requires Separate(bs) && OnlyHeaders(r0, r1, bs) && InRam(bs, |r0|)
    ensures forall c :: c in bs && !c.free ==> Keeps(r0, r1, c)
  {
    forall c | c in bs && !c.free ensures Keeps(r0, r1, c) {
      var i :| 0 <= i < |bs| && bs[i] == c;
      HeadersKeep(bs, r0, r1, c);
    }
  }

  lemma KeptByMalloc(s: State, r0: seq<bv8>, r1: seq<bv8>, request: nat)
    requires Pages(s.pool) && Separate(s.blocks) && Possible(s, request, |r0|)
    requires OnlyHeaders(r0, r1, HeapModel.Malloc(s, request).0.blocks)
    ensures KeepsLive(s, r0, r1)
  {
    var m := HeapModel.Malloc(s, request).0;
    MallocSeparateIff(s, request);
    var b := MallocGains(s, request);
    HeadersKeepLive(m.blocks, r0, r1);
    assert forall c :: Live(s, c) ==> Live(m, c);
  }

  lemma KeptByMove(bs: seq<Block>, r0: seq<bv8>, r1: seq<bv8>, r2: seq<bv8>, before: Block, b: Block)
    requires Separate(bs) && b in bs && !b.free && before.size <= b.size && InRam(bs, |r0|)
    requires OnlyRange(r0, r1, b.Payload(), before.size) && OnlyHeaders(r1, r2, bs)
    ensures forall c :: c in bs && !c.free && c != b ==> Keeps(r0, r2, c)
  {
    HeadersKeepLive(bs, r1, r2);
    forall c | c in bs && !c.free && c != b ensures Keeps(r0, r2, c) {
      TwoInRam(bs, b, c, |r0|);
      assert Keeps(r1, r2, c);
      assert Keeps(r0, r1, c);
    }
  }

  lemma CopyKept(bs: seq<Block>, r0: seq<bv8>, r1: seq<bv8>, r2: seq<bv8>, before: Block, b: Block)
    requires Separate(bs) && b in bs && !b.free && before.size <= b.size
    requires OnlyHeaders(r1, r2, bs) && b.End() <= |r1| && before.End() <= |r0|
    requires Copied(r0, r1, b.Payload(), before.Payload(), before.size)
    ensures Copied(r0, r2, b.Payload(), before.Payload(), before.size)
  {
    HeadersKeep(bs, r1, r2, b);
  }

  /** Once its malloc succeeds, realloc has a larger block to move to and may free the old one. */
  lemma MovePossible(s: State, ptr: nat, size: nat) returns (before: Block, b: Block)
    requires Pages(s.pool) && Separate(s.blocks) && Owned(s, ptr) && Moves(s, ptr, size) && MallocClear(s, size)
    ensures Live(s, before) && before.Payload() == ptr && before.size == SizeAt(s, ptr)
    ensures var (m, q) := HeapModel.Malloc(s, size);
      if q == NULL then m == s && HeapModel.Realloc(s, ptr, size) == (s, NULL)
      else
        && b.Payload() == q && !Live(s, b) && Gains(s, m, b) && before.size <= b.size
        && Owned(m, ptr) && HeapModel.Realloc(s, ptr, size) == (HeapModel.Free(m, ptr), q)
  {
    OwnedIsLive(s, ptr);
    before := Block(ptr - HDR, SizeAt(s, ptr), false);
    b := ReallocServes(s, ptr, size);
    var (m, q) := HeapModel.Malloc(s, size);
    if q == NULL {
      var c := MallocGains(s, size);
    }
  }

  lemma CopiedFromKept(r0: seq<bv8>, r1: seq<bv8>, r2: seq<bv8>, before: Block, q: nat)
    requires Keeps(r0, r1, before) && CopiedBlock(r1, r2, q, before.Payload(), before.size)
    ensures CopiedBlock(r0, r2, q, before.Payload(), before.size)
  {
  }

  lemma KeptByBoth(s: State, m: State, r0: seq<bv8>, r1: seq<bv8>, r2: seq<bv8>, b: Block)
    requires KeepsLive(s, r0, r1) && Gains(s, m, b) && !Live(s, b)
    requires forall c :: Live(m, c) && c != b ==> Keeps(r1, r2, c)
    ensures KeepsLive(s, r0, r2)
  {
    forall c | Live(s, c) ensures Keeps(r0, r2, c) {
      assert Live(m, c) && Keeps(r0, r1, c) && Keeps(r1, r2, c);
    }
  }

  lemma PlaceReuses(s: State, size: nat)
    requires FirstFit(s.blocks, size) < |s.blocks|
    ensures var k := FirstFit(s.blocks, size);
      Place(s, size) == (State(Replace(s.blocks, k, Carve(s.blocks[k], size)), s.pool), s.blocks[k].addr + HDR)
  {
  }

  lemma PlaceGrows(s: State, size: nat)
    requires FirstFit(s.blocks, size) == |s.blocks|
    ensures Place(s, size) == Grow(s, size)
  {
  }

  lemma FirstTaken(pool: seq<nat>, n: nat)
    requires Pages(pool) && Distinct(pool) && n > 0 && Take(pool, n).0 != 0
    ensures Take(pool, n).0 in pool
  {
    TakeRemovesRun(pool, n);
    assert Nth(Take(pool, n).0, 0) in pool;
  }

  lemma TwoLastHeaders(before: seq<bv8>, after: seq<bv8>, bs: seq<Block>)
    requires |bs| >= 2 && TwoHeadersAt(before, after, bs[|bs| - 2].addr, bs[|bs| - 1].addr)
    ensures OnlyHeaders(before, after, bs)
  {
  }

  /** Memory bytes may differ only inside the headers at a and b. */
  ghost predicate TwoHeadersAt(before: seq<bv8>, after: seq<bv8>, a: nat, b: nat) {
    |before| == |after| && forall x :: 0 <= x < |before| && before[x] != after[x] ==> a <= x < a + HDR || b <= x < b + HDR
  }

  lemma BothHeaders(r0: seq<bv8>, r1: seq<bv8>, r2: seq<bv8>, a: nat, b: nat)
    requires OnlyHeaderAt(r0, r1, b) && OnlyHeaderAt(r1, r2, a)
    ensures TwoHeadersAt(r0, r2, a, b)
  {
  }

  lemma TwoHeaders(before: seq<bv8>, after: seq<bv8>, bs: seq<Block>, k: nat, size: nat)
    requires k < |bs| && bs[k].size >= size + HDR
    requires TwoHeadersAt(before, after, bs[k].addr, bs[k].addr + HDR + size)
    ensures OnlyHeaders(before, after, Replace(bs, k, SplitBlocks(bs[k], size)))
  {
    var r := Replace(bs, k, SplitBlocks(bs[k], size));
    assert r[k].addr == bs[k].addr && r[k + 1].addr == bs[k].addr + HDR + size;
  }

  /** Rewriting the flag in header k leaves all header ranges where they are. */
  lemma MarkedHeaders(bs: seq<Block>, r0: seq<bv8>, r1: seq<bv8>, r2: seq<bv8>, k: nat)
    requires k < |bs| && (r0 == r1 || OnlyHeaders(r0, r1, bs)) && OnlyHeaderAt(r1, r2, bs[k].addr)
    ensures OnlyHeaders(r0, r2, bs[k := bs[k].(free := false)])
  {
    var bs' := bs[k := bs[k].(free := false)];
    forall x | 0 <= x < |r0| && r0[x] != r2[x] ensures InHeader(bs', x) {
      if r1[x] != r2[x] {
        assert bs'[k].addr <= x < bs'[k].addr + HDR;
      } else {
        var i :| 0 <= i < |bs| && bs[i].addr <= x < bs[i].addr + HDR;
        assert bs'[i].addr == bs[i].addr;
      }
    }
  }
}
