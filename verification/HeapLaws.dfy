/** What a caller can predict of malloc and free from the list of blocks: which block serves, what becomes of it,
    when the pool is asked, and when a freed block is the next one given out. */
module HeapLaws {
  import opened PagePool
  import opened HeapModel
  import opened HeapTiling
  import opened HeapHeaders

  /** Block k is the first free block of at least the rounded request. */
  predicate FirstLargeEnough(bs: seq<Block>, k: nat, request: nat) {
    && k < |bs| && bs[k].free && bs[k].size >= Round16(request)
    && forall i :: 0 <= i < k ==> !(bs[i].free && bs[i].size >= Round16(request))
  }

  lemma FirstFitMeans(bs: seq<Block>, k: nat, request: nat)
    requires FirstLargeEnough(bs, k, request)
    ensures FirstFit(bs, Round16(request)) == k
  {
  }

  /** malloc returns the payload of the first free block of at least the rounded request and leaves the pool alone;
      with 40 bytes or more to spare the block is cut, and a free block of what remains stands behind it. */
  lemma MallocReuses(s: State, request: nat, k: nat)
    requires request > 0 && FirstLargeEnough(s.blocks, k, request)
    ensures var b, size := s.blocks[k], Round16(request);
      var parts := if b.size >= size + 40
                   then [Block(b.addr, size, false), Block(b.addr + 24 + size, b.size - size - 24, true)]
                   else [Block(b.addr, b.size, false)];
      Malloc(s, request) == (State(s.blocks[..k] + parts + s.blocks[k + 1..], s.pool), b.addr + 24)
  {
    FirstFitMeans(s.blocks, k, request);
  }

  /** Without such a block it fails, or takes pages and puts one block of all their bytes behind the list. */
  lemma MallocExtends(s: State, request: nat)
    requires NoNullPage(s) && request > 0
    requires forall i :: 0 <= i < |s.blocks| && s.blocks[i].free ==> s.blocks[i].size < Round16(request)
    ensures var (s', p) := Malloc(s, request);
      if p == NULL then s' == s
      else exists n: nat :: |s'.pool| + n == |s.pool| && n > 0 && s'.blocks == s.blocks + [Block(p - 24, n * 0x20_0000 - 24, false)]
  {
    var size := Round16(request);
    TakeCount(s.pool, PagesFor(size));
    var page := Take(s.pool, PagesFor(size)).0;
    if page == NULL {
      assert Take(s.pool, PagesFor(size)).1 == s.pool;
    } else {
      assert |Malloc(s, request).0.pool| + PagesFor(size) == |s.pool|;
    }
  }

  /** A successful malloc leaves the pool alone exactly when some free block is large enough. */
  lemma PoolUntouchedIff(s: State, request: nat)
    requires NoNullPage(s) && Malloc(s, request).1 != NULL
    ensures Malloc(s, request).0.pool == s.pool <==> exists b :: b in s.blocks && b.free && b.size >= Round16(request)
  {
    if b :| b in s.blocks && b.free && b.size >= Round16(request) {
      var i :| 0 <= i < |s.blocks| && s.blocks[i] == b;
      var k := FirstFit(s.blocks, Round16(request));
      assert k < |s.blocks|;
    } else {
      MallocExtends(s, request);
    }
  }

  /** The edges: malloc of nothing, realloc of NULL, realloc to nothing. */
  lemma Edges(s: State, ptr: nat, size: nat)
    requires Owned(s, ptr)
    ensures Malloc(s, 0) == (s, NULL) && Free(s, NULL) == s
    ensures ptr == NULL ==> Realloc(s, ptr, size) == Malloc(s, size)
    ensures ptr != NULL ==> Realloc(s, ptr, 0) == (Free(s, ptr), NULL)
  {
  }

  // ---------------------------------------------------------------------
  // free and malloc again
  // ---------------------------------------------------------------------

  /** Block k is allocated and none of its list neighbours is free. */
  predicate Alone(bs: seq<Block>, k: nat) {
    k < |bs| && !bs[k].free && (k > 0 ==> !bs[k - 1].free) && (k + 1 < |bs| ==> !bs[k + 1].free)
  }

  /** Freeing such a block marks it free and changes nothing else. */
  lemma FreedAlone(s: State, k: nat)
    requires Separate(s.blocks) && Coalesced(s.blocks) && Alone(s.blocks, k)
    ensures Owned(s, s.blocks[k].addr + 24)
    ensures Free(s, s.blocks[k].addr + 24) == State(s.blocks[k := Block(s.blocks[k].addr, s.blocks[k].size, true)], s.pool)
  {
    IndexInSeparate(s.blocks, k);
    var r := Release(s.blocks, k);
    forall i | 0 < i < |r| ensures !(r[i - 1].free && r[i].free) {}
    CoalesceFixed(r);
  }

  /** After free(p) a malloc that fits returns p again unless an earlier block is large enough; while it keeps headers
      apart, it returns p in no other case. */
  lemma FreedBlockIsReused(s: State, k: nat, request: nat)
    requires Separate(s.blocks) && Coalesced(s.blocks) && Alone(s.blocks, k) && request > 0
    ensures var p := s.blocks[k].addr + 24;
      var reused := Malloc(Free(s, p), request).1 == p;
      var first := s.blocks[k].size >= Round16(request)
                   && forall i :: 0 <= i < k ==> !(s.blocks[i].free && s.blocks[i].size >= Round16(request));
      && Owned(s, p)
      && (first ==> reused)
      && (reused && MallocClear(Free(s, p), request) ==> first)
  {
    var p := s.blocks[k].addr + 24;
    FreedAlone(s, k);
    FreeKeepsSeparate(s, p);
    FreedFirst(s.blocks, Free(s, p).blocks, k, request);
    OnlyFirstServes(Free(s, p), k, request);
  }

  lemma FreedFirst(bs: seq<Block>, freed: seq<Block>, k: nat, request: nat)
    requires k < |bs| && freed == bs[k := Block(bs[k].addr, bs[k].size, true)]
    ensures FirstLargeEnough(freed, k, request) <==>
      bs[k].size >= Round16(request) && forall i :: 0 <= i < k ==> !(bs[i].free && bs[i].size >= Round16(request))
  {
    assert freed[k] == Block(bs[k].addr, bs[k].size, true);
    assert forall i :: 0 <= i < k ==> freed[i] == bs[i];
  }

  lemma OnlyFirstServes(s: State, k: nat, request: nat)
    requires Separate(s.blocks) && k < |s.blocks| && request > 0
    ensures FirstLargeEnough(s.blocks, k, request) ==> Malloc(s, request).1 == s.blocks[k].addr + 24
    ensures Malloc(s, request).1 == s.blocks[k].addr + 24 && MallocClear(s, request) ==> FirstLargeEnough(s.blocks, k, request)
  {
    if FirstLargeEnough(s.blocks, k, request) {
      FirstFitMeans(s.blocks, k, request);
    } else if MallocClear(s, request) {
      OtherBlockServes(s, k, request);
    }
  }

  lemma OtherBlockServes(s: State, k: nat, request: nat)
    requires Separate(s.blocks) && k < |s.blocks| && request > 0 && MallocClear(s, request)
    requires FirstFit(s.blocks, Round16(request)) != k
    ensures Malloc(s, request).1 != s.blocks[k].addr + 24
  {
    var j, page := FirstFit(s.blocks, Round16(request)), Take(s.pool, PagesFor(Round16(request))).0;
    if j < |s.blocks| {
      IndexInSeparate(s.blocks, j);
      IndexInSeparate(s.blocks, k);
    } else if page != NULL {
      assert Apart(s.blocks[k], Extent(page, Round16(request)));
    }
  }
}
