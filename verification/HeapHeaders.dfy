/** Headers live in the memory they describe. When no header shares a byte with another header or with
    memory that is given out, lists of blocks are what memory holds; this says exactly when that stays so. */
module HeapHeaders {
  import opened PagePool
  import opened HeapModel
  import opened HeapTiling

  /** The bytes of a block that someone writes: its header and, while it is allocated, its payload. */
  function Used(b: Block): nat { if b.free then HDR else HDR + b.size }

  /** The header of a is clear of the used bytes of b. */
  predicate Clear(a: Block, b: Block) { a.addr + HDR <= b.addr || b.addr + Used(b) <= a.addr }

  predicate Apart(a: Block, b: Block) { Clear(a, b) && Clear(b, a) }

  /** No header shares a byte with another header or with an allocated payload. */
  predicate Separate(bs: seq<Block>) {
    forall i, j :: 0 <= i < j < |bs| ==> Apart(bs[i], bs[j])
  }

  /** Then used bytes are disjoint, allocated payloads included. */
  lemma UsedDisjoint(bs: seq<Block>, i: nat, j: nat)
    requires Separate(bs) && i < |bs| && j < |bs| && i != j
    ensures bs[i].addr + Used(bs[i]) <= bs[j].addr || bs[j].addr + Used(bs[j]) <= bs[i].addr
  {
    assert Apart(bs[if i < j then i else j], bs[if i < j then j else i]);
  }

  /** And a header address names one block. */
  lemma IndexInSeparate(bs: seq<Block>, i: nat)
    requires Separate(bs) && i < |bs|
    ensures IndexOf(bs, bs[i].addr) == i
  {
    var k := IndexOf(bs, bs[i].addr);
    if k < i { UsedDisjoint(bs, k, i); }
  }

  lemma TiledIsSeparate(s: State, all: set<nat>)
    requires Inv(s, all)
    ensures Separate(s.blocks)
  {
    forall i, j | 0 <= i < j < |s.blocks| ensures Apart(s.blocks[i], s.blocks[j]) {
      BlocksDisjoint(s.blocks, Taken(s, all), i, j);
    }
  }

  // ---------------------------------------------------------------------
  // malloc
  // ---------------------------------------------------------------------

  /** b is apart from every block of bs but the one at index k. */
  predicate ApartFromAll(bs: seq<Block>, k: nat, b: Block) {
    forall i :: 0 <= i < |bs| && i != k ==> Apart(bs[i], b)
  }

  /** What serving size bytes would make of the first block that serves, or the extent it would add, is apart
      from every other block. A test on the list and the pool before the call. */
  predicate PlaceClear(s: State, size: nat) {
    var k := FirstFit(s.blocks, size);
    var page := Take(s.pool, PagesFor(size)).0;
    if k < |s.blocks| then PartsClear(s.blocks, k, Carve(s.blocks[k], size))
    else page == NULL || ApartFromAll(s.blocks, k, Extent(page, size))
  }

  predicate PartsClear(bs: seq<Block>, k: nat, parts: seq<Block>) {
    forall b :: b in parts ==> ApartFromAll(bs, k, b)
  }

  predicate MallocClear(s: State, request: nat) { request == 0 || PlaceClear(s, Round16(request)) }

  lemma CarvedAt(bs: seq<Block>, k: nat, parts: seq<Block>)
    requires k < |bs| && 1 <= |parts| <= 2
    ensures var r := Replace(bs, k, parts);
      |r| == |bs| + |parts| - 1 && r[k] == parts[0] && (|parts| == 2 ==> r[k + 1] == parts[1])
    ensures forall i :: 0 <= i < |bs| && i != k ==>
      bs[i] == Replace(bs, k, parts)[if i < k then i else i + |parts| - 1]
  {
  }

  /** Replacing one block of a separate list by parts that are apart. */
  lemma ReplaceSeparateIff(bs: seq<Block>, k: nat, parts: seq<Block>)
    requires Separate(bs) && k < |bs| && 1 <= |parts| <= 2 && (|parts| == 2 ==> Apart(parts[0], parts[1]))
    ensures Separate(Replace(bs, k, parts)) <==> PartsClear(bs, k, parts)
  {
    var r := Replace(bs, k, parts);
    CarvedAt(bs, k, parts);
    if PartsClear(bs, k, parts) { ReplaceSeparate(bs, k, parts); }
    if Separate(r) {
      forall p, i | 0 <= p < |parts| && 0 <= i < |bs| && i != k ensures Apart(bs[i], parts[p]) {
        var j := if i < k then i else i + |parts| - 1;
        assert r[j] == bs[i] && r[k + p] == parts[p];
        assert Apart(r[if j < k then j else k + p], r[if j < k then k + p else j]);
      }
    }
  }

  lemma ReplaceSeparate(bs: seq<Block>, k: nat, parts: seq<Block>)
    requires Separate(bs) && k < |bs| && 1 <= |parts| <= 2 && (|parts| == 2 ==> Apart(parts[0], parts[1]))
    requires PartsClear(bs, k, parts)
    ensures Separate(Replace(bs, k, parts))
  {
    var r := Replace(bs, k, parts);
    forall i, j | 0 <= i < j < |r| ensures Apart(r[i], r[j]) {
      var from, to := i - |parts| + 1, j - |parts| + 1;
      if j < k { assert r[i] == bs[i] && r[j] == bs[j]; }
      else if i >= k + |parts| { assert r[i] == bs[from] && r[j] == bs[to]; }
      else if i < k && j >= k + |parts| { assert r[i] == bs[i] && r[j] == bs[to]; }
      else if i < k { assert r[i] == bs[i] && r[j] == parts[j - k] && ApartFromAll(bs, k, parts[j - k]); }
      else if j >= k + |parts| { assert r[i] == parts[i - k] && r[j] == bs[to] && ApartFromAll(bs, k, parts[i - k]); }
      else { assert r[i] == parts[0] && r[j] == parts[1]; }
    }
  }

  lemma CarvedApart(b: Block, size: nat)
    requires b.size >= size
    ensures var c := Carve(b, size); 1 <= |c| <= 2 && (|c| == 2 ==> Apart(c[0], c[1]))
  {
  }

  /** malloc keeps headers and given memory apart exactly when the test before the call says so. */
  lemma MallocSeparateIff(s: State, request: nat)
    requires Separate(s.blocks)
    ensures Separate(Malloc(s, request).0.blocks) <==> MallocClear(s, request)
  {
    var size := Round16(request);
    var k := FirstFit(s.blocks, size);
    if request != 0 {
      if k < |s.blocks| {
        CarvedApart(s.blocks[k], size);
        ReplaceSeparateIff(s.blocks, k, Carve(s.blocks[k], size));
      } else if Take(s.pool, PagesFor(size)).0 != NULL {
        AppendSeparateIff(s.blocks, Extent(Take(s.pool, PagesFor(size)).0, size));
      }
    }
  }

  lemma AppendSeparateIff(bs: seq<Block>, b: Block)
    requires Separate(bs)
    ensures Separate(bs + [b]) <==> ApartFromAll(bs, |bs|, b)
  {
    var r := bs + [b];
    if Separate(r) {
      forall i | 0 <= i < |bs| ensures Apart(bs[i], b) { assert Apart(r[i], r[|bs|]); }
    }
  }

  /** Where blocks tile their pages nothing else needs testing. */
  lemma TiledIsClear(s: State, all: set<nat>, request: nat)
    requires Inv(s, all)
    ensures MallocClear(s, request)
  {
    TiledIsSeparate(s, all);
    MallocKeepsInv(s, all, request);
    TiledIsSeparate(Malloc(s, request).0, all);
    MallocSeparateIff(s, request);
  }

  // ---------------------------------------------------------------------
  // free
  // ---------------------------------------------------------------------

  lemma {:induction false} CoalesceApart(bs: seq<Block>, b: Block)
    requires ApartFromAll(bs, |bs|, b)
    ensures ApartFromAll(Coalesce(bs), |Coalesce(bs)|, b)
    decreases |bs|
  {
    if |bs| >= 2 {
      if bs[0].free && bs[1].free {
        CoalesceApart([Join(bs[0], bs[1])] + bs[2..], b);
      } else {
        CoalesceApart(bs[1..], b);
      }
    }
  }

  /** A free, wherever the blocks it joins lie, takes no byte into use. */
  lemma {:induction false} CoalesceSeparate(bs: seq<Block>)
    requires Separate(bs)
    ensures Separate(Coalesce(bs))
    decreases |bs|
  {
    if |bs| >= 2 {
      if bs[0].free && bs[1].free {
        CoalesceSeparate([Join(bs[0], bs[1])] + bs[2..]);
      } else {
        CoalesceSeparate(bs[1..]);
        HeadApart(bs);
        CoalesceApart(bs[1..], bs[0]);
      }
    }
  }

  lemma HeadApart(bs: seq<Block>)
    requires Separate(bs) && bs != []
    ensures ApartFromAll(bs[1..], |bs[1..]|, bs[0])
  {
    forall i | 0 <= i < |bs[1..]| ensures Apart(bs[1..][i], bs[0]) { assert Apart(bs[0], bs[i + 1]); }
  }

  lemma FreeKeepsSeparate(s: State, ptr: nat)
    requires Separate(s.blocks) && Owned(s, ptr)
    ensures Separate(Free(s, ptr).blocks)
  {
    if ptr != NULL {
      var k := IndexOf(s.blocks, ptr - HDR);
      assert Separate(Release(s.blocks, k)) by { ReleaseSeparate(s.blocks, k); }
      CoalesceSeparate(Release(s.blocks, k));
    }
  }

  lemma ReleaseSeparate(bs: seq<Block>, k: nat)
    requires Separate(bs) && k < |bs|
    ensures Separate(Release(bs, k))
  {
    forall i, j | 0 <= i < j < |bs| ensures Apart(Release(bs, k)[i], Release(bs, k)[j]) { assert Apart(bs[i], bs[j]); }
  }

  // ---------------------------------------------------------------------
  // Histories
  // ---------------------------------------------------------------------

  /** realloc of an owned pointer that must move its block. */
  predicate Moves(s: State, ptr: nat, size: nat)
    requires Owned(s, ptr)
  {
    ptr != NULL && size != 0 && SizeAt(s, ptr) < size
  }

  /** The test of an operation: that of the malloc it makes, if any. */
  predicate OpClear(s: State, op: Op)
    requires Legal(s, op)
  {
    match op
    case DoMalloc(n) => MallocClear(s, n)
    case DoFree(_) => true
    case DoRealloc(p, n) => p == NULL || Moves(s, p, n) ==> MallocClear(s, n)
  }

  /** The list the operation leaves is separate, and so is the one between realloc's malloc and its free. */
  predicate LeavesSeparate(s: State, op: Op)
    requires Legal(s, op)
  {
    Separate(Step(s, op).blocks) && (op.DoRealloc? && Moves(s, op.ptr, op.size) ==> Separate(Malloc(s, op.size).0.blocks))
  }

  lemma StepSeparateIff(s: State, op: Op)
    requires Separate(s.blocks) && Legal(s, op)
    ensures LeavesSeparate(s, op) <==> OpClear(s, op)
  {
    match op
    case DoMalloc(n) => MallocSeparateIff(s, n);
    case DoFree(p) => FreeKeepsSeparate(s, p);
    case DoRealloc(p, n) =>
      MallocSeparateIff(s, n);
      FreeKeepsSeparate(s, p);
      var s' := Malloc(s, n).0;
      if MallocClear(s, n) && Owned(s', p) { FreeKeepsSeparate(s', p); }
  }

  predicate ClearRun(s: State, ops: seq<Op>)
    requires LegalRun(s, ops)
    decreases |ops|
  {
    ops == [] || (OpClear(s, ops[0]) && ClearRun(Step(s, ops[0]), ops[1..]))
  }

  predicate SeparateThroughout(s: State, ops: seq<Op>)
    requires LegalRun(s, ops)
    decreases |ops|
  {
    Separate(s.blocks) && (ops != [] ==> LeavesSeparate(s, ops[0]) && SeparateThroughout(Step(s, ops[0]), ops[1..]))
  }

  /** Over every legal history: no header is ever written over another header or into given memory, nor memory
      given out that holds a header, if and only if each malloc passes its test. */
  lemma {:induction false} HistorySeparateIff(s: State, ops: seq<Op>)
    requires Separate(s.blocks) && LegalRun(s, ops)
    ensures SeparateThroughout(s, ops) <==> ClearRun(s, ops)
    decreases |ops|
  {
    if ops != [] {
      StepSeparateIff(s, ops[0]);
      if OpClear(s, ops[0]) { HistorySeparateIff(Step(s, ops[0]), ops[1..]); }
    }
  }

  /** What such a history keeps: every byte is in a block or a free page, and no two list neighbours are free. */
  lemma {:induction false} HistoryConserves(s: State, ops: seq<Op>)
    requires Separate(s.blocks) && Coalesced(s.blocks) && NoNullPage(s)
    requires LegalRun(s, ops) && ClearRun(s, ops)
    ensures Bytes(Run(s, ops)) == Bytes(s) && Coalesced(Run(s, ops).blocks) && Separate(Run(s, ops).blocks)
    decreases |ops|
  {
    RunConserves(s, ops);
    RunKeepsCoalesced(s, ops);
    if ops != [] {
      StepSeparateIff(s, ops[0]);
      StepConserves(s, ops[0]);
      StepKeepsCoalesced(s, ops[0]);
      HistoryConserves(Step(s, ops[0]), ops[1..]);
    }
  }

  lemma GuardedIsClear(s: State, all: set<nat>, op: Op)
    requires Inv(s, all) && Legal(s, op)
    ensures OpClear(s, op)
  {
    match op
    case DoMalloc(n) => TiledIsClear(s, all, n);
    case DoFree(_) =>
    case DoRealloc(_, n) => TiledIsClear(s, all, n);
  }

  /** In particular this is so whenever every free joins blocks that lie end to end. */
  lemma {:induction false} GuardedRunIsClear(s: State, all: set<nat>, ops: seq<Op>)
    requires Inv(s, all) && LegalRun(s, ops) && GuardedRun(s, ops)
    ensures ClearRun(s, ops)
    decreases |ops|
  {
    if ops != [] {
      GuardedIsClear(s, all, ops[0]);
      StepInvIff(s, all, ops[0]);
      GuardedRunIsClear(Step(s, ops[0]), all, ops[1..]);
    }
  }
}
