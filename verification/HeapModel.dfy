/** The first-fit heap of malloc.c as a value: the list of block headers in list
    order, and the page pool it grows from. Heap.dfy ties the program to it. */
module HeapModel {
  import opened PagePool

  const HDR: nat := 24
  const NULL: nat := 0

  datatype Block = Block(addr: nat, size: nat, free: bool) {
    function End(): nat { addr + HDR + size }
    function Payload(): nat { addr + HDR }
    predicate Holds(x: int) { addr <= x < End() }
  }

  datatype State = State(blocks: seq<Block>, pool: seq<nat>)

  /** Rounds a request up to a multiple of 16. */
  function Round16(n: nat): (r: nat)
    ensures n <= r < n + 16 && r % 16 == 0
  {
    (n + 15) / 16 * 16
  }

  function PagesFor(size: nat): (n: nat)
    ensures n > 0 && n * PAGE >= size + HDR
    ensures (n - 1) * PAGE < size + HDR
  {
    (size + HDR + PAGE - 1) / PAGE
  }

  // ---------------------------------------------------------------------
  // The operations
  // ---------------------------------------------------------------------

  predicate Serves(b: Block, size: nat) { b.free && b.size >= size }

  /** Index of the first free block large enough, or |bs|. */
  function FirstFit(bs: seq<Block>, size: nat): (k: nat)
    ensures k <= |bs|
    ensures k < |bs| ==> Serves(bs[k], size)
    ensures forall i :: 0 <= i < k ==> !Serves(bs[i], size)
  {
    if bs == [] then 0 else if Serves(bs[0], size) then 0 else 1 + FirstFit(bs[1..], size)
  }

  /** What block b becomes when it serves a request: itself, split when the rest can hold a header and 16 bytes. */
  function Carve(b: Block, size: nat): seq<Block>
    requires b.size >= size
  {
    if b.size >= size + HDR + 16
    then [Block(b.addr, size, false), Block(b.addr + HDR + size, b.size - size - HDR, true)]
    else [b.(free := false)]
  }

  function Replace(bs: seq<Block>, k: nat, parts: seq<Block>): seq<Block>
    requires k < |bs|
  {
    bs[..k] + parts + bs[k + 1..]
  }

  function Extent(page: nat, size: nat): Block { Block(page, PagesFor(size) * PAGE - HDR, false) }

  function Append(s: State, page: nat, rest: seq<nat>, size: nat): (State, nat) {
    if page == 0 then (State(s.blocks, rest), NULL)
    else (State(s.blocks + [Extent(page, size)], rest), page + HDR)
  }

  /** Takes whole pages from the pool and puts one unsplit block made of them at the end of the list. */
  function Grow(s: State, size: nat): (State, nat) {
    Append(s, Take(s.pool, PagesFor(size)).0, Take(s.pool, PagesFor(size)).1, size)
  }

  /** The first free block that is large enough, else a new extent. */
  function Place(s: State, size: nat): (State, nat) {
    var k := FirstFit(s.blocks, size);
    if k < |s.blocks|
    then (State(Replace(s.blocks, k, Carve(s.blocks[k], size)), s.pool), s.blocks[k].Payload())
    else Grow(s, size)
  }

  function Malloc(s: State, request: nat): (State, nat) {
    if request == 0 then (s, NULL) else Place(s, Round16(request))
  }

  function Join(a: Block, b: Block): Block { a.(size := a.size + HDR + b.size) }

  /** The left-to-right pass that joins free list neighbours. */
  function Coalesce(bs: seq<Block>): (r: seq<Block>)
    ensures |r| <= |bs|
    ensures bs != [] ==> r != [] && r[0].addr == bs[0].addr && r[0].free == bs[0].free
    decreases |bs|
  {
    if |bs| < 2 then bs
    else if bs[0].free && bs[1].free then Coalesce([Join(bs[0], bs[1])] + bs[2..])
    else [bs[0]] + Coalesce(bs[1..])
  }

  function Release(bs: seq<Block>, k: nat): seq<Block>
    requires k < |bs|
  {
    bs[k := bs[k].(free := true)]
  }

  /** Index of the block whose header is at addr, or |bs|. */
  function IndexOf(bs: seq<Block>, addr: int): (k: nat)
    ensures k <= |bs|
    ensures k < |bs| ==> bs[k].addr == addr
    ensures forall i :: 0 <= i < k ==> bs[i].addr != addr
  {
    if bs == [] then 0 else if bs[0].addr == addr then 0 else 1 + IndexOf(bs[1..], addr)
  }

  /** ptr is NULL or the payload of an allocated block. */
  predicate Owned(s: State, ptr: nat) {
    ptr != NULL ==>
      var k := IndexOf(s.blocks, ptr - HDR);
      k < |s.blocks| && !s.blocks[k].free
  }

  function Free(s: State, ptr: nat): State
    requires Owned(s, ptr)
  {
    if ptr == NULL then s
    else State(Coalesce(Release(s.blocks, IndexOf(s.blocks, ptr - HDR))), s.pool)
  }

  function SizeAt(s: State, ptr: nat): nat
    requires ptr != NULL && Owned(s, ptr)
  {
    s.blocks[IndexOf(s.blocks, ptr - HDR)].size
  }

  function Realloc(s: State, ptr: nat, size: nat): (State, nat)
    requires Owned(s, ptr)
  {
    if ptr == NULL then Malloc(s, size)
    else if size == 0 then (Free(s, ptr), NULL)
    else if SizeAt(s, ptr) >= size then (s, ptr)
    else
      var (s', p) := Malloc(s, size);
      if p == NULL then (s', NULL)
      else
        // while headers stay apart ptr's block is still there (HeapPointers.ReallocServes)
        (if Owned(s', ptr) then Free(s', ptr) else s', p)
  }

  // ---------------------------------------------------------------------
  // Bytes are conserved
  // ---------------------------------------------------------------------

  function BlockBytes(bs: seq<Block>): nat {
    if bs == [] then 0 else bs[0].size + HDR + BlockBytes(bs[1..])
  }

  function Bytes(s: State): nat { BlockBytes(s.blocks) + |s.pool| * PAGE }

  lemma {:induction false} BlockBytesConcat(a: seq<Block>, b: seq<Block>)
    ensures BlockBytes(a + b) == BlockBytes(a) + BlockBytes(b)
  {
    if a == [] { assert a + b == b; }
    else {
      assert (a + b)[1..] == a[1..] + b;
      BlockBytesConcat(a[1..], b);
    }
  }

  lemma ReplaceBytes(bs: seq<Block>, k: nat, parts: seq<Block>)
    requires k < |bs|
    ensures BlockBytes(Replace(bs, k, parts)) == BlockBytes(bs) - bs[k].size - HDR + BlockBytes(parts)
  {
    BlockBytesConcat(bs[..k], parts);
    BlockBytesConcat(bs[..k] + parts, bs[k + 1..]);
    assert bs == bs[..k] + ([bs[k]] + bs[k + 1..]);
    BlockBytesConcat(bs[..k], [bs[k]] + bs[k + 1..]);
  }

  lemma CarveBytes(b: Block, size: nat)
    requires b.size >= size
    ensures BlockBytes(Carve(b, size)) == b.size + HDR
  {
    var c := Carve(b, size);
    if |c| == 2 { assert c[1..] == [c[1]] && BlockBytes([c[1]]) == c[1].size + HDR; } else { assert c[1..] == []; }
  }

  lemma {:induction false} CoalesceBytes(bs: seq<Block>)
    ensures BlockBytes(Coalesce(bs)) == BlockBytes(bs)
    decreases |bs|
  {
    if |bs| >= 2 {
      if bs[0].free && bs[1].free {
        var joined := [Join(bs[0], bs[1])] + bs[2..];
        assert joined[1..] == bs[1..][1..] == bs[2..];
        CoalesceBytes(joined);
      } else {
        CoalesceBytes(bs[1..]);
      }
    }
  }

  /** The pool never offers page 0, so that NULL always means failure. */
  predicate NoNullPage(s: State) { forall i :: 0 <= i < |s.pool| ==> s.pool[i] > 0 }

  lemma MallocConserves(s: State, request: nat)
    requires NoNullPage(s)
    ensures NoNullPage(Malloc(s, request).0) && Bytes(Malloc(s, request).0) == Bytes(s)
  {
    var size := Round16(request);
    var k := FirstFit(s.blocks, size);
    if k < |s.blocks| {
      ReplaceBytes(s.blocks, k, Carve(s.blocks[k], size));
      CarveBytes(s.blocks[k], size);
    } else if request != 0 {
      TakeCount(s.pool, PagesFor(size));
      BlockBytesConcat(s.blocks, [Extent(Take(s.pool, PagesFor(size)).0, size)]);
    }
  }

  lemma TakeCount(pool: seq<nat>, n: nat)
    requires forall i :: 0 <= i < |pool| ==> pool[i] > 0
    ensures var (a, rest) := Take(pool, n);
      && |rest| == (if a == 0 then |pool| else |pool| - n)
      && forall i :: 0 <= i < |rest| ==> rest[i] > 0
  {
  }

  lemma FreeConserves(s: State, ptr: nat)
    requires NoNullPage(s) && Owned(s, ptr)
    ensures NoNullPage(Free(s, ptr)) && Bytes(Free(s, ptr)) == Bytes(s)
  {
    if ptr != NULL {
      var k := IndexOf(s.blocks, ptr - HDR);
      var b := s.blocks[k].(free := true);
      assert Release(s.blocks, k) == Replace(s.blocks, k, [b]);
      ReplaceBytes(s.blocks, k, [b]);
      CoalesceBytes(Release(s.blocks, k));
    }
  }

  // ---------------------------------------------------------------------
  // Histories
  // ---------------------------------------------------------------------

  datatype Op = DoMalloc(size: nat) | DoFree(ptr: nat) | DoRealloc(ptr: nat, size: nat)

  /** The caller frees or resizes only NULL and pointers it owns. */
  predicate Legal(s: State, op: Op) {
    match op
    case DoMalloc(_) => true
    case DoFree(p) => Owned(s, p)
    case DoRealloc(p, _) => Owned(s, p)
  }

  function Step(s: State, op: Op): State
    requires Legal(s, op)
  {
    match op
    case DoMalloc(n) => Malloc(s, n).0
    case DoFree(p) => Free(s, p)
    case DoRealloc(p, n) => Realloc(s, p, n).0
  }

  predicate LegalRun(s: State, ops: seq<Op>)
    decreases |ops|
  {
    ops == [] || (Legal(s, ops[0]) && LegalRun(Step(s, ops[0]), ops[1..]))
  }

  function Run(s: State, ops: seq<Op>): State
    requires LegalRun(s, ops)
    decreases |ops|
  {
    if ops == [] then s else Run(Step(s, ops[0]), ops[1..])
  }

  lemma StepConserves(s: State, op: Op)
    requires NoNullPage(s) && Legal(s, op)
    ensures NoNullPage(Step(s, op)) && Bytes(Step(s, op)) == Bytes(s)
  {
    match op
    case DoMalloc(n) => MallocConserves(s, n);
    case DoFree(p) => FreeConserves(s, p);
    case DoRealloc(p, n) =>
      MallocConserves(s, n);
      if p != NULL {
        FreeConserves(s, p);
        var s' := Malloc(s, n).0;
        if Owned(s', p) { FreeConserves(s', p); }
      }
  }

  /** Of the list as a value: its header and payload bytes and the bytes of the free pages never change in
      sum. HeapHeaders says for which histories the list is what memory holds. */
  lemma {:induction false} RunConserves(s: State, ops: seq<Op>)
    requires NoNullPage(s) && LegalRun(s, ops)
    ensures NoNullPage(Run(s, ops)) && Bytes(Run(s, ops)) == Bytes(s)
    decreases |ops|
  {
    if ops != [] {
      StepConserves(s, ops[0]);
      RunConserves(Step(s, ops[0]), ops[1..]);
    }
  }

  // ---------------------------------------------------------------------
  // No two list neighbours are both free
  // ---------------------------------------------------------------------

  predicate Coalesced(bs: seq<Block>) {
    forall i :: 0 < i < |bs| ==> !(bs[i - 1].free && bs[i].free)
  }

  /** One pass coalesces fully, from any list. */
  lemma {:induction false} CoalesceIsComplete(bs: seq<Block>)
    ensures Coalesced(Coalesce(bs))
    decreases |bs|
  {
    if |bs| >= 2 {
      if bs[0].free && bs[1].free {
        CoalesceIsComplete([Join(bs[0], bs[1])] + bs[2..]);
      } else {
        CoalesceIsComplete(bs[1..]);
      }
    }
  }

  lemma MallocKeepsCoalesced(s: State, request: nat)
    requires Coalesced(s.blocks)
    ensures Coalesced(Malloc(s, request).0.blocks)
  {
    var size := Round16(request);
    var k := FirstFit(s.blocks, size);
    if request != 0 && k < |s.blocks| { CarveKeepsCoalesced(s.blocks, k, size); }
  }

  lemma CarveKeepsCoalesced(bs: seq<Block>, k: nat, size: nat)
    requires Coalesced(bs) && k < |bs| && Serves(bs[k], size)
    ensures Coalesced(Replace(bs, k, Carve(bs[k], size)))
  {
    var parts := Carve(bs[k], size);
    var r := Replace(bs, k, parts);
    assert forall i :: 0 <= i < |r| ==>
      r[i] == (if i < k then bs[i] else if i < k + |parts| then parts[i - k] else bs[i - |parts| + 1]);
  }

  /** Of the list as a value, like RunConserves. */
  lemma {:induction false} RunKeepsCoalesced(s: State, ops: seq<Op>)
    requires Coalesced(s.blocks) && LegalRun(s, ops)
    ensures Coalesced(Run(s, ops).blocks)
    decreases |ops|
  {
    if ops != [] {
      StepKeepsCoalesced(s, ops[0]);
      RunKeepsCoalesced(Step(s, ops[0]), ops[1..]);
    }
  }

  lemma FreeKeepsCoalesced(s: State, ptr: nat)
    requires Coalesced(s.blocks) && Owned(s, ptr)
    ensures Coalesced(Free(s, ptr).blocks)
  {
    if ptr != NULL { CoalesceIsComplete(Release(s.blocks, IndexOf(s.blocks, ptr - HDR))); }
  }

  lemma StepKeepsCoalesced(s: State, op: Op)
    requires Coalesced(s.blocks) && Legal(s, op)
    ensures Coalesced(Step(s, op).blocks)
  {
    match op
    case DoMalloc(n) => MallocKeepsCoalesced(s, n);
    case DoFree(p) => FreeKeepsCoalesced(s, p);
    case DoRealloc(p, n) =>
      MallocKeepsCoalesced(s, n);
      FreeKeepsCoalesced(s, p);
      var s' := Malloc(s, n).0;
      if Owned(s', p) { FreeKeepsCoalesced(s', p); }
  }
}
