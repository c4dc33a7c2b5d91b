/** The heap beside the other users of the page pool: between heap operations page tables and the shell take
    pages and give them back. The exact results over histories hold with these in between. */
module HeapShared {
  import opened PagePool
  import opened PoolOrder
  import opened HeapModel
  import opened HeapTiling
  import opened HeapHeaders
  import opened HeapPointers

  /** An operation of the heap, or what another user does to the pool. */
  datatype Act = ByHeap(op: Op) | TakePages(n: nat) | GivePage(page: nat)

  /** Others give back only pages that are neither the heap's nor in the pool. */
  predicate LegalAct(s: State, all: set<nat>, a: Act) {
    match a
    case ByHeap(op) => Legal(s, op)
    case TakePages(_) => true
    case GivePage(page) => page != 0 && page !in all
  }

  function Do(s: State, a: Act): State
    requires a.ByHeap? ==> Legal(s, a.op)
  {
    match a
    case ByHeap(op) => Step(s, op)
    case TakePages(n) => State(s.blocks, Take(s.pool, n).1)
    case GivePage(page) => State(s.blocks, Push(s.pool, page))
  }

  /** The pages that are the heap's or in the pool. */
  function Shared(s: State, all: set<nat>, a: Act): set<nat> {
    match a
    case ByHeap(_) => all
    case TakePages(n) => all - (set p | p in s.pool && p !in Take(s.pool, n).1)
    case GivePage(page) => if page in Push(s.pool, page) then all + {page} else all
  }

  predicate LegalActs(s: State, all: set<nat>, acts: seq<Act>)
    decreases |acts|
  {
    acts == [] || (LegalAct(s, all, acts[0]) && LegalActs(Do(s, acts[0]), Shared(s, all, acts[0]), acts[1..]))
  }

  function DoAll(s: State, all: set<nat>, acts: seq<Act>): State
    requires LegalActs(s, all, acts)
    decreases |acts|
  {
    if acts == [] then s else DoAll(Do(s, acts[0]), Shared(s, all, acts[0]), acts[1..])
  }

  // ---------------------------------------------------------------------
  // Tiling
  // ---------------------------------------------------------------------

  /** What another user takes leaves the heap's pages as they are. */
  lemma TakeKeepsInv(s: State, all: set<nat>, n: nat)
    requires Inv(s, all)
    ensures Inv(Do(s, TakePages(n)), Shared(s, all, TakePages(n)))
  {
    var t, all' := Do(s, TakePages(n)), Shared(s, all, TakePages(n));
    TakeTook(s.pool, n);
    assert forall p :: p in t.pool ==> p in s.pool;
    assert Taken(t, all') == Taken(s, all);
  }

  lemma GiveKeepsInv(s: State, all: set<nat>, page: nat)
    requires Inv(s, all) && page != 0 && page !in all
    ensures Inv(Do(s, GivePage(page)), Shared(s, all, GivePage(page)))
  {
    var t, all' := Do(s, GivePage(page)), Shared(s, all, GivePage(page));
    if t.pool == s.pool + [page] {
      PushKeepsPages(s.pool, page);
      assert (s.pool + [page])[|s.pool|] == page;
      assert forall p :: p in t.pool <==> p in s.pool || p == page;
      assert Taken(t, all') == Taken(s, all);
    } else {
      assert page !in s.pool;
    }
  }

  predicate GuardAct(s: State, a: Act)
    requires a.ByHeap? ==> Legal(s, a.op)
  {
    a.ByHeap? ==> Guard(s, a.op)
  }

  lemma ActInvIff(s: State, all: set<nat>, a: Act)
    requires Inv(s, all) && LegalAct(s, all, a)
    ensures Inv(Do(s, a), Shared(s, all, a)) <==> GuardAct(s, a)
  {
    match a
    case ByHeap(op) => StepInvIff(s, all, op);
    case TakePages(n) => TakeKeepsInv(s, all, n);
    case GivePage(page) => GiveKeepsInv(s, all, page);
  }

  predicate GuardedActs(s: State, all: set<nat>, acts: seq<Act>)
    requires LegalActs(s, all, acts)
    decreases |acts|
  {
    acts == [] || (GuardAct(s, acts[0]) && GuardedActs(Do(s, acts[0]), Shared(s, all, acts[0]), acts[1..]))
  }

  ghost predicate InvThroughoutActs(s: State, all: set<nat>, acts: seq<Act>)
    requires LegalActs(s, all, acts)
    decreases |acts|
  {
    Inv(s, all) && (acts != [] ==> InvThroughoutActs(Do(s, acts[0]), Shared(s, all, acts[0]), acts[1..]))
  }

  /** Whatever others take and give back in between, the blocks tile the heap's pages throughout if and only if every
      free joins blocks that lie end to end. */
  lemma {:induction false} SharedHistoryTilesIff(s: State, all: set<nat>, acts: seq<Act>)
    requires Inv(s, all) && LegalActs(s, all, acts)
    ensures InvThroughoutActs(s, all, acts) <==> GuardedActs(s, all, acts)
    decreases |acts|
  {
    if acts != [] {
      ActInvIff(s, all, acts[0]);
      if GuardAct(s, acts[0]) { SharedHistoryTilesIff(Do(s, acts[0]), Shared(s, all, acts[0]), acts[1..]); }
    }
  }

  // ---------------------------------------------------------------------
  // Headers and given memory apart
  // ---------------------------------------------------------------------

  predicate ClearAct(s: State, a: Act)
    requires a.ByHeap? ==> Legal(s, a.op)
  {
    a.ByHeap? ==> OpClear(s, a.op)
  }

  predicate ClearActs(s: State, all: set<nat>, acts: seq<Act>)
    requires LegalActs(s, all, acts)
    decreases |acts|
  {
    acts == [] || (ClearAct(s, acts[0]) && ClearActs(Do(s, acts[0]), Shared(s, all, acts[0]), acts[1..]))
  }

  predicate SeparateThroughoutActs(s: State, all: set<nat>, acts: seq<Act>)
    requires LegalActs(s, all, acts)
    decreases |acts|
  {
    Separate(s.blocks) &&
    (acts != [] ==>
       (acts[0].ByHeap? ==> LeavesSeparate(s, acts[0].op)) && SeparateThroughoutActs(Do(s, acts[0]), Shared(s, all, acts[0]), acts[1..]))
  }

  /** Nor do other users of the pool change when headers and given memory stay apart: if and only if each malloc
      passes its test. */
  lemma {:induction false} SharedHistorySeparateIff(s: State, all: set<nat>, acts: seq<Act>)
    requires Separate(s.blocks) && LegalActs(s, all, acts)
    ensures SeparateThroughoutActs(s, all, acts) <==> ClearActs(s, all, acts)
    decreases |acts|
  {
    if acts != [] {
      if acts[0].ByHeap? { StepSeparateIff(s, acts[0].op); }
      if ClearAct(s, acts[0]) { SharedHistorySeparateIff(Do(s, acts[0]), Shared(s, all, acts[0]), acts[1..]); }
    }
  }

  /** Pages that others hold more after the acts than before. */
  function Borrowed(s: State, a: Act): int {
    match a
    case ByHeap(_) => 0
    case TakePages(n) => |s.pool| - |Take(s.pool, n).1|
    case GivePage(page) => |s.pool| - |Push(s.pool, page)|
  }

  function BorrowedAll(s: State, all: set<nat>, acts: seq<Act>): int
    requires LegalActs(s, all, acts)
    decreases |acts|
  {
    if acts == [] then 0 else Borrowed(s, acts[0]) + BorrowedAll(Do(s, acts[0]), Shared(s, all, acts[0]), acts[1..])
  }

  lemma ActConserves(s: State, all: set<nat>, a: Act)
    requires NoNullPage(s) && LegalAct(s, all, a)
    ensures NoNullPage(Do(s, a)) && Bytes(Do(s, a)) + Borrowed(s, a) * PAGE == Bytes(s)
    ensures Coalesced(s.blocks) ==> Coalesced(Do(s, a).blocks)
  {
    match a
    case ByHeap(op) =>
      StepConserves(s, op);
      if Coalesced(s.blocks) { StepKeepsCoalesced(s, op); }
    case TakePages(n) => TakeCount(s.pool, n);
    case GivePage(page) =>
  }

  /** A history that keeps them apart loses no byte: what the heap and the pool have less the other users have more. */
  lemma {:induction false} SharedHistoryConserves(s: State, all: set<nat>, acts: seq<Act>)
    requires Separate(s.blocks) && Coalesced(s.blocks) && NoNullPage(s) && LegalActs(s, all, acts) && ClearActs(s, all, acts)
    ensures var t := DoAll(s, all, acts);
      Bytes(t) + BorrowedAll(s, all, acts) * PAGE == Bytes(s) && Coalesced(t.blocks) && Separate(t.blocks)
    decreases |acts|
  {
    if acts != [] {
      ActConserves(s, all, acts[0]);
      if acts[0].ByHeap? { StepSeparateIff(s, acts[0].op); }
      SharedHistoryConserves(Do(s, acts[0]), Shared(s, all, acts[0]), acts[1..]);
    }
  }

  // ---------------------------------------------------------------------
  // When malloc fails
  // ---------------------------------------------------------------------

  /** The test of PoolOrder for a page that is given back. */
  ghost predicate KeepsPoolOrder(s: State, a: Act) { a.GivePage? ==> PoolOrder.KeepsOrder(s.pool, FreePage(a.page)) }

  ghost predicate KeepPoolOrder(s: State, all: set<nat>, acts: seq<Act>)
    requires LegalActs(s, all, acts)
    decreases |acts|
  {
    acts == [] || (KeepsPoolOrder(s, acts[0]) && KeepPoolOrder(Do(s, acts[0]), Shared(s, all, acts[0]), acts[1..]))
  }

  /** The pool holds no page that is not counted. */
  predicate Counted(s: State, all: set<nat>) { forall p :: p in s.pool ==> p in all }

  lemma ActKeepsPool(s: State, all: set<nat>, a: Act)
    requires OrderedPool(s.pool) && Counted(s, all) && LegalAct(s, all, a) && KeepsPoolOrder(s, a)
    ensures OrderedPool(Do(s, a).pool) && Counted(Do(s, a), Shared(s, all, a))
  {
    match a
    case ByHeap(op) =>
      StepKeepsPool(s, op);
      StepKeepsCounted(s, all, op);
    case TakePages(n) =>
      TakeTook(s.pool, n);
      TakeKeepsOrder(s.pool, n);
    case GivePage(page) =>
      OneEvent(s.pool, FreePage(page));
      NextKeeps(s.pool, FreePage(page));
  }

  lemma MallocKeepsCounted(s: State, all: set<nat>, request: nat)
    requires OrderedPool(s.pool) && Counted(s, all)
    ensures Counted(Malloc(s, request).0, all)
  {
    TakeTook(s.pool, PagesFor(Round16(request)));
  }

  lemma StepKeepsCounted(s: State, all: set<nat>, op: Op)
    requires OrderedPool(s.pool) && Counted(s, all) && Legal(s, op)
    ensures Counted(Step(s, op), all)
  {
    match op
    case DoMalloc(n) => MallocKeepsCounted(s, all, n);
    case DoFree(_) =>
    case DoRealloc(_, n) => MallocKeepsCounted(s, all, n);
  }

  /** While each page comes back in order malloc fails exactly for want of memory. */
  lemma {:induction false} SharedHistoryMallocFailsIff(s: State, all: set<nat>, acts: seq<Act>, request: nat)
    requires OrderedPool(s.pool) && Counted(s, all) && LegalActs(s, all, acts) && KeepPoolOrder(s, all, acts) && request > 0
    ensures var now := DoAll(s, all, acts);
      Malloc(now, request).1 == NULL <==>
        && (forall b :: b in now.blocks && b.free ==> b.size < Round16(request))
        && !exists a :: HoldsRun(now.pool, a, PagesFor(Round16(request)))
    decreases |acts|
  {
    if acts == [] {
      MallocFailsIff(s, request);
    } else {
      ActKeepsPool(s, all, acts[0]);
      SharedHistoryMallocFailsIff(Do(s, acts[0]), Shared(s, all, acts[0]), acts[1..], request);
    }
  }
}
