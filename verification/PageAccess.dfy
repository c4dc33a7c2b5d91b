/** set_memory_cpu_access: what any sequence of lock and unlock calls does to the main tables, and that
    the emulator's private tables never notice. */
module PageAccess {
  import opened PageTables

  datatype Call = Call(addr: nat, size: nat, allowed: bool)

  /** Calls that stay below 512GB, where the code's indices are in range, and that do not end at address 0. */
  predicate InRange(c: Call) {
    0 < c.addr + c.size <= 0x80_0000_0000
  }

  function First(c: Call): nat { c.addr / 0x20_0000 }

  /** One page past the last that the call visits. */
  function Past(c: Call): nat
    requires InRange(c)
  {
    (c.addr + c.size - 1) / 0x20_0000 + 1
  }

  predicate Visits(c: Call, page: nat)
    requires InRange(c)
  {
    First(c) <= page < Past(c)
  }

  lemma PageOfAddress(a: nat, page: nat)
    ensures a / 0x20_0000 == page <==> page * 0x20_0000 <= a < page * 0x20_0000 + 0x20_0000
  {
  }

  /** A call that is not empty visits exactly the pages in which some address of its range lies. */
  lemma VisitsIff(c: Call, page: nat)
    requires InRange(c) && c.size > 0
    ensures Visits(c, page) <==> exists a: nat :: c.addr <= a < c.addr + c.size && a / 0x20_0000 == page
  {
    var last := c.addr + c.size - 1;
    if Visits(c, page) {
      var a := if c.addr / 0x20_0000 == page then c.addr else page * 0x20_0000;
      PageOfAddress(c.addr, c.addr / 0x20_0000);
      PageOfAddress(last, last / 0x20_0000);
      PageOfAddress(a, page);
      assert c.addr <= a < c.addr + c.size && a / 0x20_0000 == page;
    }
  }

  // ---------------------------------------------------------------------
  // The calls, on memory
  // ---------------------------------------------------------------------

  /** One turn of the loop: page 0 and pages without a directory are skipped. */
  function SetOne(m: Memory, root: nat, page: nat, allowed: bool): Memory {
    var g := Frame(Dir(m, root, page / 512));
    if page == 0 || !Present(Dir(m, root, page / 512)) || g !in m then m
    else Put(m, g, page % 512, WithPresent(At(m, g, page % 512), allowed))
  }

  function SetPages(m: Memory, root: nat, first: nat, past: nat, allowed: bool): Memory {
    if past <= first then m
    else SetOne(SetPages(m, root, first, past - 1, allowed), root, past - 1, allowed)
  }

  function Access(m: Memory, root: nat, c: Call): Memory
    requires InRange(c)
  {
    SetPages(m, root, First(c), Past(c), c.allowed)
  }

  function AccessAll(m: Memory, root: nat, calls: seq<Call>): Memory
    requires forall c :: c in calls ==> InRange(c)
  {
    if calls == [] then m
    else Access(AccessAll(m, root, calls[..|calls| - 1]), root, calls[|calls| - 1])
  }

  // ---------------------------------------------------------------------
  // The calls, page by page
  // ---------------------------------------------------------------------

  /** Pages that have a directory, other than page 0. */
  predicate Lockable(m: Memory, root: nat, page: nat) {
    page != 0 && Present(Dir(m, root, page / 512))
  }

  function SetIf(visited: bool, e: nat, allowed: bool): nat {
    if visited then WithPresent(e, allowed) else e
  }

  /** What a sequence of calls makes of the entry of such a page. */
  function EntryAfterAll(calls: seq<Call>, page: nat, e: nat): nat
    requires forall c :: c in calls ==> InRange(c)
  {
    if calls == [] then e
    else
      var c := calls[|calls| - 1];
      SetIf(Visits(c, page), EntryAfterAll(calls[..|calls| - 1], page, e), c.allowed)
  }

  /** m' is m with some entries of the tree's directories changed: same tree, same directories, all other
      memory untouched. */
  ghost predicate SameShape(m: Memory, m': Memory, root: nat, slots: map<nat, Slot>) {
    && Tree(m', root, slots)
    && (forall d: nat :: Dir(m', root, d) == Dir(m, root, d))
    && (forall f :: f in m && f !in slots ==> f in m' && m'[f] == m[f])
  }

  /** m' is m with the present bits of the lockable pages among first .. past-1 set or cleared. */
  ghost predicate Changed(m: Memory, m': Memory, root: nat, slots: map<nat, Slot>, first: nat, past: nat, allowed: bool) {
    && SameShape(m, m', root, slots)
    && forall q: nat :: Leaf(m', root, q) == SetIf(first <= q < past && Lockable(m, root, q), Leaf(m, root, q), allowed)
  }

  lemma SetOneEffect(m: Memory, root: nat, slots: map<nat, Slot>, page: nat, past: nat, allowed: bool)
    requires Tree(m, root, slots) && past == page + 1
    ensures Changed(m, SetOne(m, root, page, allowed), root, slots, page, past, allowed)
  {
    if Lockable(m, root, page) {
      SetLeaf(m, root, slots, page, WithPresent(Leaf(m, root, page), allowed));
    }
  }

  lemma OneMore(m0: Memory, m1: Memory, m2: Memory, root: nat, slots: map<nat, Slot>, first: nat, page: nat, past: nat, allowed: bool)
    requires Changed(m0, m1, root, slots, first, page, allowed) && first <= page && past == page + 1
    requires Changed(m1, m2, root, slots, page, past, allowed)
    ensures Changed(m0, m2, root, slots, first, past, allowed)
  {
    forall q: nat
      ensures Leaf(m2, root, q) == SetIf(first <= q < past && Lockable(m0, root, q), Leaf(m0, root, q), allowed)
    {
      assert Dir(m1, root, q / 512) == Dir(m0, root, q / 512);
    }
  }

  lemma {:induction false} SetPagesEffect(m: Memory, root: nat, slots: map<nat, Slot>, first: nat, past: nat, allowed: bool)
    requires Tree(m, root, slots)
    ensures Changed(m, SetPages(m, root, first, past, allowed), root, slots, first, past, allowed)
  {
    if first < past {
      var page := past - 1;
      var m1 := SetPages(m, root, first, page, allowed);
      var m2 := SetPages(m, root, first, past, allowed);
      SetPagesEffect(m, root, slots, first, page, allowed);
      assert Changed(m1, m2, root, slots, page, past, allowed) by { SetOneEffect(m1, root, slots, page, past, allowed); }
      OneMore(m, m1, m2, root, slots, first, page, past, allowed);
    }
  }

  /** Any sequence of calls changes exactly the present bits it asks for: the entry of a lockable page
      becomes what the calls make of it one after the other; everything else stays. */
  lemma {:induction false} AccessAllEffect(m: Memory, root: nat, slots: map<nat, Slot>, calls: seq<Call>)
    requires Tree(m, root, slots) && forall c :: c in calls ==> InRange(c)
    ensures SameShape(m, AccessAll(m, root, calls), root, slots)
    ensures forall q: nat ::
      Leaf(AccessAll(m, root, calls), root, q)
      == if Lockable(m, root, q) then EntryAfterAll(calls, q, Leaf(m, root, q)) else Leaf(m, root, q)
  {
    if calls != [] {
      var c := calls[|calls| - 1];
      AccessAllEffect(m, root, slots, calls[..|calls| - 1]);
      SetPagesEffect(AccessAll(m, root, calls[..|calls| - 1]), root, slots, First(c), Past(c), c.allowed);
    }
  }

  /** A second tree without a table in common, the emulator's: whatever the calls, it resolves every address
      as before them. */
  lemma PrivateTreeUnaffected(m: Memory, root: nat, slots: map<nat, Slot>, other: nat, otherSlots: map<nat, Slot>,
                              calls: seq<Call>, va: nat)
    requires Tree(m, root, slots) && Tree(m, other, otherSlots) && forall f :: f in otherSlots ==> f !in slots
    requires forall c :: c in calls ==> InRange(c)
    ensures Translate(AccessAll(m, root, calls), other, va) == Translate(m, other, va)
  {
    AccessAllEffect(m, root, slots, calls);
    OtherTree(m, AccessAll(m, root, calls), other, otherSlots);
  }

  /** Addresses in page 0 keep their translation whatever the calls. */
  lemma FirstPageNeverLocked(m: Memory, root: nat, slots: map<nat, Slot>, calls: seq<Call>, va: nat)
    requires Tree(m, root, slots) && (forall c :: c in calls ==> InRange(c)) && va < 0x20_0000
    ensures Translate(AccessAll(m, root, calls), root, va) == Translate(m, root, va)
  {
    AccessAllEffect(m, root, slots, calls);
  }

  // ---------------------------------------------------------------------
  // What a sequence comes to
  // ---------------------------------------------------------------------

  /** Only the present bit ever changes. */
  lemma {:induction false} OnlyPresentBit(calls: seq<Call>, page: nat, e: nat)
    requires forall c :: c in calls ==> InRange(c)
    ensures WithPresent(EntryAfterAll(calls, page, e), false) == WithPresent(e, false)
  {
    if calls != [] { OnlyPresentBit(calls[..|calls| - 1], page, e); }
  }

  /** The last call that visits a page decides: call k visits it and no later one does. */
  lemma {:induction false} LastCallDecides(calls: seq<Call>, page: nat, e: nat, k: nat)
    requires forall c :: c in calls ==> InRange(c)
    requires k < |calls| && Visits(calls[k], page) && forall j :: k < j < |calls| ==> !Visits(calls[j], page)
    ensures EntryAfterAll(calls, page, e) == WithPresent(e, calls[k].allowed)
  {
    var rest := calls[..|calls| - 1];
    if k < |calls| - 1 {
      LastCallDecides(rest, page, e, k);
    } else {
      OnlyPresentBit(rest, page, e);
    }
  }

  /** A page that no call visits keeps its entry. */
  lemma {:induction false} UnvisitedKept(calls: seq<Call>, page: nat, e: nat)
    requires forall j :: 0 <= j < |calls| ==> InRange(calls[j]) && !Visits(calls[j], page)
    ensures EntryAfterAll(calls, page, e) == e
  {
    if calls != [] { UnvisitedKept(calls[..|calls| - 1], page, e); }
  }

  /** Lock followed by unlock of the same range restores every translation exactly when all the lockable pages
      that the range visits were present. */
  lemma LockUnlockIff(m: Memory, root: nat, slots: map<nat, Slot>, addr: nat, size: nat)
    requires Tree(m, root, slots) && InRange(Call(addr, size, true))
    ensures var m' := AccessAll(m, root, [Call(addr, size, false), Call(addr, size, true)]);
      (forall q: nat :: Leaf(m', root, q) == Leaf(m, root, q))
      <==> (forall q: nat :: Visits(Call(addr, size, true), q) && Lockable(m, root, q) ==> Present(Leaf(m, root, q)))
  {
    var calls := [Call(addr, size, false), Call(addr, size, true)];
    AccessAllEffect(m, root, slots, calls);
    var m' := AccessAll(m, root, calls);
    forall q: nat | Lockable(m, root, q)
      ensures Leaf(m', root, q) == Leaf(m, root, q) <==> (Visits(calls[1], q) ==> Present(Leaf(m, root, q)))
    {
      if Visits(calls[1], q) {
        LastCallDecides(calls, q, Leaf(m, root, q), 1);
      } else {
        assert !Visits(calls[0], q);
        UnvisitedKept(calls, q, Leaf(m, root, q));
      }
    }
  }

  /** A call with size 0 is not a no-op: it visits a page exactly when its address is not 2MB-aligned. */
  lemma EmptyCallVisits(c: Call, page: nat)
    requires InRange(c) && c.size == 0
    ensures Visits(c, page) <==> c.addr % 0x20_0000 != 0 && page == First(c)
  {
  }
}
