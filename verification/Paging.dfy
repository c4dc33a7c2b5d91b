/** The page-table code of igpu.c on the tables in memory: mapping a page or a range, cloning the first
    64GB for the emulator core, and locking pages against the CPU. */
module Paging {
  import opened PageTables
  import opened PageAccess
  import PagePool

  const PAGE: nat := 0x20_0000

  /** What a page's entry is when the page maps to its own address. */
  function Identity(page: nat, flags: nat): nat { page * 0x20_0000 + flags + 0x80 }

  /** Fresh tables: no page of the pool holds a table of the tree. */
  ghost predicate Apart(free: seq<nat>, slots: map<nat, Slot>) {
    forall f :: f in slots ==> f - f % 0x20_0000 !in free
  }

  // ---------------------------------------------------------------------
  // How many tables a range still needs
  // ---------------------------------------------------------------------

  ghost function TopsMissing(m: Memory, root: nat, lo: nat, hi: nat): set<nat> {
    set i: nat | lo / 512 / 512 <= i <= hi / 512 / 512 && !Present(At(m, root, i))
  }

  ghost function DirsMissing(m: Memory, root: nat, lo: nat, hi: nat): set<nat> {
    set d: nat | lo / 512 <= d <= hi / 512 && !Present(Dir(m, root, d))
  }

  /** Tables to allocate before all of pages lo .. hi can be mapped. */
  ghost function Missing(m: Memory, root: nat, lo: nat, hi: nat): nat {
    |TopsMissing(m, root, lo, hi)| + |DirsMissing(m, root, lo, hi)|
  }

  /** Tables to allocate before one page can be mapped. */
  ghost function Need(m: Memory, root: nat, page: nat): nat {
    (if Present(At(m, root, page / 512 / 512)) then 0 else 1) + (if Present(Dir(m, root, page / 512)) then 0 else 1)
  }

  function Min(a: nat, b: nat): nat { if a < b then a else b }

  /** Every table taken from the pool for a page of the range is one that the range needed. */
  lemma MissingDrops(m: Memory, m': Memory, root: nat, lo: nat, hi: nat, page: nat, n: nat)
    requires lo <= page <= hi
    requires Tops(m, m', root, page / 512 / 512, n > 0) && Dirs(m, m', root, page / 512, Need(m, root, page) <= n)
    ensures Need(m, root, page) <= Missing(m, root, lo, hi)
    ensures Missing(m', root, lo, hi) == Missing(m, root, lo, hi) - Min(Need(m, root, page), n)
  {
    TopsDrop(m, m', root, lo, hi, page / 512 / 512, n > 0);
    DirsDrop(m, m', root, lo, hi, page / 512, Need(m, root, page) <= n);
    assert Present(Dir(m, root, page / 512)) ==> Present(At(m, root, page / 512 / 512));
  }

  lemma TopsDrop(m: Memory, m': Memory, root: nat, lo: nat, hi: nat, i: nat, added: bool)
    requires lo / 512 / 512 <= i <= hi / 512 / 512 && Tops(m, m', root, i, added)
    ensures !Present(At(m, root, i)) ==> |TopsMissing(m, root, lo, hi)| >= 1
    ensures |TopsMissing(m', root, lo, hi)| == |TopsMissing(m, root, lo, hi)| - if added && !Present(At(m, root, i)) then 1 else 0
  {
    var before := TopsMissing(m, root, lo, hi);
    assert i in before <==> !Present(At(m, root, i));
    assert TopsMissing(m', root, lo, hi) == before - if added then {i} else {};
  }

  lemma DirsDrop(m: Memory, m': Memory, root: nat, lo: nat, hi: nat, d: nat, added: bool)
    requires lo / 512 <= d <= hi / 512 && Dirs(m, m', root, d, added)
    ensures !Present(Dir(m, root, d)) ==> |DirsMissing(m, root, lo, hi)| >= 1
    ensures |DirsMissing(m', root, lo, hi)| == |DirsMissing(m, root, lo, hi)| - if added && !Present(Dir(m, root, d)) then 1 else 0
  {
    var before := DirsMissing(m, root, lo, hi);
    assert d in before <==> !Present(Dir(m, root, d));
    assert DirsMissing(m', root, lo, hi) == before - if added then {d} else {};
  }

  /** When every page of the range translates, nothing is missing. */
  lemma NothingMissing(m: Memory, root: nat, lo: nat, hi: nat)
    requires lo <= hi && forall p: nat :: lo <= p <= hi ==> Leaf(m, root, p) != 0
    ensures Missing(m, root, lo, hi) == 0
  {
    forall d: nat | lo / 512 <= d <= hi / 512 ensures Present(Dir(m, root, d)) && Present(At(m, root, d / 512)) {
      var p := if d * 512 < lo then lo else d * 512;
      assert p / 512 == d && Leaf(m, root, p) != 0;
    }
    assert DirsMissing(m, root, lo, hi) == {};
    forall i: nat | lo / 512 / 512 <= i <= hi / 512 / 512 ensures Present(At(m, root, i)) {
      var d := if i * 512 < lo / 512 then lo / 512 else i * 512;
      assert d / 512 == i && Present(Dir(m, root, d));
    }
    assert TopsMissing(m, root, lo, hi) == {};
  }

  // ---------------------------------------------------------------------
  // The tables as the program keeps them
  // ---------------------------------------------------------------------

  /** The emulator's tree: a page below 64GB has the entry it had when the tree was made, no other page has one. */
  ghost predicate Clone(m: Memory, root: nat, slots: map<nat, Slot>, entries: nat -> nat) {
    && Tree(m, root, slots)
    && forall p: nat :: Leaf(m, root, p) == if p < 32768 then entries(p) else 0
  }

  lemma CloneKept(m: Memory, m': Memory, root: nat, slots: map<nat, Slot>, entries: nat -> nat)
    requires Clone(m, root, slots, entries)
    requires forall f :: f in slots ==> f in m' && m'[f] == m[f]
    ensures Clone(m', root, slots, entries)
  {
    OtherTree(m, m', root, slots);
  }

  /** The two trees of the program: they share no table, neither shares a table within itself, and no page of
      the pool holds one. */
  datatype Trees = Trees(main: nat, slots: map<nat, Slot>, private: nat, privateSlots: map<nat, Slot>, cloned: nat -> nat)

  ghost predicate Good(m: Memory, t: Trees, free: seq<nat>) {
    && Tree(m, t.main, t.slots) && Apart(free, t.slots) && Apart(free, t.privateSlots)
    && (forall f :: f in t.slots ==> f !in t.privateSlots)
    && (t.private != 0 ==> Clone(m, t.private, t.privateSlots, t.cloned))
  }

  /** Frame f is not, and will not be, in use. */
  ghost predicate Unused(f: nat, t: Trees, free: seq<nat>) {
    f > 0 && f % PAGE == 0 && f !in t.slots && f !in t.privateSlots && f !in free
  }

  /** Writes outside the emulator's tables, and new tables of the main tree in unused frames, keep things good. */
  lemma GoodKept(m: Memory, m': Memory, t: Trees, slots': map<nat, Slot>, free: seq<nat>)
    requires Good(m, t, free) && Tree(m', t.main, slots')
    requires forall f :: f in slots' ==> f in t.slots || Unused(f, t, free)
    requires forall f :: f in t.privateSlots && f in m ==> f in m' && m'[f] == m[f]
    ensures Good(m', t.(slots := slots'), free)
  {
    forall f | f in slots' ensures f - f % 0x20_0000 !in free {
      if f !in t.slots { assert Unused(f, t, free); }
    }
    if t.private != 0 {
      CloneKept(m, m', t.private, t.privateSlots, t.cloned);
    }
  }

  lemma PageIsFrame(f: nat)
    requires f % PAGE == 0
    ensures f % 4096 == 0
  {
    assert f == f / PAGE * 512 * 4096;
  }

  /** A fresh table f is cleared and entered at place i of a table g of the main tree. */
  lemma TableInstalled(m: Memory, t: Trees, free: seq<nat>, f: nat, g: nat, i: nat, slot: Slot, m': Memory)
    requires Good(m, t, free) && Unused(f, t, free) && g in t.slots && i < 512
    requires m' == Put(m[f := Zero()], g, i, f + 3) && Tree(m', t.main, t.slots[f := slot])
    ensures Good(m', t.(slots := t.slots[f := slot]), free)
  {
    GoodKept(m, m', t, t.slots[f := slot], free);
  }

  lemma TopInstalled(m: Memory, t: Trees, free: seq<nat>, i: nat, f: nat, m': Memory)
    requires Good(m, t, free) && Unused(f, t, free) && i < 512 && !Present(At(m, t.main, i))
    requires t.main in m && m' == Put(m[f := Zero()], t.main, i, f + 3)
    ensures Good(m', t.(slots := t.slots[f := Second(i)]), free)
    ensures SameLeaves(m, m', t.main) && Tops(m, m', t.main, i, true) && Dirs(m, m', t.main, 0, false)
  {
    assert Serves(t.slots, t.main, Root);
    PageIsFrame(f);
    AddSecond(m, t.main, t.slots, i, f);
    TableInstalled(m, t, free, f, t.main, i, Second(i), m');
  }

  lemma DirInstalled(m: Memory, t: Trees, free: seq<nat>, d: nat, f: nat, g: nat, m': Memory)
    requires Good(m, t, free) && Unused(f, t, free) && Present(At(m, t.main, d / 512)) && !Present(Dir(m, t.main, d))
    requires g == Frame(At(m, t.main, d / 512)) && g in m && m' == Put(m[f := Zero()], g, d % 512, f + 3)
    ensures Good(m', t.(slots := t.slots[f := Third(d)]), free)
    ensures SameLeaves(m, m', t.main) && Tops(m, m', t.main, 0, false) && Dirs(m, m', t.main, d, true)
  {
    assert Serves(t.slots, g, Second(d / 512));
    PageIsFrame(f);
    AddThird(m, t.main, t.slots, d, f, g, m');
    TableInstalled(m, t, free, f, g, d % 512, Third(d), m');
  }

  lemma LeafInstalled(m: Memory, t: Trees, free: seq<nat>, p: nat, e: nat)
    requires Good(m, t, free) && Present(Dir(m, t.main, p / 512))
    ensures var g := Frame(Dir(m, t.main, p / 512));
      && g in m
      && var m' := Put(m, g, p % 512, e);
      && Good(m', t, free) && LeafSet(m, m', t.main, p, e)
      && Tops(m, m', t.main, 0, false) && Dirs(m, m', t.main, 0, false)
  {
    var g := Frame(Dir(m, t.main, p / 512));
    SetLeaf(m, t.main, t.slots, p, e);
    GoodKept(m, Put(m, g, p % 512, e), t, t.slots, free);
  }

  /** Pages first .. past-1 are mapped to themselves, every other page translates as before. */
  ghost predicate MappedAll(m: Memory, m': Memory, root: nat, first: nat, past: nat, flags: nat) {
    forall q: nat :: Leaf(m', root, q) == if first <= q < past then Identity(q, flags) else Leaf(m, root, q)
  }

  /** Each of the pages first .. past-1 is mapped to itself or, like every other page, translates as before. */
  ghost predicate MappedSome(m: Memory, m': Memory, root: nat, first: nat, past: nat, flags: nat) {
    forall q: nat :: Leaf(m', root, q) == Leaf(m, root, q) || (first <= q < past && Leaf(m', root, q) == Identity(q, flags))
  }

  lemma OneMoreMapped(m0: Memory, m: Memory, m': Memory, root: nat, first: nat, page: nat, past: nat, flags: nat)
    requires first <= page && past == page + 1
    requires LeafSet(m, m', root, page, Identity(page, flags)) || SameLeaves(m, m', root)
    ensures MappedSome(m0, m, root, first, page, flags) ==> MappedSome(m0, m', root, first, past, flags)
    ensures MappedAll(m0, m, root, first, page, flags) && LeafSet(m, m', root, page, Identity(page, flags))
      ==> MappedAll(m0, m', root, first, past, flags)
  {
  }

  /** What a mapped range means for addresses: each translates to itself. */
  lemma MappedTranslates(m: Memory, m': Memory, root: nat, first: nat, past: nat, flags: nat, va: nat)
    requires MappedAll(m, m', root, first, past, flags) && flags < 0x80 && flags % 2 == 1
    ensures Translate(m', root, va) == if first <= va / PAGE < past then Some(va) else Translate(m, root, va)
  {
    IdentityEntry(flags, va);
  }

  /** Copying the main tree's first directories into a stretch at base: so far pdts. */
  ghost predicate Copying(m0: Memory, m: Memory, main: nat, base: nat, pdts: seq<Table>) {
    && LaidOut(m, base, pdts)
    && (forall d :: 0 <= d < |pdts| ==> DirTable(m0, main, d) == pdts[d])
    && Outside(m0, m, base)
  }

  /** Memory differs in one page only. */
  ghost predicate Outside(m0: Memory, m: Memory, base: nat) {
    forall f :: f in m0 && f - f % PAGE != base ==> f in m && m[f] == m0[f]
  }

  ghost function DirTable(m: Memory, root: nat, d: nat): Table {
    var f := Frame(Dir(m, root, d));
    if f in m then m[f] else Zero()
  }

  /** The frames of a stretch stand in its page. */
  lemma InStretch(base: nat, k: nat)
    requires base % PAGE == 0 && k < 512
    ensures FrameAt(base, k) - FrameAt(base, k) % PAGE == base
  {
    assert FrameAt(base, k) - base < PAGE;
  }

  lemma CopyStarts(m0: Memory, main: nat, base: nat)
    requires base % PAGE == 0
    ensures Copying(m0, Put(m0[base := Zero()], base, 0, base + 4096 + 3)[base + 4096 := Zero()], main, base, [])
  {
    InStretch(base, 0);
    InStretch(base, 1);
    assert FrameAt(base, 0) == base && FrameAt(base, 1) == base + 4096;
  }

  lemma CopyGrows(m0: Memory, m: Memory, m': Memory, main: nat, base: nat, pdts: seq<Table>, target: nat)
    requires base % PAGE == 0 && Copying(m0, m, main, base, pdts) && |pdts| < 64
    requires target == FrameAt(base, |pdts| + 2) && FrameAt(base, 1) in m
    requires m' == Put(m, FrameAt(base, 1), |pdts|, target + 3)[target := DirTable(m0, main, |pdts|)]
    ensures Copying(m0, m', main, base, pdts + [DirTable(m0, main, |pdts|)])
  {
    LayoutGrows(m, base, pdts, DirTable(m0, main, |pdts|));
    InStretch(base, 1);
    InStretch(base, |pdts| + 2);
  }

  /** Outside the stretch memory is as it was, so the walk to a main directory finds the original table. */
  lemma CopyReads(m0: Memory, m: Memory, main: nat, slots: map<nat, Slot>, base: nat, i: nat, top: nat, dir: nat)
    requires (forall f :: f in slots ==> f in m0) && main in slots && top in slots && dir in slots
    requires top == Frame(At(m0, main, 0)) && dir == Frame(At(m0, top, i)) && dir == Frame(Dir(m0, main, i))
    requires Apart([base], slots) && Outside(m0, m, base)
    ensures var pdt := Frame(At(m, Frame(At(m, main, 0)), i));
      pdt in m && m[pdt] == DirTable(m0, main, i)
  {
    SlotKept(m0, m, slots, base, main);
    SlotKept(m0, m, slots, base, top);
    SlotKept(m0, m, slots, base, dir);
  }

  lemma WalkTables(m: Memory, main: nat, slots: map<nat, Slot>, i: nat) returns (top: nat, dir: nat)
    requires Tree(m, main, slots) && i < 512 && Present(Dir(m, main, i))
    ensures main in slots && top in slots && dir in slots
    ensures top == Frame(At(m, main, 0)) && dir == Frame(At(m, top, i)) && dir == Frame(Dir(m, main, i))
  {
    top, dir := Frame(At(m, main, 0)), Frame(Dir(m, main, i));
    assert i / 512 == 0 && i % 512 == i;
    assert Serves(slots, main, Root) && Serves(slots, top, Second(0)) && Serves(slots, dir, Third(i));
  }

  lemma SlotKept(m0: Memory, m: Memory, slots: map<nat, Slot>, base: nat, f: nat)
    requires f in slots && Apart([base], slots) && f in m0
    requires Outside(m0, m, base)
    ensures f in m && m[f] == m0[f]
  {
    assert f - f % PAGE !in [base];
  }

  /** The finished copy. */
  lemma CopyDone(m0: Memory, m: Memory, t: Trees, free: seq<nat>, base: nat, pdts: seq<Table>, t': Trees)
    requires Good(m0, t, free) && Unused(base, t, free) && Apart([base], t.slots)
    requires Copying(m0, m, t.main, base, pdts) && |pdts| == 64
    requires forall d: nat :: d < 64 ==> Present(Dir(m0, t.main, d))
    requires t' == Trees(t.main, t.slots, base, LayoutSlots(base, 64), p => Leaf(m0, t.main, p))
    ensures Good(m, t', free) && SameLeaves(m0, m, t.main)
  {
    PageIsFrame(base);
    LayoutTree(m, base, pdts);
    LayoutWalk(m, base, pdts);
    forall f | f in LayoutSlots(base, 64) ensures f - f % PAGE == base {
      var k: nat :| k < 66 && f == FrameAt(base, k);
      InStretch(base, k);
    }
    forall f | f in t.slots ensures f in m && m[f] == m0[f] && f !in LayoutSlots(base, 64) {
      assert f - f % PAGE !in [base];
    }
    OtherTree(m0, m, t.main, t.slots);
    forall p: nat ensures Leaf(m, base, p) == if p < 32768 then Leaf(m0, t.main, p) else 0 {
      if p < 32768 {
        assert Serves(t.slots, Frame(Dir(m0, t.main, p / 512)), Third(p / 512));
        assert DirTable(m0, t.main, p / 512) == pdts[p / 512];
      }
    }
  }

  /** Whatever was mapped and however often memory was locked or unlocked since the clone was made, and
      whatever calls follow, the emulator's tree resolves an address below 64GB by the entry its page had then. */
  lemma PrivateResolvesAsCloned(m: Memory, t: Trees, free: seq<nat>, calls: seq<Call>, va: nat)
    requires Good(m, t, free) && t.private != 0 && forall c :: c in calls ==> InRange(c)
    ensures Translate(AccessAll(m, t.main, calls), t.private, va)
         == if va < 64 * 0x4000_0000 then Resolve(t.cloned(va / PAGE), va) else None
  {
    PrivateTreeUnaffected(m, t.main, t.slots, t.private, t.privateSlots, calls, va);
  }

  lemma AccessGood(m: Memory, t: Trees, free: seq<nat>, page: nat, allowed: bool)
    requires Good(m, t, free)
    ensures Good(SetOne(m, t.main, page, allowed), t, free)
  {
    SetOneEffect(m, t.main, t.slots, page, page + 1, allowed);
    GoodKept(m, SetOne(m, t.main, page, allowed), t, t.slots, free);
  }

  /** pml4 and igpu_pml4 with the memory that holds them and the pool that their tables come from. */
  class Mmu {
    const pool: PagePool.Pool
    var mem: Memory
    const main: nat
    var private: nat
    ghost var trees: Trees

    ghost predicate Valid()
      reads this, pool, pool.blocks
    {
      && pool.Valid() && PagePool.Pages(pool.Free()) && PagePool.Distinct(pool.Free())
      && trees.main == main && trees.private == private
      && Good(mem, trees, pool.Free())
    }

    /** As booted: the tables of boot.asm, which lie in the kernel image and so in no page of the pool. */
    constructor (base: nat, m: Memory, pdts: seq<Table>, pool: PagePool.Pool)
      requires BootTables(m, base, pdts)
      requires pool.Valid() && PagePool.Pages(pool.Free()) && PagePool.Distinct(pool.Free())
      requires Apart(pool.Free(), LayoutSlots(base, 64))
      ensures Valid() && main == base && mem == m && this.pool == pool && private == 0
      ensures forall p: nat :: Leaf(mem, main, p) == if p < 32768 then Identity(p, 3) else 0
    {
      main, mem, this.pool, private := base, m, pool, 0;
      trees := Trees(base, LayoutSlots(base, 64), 0, map[], _ => 0);
      new;
      BootMaps(m, base, pdts);
    }

    /** One 2MB page, of which a table uses the first 4KB. */
    method TakeFrame() returns (page: nat)
      requires Valid()
      modifies pool
      ensures Valid()
      ensures old(pool.count) == 0 ==> page == 0 && pool.Free() == old(pool.Free())
      ensures old(pool.count) > 0 ==>
        && pool.Free() == old(pool.Free())[..old(pool.count) - 1] && page == old(pool.Free())[old(pool.count) - 1]
        && Unused(page, trees, pool.Free()) && Apart([page], trees.slots)
    {
      ghost var before := pool.Free();
      page := pool.AllocPage();
      if before != [] {
        assert pool.Free() == before[..|before| - 1];
        assert page - page % PAGE == page && page in before;
      }
    }

    /** The second-level table at place i of the root, allocated if it is missing. */
    method EnsureTop(i: nat) returns (ok: bool)
      requires Valid() && i < 512
      modifies `mem, `trees, pool
      ensures trees == old(trees).(slots := trees.slots)
      ensures Valid()
      ensures var missing := !old(Present(At(mem, main, i)));
        && pool.Free() == old(pool.Free())[..old(pool.count) - if missing && old(pool.count) > 0 then 1 else 0]
        && (ok <==> !missing || old(pool.count) > 0)
      ensures ok && !old(Present(At(mem, main, i))) ==> At(mem, main, i) == old(pool.Free())[old(pool.count) - 1] + 3
      ensures Tops(old(mem), mem, main, i, ok) && Dirs(old(mem), mem, main, 0, false) && SameLeaves(old(mem), mem, main)
    {
      assert Serves(trees.slots, main, Root);
      if !Present(At(mem, main, i)) {
        var page := TakeFrame();
        if page == 0 {
          return false;
        }
        ghost var before := mem;
        mem := mem[page := Zero()];
        mem := Put(mem, main, i, page + 3);
        TopInstalled(before, trees, pool.Free(), i, page, mem);
        trees := trees.(slots := trees.slots[page := Second(i)]);
      }
      return true;
    }

    /** Directory d, allocated if it is missing; its second-level table is there. */
    method EnsureDir(d: nat) returns (ok: bool)
      requires Valid() && Present(At(mem, main, d / 512))
      modifies `mem, `trees, pool
      ensures trees == old(trees).(slots := trees.slots)
      ensures Valid()
      ensures var missing := !old(Present(Dir(mem, main, d)));
        && pool.Free() == old(pool.Free())[..old(pool.count) - if missing && old(pool.count) > 0 then 1 else 0]
        && (ok <==> !missing || old(pool.count) > 0)
      ensures ok && !old(Present(Dir(mem, main, d))) ==> Dir(mem, main, d) == old(pool.Free())[old(pool.count) - 1] + 3
      ensures Tops(old(mem), mem, main, 0, false) && Dirs(old(mem), mem, main, d, ok) && SameLeaves(old(mem), mem, main)
    {
      var pdpt := Frame(At(mem, main, d / 512));
      assert Serves(trees.slots, pdpt, Second(d / 512));
      if !Present(At(mem, pdpt, d % 512)) {
        var page := TakeFrame();
        if page == 0 {
          return false;
        }
        ghost var before := mem;
        mem := mem[page := Zero()];
        mem := Put(mem, pdpt, d % 512, page + 3);
        DirInstalled(before, trees, pool.Free(), d, page, pdpt, mem);
        trees := trees.(slots := trees.slots[page := Third(d)]);
      }
      return true;
    }

    lemma TopIndex(d: nat)
      requires d < 512 * 512
      ensures d / 512 % 512 == d / 512 < 512
    {
    }

    /** Both tables on the way to a page. */
    method EnsureTables(page: nat) returns (ok: bool)
      requires Valid() && page < 512 * 512 * 512
      modifies `mem, `trees, pool
      ensures trees == old(trees).(slots := trees.slots)
      ensures Valid() && (ok ==> Present(Dir(mem, main, page / 512)))
      ensures var need, n := Need(old(mem), main, page), old(pool.count);
        && pool.Free() == old(pool.Free())[..n - Min(need, n)]
        && (ok <==> need <= n)
        && Tops(old(mem), mem, main, page / 512 / 512, n > 0) && Dirs(old(mem), mem, main, page / 512, need <= n)
        && SameLeaves(old(mem), mem, main)
    {
      var d := page / 512;
      TopIndex(d);
      var top := EnsureTop(d / 512 % 512);
      if !top {
        return false;
      }
      ok := EnsureDir(d);
    }

    /** map_page_2mb, for an aligned address and flags below the page-size bit, so that or-ing them adds them:
        makes the page translate as asked and no other page differently; when the pool cannot supply the
        tables that are missing, nothing translates differently. */
    method MapPage(phys: nat, virt: nat, flags: nat)
      requires Valid() && virt < 0x1_0000_0000_0000 && phys % PAGE == 0 && flags < 0x80
      modifies `mem, `trees, pool
      ensures trees == old(trees).(slots := trees.slots)
      ensures Valid()
      ensures var page, n := virt / PAGE, old(pool.count);
        var need := Need(old(mem), main, page);
        && pool.Free() == old(pool.Free())[..n - Min(need, n)]
        && Tops(old(mem), mem, main, page / 512 / 512, n > 0) && Dirs(old(mem), mem, main, page / 512, need <= n)
        && (need <= n ==> LeafSet(old(mem), mem, main, page, phys + flags + 0x80))
        && (need > n ==> SameLeaves(old(mem), mem, main))
    {
      var page := virt / PAGE;
      var ok := EnsureTables(page);
      if !ok {
        return;
      }
      LeafInstalled(mem, trees, pool.Free(), page, phys + flags + 0x80);
      mem := Put(mem, Frame(Dir(mem, main, page / 512)), page % 512, phys + flags + 0x80);
    }

    /** map_range_2mb: every page the range touches is mapped to its own address with the range's flags exactly
        when the pool can supply all missing tables; each page is mapped so or left as before, in every case
        when a free page remains; no other page translates differently. */
    method MapRange(start: nat, size: nat, mmio: bool)
      requires Valid() && start + size <= 0x1_0000_0000_0000
      modifies `mem, `trees, pool
      ensures trees == old(trees).(slots := trees.slots)
      ensures Valid()
      ensures size == 0 ==> mem == old(mem) && pool.Free() == old(pool.Free())
      ensures size > 0 ==>
        var first, last, flags := start / PAGE, (start + size - 1) / PAGE, if mmio then 0x1B else 3;
        && MappedSome(old(mem), mem, main, first, last + 1, flags)
        && (Missing(old(mem), main, first, last) <= old(pool.count) <==> MappedAll(old(mem), mem, main, first, last + 1, flags))
        && (pool.count > 0 ==> MappedAll(old(mem), mem, main, first, last + 1, flags))
    {
      if size == 0 {
        return;
      }
      var flags := 3;
      if mmio {
        flags := flags + 0x18;
      }
      var first := start / PAGE;
      var last := (start + size - 1) / PAGE;
      ghost var m0, n0 := mem, pool.count;
      var page := first;
      while page <= last
        invariant Valid() && first <= page <= last + 1 && pool.count <= n0 && trees == old(trees).(slots := trees.slots)
        invariant Missing(mem, main, first, last) + n0 - pool.count == Missing(m0, main, first, last)
        invariant MappedSome(m0, mem, main, first, page, flags)
        invariant pool.count > 0 || Missing(m0, main, first, last) <= n0 ==> MappedAll(m0, mem, main, first, page, flags)
      {
        MapNext(page, flags, m0, first, last);
        page := page + 1;
      }
      if MappedAll(m0, mem, main, first, last + 1, flags) {
        NothingMissing(mem, main, first, last);
      }
    }

    /** One turn of that loop. */
    method MapNext(page: nat, flags: nat, ghost m0: Memory, ghost first: nat, ghost last: nat)
      requires flags < 0x80
      requires Valid() && first <= page <= last < 512 * 512 * 512
      modifies `mem, `trees, pool
      ensures trees == old(trees).(slots := trees.slots)
      ensures Valid() && pool.count <= old(pool.count)
      ensures Missing(mem, main, first, last) - pool.count == old(Missing(mem, main, first, last) - pool.count)
      ensures old(MappedSome(m0, mem, main, first, page, flags)) ==> MappedSome(m0, mem, main, first, page + 1, flags)
      ensures old(MappedAll(m0, mem, main, first, page, flags)) && (pool.count > 0 || old(Missing(mem, main, first, last) <= pool.count))
        ==> MappedAll(m0, mem, main, first, page + 1, flags)
    {
      ghost var m, n := mem, pool.count;
      MapPage(page * PAGE, page * PAGE, flags);
      MissingDrops(m, mem, main, first, last, page, n);
      OneMoreMapped(m0, m, mem, main, first, page, page + 1, flags);
    }

    /** igpu_init_page_tables: one page of the pool becomes a second tree in which every address below 64GB
        translates as in the main one now, and no other address does. The boot tables have the 64 directories. */
    method InitPrivate()
      requires Valid() && forall d: nat :: d < 64 ==> Present(Dir(mem, main, d))
      modifies `mem, `private, `trees, pool
      ensures Valid() && SameLeaves(old(mem), mem, main)
      ensures old(pool.count) == 0 ==> mem == old(mem) && trees == old(trees) && pool.Free() == old(pool.Free())
      ensures old(pool.count) > 0 ==>
        && pool.Free() == old(pool.Free())[..old(pool.count) - 1]
        && private == old(pool.Free())[old(pool.count) - 1] && private > 0
        && forall p: nat :: trees.cloned(p) == Leaf(old(mem), main, p)
    {
      ghost var m0, t := mem, trees;
      var page := TakeFrame();
      if page == 0 {
        return;
      }
      var pdpt := page + 4096;
      mem := mem[page := Zero()];
      mem := Put(mem, page, 0, pdpt + 3);
      mem := mem[pdpt := Zero()];
      CopyStarts(m0, main, page);
      ghost var pdts := CopyDirectories(page, m0);
      private := page;
      trees := Trees(main, t.slots, page, LayoutSlots(page, 64), p => Leaf(m0, main, p));
      CopyDone(m0, mem, t, pool.Free(), page, pdts, trees);
    }

    /** The loop over the 64 directories. */
    method CopyDirectories(page: nat, ghost m0: Memory) returns (ghost pdts: seq<Table>)
      requires page % PAGE == 0 && Copying(m0, mem, main, page, [])
      requires Tree(m0, main, trees.slots) && Apart([page], trees.slots)
      requires forall d: nat :: d < 64 ==> Present(Dir(m0, main, d))
      modifies `mem
      ensures Copying(m0, mem, main, page, pdts) && |pdts| == 64
    {
      pdts := [];
      for i := 0 to 64
        invariant Copying(m0, mem, main, page, pdts) && |pdts| == i
      {
        pdts := CopyDirectory(page, i, m0, pdts);
      }
    }

    /** One turn of that loop. */
    method CopyDirectory(page: nat, i: nat, ghost m0: Memory, ghost pdts: seq<Table>) returns (ghost pdts': seq<Table>)
      requires page % PAGE == 0 && Copying(m0, mem, main, page, pdts) && |pdts| == i < 64
      requires Tree(m0, main, trees.slots) && Apart([page], trees.slots)
      requires Present(Dir(m0, main, i))
      modifies `mem
      ensures Copying(m0, mem, main, page, pdts') && |pdts'| == i + 1
    {
      ghost var before := mem;
      var pdpt := page + 4096;
      var target := page + 8192 + i * 4096;
      assert FrameAt(page, 1) in mem;
      mem := Put(mem, pdpt, i, target + 3);
      InStretch(page, 1);
      ghost var top, dir := WalkTables(m0, main, trees.slots, i);
      CopyReads(m0, mem, main, trees.slots, page, i, top, dir);
      var mainPdpt := Frame(At(mem, main, 0));
      var mainPdt := Frame(At(mem, mainPdpt, i));
      mem := mem[target := mem[mainPdt]];
      CopyGrows(m0, before, mem, main, page, pdts, target);
      pdts' := pdts + [DirTable(m0, main, i)];
    }

    /** set_memory_cpu_access. */
    method SetAccess(addr: nat, size: nat, allowed: bool)
      requires Valid() && InRange(Call(addr, size, allowed))
      modifies `mem
      ensures Valid()
      ensures mem == Access(old(mem), main, Call(addr, size, allowed))
    {
      var first := addr / PAGE;
      var last := (addr + size - 1) / PAGE;
      SetRange(first, last, allowed);
    }

    /** Its loop over the pages. */
    method SetRange(first: nat, last: int, allowed: bool)
      requires Valid() && -1 <= last < 512 * 512
      modifies `mem
      ensures Valid()
      ensures mem == SetPages(old(mem), main, first, last + 1, allowed)
    {
      ghost var m0 := mem;
      var page := first;
      while page <= last
        invariant first <= page && (page <= last + 1 || page == first)
        invariant mem == SetPages(m0, main, first, page, allowed) && Valid()
      {
        SetPage(page, allowed);
        page := page + 1;
      }
    }

    /** One turn of that loop: page 0 is never touched. */
    method SetPage(page: nat, allowed: bool)
      requires Valid() && page < 512 * 512
      modifies `mem
      ensures Valid()
      ensures mem == SetOne(old(mem), main, page, allowed)
    {
      if page == 0 {
        return;
      }
      var top := At(mem, main, 0);
      if !Present(top) {
        return;
      }
      var entry := At(mem, Frame(top), page / 512);
      if !Present(entry) {
        return;
      }
      ghost var before := mem;
      var pdt := Frame(entry);
      assert Serves(trees.slots, pdt, Third(page / 512));
      mem := Put(mem, pdt, page % 512, WithPresent(At(mem, pdt, page % 512), allowed));
      AccessGood(before, trees, pool.Free(), page, allowed);
    }
  }
}
