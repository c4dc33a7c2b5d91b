/** Three-level page tables with 2MB pages, in the physical memory that holds them: what a walk from a
    root finds, when the tables form a tree that shares no table, and what each table write changes. */
module PageTables {

  /** A 4KB table of 512 entries. */
  type Table = t: seq<nat> | |t| == 512 witness seq(512, _ => 0)

  /** Contents of the 4KB frames, by address. */
  type Memory = map<nat, Table>

  function Zero(): Table { seq(512, _ => 0) }

  // ---------------------------------------------------------------------
  // Entries: an aligned address plus flag bits below it
  // ---------------------------------------------------------------------

  predicate Present(e: nat) { e % 2 == 1 }

  /** Entry & ~0xFFF. */
  function Frame(e: nat): nat { e - e % 4096 }

  /** The present bit set or cleared. */
  function WithPresent(e: nat, present: bool): nat {
    if present then e - e % 2 + 1 else e - e % 2
  }

  // ---------------------------------------------------------------------
  // The walk
  // ---------------------------------------------------------------------

  function At(m: Memory, f: nat, i: nat): nat {
    if f in m && i < 512 then m[f][i] else 0
  }

  /** The second-level entry that leads to directory d, which serves pages 512 * d .. 512 * d + 511. */
  function Dir(m: Memory, root: nat, d: nat): nat {
    var e := At(m, root, d / 512);
    if Present(e) then At(m, Frame(e), d % 512) else 0
  }

  /** The entry that maps 2MB page p; 0 when a table on the way is missing. */
  function Leaf(m: Memory, root: nat, p: nat): nat {
    var e := Dir(m, root, p / 512);
    if Present(e) then At(m, Frame(e), p % 512) else 0
  }

  // ---------------------------------------------------------------------
  // Trees of tables
  // ---------------------------------------------------------------------

  /** The place of a table in its tree. */
  datatype Slot = Root | Second(i: nat) | Third(d: nat)

  ghost predicate Serves(slots: map<nat, Slot>, f: nat, s: Slot) {
    f in slots && slots[f] == s
  }

  /** Every table that a walk from the root can visit stands in one place of the tree only. */
  ghost predicate Tree(m: Memory, root: nat, slots: map<nat, Slot>) {
    && (forall f :: f in slots ==> f in m)
    && Serves(slots, root, Root)
    && (forall i: nat :: Present(At(m, root, i)) ==> Serves(slots, Frame(At(m, root, i)), Second(i)))
    && (forall d: nat :: Present(Dir(m, root, d)) ==> Serves(slots, Frame(Dir(m, root, d)), Third(d)))
  }

  /** In a tree, tables reached through different entries are different tables. */
  lemma TreeSharesNoTable(m: Memory, root: nat, slots: map<nat, Slot>, i: nat, j: nat, d: nat, e: nat)
    requires Tree(m, root, slots)
    requires Present(At(m, root, i)) && Present(At(m, root, j)) && Present(Dir(m, root, d)) && Present(Dir(m, root, e))
    ensures Frame(At(m, root, i)) == Frame(At(m, root, j)) <==> i == j
    ensures Frame(Dir(m, root, d)) == Frame(Dir(m, root, e)) <==> d == e
    ensures root != Frame(At(m, root, i)) && root != Frame(Dir(m, root, d)) && Frame(At(m, root, i)) != Frame(Dir(m, root, d))
  {
    assert Serves(slots, Frame(At(m, root, i)), Second(i)) && Serves(slots, Frame(At(m, root, j)), Second(j));
    assert Serves(slots, Frame(Dir(m, root, d)), Third(d)) && Serves(slots, Frame(Dir(m, root, e)), Third(e));
  }

  /** Memory writes outside a tree's tables change nothing that a walk of it finds. */
  lemma OtherTree(m: Memory, m': Memory, root: nat, slots: map<nat, Slot>)
    requires Tree(m, root, slots)
    requires forall f :: f in slots ==> f in m' && m'[f] == m[f]
    ensures Tree(m', root, slots)
    ensures forall p: nat :: Leaf(m', root, p) == Leaf(m, root, p)
  {
    forall i: nat ensures At(m', root, i) == At(m, root, i) {}
    forall d: nat ensures Dir(m', root, d) == Dir(m, root, d) {
      if Present(At(m, root, d / 512)) { assert Serves(slots, Frame(At(m, root, d / 512)), Second(d / 512)); }
    }
    forall p: nat ensures Leaf(m', root, p) == Leaf(m, root, p) {
      if Present(Dir(m, root, p / 512)) { assert Serves(slots, Frame(Dir(m, root, p / 512)), Third(p / 512)); }
    }
  }

  // ---------------------------------------------------------------------
  // The three table writes
  // ---------------------------------------------------------------------

  /** Nothing translates differently. */
  ghost predicate SameLeaves(m: Memory, m': Memory, root: nat) {
    forall p: nat :: Leaf(m', root, p) == Leaf(m, root, p)
  }

  /** The second-level tables there are: those of m, and the one for place i if added. */
  ghost predicate Tops(m: Memory, m': Memory, root: nat, i: nat, added: bool) {
    forall j: nat :: Present(At(m', root, j)) <==> Present(At(m, root, j)) || (j == i && added)
  }

  /** The directories there are. */
  ghost predicate Dirs(m: Memory, m': Memory, root: nat, d: nat, added: bool) {
    forall e: nat :: Present(Dir(m', root, e)) <==> Present(Dir(m, root, e)) || (e == d && added)
  }

  /** Page p has entry e and no other page translates differently. */
  ghost predicate LeafSet(m: Memory, m': Memory, root: nat, p: nat, e: nat) {
    forall q: nat :: Leaf(m', root, q) == if q == p then e else Leaf(m, root, q)
  }

  function Put(m: Memory, f: nat, i: nat, e: nat): Memory
    requires f in m && i < 512
  {
    m[f := m[f][i := e]]
  }

  /** A cleared fresh table entered in the root: nothing translates differently. */
  lemma AddSecond(m: Memory, root: nat, slots: map<nat, Slot>, i: nat, f: nat)
    requires Tree(m, root, slots) && i < 512 && !Present(At(m, root, i))
    requires f !in slots && f % 4096 == 0
    ensures var m' := Put(m[f := Zero()], root, i, f + 3);
      && Tree(m', root, slots[f := Second(i)])
      && Tops(m, m', root, i, true) && Dirs(m, m', root, 0, false) && SameLeaves(m, m', root)
  {
    var m' := Put(m[f := Zero()], root, i, f + 3);
    EntryOf(f);
    forall d: nat ensures Dir(m', root, d) == Dir(m, root, d) {
      if Present(At(m, root, d / 512)) { assert Serves(slots, Frame(At(m, root, d / 512)), Second(d / 512)); }
    }
    LeavesFromDirs(m, m', root, slots);
  }

  /** With the same directories in the same places, the walk's last step is the same. */
  lemma LeavesFromDirs(m: Memory, m': Memory, root: nat, slots: map<nat, Slot>)
    requires Tree(m, root, slots)
    requires forall d: nat :: Dir(m', root, d) == Dir(m, root, d)
    requires forall f :: f in slots && slots[f].Third? ==> f in m' && m'[f] == m[f]
    ensures forall p: nat :: Leaf(m', root, p) == Leaf(m, root, p)
  {
    forall p: nat ensures Leaf(m', root, p) == Leaf(m, root, p) {
      if Present(Dir(m, root, p / 512)) { assert Serves(slots, Frame(Dir(m, root, p / 512)), Third(p / 512)); }
    }
  }

  /** A cleared fresh table entered in a second-level table: nothing translates differently. */
  lemma AddThird(m: Memory, root: nat, slots: map<nat, Slot>, d: nat, f: nat, g: nat, m': Memory)
    requires Tree(m, root, slots) && Present(At(m, root, d / 512)) && !Present(Dir(m, root, d))
    requires f !in slots && f % 4096 == 0
    requires Serves(slots, g, Second(d / 512)) && g == Frame(At(m, root, d / 512)) && m' == Put(m[f := Zero()], g, d % 512, f + 3)
    ensures Tree(m', root, slots[f := Third(d)])
    ensures Tops(m, m', root, 0, false) && Dirs(m, m', root, d, true) && SameLeaves(m, m', root)
  {
    EntryOf(f);
    forall j: nat ensures At(m', root, j) == At(m, root, j) {
      assert Serves(slots, root, Root);
    }
    forall e: nat ensures Dir(m', root, e) == if e == d then f + 3 else Dir(m, root, e) {
      if Present(At(m, root, e / 512)) { assert Serves(slots, Frame(At(m, root, e / 512)), Second(e / 512)); }
    }
    forall p: nat ensures Leaf(m', root, p) == Leaf(m, root, p) {
      if Present(Dir(m, root, p / 512)) { assert Serves(slots, Frame(Dir(m, root, p / 512)), Third(p / 512)); }
    }
  }

  /** An entry written in a directory: that page translates by it, every other page as before. */
  lemma SetLeaf(m: Memory, root: nat, slots: map<nat, Slot>, p: nat, e: nat)
    requires Tree(m, root, slots) && Present(Dir(m, root, p / 512))
    ensures var g := Frame(Dir(m, root, p / 512));
      && Serves(slots, g, Third(p / 512))
      && var m' := Put(m, g, p % 512, e);
      && Tree(m', root, slots)
      && (forall d: nat :: Dir(m', root, d) == Dir(m, root, d))
      && Tops(m, m', root, 0, false) && LeafSet(m, m', root, p, e)
  {
    var g := Frame(Dir(m, root, p / 512));
    assert Serves(slots, g, Third(p / 512));
    var m' := Put(m, g, p % 512, e);
    forall d: nat ensures Dir(m', root, d) == Dir(m, root, d) {
      if Present(At(m, root, d / 512)) { assert Serves(slots, Frame(At(m, root, d / 512)), Second(d / 512)); }
    }
    forall q: nat ensures Leaf(m', root, q) == if q == p then e else Leaf(m, root, q) {
      if Present(Dir(m, root, q / 512)) { assert Serves(slots, Frame(Dir(m, root, q / 512)), Third(q / 512)); }
    }
  }

  // ---------------------------------------------------------------------
  // Tables laid out in one stretch: the boot tables and the emulator's
  // ---------------------------------------------------------------------

  /** Frame k of a stretch: 0 is the root, 1 the second-level table, d + 2 directory d. */
  function FrameAt(base: nat, k: nat): nat { base + k * 4096 }

  /** A root, one second-level table and some directories behind it, at consecutive frames from base on. */
  ghost predicate LaidOut(m: Memory, base: nat, pdts: seq<Table>) {
    && |pdts| <= 512 && (forall k: nat :: k < |pdts| + 2 ==> FrameAt(base, k) in m)
    && (forall i: nat :: At(m, base, i) == if i == 0 then FrameAt(base, 1) + 3 else 0)
    && (forall i: nat :: At(m, FrameAt(base, 1), i) == if i < |pdts| then FrameAt(base, i + 2) + 3 else 0)
    && (forall i: nat :: i < |pdts| ==> m[FrameAt(base, i + 2)] == pdts[i])
  }

  function LayoutFrames(base: nat, n: nat): set<nat> {
    set k: nat | k < n + 2 :: FrameAt(base, k)
  }

  function SlotOf(k: int): Slot {
    if k <= 0 then Root else if k == 1 then Second(0) else Third(k - 2)
  }

  function LayoutSlots(base: nat, n: nat): map<nat, Slot> {
    map f | f in LayoutFrames(base, n) :: SlotOf((f - base) / 4096)
  }

  lemma LayoutSlot(base: nat, n: nat, k: nat)
    requires k < n + 2
    ensures Serves(LayoutSlots(base, n), FrameAt(base, k), SlotOf(k))
  {
    assert FrameAt(base, k) in LayoutFrames(base, n);
    assert (FrameAt(base, k) - base) / 4096 == k;
  }

  /** A page below 512 * n translates by its directory's entry and no other page is mapped. */
  lemma LayoutWalk(m: Memory, base: nat, pdts: seq<Table>)
    requires base % 4096 == 0 && LaidOut(m, base, pdts)
    ensures forall p: nat :: Leaf(m, base, p) == if p / 512 < |pdts| then pdts[p / 512][p % 512] else 0
  {
    forall p: nat ensures Leaf(m, base, p) == if p / 512 < |pdts| then pdts[p / 512][p % 512] else 0 {
      LayoutDir(m, base, pdts, p / 512);
      EntryOf(FrameAt(base, p / 512 + 2));
    }
  }

  /** No table of the stretch is shared. */
  lemma LayoutTree(m: Memory, base: nat, pdts: seq<Table>)
    requires base % 4096 == 0 && LaidOut(m, base, pdts)
    ensures Tree(m, base, LayoutSlots(base, |pdts|))
  {
    var slots := LayoutSlots(base, |pdts|);
    forall f | f in slots ensures f in m {
      var k: nat :| k < |pdts| + 2 && f == FrameAt(base, k);
    }
    LayoutSlot(base, |pdts|, 0);
    forall i: nat | Present(At(m, base, i)) ensures Serves(slots, Frame(At(m, base, i)), Second(i)) {
      EntryOf(FrameAt(base, 1));
      LayoutSlot(base, |pdts|, 1);
    }
    forall d: nat | Present(Dir(m, base, d)) ensures Serves(slots, Frame(Dir(m, base, d)), Third(d)) {
      LayoutDir(m, base, pdts, d);
      EntryOf(FrameAt(base, d + 2));
      LayoutSlot(base, |pdts|, d + 2);
    }
  }

  lemma EntryOf(f: nat)
    requires f % 4096 == 0
    ensures Frame(f + 3) == f && Present(f + 3)
  {
  }

  /** One more directory behind a stretch. */
  lemma LayoutGrows(m: Memory, base: nat, pdts: seq<Table>, t: Table)
    requires LaidOut(m, base, pdts) && |pdts| < 512
    ensures FrameAt(base, 1) in m
    ensures var f := FrameAt(base, |pdts| + 2);
      LaidOut(Put(m, FrameAt(base, 1), |pdts|, f + 3)[f := t], base, pdts + [t])
  {
    var n := |pdts|;
    var f := FrameAt(base, n + 2);
    assert FrameAt(base, 0) in m && FrameAt(base, 1) in m;
    var m' := Put(m, FrameAt(base, 1), n, f + 3)[f := t];
    forall k: nat | k < n + 3 ensures FrameAt(base, k) in m' {
      if k < n + 2 { assert FrameAt(base, k) in m; }
    }
    forall i: nat ensures At(m', base, i) == At(m, base, i) {}
    forall i: nat ensures At(m', FrameAt(base, 1), i) == if i == n then f + 3 else At(m, FrameAt(base, 1), i) {}
    forall i: nat | i < n + 1 ensures m'[FrameAt(base, i + 2)] == (pdts + [t])[i] {
      if i < n { assert m[FrameAt(base, i + 2)] == pdts[i]; }
    }
  }

  lemma LayoutDir(m: Memory, base: nat, pdts: seq<Table>, d: nat)
    requires base % 4096 == 0 && LaidOut(m, base, pdts)
    ensures Dir(m, base, d) == if d < |pdts| then FrameAt(base, d + 2) + 3 else 0
  {
    EntryOf(FrameAt(base, 1));
    if d < 512 {
      assert d / 512 == 0 && d % 512 == d;
    } else {
      assert d / 512 > 0 && !Present(0);
    }
  }

  /** boot.asm's entry for page p: address p << 21, present, writable, 2MB. */
  function BootEntry(p: nat): nat { p * 0x20_0000 + 0x83 }

  /** The tables that boot.asm assembles: 64 directories with one entry after the other. */
  ghost predicate BootTables(m: Memory, base: nat, pdts: seq<Table>) {
    && base % 4096 == 0 && |pdts| == 64 && LaidOut(m, base, pdts)
    && forall d, k :: 0 <= d < 64 && 0 <= k < 512 ==> pdts[d][k] == BootEntry(512 * d + k)
  }

  /** The boot tables map the first 64GB, page by page, and share no table. */
  lemma BootMaps(m: Memory, base: nat, pdts: seq<Table>)
    requires BootTables(m, base, pdts)
    ensures Tree(m, base, LayoutSlots(base, 64))
    ensures forall p: nat :: Leaf(m, base, p) == if p < 32768 then BootEntry(p) else 0
  {
    LayoutTree(m, base, pdts);
    LayoutWalk(m, base, pdts);
    forall p: nat ensures Leaf(m, base, p) == if p < 32768 then BootEntry(p) else 0 {
      if p < 32768 {
        assert 512 * (p / 512) + p % 512 == p;
      }
    }
  }

  datatype Option<T> = None | Some(value: T)

  /** The physical address of va when entry e maps its 2MB page, if that page is present. */
  function Resolve(e: nat, va: nat): Option<nat> {
    if Present(e) then Some(e - e % 0x20_0000 + va % 0x20_0000) else None
  }

  function Translate(m: Memory, root: nat, va: nat): Option<nat> {
    Resolve(Leaf(m, root, va / 0x20_0000), va)
  }

  /** The entry made for a page from its own address sends each address of the page to itself. */
  lemma IdentityEntry(flags: nat, va: nat)
    requires flags < 0x80
    ensures Resolve(va / 0x20_0000 * 0x20_0000 + flags + 0x80, va) == if flags % 2 == 1 then Some(va) else None
  {
  }

  /** The boot tables send every address below 64GB to itself and map nothing else. */
  lemma BootIsIdentity(m: Memory, base: nat, pdts: seq<Table>, va: nat)
    requires BootTables(m, base, pdts)
    ensures Translate(m, base, va) == if va < 64 * 0x4000_0000 then Some(va) else None
  {
    BootMaps(m, base, pdts);
    BootResolves(Leaf(m, base, va / 0x20_0000), va);
  }

  lemma BootResolves(e: nat, va: nat)
    requires e == if va / 0x20_0000 < 32768 then BootEntry(va / 0x20_0000) else 0
    ensures Resolve(e, va) == if va < 64 * 0x4000_0000 then Some(va) else None
  {
    IdentityEntry(3, va);
  }
}
