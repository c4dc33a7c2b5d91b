/** The 2MB physical page pool of malloc.c: an array of page addresses that is
    popped from its end, searched for runs of adjacent pages, and pushed back to. */
module PagePool {

  const PAGE: nat := 0x20_0000
  const MAX_FREE_BLOCKS: nat := 65536
  const LOW_LIMIT: nat := 0x10_0000

  // ---------------------------------------------------------------------
  // The pool as a sequence
  // ---------------------------------------------------------------------

  /** Entries i .. i+n of the pool are n physically adjacent pages, in order. */
  predicate RunAt(s: seq<nat>, i: nat, n: nat) {
    i + n <= |s| && forall k :: i < k < i + n ==> s[k] == s[k - 1] + PAGE
  }

  /** First index, from i on, at which n adjacent pages stand; |s| when there is none. */
  function FirstRun(s: seq<nat>, n: nat, i: nat): (r: nat)
    requires n >= 2 && i <= |s|
    ensures r <= |s|
    ensures r < |s| ==> i <= r && RunAt(s, r, n)
    ensures forall k :: i <= k < r ==> !RunAt(s, k, n)
    decreases |s| - i
  {
    if i == |s| || i + n > |s| then |s|
    else if RunAt(s, i, n) then i
    else FirstRun(s, n, i + 1)
  }

  /** What an allocation of n adjacent pages returns (0 is NULL) and leaves behind. */
  function Take(s: seq<nat>, n: nat): (nat, seq<nat>) {
    if n == 0 || |s| == 0 then (0, s)
    else if n == 1 then (s[|s| - 1], s[..|s| - 1])
    else
      var i := FirstRun(s, n, 0);
      if i < |s| then (s[i], s[..i] + s[i + n..]) else (0, s)
  }

  ghost predicate Ascending(s: seq<nat>) {
    forall i, j :: 0 <= i < j < |s| ==> s[i] < s[j]
  }

  ghost predicate Pages(s: seq<nat>) {
    forall i :: 0 <= i < |s| ==> s[i] > 0 && s[i] % PAGE == 0
  }

  ghost predicate Distinct(s: seq<nat>) {
    forall i, j :: 0 <= i < j < |s| ==> s[i] != s[j]
  }

  /** The pool after pmm_free_page: an aligned page goes to the end, if there is room. */
  function Push(s: seq<nat>, page: nat): seq<nat> {
    if page % PAGE == 0 && |s| < MAX_FREE_BLOCKS then s + [page] else s
  }

  function Nth(a: nat, k: nat): nat { a + k * PAGE }

  /** The pool holds, in whatever order, the n adjacent pages that start at a. */
  ghost predicate HoldsRun(s: seq<nat>, a: nat, n: nat) {
    forall k: nat :: k < n ==> Nth(a, k) in s
  }

  /** Page p is one of the n adjacent pages that start at a. */
  ghost predicate InRun(p: nat, a: nat, n: nat) {
    exists k: nat :: k < n && p == Nth(a, k)
  }

  /** rest holds the pages of s other than the n adjacent pages that start at a. */
  ghost predicate PagesLeft(s: seq<nat>, a: nat, n: nat, rest: seq<nat>) {
    forall p: nat {:trigger p in rest} {:trigger p in s} :: p in rest <==> p in s && !InRun(p, a, n)
  }

  // ---------------------------------------------------------------------
  // What one allocation removes
  // ---------------------------------------------------------------------

  lemma {:induction false} RunElements(s: seq<nat>, i: nat, n: nat, k: nat)
    requires RunAt(s, i, n) && k < n
    ensures s[i + k] == Nth(s[i], k)
  {
    if k > 0 {
      RunElements(s, i, n, k - 1);
      assert s[i + k] == s[i + k - 1] + PAGE;
    }
  }

  /** The run entries i .. i+n of a pool are exactly the n pages that start at its first. */
  lemma RunIsItsPages(s: seq<nat>, i: nat, n: nat, p: nat)
    requires RunAt(s, i, n) && n > 0
    ensures p in s[i..i + n] <==> InRun(p, s[i], n)
  {
    if p in s[i..i + n] {
      var m :| 0 <= m < n && s[i..i + n][m] == p;
      RunElements(s, i, n, m);
    }
    if k: nat :| k < n && p == Nth(s[i], k) {
      RunElements(s, i, n, k);
      assert s[i..i + n][k] == p;
    }
  }

  /** Without duplicates, cutting out a stretch removes its entries and nothing else. */
  lemma CutElements(s: seq<nat>, i: nat, n: nat, p: nat)
    requires Distinct(s) && i + n <= |s|
    ensures p in s[..i] + s[i + n..] <==> p in s && p !in s[i..i + n]
  {
    assert s == s[..i] + s[i..i + n] + s[i + n..];
    if p in s[i..i + n] {
      var m :| i <= m < i + n && s[m] == p;
      assert p !in s[..i] && p !in s[i + n..];
    }
  }

  lemma CutKeeps(s: seq<nat>, i: nat, n: nat)
    requires i + n <= |s|
    ensures Pages(s) ==> Pages(s[..i] + s[i + n..])
    ensures Distinct(s) ==> Distinct(s[..i] + s[i + n..])
    ensures Ascending(s) ==> Ascending(s[..i] + s[i + n..])
  {
    var rest := s[..i] + s[i + n..];
    assert forall j :: 0 <= j < |rest| ==> rest[j] == s[if j < i then j else j + n];
  }

  /** A successful allocation removes exactly the n pages it returns, whatever the order of the pool. */
  lemma TakeRemovesRun(s: seq<nat>, n: nat)
    requires Pages(s) && Distinct(s)
    requires Take(s, n).0 != 0
    ensures HoldsRun(s, Take(s, n).0, n)
    ensures PagesLeft(s, Take(s, n).0, n, Take(s, n).1)
    ensures Pages(Take(s, n).1) && Distinct(Take(s, n).1)
    ensures |Take(s, n).1| + n == |s|
    ensures Ascending(s) ==> Ascending(Take(s, n).1)
  {
    var (a, rest) := Take(s, n);
    var i := if n == 1 then |s| - 1 else FirstRun(s, n, 0);
    assert rest == s[..i] + s[i + n..];
    CutKeeps(s, i, n);
    forall k: nat | k < n ensures Nth(a, k) in s { RunElements(s, i, n, k); }
    forall p: nat ensures p in rest <==> p in s && !InRun(p, a, n) {
      RunIsItsPages(s, i, n, p);
      CutElements(s, i, n, p);
    }
  }

  /** A failed allocation leaves the pool as it was. */
  lemma TakeFailureKeeps(s: seq<nat>, n: nat)
    requires Pages(s)
    ensures Take(s, n).0 == 0 ==> Take(s, n).1 == s
  {
  }

  // ---------------------------------------------------------------------
  // Building the pool from the memory map
  // ---------------------------------------------------------------------

  datatype Region = Region(addr: nat, len: nat, usable: bool)
  datatype Span = Span(start: nat, end: nat)

  function RoundUp(a: nat): (r: nat)
    ensures r % PAGE == 0 && a <= r < a + PAGE
  {
    (a + PAGE - 1) / PAGE * PAGE
  }

  function RoundDown(a: nat): (r: nat)
    ensures r % PAGE == 0 && r <= a < r + PAGE
  {
    a / PAGE * PAGE
  }

  predicate Excluded(b: nat, kernelEnd: nat, modules: seq<Span>) {
    || b < LOW_LIMIT
    || b < kernelEnd
    || exists m :: 0 <= m < |modules| && modules[m].start <= b < modules[m].end
  }

  predicate Inside(b: nat, r: Region) {
    r.usable && r.addr <= b && b + PAGE <= r.addr + r.len
  }

  predicate Fits(b: nat, r: Region, kernelEnd: nat, modules: seq<Span>) {
    b % PAGE == 0 && !Excluded(b, kernelEnd, modules) && Inside(b, r)
  }

  /** A page the pool should hold: aligned, wholly inside usable memory, its start not excluded. */
  ghost predicate Eligible(b: nat, map_: seq<Region>, kernelEnd: nat, modules: seq<Span>) {
    b % PAGE == 0 && !Excluded(b, kernelEnd, modules) && exists i :: 0 <= i < |map_| && Inside(b, map_[i])
  }

  /** Written out: at or above the end of the kernel and 1MB, aligned, its start in no module, and all its bytes in
      one usable region. */
  lemma EligibleMeans(map_: seq<Region>, kernelEnd: nat, modules: seq<Span>)
    ensures forall b: nat :: Eligible(b, map_, kernelEnd, modules) <==>
      && b >= kernelEnd && b >= 0x10_0000 && b % 0x20_0000 == 0
      && (forall m :: 0 <= m < |modules| ==> b < modules[m].start || modules[m].end <= b)
      && exists i :: 0 <= i < |map_| && map_[i].usable && map_[i].addr <= b && b + 0x20_0000 <= map_[i].addr + map_[i].len
  {
  }

  /** One more region makes eligible just the pages inside it that are not excluded. */
  lemma ExtendMap(map_: seq<Region>, i: nat, kernelEnd: nat, modules: seq<Span>)
    requires i < |map_|
    ensures map_[..i + 1] == map_[..i] + [map_[i]]
    ensures forall b: nat {:trigger Eligible(b, map_[..i + 1], kernelEnd, modules)} ::
      (Eligible(b, map_[..i + 1], kernelEnd, modules)
       <==> Eligible(b, map_[..i], kernelEnd, modules) || Fits(b, map_[i], kernelEnd, modules))
  {
    forall b: nat
      ensures Eligible(b, map_[..i + 1], kernelEnd, modules)
         <==> Eligible(b, map_[..i], kernelEnd, modules) || Fits(b, map_[i], kernelEnd, modules)
    {
      assert map_[..i + 1][i] == map_[i];
      assert forall j :: 0 <= j < i ==> map_[..i + 1][j] == map_[..i][j];
    }
  }

  ghost predicate AscendingMap(map_: seq<Region>) {
    forall i, j :: 0 <= i < j < |map_| ==> map_[i].addr + map_[i].len <= map_[j].addr
  }

  /** Pages of earlier regions lie below every page of a later region. */
  lemma EarlierPagesBelow(pages: seq<nat>, before: seq<Region>, r: Region, kernelEnd: nat, modules: seq<Span>)
    requires AscendingMap(before + [r])
    requires forall b :: b in pages ==> Eligible(b, before, kernelEnd, modules)
    ensures forall k :: 0 <= k < |pages| ==> pages[k] < r.addr
  {
    forall k | 0 <= k < |pages| ensures pages[k] < r.addr {
      assert pages[k] in pages;
      var j :| 0 <= j < |before| && Inside(pages[k], before[j]);
      assert (before + [r])[j] == before[j] && (before + [r])[|before|] == r;
    }
  }

  /** The pages of region r that lie below block and belong in the pool, in order. */
  ghost predicate Collected(added: seq<nat>, r: Region, block: nat, kernelEnd: nat, modules: seq<Span>) {
    && (forall k :: 0 <= k < |added| ==> Fits(added[k], r, kernelEnd, modules) && added[k] < block)
    && Ascending(added)
    && forall b: nat :: b < block && Fits(b, r, kernelEnd, modules) ==> b in added
  }

  lemma CollectNext(added: seq<nat>, r: Region, block: nat, kernelEnd: nat, modules: seq<Span>)
    requires Collected(added, r, block, kernelEnd, modules)
    requires r.usable && Aligned(block) && r.addr <= block && block + PAGE <= r.addr + r.len
    ensures Collected(if Excluded(block, kernelEnd, modules) then added else added + [block], r, block + PAGE, kernelEnd, modules)
  {
    var next := if Excluded(block, kernelEnd, modules) then added else added + [block];
    forall b: nat | b < block + PAGE && Fits(b, r, kernelEnd, modules) ensures b in next {
      if b >= block { OnlyMultiple(b / PAGE, block / PAGE); assert next[|added|] == block; }
    }
  }

  predicate Aligned(block: nat) { block % PAGE == 0 }

  lemma NextPage(block: nat, end: nat)
    requires Aligned(block) && Aligned(end) && block < end
    ensures block + PAGE <= end && Aligned(block + PAGE)
  {
  }

  lemma OnlyMultiple(x: nat, y: nat)
    requires y * PAGE <= x * PAGE < y * PAGE + PAGE
    ensures x == y
  {
  }

  lemma NothingBefore(r: Region, kernelEnd: nat, modules: seq<Span>)
    ensures Collected([], r, RoundUp(r.addr), kernelEnd, modules)
  {
    forall b: nat | b < RoundUp(r.addr) && Aligned(b) ensures b < r.addr { NextPage(b, RoundUp(r.addr)); }
  }

  lemma RegionPages(added: seq<nat>, r: Region, upto: nat, kernelEnd: nat, modules: seq<Span>)
    requires Collected(added, r, upto, kernelEnd, modules)
    ensures forall b :: b in added ==> Fits(b, r, kernelEnd, modules) && r.addr <= b
    ensures upto >= RoundDown(r.addr + r.len) ==> forall b: nat :: Fits(b, r, kernelEnd, modules) ==> b in added
  {
    forall b: nat | Fits(b, r, kernelEnd, modules) ensures b < RoundDown(r.addr + r.len) {}
  }

  lemma Appended(initial: seq<nat>, was: seq<nat>, added: seq<nat>, before: seq<nat>, after: seq<nat>)
    requires was <= added && before == initial + was && after == before + added[|was|..]
    ensures after == initial + added
  {
  }

  lemma AppendAscending(was: seq<nat>, added: seq<nat>, from: nat)
    requires Ascending(was) && Ascending(added)
    requires forall k :: 0 <= k < |was| ==> was[k] < from
    requires forall k :: 0 <= k < |added| ==> from <= added[k]
    ensures Ascending(was + added)
  {
  }

  ghost predicate Overlaps(b: nat, m: Span) {
    m.start < m.end && b < m.end && m.start < b + PAGE
  }

  /** A page that overlaps a module without starting in it is the page the module starts in. */
  lemma OverlapBeforeStart(b: nat, m: Span)
    requires b % PAGE == 0 && Overlaps(b, m) && !(m.start <= b < m.end)
    ensures b == RoundDown(m.start) && m.start % PAGE != 0
  {
  }

  /** Only the start of a page is tested against a module. A complete pool therefore stays clear of a
      module exactly when the page in which the module starts is not eligible or starts with it. */
  lemma ClearOfModuleIff(map_: seq<Region>, kernelEnd: nat, modules: seq<Span>, m: nat, pool: seq<nat>)
    requires m < |modules| && modules[m].start < modules[m].end
    requires forall b :: b in pool <==> Eligible(b, map_, kernelEnd, modules)
    ensures (forall b :: b in pool ==> !Overlaps(b, modules[m]))
       <==> (modules[m].start % PAGE == 0 || !Eligible(RoundDown(modules[m].start), map_, kernelEnd, modules))
  {
    var mod := modules[m];
    var first := RoundDown(mod.start);
    if mod.start % PAGE != 0 && Eligible(first, map_, kernelEnd, modules) {
      assert first in pool && Overlaps(first, mod);
    } else {
      forall b | b in pool ensures !Overlaps(b, mod) {
        assert Eligible(b, map_, kernelEnd, modules);
        if Overlaps(b, mod) { OverlapBeforeStart(b, mod); }
      }
    }
  }

  // ---------------------------------------------------------------------
  // The pool as the program keeps it
  // ---------------------------------------------------------------------

  class Pool {
    const blocks: array<nat>
    var count: nat

    ghost predicate Valid()
      reads this
    {
      blocks.Length == MAX_FREE_BLOCKS && count <= MAX_FREE_BLOCKS
    }

    ghost function Free(): seq<nat>
      requires Valid()
      reads this, blocks
    {
      blocks[..count]
    }

    constructor ()
      ensures Valid() && fresh(blocks) && Free() == []
    {
      blocks := new nat[MAX_FREE_BLOCKS];
      count := 0;
    }

    /** Fills an empty pool with the eligible pages of a memory map, in map order. */
    method InitFromMap(map_: seq<Region>, kernelEnd: nat, modules: seq<Span>)
      requires Valid() && count == 0
      modifies this, blocks
      ensures Valid()
      ensures forall b :: b in Free() ==> Eligible(b, map_, kernelEnd, modules)
      ensures count < MAX_FREE_BLOCKS ==> forall b: nat :: Eligible(b, map_, kernelEnd, modules) ==> b in Free()
      ensures AscendingMap(map_) ==> Ascending(Free())
      ensures Pages(Free()) && |Free()| <= 65536
      // the same without the tests of the loop
      ensures forall b :: b in Free() ==>
        && b >= kernelEnd && b >= 0x10_0000 && b % 0x20_0000 == 0
        && (forall m :: 0 <= m < |modules| ==> b < modules[m].start || modules[m].end <= b)
        && exists i :: 0 <= i < |map_| && map_[i].usable && map_[i].addr <= b && b + 0x20_0000 <= map_[i].addr + map_[i].len
      ensures |Free()| < 65536 ==> forall b: nat ::
        && b >= kernelEnd && b >= 0x10_0000 && b % 0x20_0000 == 0
        && (forall m :: 0 <= m < |modules| ==> b < modules[m].start || modules[m].end <= b)
        && (exists i :: 0 <= i < |map_| && map_[i].usable && map_[i].addr <= b && b + 0x20_0000 <= map_[i].addr + map_[i].len)
        ==> b in Free()
    {
      for i := 0 to |map_|
        invariant Valid()
        invariant forall b :: b in Free() ==> Eligible(b, map_[..i], kernelEnd, modules)
        invariant count < MAX_FREE_BLOCKS ==> forall b: nat :: Eligible(b, map_[..i], kernelEnd, modules) ==> b in Free()
        invariant AscendingMap(map_) ==> Ascending(Free())
      {
        var r := map_[i];
        ExtendMap(map_, i, kernelEnd, modules);
        if r.usable {
          AddRegion(r, kernelEnd, modules, map_[..i]);
        }
      }
      assert map_[..|map_|] == map_;
      EligibleMeans(map_, kernelEnd, modules);
      forall k | 0 <= k < count ensures Free()[k] > 0 && Free()[k] % PAGE == 0 {
        assert Free()[k] in Free();
      }
    }

    /** The inner loop of the map walk: one usable region, stopping when the pool is full. */
    method AddRegion(r: Region, kernelEnd: nat, modules: seq<Span>, ghost before: seq<Region>)
      requires Valid() && r.usable
      requires forall b :: b in Free() ==> Eligible(b, before, kernelEnd, modules)
      modifies this, blocks
      ensures Valid() && old(count) <= count && blocks[..old(count)] == old(Free())
      ensures forall b :: b in Free() ==>
        b in old(Free()) || Fits(b, r, kernelEnd, modules)
      ensures count < MAX_FREE_BLOCKS ==>
        forall b: nat :: Fits(b, r, kernelEnd, modules) ==> b in Free()
      ensures old(Ascending(Free())) && AscendingMap(before + [r]) ==> Ascending(Free())
    {
      ghost var was := Free();
      NothingBefore(r, kernelEnd, modules);
      ghost var added, upto := Collect(RoundUp(r.addr), RoundDown(r.addr + r.len), r, kernelEnd, modules);
      RegionPages(added, r, upto, kernelEnd, modules);
      if Ascending(was) && AscendingMap(before + [r]) {
        EarlierPagesBelow(was, before, r, kernelEnd, modules);
        AppendAscending(was, added, r.addr);
      }
    }

    /** Steps through the pages from block to end. */
    method Collect(first: nat, end: nat, r: Region, kernelEnd: nat, modules: seq<Span>)
      returns (ghost added: seq<nat>, ghost upto: nat)
      requires Valid() && r.usable && Aligned(first) && Aligned(end) && r.addr <= first && end <= r.addr + r.len
      requires Collected([], r, first, kernelEnd, modules)
      modifies this, blocks
      ensures Valid() && Free() == old(Free()) + added
      ensures Collected(added, r, upto, kernelEnd, modules) && (count < MAX_FREE_BLOCKS ==> upto >= end)
    {
      added := [];
      var block := first;
      while block < end
        invariant Valid() && Free() == old(Free()) + added
        invariant Aligned(block) && r.addr <= block
        invariant Collected(added, r, block, kernelEnd, modules)
        decreases end - block
      {
        ghost var was, before := added, Free();
        var full;
        full, block, added := CollectOne(block, end, r, kernelEnd, modules, added);
        assert Free() == old(Free()) + added by { Appended(old(Free()), was, added, before, Free()); }
        if full {
          return added, block;
        }
      }
      upto := block;
    }

    /** One page of the loop: it is kept, left out, or finds the pool full. */
    method CollectOne(block: nat, end: nat, r: Region, kernelEnd: nat, modules: seq<Span>, ghost added: seq<nat>)
      returns (full: bool, next: nat, ghost added': seq<nat>)
      requires Valid() && r.usable && Aligned(block) && Aligned(end) && r.addr <= block < end <= r.addr + r.len
      requires Collected(added, r, block, kernelEnd, modules)
      modifies this, blocks
      ensures Valid() && Aligned(next) && r.addr <= next <= end && Collected(added', r, next, kernelEnd, modules)
      ensures if full then next == block && count == MAX_FREE_BLOCKS else next > block
      ensures added <= added' && Free() == old(Free()) + added'[|added|..]
    {
      NextPage(block, end);
      CollectNext(added, r, block, kernelEnd, modules);
      full := Keep(block, kernelEnd, modules);
      if full {
        return true, block, added;
      }
      return false, block + PAGE, if Excluded(block, kernelEnd, modules) then added else added + [block];
    }

    /** Stores one page unless it is excluded or there is no room. */
    method Keep(block: nat, kernelEnd: nat, modules: seq<Span>) returns (full: bool)
      requires Valid()
      modifies this, blocks
      ensures Valid() && (full ==> count == MAX_FREE_BLOCKS && Free() == old(Free()))
      ensures !full ==> Free() == old(Free()) + if Excluded(block, kernelEnd, modules) then [] else [block]
    {
      if !Excluded(block, kernelEnd, modules) {
        if count == MAX_FREE_BLOCKS {
          return true;
        }
        Store(block);
      }
      return false;
    }

    /** Puts a page behind the others. */
    method Store(block: nat)
      requires Valid() && count < MAX_FREE_BLOCKS
      modifies this, blocks
      ensures Valid() && count == old(count) + 1 && Free() == old(Free()) + [block]
    {
      blocks[count] := block;
      count := count + 1;
    }

    /** Pops the last page. */
    method AllocPage() returns (page: nat)
      requires Valid()
      modifies this
      ensures Valid()
      ensures (page, Free()) == Take(old(Free()), 1)
      ensures old(Free()) == [] ==> page == 0 && Free() == []
      ensures old(Free()) != [] ==> page == old(Free())[|old(Free())| - 1] && Free() == old(Free())[..|old(Free())| - 1]
    {
      if count == 0 {
        return 0;
      }
      count := count - 1;
      page := blocks[count];
      assert Free() == old(Free())[..count];
    }

    /** First-fit search for a run of adjacent pages; the pages after it move down. */
    method AllocContiguous(n: nat) returns (page: nat)
      requires Valid()
      modifies this, blocks
      ensures Valid()
      ensures (page, Free()) == Take(old(Free()), n)
    {
      if n == 0 {
        return 0;
      }
      if n == 1 {
        page := AllocPage();
        return;
      }
      ghost var was := Free();
      var i := 0;
      while i + n <= count
        invariant Valid() && i <= count
        invariant Free() == was
        invariant FirstRun(was, n, 0) == FirstRun(was, n, i)
      {
        var contiguous := StartsRun(i, n);
        if contiguous {
          page := blocks[i];
          Shift(i, n);
          return;
        }
        i := i + 1;
      }
      return 0;
    }

    /** Compares n consecutive entries pairwise. */
    method StartsRun(i: nat, n: nat) returns (contiguous: bool)
      requires Valid() && n >= 2 && i + n <= count
      ensures contiguous <==> RunAt(Free(), i, n)
    {
      for j := 0 to n - 1
        invariant forall k :: i < k <= i + j ==> blocks[k] == blocks[k - 1] + PAGE
      {
        if blocks[i + j + 1] != blocks[i + j] + PAGE {
          assert Free()[i + j + 1] != Free()[i + j + 1 - 1] + PAGE;
          return false;
        }
      }
      return true;
    }

    /** Removes entries i .. i+n by moving the later ones down. */
    method Shift(i: nat, n: nat)
      requires Valid() && n > 0 && i + n <= count
      modifies this, blocks
      ensures Valid()
      ensures Free() == old(Free()[..i] + Free()[i + n..])
    {
      ghost var was := Free();
      ghost var target := was[..i] + was[i + n..];
      for k := i + n to count
        invariant count == |was| && Valid()
        invariant forall m :: 0 <= m < k - n ==> blocks[m] == target[m]
        invariant forall m :: k <= m < count ==> blocks[m] == was[m]
      {
        blocks[k - n] := blocks[k];
      }
      count := count - n;
      assert Free() == target;
    }

    /** Pushes a page back; unaligned addresses and a full pool are ignored. */
    method FreePage(addr: nat)
      requires Valid()
      modifies this, blocks
      ensures Valid()
      ensures Free() == Push(old(Free()), addr)
      ensures addr % 0x20_0000 == 0 && |old(Free())| < 65536 ==> Free() == old(Free()) + [addr]
      ensures addr % 0x20_0000 != 0 || |old(Free())| >= 65536 ==> Free() == old(Free())
    {
      if addr % PAGE != 0 {
        return;
      }
      if count < MAX_FREE_BLOCKS {
        Store(addr);
      }
    }
  }
}
