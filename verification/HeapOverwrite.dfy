/** What becomes of the list when a split header lands on a live one: headers as the words of memory they are. */
module HeapOverwrite {
  import opened HeapModel
  import opened HeapHeaders
  import opened HeapPointers
  import opened HeapLinks
  import opened PagePool

  /** Memory as 32-bit words, by address. */
  type Words = nat -> nat

  const WORD: nat := 0x1_0000_0000

  ghost predicate Wide(w: Words) { forall x :: w(x) < WORD }

  function Write(w: Words, a: nat, v: nat): Words { x => if x == a then v else w(x) }

  function Long(w: Words, a: nat): nat { w(a) + WORD * w(a + 4) }

  function WriteLong(w: Words, a: nat, v: nat): Words { Write(Write(w, a, v % WORD), a + 4, v / WORD) }

  /** struct malloc_header: size in bytes 0 to 7, is_free in bytes 8 to 11, next in bytes 16 to 23. */
  function ReadHeader(w: Words, a: nat): Header { Header(Long(w, a), w(a + 8) != 0, Long(w, a + 16)) }

  function WriteHeader(w: Words, a: nat, h: Header): Words {
    WriteLong(Write(WriteLong(w, a, h.size), a + 8, if h.isFree then 1 else 0), a + 16, h.next)
  }

  lemma LongReads(v: nat)
    ensures v % WORD + WORD * (v / WORD) == v
  {
  }

  lemma HeaderReadsBack(w: Words, a: nat, h: Header)
    ensures ReadHeader(WriteHeader(w, a, h), a) == h
  {
    LongReads(h.size);
    LongReads(h.next);
  }

  lemma ApartReads(w: Words, a: nat, b: nat, h: Header)
    requires ApartAt(a, b)
    ensures ReadHeader(WriteHeader(w, a, h), b) == ReadHeader(w, b)
  {
  }

  /** The headers of m can be read in memory. */
  ghost predicate Holds(w: Words, m: Memory) { forall a :: a in m ==> ReadHeader(w, a) == m[a] }

  /** Writing a header into words does what Stored says: it can be read back, and so can every header it
      does not touch. */
  lemma WriteIsStored(w: Words, m: Memory, a: nat, h: Header)
    requires Holds(w, m)
    ensures Holds(WriteHeader(w, a, h), Stored(m, a, h))
  {
    HeaderReadsBack(w, a, h);
    forall b | b in Stored(m, a, h) && b != a ensures ReadHeader(WriteHeader(w, a, h), b) == m[b] {
      ApartReads(w, a, b, h);
    }
  }

  // ---------------------------------------------------------------------
  // A history that loses memory
  // ---------------------------------------------------------------------

  const TOP: nat := 8 * MB
  const MID: nat := 6 * MB

  /** The list after the two lower of three extents are freed: the last block is joined from blocks that
      do not lie end to end and reaches over the first. */
  function Joined(): State { State([Block(TOP, PAGE - HDR, false), Block(MID, 2 * PAGE - HDR, true)], []) }

  lemma JoinedReached()
    ensures var ops := [DoFree(MID + HDR), DoFree(4 * MB + HDR)];
      LegalRun(ThreeExtents(), ops) && Run(ThreeExtents(), ops) == Joined()
  {
    var a, b, c := Block(TOP, PAGE - HDR, false), Block(MID, PAGE - HDR, false), Block(4 * MB, PAGE - HDR, false);
    var s1 := State([a, b.(free := true), c], []);
    FreeMiddle(a, b, c);
    assert Legal(ThreeExtents(), DoFree(MID + HDR)) && Step(ThreeExtents(), DoFree(MID + HDR)) == s1;
    FreeLast(a, b.(free := true), c);
    assert Legal(s1, DoFree(4 * MB + HDR)) && Step(s1, DoFree(4 * MB + HDR)) == Joined();
    var ops := [DoFree(MID + HDR), DoFree(4 * MB + HDR)];
    assert ops[1..] == [DoFree(4 * MB + HDR)] && [DoFree(4 * MB + HDR)][1..] == [];
    OneStep(s1, ops[1]);
  }

  lemma OneStep(s: State, op: Op)
    requires Legal(s, op)
    ensures LegalRun(s, [op]) && Run(s, [op]) == Step(s, op)
  {
    assert [op][1..] == [];
  }

  /** The next request puts a split header 8 bytes below the header of the block at 8MB, which is in use:
      the test before the call fails, and the list model's result is not separate. */
  lemma SplitOntoHeader()
    ensures Separate(Joined().blocks) && !MallocClear(Joined(), PAGE - 32)
    ensures Malloc(Joined(), PAGE - 32) ==
      (State([Block(TOP, PAGE - HDR, false), Block(MID, PAGE - 32, false), Block(TOP - 8, PAGE - 16, true)], []), MID + HDR)
    ensures !Separate(Malloc(Joined(), PAGE - 32).0.blocks)
  {
    var bs := Joined().blocks;
    assert Round16(PAGE - 32) == PAGE - 32 && FirstFit(bs, PAGE - 32) == 1;
    var r := Malloc(Joined(), PAGE - 32).0.blocks;
    assert r == [bs[0], Block(MID, PAGE - 32, false), Block(TOP - 8, PAGE - 16, true)];
    assert !Apart(r[0], r[2]);
    MallocSeparateIff(Joined(), PAGE - 32);
  }

  /** Memory as that malloc finds and leaves it, writing the split header and then the header it cut. */
  ghost predicate Finds(w: Words) {
    && Wide(w)
    && ReadHeader(w, TOP) == Header(PAGE - HDR, false, MID)
    && ReadHeader(w, MID) == Header(2 * PAGE - HDR, true, NULL)
  }

  lemma SomeMemoryFinds() returns (w: Words)
    ensures Finds(w)
  {
    var h, k := Header(2 * PAGE - HDR, true, NULL), Header(PAGE - HDR, false, MID);
    var w0 := (a: nat) => 0;
    var w1 := WriteHeader(w0, MID, h);
    w := WriteHeader(w1, TOP, k);
    WriteKeepsWide(w0, MID, h);
    WriteKeepsWide(w1, TOP, k);
    HeaderReadsBack(w0, MID, h);
    HeaderReadsBack(w1, TOP, k);
    ApartReads(w1, TOP, MID, k);
  }

  lemma WriteKeepsWide(w: Words, a: nat, h: Header)
    requires Wide(w) && h.size < WORD && h.next < WORD
    ensures Wide(WriteHeader(w, a, h))
  {
  }

  function Leaves(w: Words): Words {
    WriteHeader(WriteHeader(w, TOP - 8, Header(PAGE - 16, true, NULL)), MID, Header(PAGE - 32, false, TOP - 8))
  }

  /** The headers that can then be read. */
  const READ: Memory := map[
    TOP := Header(1, false, MID),
    MID := Header(PAGE - 32, false, TOP - 8),
    TOP - 8 := Header(PAGE - 16, true, NULL)]

  const LEFT: seq<Block> := [Block(TOP, 1, false), Block(MID, PAGE - 32, false), Block(TOP - 8, PAGE - 16, true)]

  lemma TopAfter(w: Words)
    requires Finds(w)
    ensures ReadHeader(Leaves(w), TOP) == Header(1, false, MID)
  {
  }

  lemma OthersAfter(w: Words)
    ensures ReadHeader(Leaves(w), MID) == Header(PAGE - 32, false, TOP - 8)
    ensures ReadHeader(Leaves(w), TOP - 8) == Header(PAGE - 16, true, NULL)
  {
    var rest := Header(PAGE - 16, true, NULL);
    var w1 := WriteHeader(w, TOP - 8, rest);
    HeaderReadsBack(w, TOP - 8, rest);
    HeaderReadsBack(w1, MID, Header(PAGE - 32, false, TOP - 8));
    ApartReads(w1, MID, TOP - 8, Header(PAGE - 32, false, TOP - 8));
  }

  /** Every such memory is left with a list in which the block at 8MB, still in use, has size 1. */
  lemma SplitCorruptsList(w: Words)
    requires Finds(w)
    ensures Holds(Leaves(w), READ) && ListIs(READ, TOP, LEFT)
  {
    TopAfter(w);
    OthersAfter(w);
    HoldsRead(Leaves(w));
    ReadIsLeft();
  }

  lemma HoldsRead(w: Words)
    requires ReadHeader(w, TOP) == READ[TOP] && ReadHeader(w, MID) == READ[MID] && ReadHeader(w, TOP - 8) == READ[TOP - 8]
    ensures Holds(w, READ)
  {
  }

  lemma ReadIsLeft()
    ensures ListIs(READ, TOP, LEFT)
  {
    assert Links(READ, TOP, [TOP, MID, TOP - 8]) && Shows(READ, [TOP, MID, TOP - 8], LEFT);
  }

  /** Of the 3 * PAGE bytes the list held before, PAGE - 25 are then in no block. */
  lemma SplitLosesBytes()
    ensures BlockBytes(Joined().blocks) == 3 * PAGE && BlockBytes(LEFT) == 2 * PAGE + 25
  {
    BytesOf(Joined().blocks);
    BytesOf(LEFT);
  }

  lemma BytesOf(bs: seq<Block>)
    requires 2 <= |bs| <= 3
    ensures BlockBytes(bs) == bs[0].size + bs[1].size + 2 * HDR + if |bs| == 3 then bs[2].size + HDR else 0
  {
    assert bs[1..][1..] == bs[2..];
    if |bs| == 3 { assert bs[2..][1..] == [] && bs[2..][0] == bs[2]; }
  }
}
