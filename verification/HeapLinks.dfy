/** The linked list of block headers in memory, and what each relinking of malloc.c
    does to the list of blocks it stands for. */
module HeapLinks {
  import opened HeapModel

  /** struct malloc_header, at some address; next is the address of another header or NULL. */
  datatype Header = Header(size: nat, isFree: bool, next: nat)

  /** The headers that can be read in memory, by address. */
  type Memory = map<nat, Header>

  /** Headers at a and b share no byte. */
  predicate ApartAt(a: nat, b: nat) { a + HDR <= b || b + HDR <= a }

  /** Memory after header h is written at a: every other header that shares a byte with it is lost. */
  function Stored(m: Memory, a: nat, h: Header): (m': Memory)
    ensures a in m' && m'[a] == h
    ensures forall x :: x in m && ApartAt(x, a) ==> x in m' && m'[x] == m[x]
    ensures forall x :: x in m' && x != a ==> x in m && ApartAt(x, a)
  {
    (map x | x in m && ApartAt(x, a) :: m[x])[a := h]
  }

  /** Headers at the addresses of chain share no byte. */
  ghost predicate ChainApart(chain: seq<nat>) {
    forall i, j :: 0 <= i < j < |chain| ==> ApartAt(chain[i], chain[j])
  }

  /** Address a is apart from every address of chain other than the one at index k. */
  ghost predicate ApartFrom(chain: seq<nat>, k: nat, a: nat) {
    forall i :: 0 <= i < |chain| && i != k ==> ApartAt(chain[i], a)
  }

  ghost predicate NoRepeats(chain: seq<nat>) {
    forall i, j :: 0 <= i < j < |chain| ==> chain[i] != chain[j]
  }

  ghost predicate AllIn(m: Memory, chain: seq<nat>) {
    forall i :: 0 <= i < |chain| ==> chain[i] in m
  }

  function At(chain: seq<nat>, i: nat): nat { if i < |chain| then chain[i] else NULL }

  /** Following next from start visits the headers of chain in order and ends at NULL. */
  ghost predicate Links(m: Memory, start: nat, chain: seq<nat>) {
    && NULL !in chain && NoRepeats(chain) && AllIn(m, chain)
    && start == At(chain, 0)
    && forall i :: 0 <= i < |chain| ==> m[chain[i]].next == At(chain, i + 1)
  }

  ghost function BlockAt(m: Memory, a: nat): Block
    requires a in m
  {
    Block(a, m[a].size, m[a].isFree)
  }

  /** bs is the list of blocks that the headers of chain stand for. */
  ghost predicate Shows(m: Memory, chain: seq<nat>, bs: seq<Block>) {
    |bs| == |chain| && AllIn(m, chain) && forall i :: 0 <= i < |bs| ==> bs[i] == BlockAt(m, chain[i])
  }

  /** Rewriting one header without its link changes that block only. */
  lemma SetHeader(m: Memory, start: nat, chain: seq<nat>, bs: seq<Block>, k: nat, isFree: bool)
    requires Links(m, start, chain) && Shows(m, chain, bs) && ChainApart(chain) && k < |chain|
    ensures var m' := Stored(m, chain[k], m[chain[k]].(isFree := isFree));
      Links(m', start, chain) && Shows(m', chain, bs[k := bs[k].(free := isFree)])
  {
    StoredKeeps(m, chain, k, m[chain[k]].(isFree := isFree));
  }

  function Inserted(chain: seq<nat>, k: nat, a: nat): (r: seq<nat>)
    requires k < |chain|
    ensures |r| == |chain| + 1
    ensures forall i {:trigger r[i]} :: 0 <= i < |r| ==> r[i] == if i <= k then chain[i] else if i == k + 1 then a else chain[i - 1]
  {
    chain[..k + 1] + [a] + chain[k + 1..]
  }

  lemma InsertedApart(chain: seq<nat>, k: nat, a: nat)
    requires ChainApart(chain) && k < |chain| && ApartFrom(chain, k, a) && ApartAt(chain[k], a)
    ensures ChainApart(Inserted(chain, k, a))
  {
  }

  function Removed(chain: seq<nat>, k: nat): (r: seq<nat>)
    requires k < |chain|
    ensures |r| == |chain| - 1
    ensures forall i {:trigger r[i]} :: 0 <= i < |r| ==> r[i] == if i < k then chain[i] else chain[i + 1]
  {
    chain[..k] + chain[k + 1..]
  }

  /** m' differs from m, as far as the list goes, in header chain[k], and has a header at a. */
  ghost predicate Inserts(m: Memory, m': Memory, chain: seq<nat>, k: nat, a: nat)
    requires k < |chain| && AllIn(m, chain)
  {
    && AllIn(m', chain) && a in m' && a !in chain && a != NULL
    && (forall i :: 0 <= i < |chain| && i != k ==> m'[chain[i]] == m[chain[i]])
    && m'[chain[k]].next == a && m'[a].next == m[chain[k]].next
  }

  /** A header linked in behind chain[k] extends the list there. */
  lemma InsertLinks(m: Memory, m': Memory, start: nat, chain: seq<nat>, k: nat, a: nat)
    requires Links(m, start, chain) && k < |chain| && Inserts(m, m', chain, k, a)
    ensures Links(m', start, Inserted(chain, k, a))
  {
    var chain' := Inserted(chain, k, a);
    forall i | 0 <= i < |chain'| ensures m'[chain'[i]].next == At(chain', i + 1) {
      if i == k + 1 { assert At(chain', i + 1) == At(chain, k + 1); }
      else if i > k + 1 { assert m'[chain'[i]] == m[chain[i - 1]]; }
      else if i < k { assert m'[chain'[i]] == m[chain[i]]; }
    }
  }

  /** On the blocks it replaces block k by two. */
  lemma InsertBlocks(m: Memory, m': Memory, chain: seq<nat>, bs: seq<Block>, k: nat, a: nat)
    requires k < |chain| && Shows(m, chain, bs) && Inserts(m, m', chain, k, a)
    ensures Shows(m', Inserted(chain, k, a), Replace(bs, k, [BlockAt(m', chain[k]), BlockAt(m', a)]))
  {
    var r := Replace(bs, k, [BlockAt(m', chain[k]), BlockAt(m', a)]);
    var chain' := Inserted(chain, k, a);
    forall i | 0 <= i < |r| ensures chain'[i] in m' && r[i] == BlockAt(m', chain'[i]) {
      if i > k + 1 { assert r[i] == bs[i - 1]; }
      else if i < k { assert r[i] == bs[i]; }
    }
  }

  /** Memory after header a is cut to size bytes and a free header for the rest is linked behind it. */
  function SplitMemory(m: Memory, a: nat, size: nat): Memory
    requires a in m && m[a].size >= size + HDR
  {
    Stored(
      Stored(m, a + HDR + size, Header(m[a].size - size - HDR, true, m[a].next)),
      a, m[a].(size := size, next := a + HDR + size))
  }

  function SplitBlocks(b: Block, size: nat): seq<Block>
    requires b.size >= size + HDR
  {
    [b.(size := size), Block(b.addr + HDR + size, b.size - size - HDR, true)]
  }

  lemma SplitInserts(m: Memory, m': Memory, chain: seq<nat>, k: nat, a: nat, split: nat, size: nat)
    requires k < |chain| && AllIn(m, chain) && ChainApart(chain) && a == chain[k] && ApartFrom(chain, k, split)
    requires m[a].size >= size + HDR && split == a + HDR + size && m' == SplitMemory(m, a, size)
    ensures Inserts(m, m', chain, k, split)
    ensures [BlockAt(m', a), BlockAt(m', split)] == SplitBlocks(BlockAt(m, a), size)
  {
  }

  /** After a split the list runs through the new header, whose block follows the one cut. */
  lemma SplitEffect(m: Memory, start: nat, chain: seq<nat>, bs: seq<Block>, k: nat, a: nat, size: nat) returns (chain': seq<nat>)
    requires Links(m, start, chain) && Shows(m, chain, bs) && ChainApart(chain) && k < |chain| && a == chain[k]
    requires m[a].size >= size + HDR && ApartFrom(chain, k, a + HDR + size)
    ensures ChainApart(chain')
    ensures var m' := SplitMemory(m, a, size);
      Links(m', start, chain') && Shows(m', chain', Replace(bs, k, SplitBlocks(bs[k], size)))
  {
    var split := a + HDR + size;
    chain' := Inserted(chain, k, split);
    assert ChainApart(chain') by { InsertedApart(chain, k, split); }
    var m' := SplitMemory(m, a, size);
    assert bs[k] == BlockAt(m, a);
    SplitInserts(m, m', chain, k, a, split, size);
    InsertEffect(m, m', start, chain, bs, k, split, SplitBlocks(bs[k], size));
  }

  lemma InsertEffect(m: Memory, m': Memory, start: nat, chain: seq<nat>, bs: seq<Block>, k: nat, a: nat, parts: seq<Block>)
    requires Links(m, start, chain) && Shows(m, chain, bs) && k < |chain| && Inserts(m, m', chain, k, a)
    requires parts == [BlockAt(m', chain[k]), BlockAt(m', a)]
    ensures Links(m', start, Inserted(chain, k, a)) && Shows(m', Inserted(chain, k, a), Replace(bs, k, parts))
  {
    assert Links(m', start, Inserted(chain, k, a)) by { InsertLinks(m, m', start, chain, k, a); }
    InsertBlocks(m, m', chain, bs, k, a);
  }

  /** Links a new last header behind chain's last. */
  lemma AppendHeader(m: Memory, start: nat, chain: seq<nat>, bs: seq<Block>, a: nat, h: Header)
    requires Links(m, start, chain) && Shows(m, chain, bs) && ChainApart(chain) && chain != []
    requires ApartFrom(chain, |chain|, a) && a != NULL && h.next == NULL
    ensures ChainApart(chain + [a])
    ensures var last := chain[|chain| - 1];
      var m' := Stored(Stored(m, a, h), last, m[last].(next := a));
      Links(m', start, chain + [a]) && Shows(m', chain + [a], bs + [Block(a, h.size, h.isFree)])
  {
    var last := chain[|chain| - 1];
    var m' := Stored(Stored(m, a, h), last, m[last].(next := a));
    var chain' := chain + [a];
    forall i | 0 <= i < |chain'| ensures chain'[i] in m' && m'[chain'[i]].next == At(chain', i + 1) {
      if i < |chain| { assert chain'[i] == chain[i]; }
    }
  }

  /** Memory after the header at a serves size bytes: split if the rest is large enough, then marked used. */
  function ServeMemory(m: Memory, a: nat, size: nat): Memory
    requires a in m && m[a].size >= size
  {
    var m1 := if m[a].size >= size + HDR + 16 then SplitMemory(m, a, size) else m;
    Stored(m1, a, m1[a].(isFree := false))
  }

  lemma MarkedIsCarved(bs: seq<Block>, k: nat, size: nat)
    requires k < |bs| && bs[k].size >= size
    ensures bs[k].size < size + HDR + 16 ==> bs[k := bs[k].(free := false)] == Replace(bs, k, Carve(bs[k], size))
    ensures bs[k].size >= size + HDR + 16 ==>
      var mid := Replace(bs, k, SplitBlocks(bs[k], size));
      mid[k := mid[k].(free := false)] == Replace(bs, k, Carve(bs[k], size))
  {
  }

  /** The list in memory becomes the one with block k carved exactly when the header that a split writes
      touches no other header of the list. */
  lemma ServeKeepsListIff(m: Memory, start: nat, chain: seq<nat>, bs: seq<Block>, k: nat, a: nat, size: nat)
    requires Links(m, start, chain) && Shows(m, chain, bs) && ChainApart(chain) && k < |chain|
    requires a == chain[k] && bs[k].size >= size
    ensures a in m && m[a].size >= size
    ensures ListIs(ServeMemory(m, a, size), start, Replace(bs, k, Carve(bs[k], size)))
      <==> (bs[k].size >= size + HDR + 16 ==> ApartFrom(chain, k, a + HDR + size))
  {
    assert bs[k] == BlockAt(m, a);
    if bs[k].size < size + HDR + 16 {
      MarkedIsCarved(bs, k, size);
      SetHeader(m, start, chain, bs, k, false);
    } else if ApartFrom(chain, k, a + HDR + size) {
      SplitServes(m, start, chain, bs, k, a, size);
    } else {
      var i: nat :| i < |chain| && i != k && !ApartAt(chain[i], a + HDR + size);
      SplitLoses(m, chain, bs, k, a, size, i);
      var m', bs' := ServeMemory(m, a, size), Replace(bs, k, Carve(bs[k], size));
      if ListIs(m', start, bs') { ListHeaders(m', start, bs', if i < k then i else i + 1, k + 1); }
    }
  }

  lemma SplitServes(m: Memory, start: nat, chain: seq<nat>, bs: seq<Block>, k: nat, a: nat, size: nat)
    requires Links(m, start, chain) && Shows(m, chain, bs) && ChainApart(chain) && k < |chain| && a == chain[k]
    requires m[a].size >= size + HDR + 16 && ApartFrom(chain, k, a + HDR + size)
    ensures ListIs(ServeMemory(m, a, size), start, Replace(bs, k, Carve(bs[k], size)))
  {
    assert bs[k] == BlockAt(m, a);
    var m1, mid := SplitMemory(m, a, size), Replace(bs, k, SplitBlocks(bs[k], size));
    var chain' := SplitEffect(m, start, chain, bs, k, a, size);
    assert chain'[k] == mid[k].addr == a;
    MarkedIsCarved(bs, k, size);
    SetHeader(m1, start, chain', mid, k, false);
  }

  /** A header that the split's header touches is lost, or becomes that header. */
  lemma SplitLoses(m: Memory, chain: seq<nat>, bs: seq<Block>, k: nat, a: nat, size: nat, i: nat)
    requires Shows(m, chain, bs) && ChainApart(chain) && k < |chain| && a == chain[k]
    requires m[a].size >= size + HDR + 16
    requires i < |chain| && i != k && !ApartAt(chain[i], a + HDR + size)
    ensures chain[i] in ServeMemory(m, a, size) ==> chain[i] == a + HDR + size
    ensures var bs' := Replace(bs, k, Carve(bs[k], size));
      |bs'| == |bs| + 1 && bs'[if i < k then i else i + 1].addr == chain[i] && bs'[k + 1].addr == a + HDR + size
  {
    assert bs[i].addr == chain[i] && bs[k] == BlockAt(m, a);
    assert ApartAt(chain[if i < k then i else k], chain[if i < k then k else i]);
  }

  /** Following next from start visits exactly the blocks of bs. */
  ghost predicate ListIs(m: Memory, start: nat, bs: seq<Block>) {
    exists chain :: Links(m, start, chain) && Shows(m, chain, bs)
  }

  lemma ListHeaders(m: Memory, start: nat, bs: seq<Block>, i: nat, j: nat)
    requires ListIs(m, start, bs) && i < |bs| && j < |bs| && i != j
    ensures bs[i].addr in m && bs[i].addr != bs[j].addr
  {
    var chain :| Links(m, start, chain) && Shows(m, chain, bs);
    assert chain[i] == bs[i].addr && chain[j] == bs[j].addr;
    assert chain[if i < j then i else j] != chain[if i < j then j else i];
  }

  /** A new extent extends the list exactly when its header touches no header of the list. */
  lemma AppendKeepsListIff(m: Memory, start: nat, chain: seq<nat>, bs: seq<Block>, a: nat, h: Header)
    requires Links(m, start, chain) && Shows(m, chain, bs) && ChainApart(chain) && chain != []
    requires a != NULL && h.next == NULL
    ensures var last := chain[|chain| - 1];
      ListIs(Stored(Stored(m, a, h), last, m[last].(next := a)), start, bs + [Block(a, h.size, h.isFree)])
      <==> ApartFrom(chain, |chain|, a)
  {
    var last := chain[|chain| - 1];
    var m', bs' := Stored(Stored(m, a, h), last, m[last].(next := a)), bs + [Block(a, h.size, h.isFree)];
    if ApartFrom(chain, |chain|, a) {
      AppendHeader(m, start, chain, bs, a, h);
    } else {
      var i: nat :| i < |chain| && !ApartAt(chain[i], a);
      assert bs'[i].addr == chain[i] && bs'[|chain|].addr == a;
      if ListIs(m', start, bs') { ListHeaders(m', start, bs', i, |chain|); }
    }
  }

  /** Rewriting header chain[k] leaves the others of a chain that are apart from it. */
  lemma StoredKeeps(m: Memory, chain: seq<nat>, k: nat, h: Header)
    requires AllIn(m, chain) && ChainApart(chain) && k < |chain|
    ensures var m' := Stored(m, chain[k], h);
      AllIn(m', chain) && m'[chain[k]] == h && forall i :: 0 <= i < |chain| && i != k ==> m'[chain[i]] == m[chain[i]]
  {
    forall i | 0 <= i < |chain| && i != k ensures ApartAt(chain[i], chain[k]) {
      if k < i { assert ApartAt(chain[k], chain[i]); }
    }
  }

  function JoinedHeader(a: Header, b: Header): Header { Header(a.size + HDR + b.size, a.isFree, b.next) }

  /** Unlinks the header behind chain[k] and gives its bytes to chain[k]. */
  lemma JoinHeaders(m: Memory, m': Memory, start: nat, chain: seq<nat>, k: nat)
    requires Links(m, start, chain) && ChainApart(chain) && k + 1 < |chain|
    requires m' == Stored(m, chain[k], JoinedHeader(m[chain[k]], m[chain[k + 1]]))
    ensures Links(m', start, Removed(chain, k + 1))
  {
    StoredKeeps(m, chain, k, JoinedHeader(m[chain[k]], m[chain[k + 1]]));
    JoinLinks(m, m', start, chain, k);
  }

  lemma JoinLinks(m: Memory, m': Memory, start: nat, chain: seq<nat>, k: nat)
    requires Links(m, start, chain) && k + 1 < |chain| && AllIn(m', chain)
    requires m'[chain[k]] == JoinedHeader(m[chain[k]], m[chain[k + 1]])
    requires forall i :: 0 <= i < |chain| && i != k ==> m'[chain[i]] == m[chain[i]]
    ensures Links(m', start, Removed(chain, k + 1))
  {
    var chain' := Removed(chain, k + 1);
    forall i | 0 <= i < |chain'| ensures m'[chain'[i]].next == At(chain', i + 1) {
      if i < k { assert m'[chain'[i]] == m[chain[i]]; }
      else if i > k { assert m'[chain'[i]] == m[chain[i + 1]]; }
    }
  }

  /** On the blocks this joins block k with the next. */
  lemma JoinBlocks(m: Memory, m': Memory, chain: seq<nat>, bs: seq<Block>, k: nat)
    requires Shows(m, chain, bs) && k + 1 < |chain| && ChainApart(chain)
    requires m' == Stored(m, chain[k], JoinedHeader(m[chain[k]], m[chain[k + 1]]))
    ensures Shows(m', Removed(chain, k + 1), JoinedAt(bs, k))
  {
    var r, chain' := JoinedAt(bs, k), Removed(chain, k + 1);
    StoredKeeps(m, chain, k, JoinedHeader(m[chain[k]], m[chain[k + 1]]));
    forall i | 0 <= i < |r| ensures chain'[i] in m' && r[i] == BlockAt(m', chain'[i]) {
      if i > k { assert r[i] == bs[i + 1]; }
      else if i < k { assert r[i] == bs[i]; }
    }
  }

  lemma JoinEffect(m: Memory, start: nat, chain: seq<nat>, bs: seq<Block>, k: nat) returns (chain': seq<nat>)
    requires Links(m, start, chain) && Shows(m, chain, bs) && ChainApart(chain) && k + 1 < |chain|
    ensures ChainApart(chain')
    ensures var m' := Stored(m, chain[k], JoinedHeader(m[chain[k]], m[chain[k + 1]]));
      Links(m', start, chain') && Shows(m', chain', JoinedAt(bs, k))
  {
    var m' := Stored(m, chain[k], JoinedHeader(m[chain[k]], m[chain[k + 1]]));
    chain' := Removed(chain, k + 1);
    assert Links(m', start, chain') by { JoinHeaders(m, m', start, chain, k); }
    JoinBlocks(m, m', chain, bs, k);
  }

  /** Standing at block k of the list: where next leads, and when the list ends. */
  lemma ChainNext(m: Memory, start: nat, chain: seq<nat>, k: nat)
    requires Links(m, start, chain) && k <= |chain|
    ensures At(chain, k) == NULL <==> k == |chain|
    ensures k < |chain| ==> m[chain[k]].next == At(chain, k + 1) && (At(chain, k + 1) == NULL <==> k + 1 == |chain|)
  {
    if k < |chain| { assert chain[k] in chain; }
    if k + 1 < |chain| { assert chain[k + 1] in chain; }
  }

  function JoinedAt(bs: seq<Block>, k: nat): seq<Block>
    requires k + 1 < |bs|
  {
    bs[..k] + [Join(bs[k], bs[k + 1])] + bs[k + 2..]
  }

  /** One step of the coalescing pass, seen on the blocks. */
  lemma JoinStep(bs: seq<Block>, k: nat)
    requires k + 1 < |bs| && bs[k].free && bs[k + 1].free
    ensures JoinedAt(bs, k)[..k] + Coalesce(JoinedAt(bs, k)[k..]) == bs[..k] + Coalesce(bs[k..])
  {
    var bs' := JoinedAt(bs, k);
    assert bs[k..][2..] == bs[k + 2..];
    assert bs'[k..] == [Join(bs[k], bs[k + 1])] + bs[k + 2..];
    assert bs'[..k] == bs[..k];
  }

  lemma PassStep(bs: seq<Block>, k: nat)
    requires k + 1 < |bs| && !(bs[k].free && bs[k + 1].free)
    ensures bs[..k + 1] + Coalesce(bs[k + 1..]) == bs[..k] + Coalesce(bs[k..])
  {
    PassHead(bs[k..]);
    assert bs[k..][1..] == bs[k + 1..];
    assert bs[..k + 1] == bs[..k] + [bs[k]];
  }

  lemma PassHead(bs: seq<Block>)
    requires 1 < |bs| && !(bs[0].free && bs[1].free)
    ensures Coalesce(bs) == [bs[0]] + Coalesce(bs[1..])
  {
  }
}
