/** When the search for adjacent pages sees every run the pool holds. It compares array neighbours, so that
    depends on the order of the array, which frees change. */
module PoolOrder {
  import opened PagePool

  /** Adjacent pages that are both in the pool stand next to each other, the lower one first. */
  ghost predicate AdjacentInOrder(s: seq<nat>) {
    forall i, j :: 0 <= i < |s| && 0 <= j < |s| && s[j] == s[i] + PAGE ==> j == i + 1
  }

  /** The n adjacent pages from a on stand at consecutive indices, where the search finds them. */
  ghost predicate Seen(s: seq<nat>, a: nat, n: nat) {
    exists i :: 0 <= i < |s| && RunAt(s, i, n) && s[i] == a
  }

  lemma {:induction false} HeldRunIsConsecutive(s: seq<nat>, a: nat, n: nat) returns (i: nat)
    requires AdjacentInOrder(s) && n > 0 && HoldsRun(s, a, n)
    ensures i + n <= |s| && s[i] == a && RunAt(s, i, n)
    decreases n
  {
    assert Nth(a, n - 1) in s;
    var m :| 0 <= m < |s| && s[m] == Nth(a, n - 1);
    if n == 1 {
      i := m;
    } else {
      i := HeldRunIsConsecutive(s, a, n - 1);
      RunElements(s, i, n - 1, n - 2);
      assert s[m] == s[i + (n - 2)] + PAGE;
    }
  }

  /** Every run the pool holds, in whatever order, is seen if and only if adjacent pages stand in order. */
  lemma RunsSeenIff(s: seq<nat>)
    requires Distinct(s)
    ensures (forall a, n :: n >= 2 && HoldsRun(s, a, n) ==> Seen(s, a, n)) <==> AdjacentInOrder(s)
  {
    if AdjacentInOrder(s) {
      forall a, n | n >= 2 && HoldsRun(s, a, n) ensures Seen(s, a, n) { var i := HeldRunIsConsecutive(s, a, n); }
    }
    if forall a, n :: n >= 2 && HoldsRun(s, a, n) ==> Seen(s, a, n) {
      forall i, j | 0 <= i < |s| && 0 <= j < |s| && s[j] == s[i] + PAGE ensures j == i + 1 {
        PairHeld(s, i, j);
        var k :| 0 <= k < |s| && RunAt(s, k, 2) && s[k] == s[i];
        assert s[k + 1] == s[k + 1 - 1] + PAGE;
      }
    }
  }

  lemma PairHeld(s: seq<nat>, i: nat, j: nat)
    requires i < |s| && j < |s| && s[j] == s[i] + PAGE
    ensures HoldsRun(s, s[i], 2)
  {
    forall k: nat | k < 2 ensures Nth(s[i], k) in s { assert Nth(s[i], k) == s[if k == 0 then i else j]; }
  }

  /** While adjacent pages stand in order an allocation fails exactly when the pool holds no such run. */
  lemma SearchIsComplete(s: seq<nat>, n: nat)
    requires AdjacentInOrder(s) && Pages(s) && Distinct(s) && n > 0
    ensures Take(s, n).0 == 0 <==> !exists a :: HoldsRun(s, a, n)
  {
    if Take(s, n).0 != 0 {
      TakeRemovesRun(s, n);
      assert HoldsRun(s, Take(s, n).0, n);
    }
    if a :| HoldsRun(s, a, n) { var i := HeldRunIsConsecutive(s, a, n); }
  }

  // ---------------------------------------------------------------------
  // Which operations keep the order
  // ---------------------------------------------------------------------

  /** The pool of the boot memory map is in order. */
  lemma AscendingIsInOrder(s: seq<nat>)
    requires Ascending(s) && Pages(s)
    ensures AdjacentInOrder(s) && Distinct(s)
  {
    forall i, j | 0 <= i < |s| && 0 <= j < |s| && s[j] == s[i] + PAGE ensures j == i + 1 {
      if j > i + 1 { NothingBetween(s[i] / PAGE, s[i + 1] / PAGE, s[j] / PAGE, s[i], s[i + 1], s[j]); }
    }
  }

  lemma NothingBetween(x: nat, y: nat, z: nat, p: nat, q: nat, r: nat)
    requires p == x * PAGE && q == y * PAGE && r == z * PAGE && p < q < r
    ensures r != p + PAGE
  {
  }

  lemma TakeKeepsOrder(s: seq<nat>, n: nat)
    requires AdjacentInOrder(s) && Pages(s)
    ensures AdjacentInOrder(Take(s, n).1)
  {
    if Take(s, n).0 == 0 {
      TakeFailureKeeps(s, n);
    } else {
      CutKeepsOrder(s, if n == 1 then |s| - 1 else FirstRun(s, n, 0), n);
    }
  }

  lemma CutKeepsOrder(s: seq<nat>, i: nat, n: nat)
    requires AdjacentInOrder(s) && i + n <= |s|
    ensures AdjacentInOrder(s[..i] + s[i + n..])
  {
    var rest := s[..i] + s[i + n..];
    forall j, k | 0 <= j < |rest| && 0 <= k < |rest| && rest[k] == rest[j] + PAGE ensures k == j + 1 {
      var j', k' := if j < i then j else j + n, if k < i then k else k + n;
      assert rest[j] == s[j'] && rest[k] == s[k'];
    }
  }

  /** A page that comes back must not lie below a page of the pool, nor above any but its last. */
  ghost predicate PushInOrder(s: seq<nat>, page: nat) {
    page + PAGE !in s && forall i :: 0 <= i < |s| && s[i] + PAGE == page ==> i == |s| - 1
  }

  lemma PushKeepsOrderIff(s: seq<nat>, page: nat)
    requires AdjacentInOrder(s) && page !in s
    ensures AdjacentInOrder(s + [page]) <==> PushInOrder(s, page)
  {
    var r := s + [page];
    forall i | 0 <= i < |s| ensures r[i] == s[i] {}
    assert r[|s|] == page;
    if AdjacentInOrder(r) {
      forall i | 0 <= i < |s| ensures s[i] != page + PAGE && (s[i] + PAGE == page ==> i == |s| - 1) {
        assert r[i] == r[|s|] + PAGE ==> i == |s| + 1;
        assert r[|s|] == r[i] + PAGE ==> |s| == i + 1;
      }
    }
  }

  // ---------------------------------------------------------------------
  // Histories
  // ---------------------------------------------------------------------

  datatype Event = Alloc(n: nat) | FreePage(page: nat)

  function Next(s: seq<nat>, e: Event): seq<nat> {
    match e
    case Alloc(n) => Take(s, n).1
    case FreePage(page) => Push(s, page)
  }

  function After(s: seq<nat>, events: seq<Event>): seq<nat>
    decreases |events|
  {
    if events == [] then s else After(Next(s, events[0]), events[1..])
  }

  /** No page is freed that is free already, nor page 0. */
  predicate LegalEvents(s: seq<nat>, events: seq<Event>)
    decreases |events|
  {
    events != [] ==>
      && (events[0].FreePage? ==> events[0].page != 0 && events[0].page !in s)
      && LegalEvents(Next(s, events[0]), events[1..])
  }

  /** The test of an event before it happens. */
  ghost predicate KeepsOrder(s: seq<nat>, e: Event) {
    e.FreePage? && e.page % PAGE == 0 && |s| < MAX_FREE_BLOCKS ==> PushInOrder(s, e.page)
  }

  ghost predicate KeepOrder(s: seq<nat>, events: seq<Event>)
    decreases |events|
  {
    events != [] ==> KeepsOrder(s, events[0]) && KeepOrder(Next(s, events[0]), events[1..])
  }

  ghost predicate InOrderThroughout(s: seq<nat>, events: seq<Event>)
    decreases |events|
  {
    AdjacentInOrder(s) && (events != [] ==> InOrderThroughout(Next(s, events[0]), events[1..]))
  }

  lemma NextKeeps(s: seq<nat>, e: Event)
    requires AdjacentInOrder(s) && Pages(s) && Distinct(s) && LegalEvents(s, [e])
    ensures Pages(Next(s, e)) && Distinct(Next(s, e))
    ensures AdjacentInOrder(Next(s, e)) <==> KeepsOrder(s, e)
  {
    match e
    case Alloc(n) =>
      TakeKeepsOrder(s, n);
      if Take(s, n).0 == 0 { TakeFailureKeeps(s, n); } else { TakeRemovesRun(s, n); }
    case FreePage(page) =>
      PushKeepsOrderIff(s, page);
      PushKeepsPages(s, page);
  }

  lemma PushKeepsPages(s: seq<nat>, page: nat)
    requires Pages(s) && Distinct(s) && page != 0 && page !in s
    ensures Pages(Push(s, page)) && Distinct(Push(s, page))
  {
  }

  /** Over every history of allocations and frees: no run is ever hidden from the search if and only if
      each page comes back above no page of the pool but its last, and below none. */
  lemma {:induction false} HistoryInOrderIff(s: seq<nat>, events: seq<Event>)
    requires AdjacentInOrder(s) && Pages(s) && Distinct(s) && LegalEvents(s, events)
    ensures InOrderThroughout(s, events) <==> KeepOrder(s, events)
    decreases |events|
  {
    if events != [] {
      OneEvent(s, events[0]);
      NextKeeps(s, events[0]);
      if KeepsOrder(s, events[0]) { HistoryInOrderIff(Next(s, events[0]), events[1..]); }
    }
  }

  lemma OneEvent(s: seq<nat>, e: Event)
    ensures LegalEvents(s, [e]) <==> (e.FreePage? ==> e.page != 0 && e.page !in s)
  {
    assert [e][1..] == [];
  }

  /** After such a history an allocation fails exactly when the pool holds no such run. */
  lemma {:induction false} HistoryIsComplete(s: seq<nat>, events: seq<Event>, n: nat)
    requires AdjacentInOrder(s) && Pages(s) && Distinct(s) && LegalEvents(s, events) && KeepOrder(s, events) && n > 0
    ensures var now := After(s, events);
      Take(now, n).0 == 0 <==> !exists a :: HoldsRun(now, a, n)
    decreases |events|
  {
    if events == [] {
      SearchIsComplete(s, n);
    } else {
      OneEvent(s, events[0]);
      NextKeeps(s, events[0]);
      HistoryIsComplete(Next(s, events[0]), events[1..], n);
    }
  }

  /** Two pages taken and given back in the order they were taken change places: the pool then holds two
      adjacent pages, and a request for two fails. */
  lemma FreedPagesHideARun()
    ensures
      var s := [2 * PAGE, 3 * PAGE];
      var events := [Alloc(1), Alloc(1), FreePage(3 * PAGE), FreePage(2 * PAGE)];
      && Ascending(s) && LegalEvents(s, events) && !KeepOrder(s, events)
      && HoldsRun(After(s, events), 2 * PAGE, 2) && Take(After(s, events), 2).0 == 0
  {
    var s := [2 * PAGE, 3 * PAGE];
    var e3, e2 := [FreePage(2 * PAGE)], [FreePage(3 * PAGE), FreePage(2 * PAGE)];
    var r := [3 * PAGE, 2 * PAGE];
    var events := [Alloc(1), Alloc(1), FreePage(3 * PAGE), FreePage(2 * PAGE)];
    var e1 := [Alloc(1)] + e2;
    assert events[1..] == e1 && e1[1..] == e2 && e2[1..] == e3 && e3[1..] == [];
    assert Next(s, Alloc(1)) == [2 * PAGE] && Next([2 * PAGE], Alloc(1)) == [];
    assert Next([], FreePage(3 * PAGE)) == [3 * PAGE] && Next([3 * PAGE], FreePage(2 * PAGE)) == r;
    assert !KeepsOrder([3 * PAGE], FreePage(2 * PAGE)) by { assert [3 * PAGE][0] == 2 * PAGE + PAGE; }
    assert LegalEvents(r, []) && After(r, []) == r;
    assert LegalEvents([3 * PAGE], e3) && After([3 * PAGE], e3) == r && !KeepOrder([3 * PAGE], e3);
    assert LegalEvents([], e2) && After([], e2) == r && !KeepOrder([], e2);
    assert LegalEvents([2 * PAGE], e1) && After([2 * PAGE], e1) == r && !KeepOrder([2 * PAGE], e1);
    PairHeld(r, 1, 0);
    assert r[1] != r[0] + PAGE;
  }
}
