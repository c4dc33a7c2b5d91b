/** quicksort_logits of gguf.c: an in-place Hoare partition sort, descending, that
    swaps an index array along with the values. Values are reals. */
module Quicksort {

  type Pair = (real, int)

  /** Entries lo .. hi of both arrays, paired. */
  function Pairs(values: seq<real>, tags: seq<int>, lo: int, hi: int): (r: seq<Pair>)
    requires |values| == |tags| && 0 <= lo <= hi <= |values|
    ensures |r| == hi - lo && forall k :: 0 <= k < hi - lo ==> r[k] == (values[lo + k], tags[lo + k])
  {
    seq(hi - lo, k requires 0 <= k < hi - lo => (values[lo + k], tags[lo + k]))
  }

  ghost predicate Descending(values: seq<real>, lo: int, hi: int)
    requires 0 <= lo <= hi <= |values|
  {
    forall i, j :: lo <= i < j < hi ==> values[i] >= values[j]
  }

  ghost predicate AtLeast(values: seq<real>, lo: int, hi: int, pivot: real)
    requires 0 <= lo <= hi <= |values|
  {
    forall k :: lo <= k < hi ==> values[k] >= pivot
  }

  ghost predicate AtMost(values: seq<real>, lo: int, hi: int, pivot: real)
    requires 0 <= lo <= hi <= |values|
  {
    forall k :: lo <= k < hi ==> values[k] <= pivot
  }

  /** v2, t2 hold in lo .. hi the pairs of v1, t1, rearranged, and agree with them elsewhere. */
  ghost predicate Rearranged(v1: seq<real>, t1: seq<int>, v2: seq<real>, t2: seq<int>, lo: int, hi: int)
  {
    && |v1| == |t1| == |v2| == |t2| && 0 <= lo <= hi <= |v1|
    && v2[..lo] == v1[..lo] && t2[..lo] == t1[..lo]
    && v2[hi..] == v1[hi..] && t2[hi..] == t1[hi..]
    && multiset(Pairs(v2, t2, lo, hi)) == multiset(Pairs(v1, t1, lo, hi))
  }

  lemma RearrangedRefl(v: seq<real>, t: seq<int>, lo: int, hi: int)
    requires |v| == |t| && 0 <= lo <= hi <= |v|
    ensures Rearranged(v, t, v, t, lo, hi)
  {
  }

  lemma RearrangedTrans(v1: seq<real>, t1: seq<int>, v2: seq<real>, t2: seq<int>, v3: seq<real>, t3: seq<int>, lo: int, hi: int)
    requires Rearranged(v1, t1, v2, t2, lo, hi) && Rearranged(v2, t2, v3, t3, lo, hi)
    ensures Rearranged(v1, t1, v3, t3, lo, hi)
  {
  }

  lemma PairsSplit(v: seq<real>, t: seq<int>, lo: int, mid: int, hi: int)
    requires |v| == |t| && 0 <= lo <= mid <= hi <= |v|
    ensures Pairs(v, t, lo, hi) == Pairs(v, t, lo, mid) + Pairs(v, t, mid, hi)
  {
  }

  lemma PairsSame(v1: seq<real>, t1: seq<int>, v2: seq<real>, t2: seq<int>, lo: int, hi: int)
    requires |v1| == |t1| == |v2| == |t2| && 0 <= lo <= hi <= |v1|
    requires forall k :: lo <= k < hi ==> v1[k] == v2[k] && t1[k] == t2[k]
    ensures Pairs(v1, t1, lo, hi) == Pairs(v2, t2, lo, hi)
  {
  }

  /** Rearranging part of a range rearranges the range. */
  lemma RearrangedWithin(v1: seq<real>, t1: seq<int>, v2: seq<real>, t2: seq<int>, lo: int, hi: int, lo': int, hi': int)
    requires 0 <= lo' <= lo <= hi <= hi' <= |v1| && Rearranged(v1, t1, v2, t2, lo, hi)
    ensures Rearranged(v1, t1, v2, t2, lo', hi')
  {
    Outside(v1, v2, lo, hi);
    Outside(t1, t2, lo, hi);
    PairsSplit(v1, t1, lo', lo, hi');
    PairsSplit(v1, t1, lo, hi, hi');
    PairsSplit(v2, t2, lo', lo, hi');
    PairsSplit(v2, t2, lo, hi, hi');
    PairsSame(v1, t1, v2, t2, lo', lo);
    PairsSame(v1, t1, v2, t2, hi, hi');
    assert v2[..lo'] == v1[..lo'] && t2[..lo'] == t1[..lo'];
    assert v2[hi'..] == v1[hi'..] && t2[hi'..] == t1[hi'..];
  }

  lemma Outside<T>(a: seq<T>, b: seq<T>, lo: int, hi: int)
    requires |a| == |b| && 0 <= lo <= hi <= |a| && a[..lo] == b[..lo] && a[hi..] == b[hi..]
    ensures forall k :: 0 <= k < lo || hi <= k < |a| ==> a[k] == b[k]
  {
    forall k | 0 <= k < lo || hi <= k < |a| ensures a[k] == b[k] {
      if k < lo { assert a[..lo][k] == b[..lo][k]; } else { assert a[hi..][k - hi] == b[hi..][k - hi]; }
    }
  }

  /** A bound on a range outlives its rearrangement. */
  lemma BoundsKept(v1: seq<real>, t1: seq<int>, v2: seq<real>, t2: seq<int>, lo: int, hi: int, pivot: real)
    requires Rearranged(v1, t1, v2, t2, lo, hi)
    ensures AtLeast(v1, lo, hi, pivot) ==> AtLeast(v2, lo, hi, pivot)
    ensures AtMost(v1, lo, hi, pivot) ==> AtMost(v2, lo, hi, pivot)
  {
    forall k | lo <= k < hi ensures exists m :: lo <= m < hi && v1[m] == v2[k] {
      var p := Pairs(v2, t2, lo, hi)[k - lo];
      assert p in multiset(Pairs(v2, t2, lo, hi));
      assert p in Pairs(v1, t1, lo, hi);
      var m :| 0 <= m < hi - lo && Pairs(v1, t1, lo, hi)[m] == p;
      assert v1[lo + m] == v2[k];
    }
  }

  /** Two sorted stretches around a middle that equals the pivot make one. */
  lemma DescendingJoined(v: seq<real>, lo: int, j: int, i: int, hi: int, pivot: real)
    requires 0 <= lo <= j <= i <= hi <= |v|
    requires Descending(v, lo, j) && Descending(v, i, hi)
    requires AtLeast(v, lo, i, pivot) && AtMost(v, j, hi, pivot)
    ensures Descending(v, lo, hi)
  {
  }

  /** One exchange, on both arrays. */
  lemma SwapRearranges(v: seq<real>, t: seq<int>, i: int, j: int, lo: int, hi: int)
    requires |v| == |t| && 0 <= lo <= i <= j < hi <= |v|
    ensures Rearranged(v, t, v[i := v[j]][j := v[i]], t[i := t[j]][j := t[i]], lo, hi)
  {
    SwapOutside(v, i, j, lo, hi);
    SwapOutside(t, i, j, lo, hi);
    SwapPairs(v, t, i, j, lo, hi);
    SwapMultiset(Pairs(v, t, lo, hi), i - lo, j - lo);
  }

  lemma SwapOutside<T>(s: seq<T>, i: int, j: int, lo: int, hi: int)
    requires 0 <= lo <= i <= j < hi <= |s|
    ensures var s2 := s[i := s[j]][j := s[i]]; s2[..lo] == s[..lo] && s2[hi..] == s[hi..]
  {
  }

  lemma SwapPairs(v: seq<real>, t: seq<int>, i: int, j: int, lo: int, hi: int)
    requires |v| == |t| && 0 <= lo <= i <= j < hi <= |v|
    ensures var p := Pairs(v, t, lo, hi);
      Pairs(v[i := v[j]][j := v[i]], t[i := t[j]][j := t[i]], lo, hi) == p[i - lo := p[j - lo]][j - lo := p[i - lo]]
  {
  }

  lemma SwapMultiset<T>(p: seq<T>, i: int, j: int)
    requires 0 <= i <= j < |p|
    ensures multiset(p[i := p[j]][j := p[i]]) == multiset(p)
  {
  }

  /** The scans that have no bounds check stop at a sentinel: some entry at or right of i does not
      exceed the pivot, and some entry at or left of j is not below it. */
  ghost predicate Sentinels(v: seq<real>, left: int, right: int, i: int, j: int, pivot: real)
    requires 0 <= left <= right < |v|
  {
    i <= j ==> Stop(v, i, right, pivot) && StopBack(v, left, j, pivot)
  }

  ghost predicate Stop(v: seq<real>, from: int, right: int, pivot: real)
    requires 0 <= right < |v|
  {
    exists k :: 0 <= from <= k <= right && v[k] <= pivot
  }

  ghost predicate StopBack(v: seq<real>, left: int, from: int, pivot: real)
    requires 0 <= left < |v|
  {
    exists k :: left <= k <= from < |v| && v[k] >= pivot
  }

  /** First entry from i on that does not exceed the pivot. */
  method ScanUp(arr: array<real>, i: int, right: int, pivot: real) returns (r: int)
    requires 0 <= i && right < arr.Length && 0 <= right && Stop(arr[..], i, right, pivot)
    ensures i <= r <= right && arr[r] <= pivot && forall k :: i <= k < r ==> arr[k] > pivot
  {
    r := i;
    while arr[r] > pivot
      invariant i <= r <= right && forall k :: i <= k < r ==> arr[k] > pivot
      invariant Stop(arr[..], r, right, pivot)
      decreases right - r
    {
      r := r + 1;
    }
  }

  /** Last entry up to j that is not below the pivot. */
  method ScanDown(arr: array<real>, j: int, left: int, pivot: real) returns (r: int)
    requires 0 <= left < arr.Length && j < arr.Length && StopBack(arr[..], left, j, pivot)
    ensures left <= r <= j && arr[r] >= pivot && forall k :: r < k <= j ==> arr[k] < pivot
  {
    r := j;
    while arr[r] < pivot
      invariant left <= r <= j && forall k :: r < k <= j ==> arr[k] < pivot
      invariant StopBack(arr[..], left, r, pivot)
      decreases r - left
    {
      r := r - 1;
    }
  }

  method Swap(arr: array<real>, indices: array<int>, i: int, j: int, ghost lo: int, ghost hi: int,
              ghost v0: seq<real>, ghost t0: seq<int>)
    requires arr.Length == indices.Length && 0 <= lo <= i <= j < hi <= arr.Length
    requires Rearranged(v0, t0, arr[..], indices[..], lo, hi)
    modifies arr, indices
    ensures arr[..] == old(arr[..])[i := old(arr[j])][j := old(arr[i])]
    ensures Rearranged(v0, t0, arr[..], indices[..], lo, hi)
  {
    ghost var v, t := arr[..], indices[..];
    SwapRearranges(v, t, i, j, lo, hi);
    RearrangedTrans(v0, t0, v, t, v[i := v[j]][j := v[i]], t[i := t[j]][j := t[i]], lo, hi);
    arr[i], arr[j] := arr[j], arr[i];
    indices[i], indices[j] := indices[j], indices[i];
    assert arr[..] == v[i := v[j]][j := v[i]] && indices[..] == t[i := t[j]][j := t[i]];
  }

  /** The pivot value itself stands between i and j: true before the first exchange. */
  ghost predicate PivotBetween(v: seq<real>, i: int, j: int, pivot: real) {
    exists k :: 0 <= i <= k <= j < |v| && v[k] == pivot
  }

  /** The partition loop: afterwards left .. j+1 holds values at least the pivot, i .. right+1 values at
      most the pivot, and both parts are shorter than the range. */
  method Partition(arr: array<real>, indices: array<int>, left: int, right: int) returns (i: int, j: int, ghost pivot: real)
    requires arr.Length == indices.Length && 0 <= left < right < arr.Length
    modifies arr, indices
    ensures left <= j + 1 <= i <= right + 1 && left < i && j < right
    ensures Rearranged(old(arr[..]), old(indices[..]), arr[..], indices[..], left, right + 1)
    ensures AtLeast(arr[..], left, i, pivot) && AtMost(arr[..], j + 1, right + 1, pivot)
  {
    ghost var v0, t0 := arr[..], indices[..];
    i, j := left, right;
    var p := arr[(left + right) / 2];
    pivot := p;
    RearrangedRefl(arr[..], indices[..], left, right + 1);
    assert arr[..][(left + right) / 2] == p;
    while i <= j
      invariant left <= i <= right + 1 && left - 1 <= j <= right
      invariant (i <= j && PivotBetween(arr[..], i, j, p)) || (i > left && j < right)
      invariant Rearranged(v0, t0, arr[..], indices[..], left, right + 1)
      invariant AtLeast(arr[..], left, i, p) && AtMost(arr[..], j + 1, right + 1, p)
      invariant Sentinels(arr[..], left, right, i, j, p)
      decreases j - i
    {
      i, j := PartitionStep(arr, indices, left, right, i, j, p, v0, t0);
    }
  }

  /** Both scans and, if they have not crossed, the exchange. */
  method PartitionStep(arr: array<real>, indices: array<int>, left: int, right: int, i0: int, j0: int, p: real,
                       ghost v0: seq<real>, ghost t0: seq<int>)
    returns (i: int, j: int)
    requires arr.Length == indices.Length && 0 <= left <= i0 <= j0 <= right < arr.Length
    requires AtLeast(arr[..], left, i0, p) && AtMost(arr[..], j0 + 1, right + 1, p)
    requires Sentinels(arr[..], left, right, i0, j0, p)
    requires Rearranged(v0, t0, arr[..], indices[..], left, right + 1)
    modifies arr, indices
    ensures i0 <= i <= right + 1 && left - 1 <= j <= j0
    ensures old(PivotBetween(arr[..], i0, j0, p)) ==> i > i0 && j < j0
    ensures i > j || (i > i0 && j < j0)
    ensures Rearranged(v0, t0, arr[..], indices[..], left, right + 1)
    ensures AtLeast(arr[..], left, i, p) && AtMost(arr[..], j + 1, right + 1, p)
    ensures Sentinels(arr[..], left, right, i, j, p)
  {
    ghost var v := arr[..];
    i := ScanUp(arr, i0, right, p);
    j := ScanDown(arr, j0, left, p);
    ScannedBounds(v, left, right, i0, j0, i, j, p);
    if i <= j {
      SwappedBounds(v, left, right, i0, j0, i, j, p);
      Swap(arr, indices, i, j, left, right + 1, v0, t0);
      i := i + 1;
      j := j - 1;
    }
  }

  /** What the scans skipped joins the finished ends; they pass the pivot itself only by crossing. */
  lemma ScannedBounds(v: seq<real>, left: int, right: int, i0: int, j0: int, i: int, j: int, p: real)
    requires 0 <= left <= i0 <= i <= right < |v| && left <= j <= j0 <= right
    requires AtLeast(v, left, i0, p) && AtMost(v, j0 + 1, right + 1, p)
    requires (forall k :: i0 <= k < i ==> v[k] > p) && forall k :: j < k <= j0 ==> v[k] < p
    ensures AtLeast(v, left, i, p) && AtMost(v, j + 1, right + 1, p)
    ensures PivotBetween(v, i0, j0, p) && i > j ==> i > i0 && j < j0
  {
  }

  /** After the exchange both finished ends have grown and still serve as sentinels. */
  lemma SwappedBounds(v: seq<real>, left: int, right: int, i0: int, j0: int, i: int, j: int, p: real)
    requires 0 <= left <= i0 <= i <= j <= j0 <= right < |v|
    requires AtLeast(v, left, i0, p) && AtMost(v, j0 + 1, right + 1, p)
    requires v[i] <= p && v[j] >= p
    requires (forall k :: i0 <= k < i ==> v[k] > p) && forall k :: j < k <= j0 ==> v[k] < p
    ensures var w := v[i := v[j]][j := v[i]];
      AtLeast(w, left, i + 1, p) && AtMost(w, j, right + 1, p) && Sentinels(w, left, right, i + 1, j - 1, p)
  {
    var w := v[i := v[j]][j := v[i]];
    assert w[i] >= p && w[j] <= p;
  }

  /** Sorts left .. right descending, pairs kept together. A range of one entry or none is left alone. */
  method QuicksortLogits(arr: array<real>, indices: array<int>, left: int, right: int)
    requires arr.Length == indices.Length && 0 <= left <= arr.Length && -1 <= right < arr.Length
    requires left <= right + 1
    modifies arr, indices
    ensures Rearranged(old(arr[..]), old(indices[..]), arr[..], indices[..], left, right + 1)
    ensures Descending(arr[..], left, right + 1)
    decreases right - left, 2
  {
    if left >= right {
      return;
    }
    ghost var v0, t0 := arr[..], indices[..];
    var i, j, p := Partition(arr, indices, left, right);
    SortParts(arr, indices, left, j, i, right, p, v0, t0);
  }

  /** Sorts both sides of a partition. */
  method SortParts(arr: array<real>, indices: array<int>, left: int, j: int, i: int, right: int, ghost p: real,
                   ghost v0: seq<real>, ghost t0: seq<int>)
    requires arr.Length == indices.Length && 0 <= left < right < arr.Length
    requires left <= j + 1 <= i <= right + 1 && left < i && j < right
    requires Rearranged(v0, t0, arr[..], indices[..], left, right + 1)
    requires AtLeast(arr[..], left, i, p) && AtMost(arr[..], j + 1, right + 1, p)
    modifies arr, indices
    ensures Rearranged(v0, t0, arr[..], indices[..], left, right + 1)
    ensures Descending(arr[..], left, right + 1)
    decreases right - left, 1
  {
    ghost var v1, t1 := arr[..], indices[..];
    QuicksortLogits(arr, indices, left, j);
    SortRight(arr, indices, left, j, i, right, p, v0, t0, v1, t1);
  }

  /** The left part is sorted; sorts the right one. */
  method SortRight(arr: array<real>, indices: array<int>, left: int, j: int, i: int, right: int, ghost p: real,
                   ghost v0: seq<real>, ghost t0: seq<int>, ghost v1: seq<real>, ghost t1: seq<int>)
    requires arr.Length == indices.Length == |v1| == |t1| && 0 <= left < right < arr.Length
    requires left <= j + 1 <= i <= right + 1 && left < i && j < right
    requires Rearranged(v0, t0, v1, t1, left, right + 1)
    requires AtLeast(v1, left, i, p) && AtMost(v1, j + 1, right + 1, p)
    requires Rearranged(v1, t1, arr[..], indices[..], left, j + 1) && Descending(arr[..], left, j + 1)
    modifies arr, indices
    ensures Rearranged(v0, t0, arr[..], indices[..], left, right + 1)
    ensures Descending(arr[..], left, right + 1)
    decreases right - left, 0
  {
    ghost var v2, t2 := arr[..], indices[..];
    QuicksortLogits(arr, indices, i, right);
    ghost var v3, t3 := arr[..], indices[..];
    PartsSorted(v0, t0, v1, t1, v2, t2, v3, t3, left, j + 1, i, right + 1, p);
  }

  /** Sorting the two parts of a partition one after the other sorts the whole. */
  lemma PartsSorted(v0: seq<real>, t0: seq<int>, v1: seq<real>, t1: seq<int>, v2: seq<real>, t2: seq<int>, v3: seq<real>, t3: seq<int>,
                    lo: int, j: int, i: int, hi: int, p: real)
    requires 0 <= lo <= j <= i <= hi <= |v1| && Rearranged(v0, t0, v1, t1, lo, hi)
    requires AtLeast(v1, lo, i, p) && AtMost(v1, j, hi, p)
    requires Rearranged(v1, t1, v2, t2, lo, j) && Descending(v2, lo, j)
    requires Rearranged(v2, t2, v3, t3, i, hi) && Descending(v3, i, hi)
    ensures Rearranged(v0, t0, v3, t3, lo, hi) && Descending(v3, lo, hi)
  {
    PartsRearranged(v0, t0, v1, t1, v2, t2, v3, t3, lo, j, i, hi);
    BoundsKept(v1, t1, v2, t2, lo, j, p);
    Outside(v1, v2, lo, j);
    BoundsKept(v2, t2, v3, t3, i, hi, p);
    Outside(v2, v3, i, hi);
    DescendingJoined(v3, lo, j, i, hi, p);
  }

  lemma PartsRearranged(v0: seq<real>, t0: seq<int>, v1: seq<real>, t1: seq<int>, v2: seq<real>, t2: seq<int>,
                        v3: seq<real>, t3: seq<int>, lo: int, j: int, i: int, hi: int)
    requires 0 <= lo <= j <= i <= hi <= |v1| && Rearranged(v0, t0, v1, t1, lo, hi)
    requires Rearranged(v1, t1, v2, t2, lo, j) && Rearranged(v2, t2, v3, t3, i, hi)
    ensures Rearranged(v0, t0, v3, t3, lo, hi)
  {
    RearrangedWithin(v1, t1, v2, t2, lo, j, lo, hi);
    RearrangedWithin(v2, t2, v3, t3, i, hi, lo, hi);
    RearrangedTrans(v0, t0, v1, t1, v2, t2, lo, hi);
    RearrangedTrans(v0, t0, v2, t2, v3, t3, lo, hi);
  }
}
