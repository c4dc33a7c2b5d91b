/** The initrd reader of tar.c, proved to invert any ustar writer: section "ustar Interchange Format" of the
    pax utility in POSIX.1-2017. */
module Tar {
  import opened CStrings
  import opened Division

  // ---------------------------------------------------------------------
  // Octal fields
  // ---------------------------------------------------------------------

  predicate IsStop(c: Byte) { c == 0 || c == 32 }

  predicate IsOctal(c: Byte) { 48 <= c <= 55 }

  /** The part of a field before its first NUL or space. */
  function Field(f: seq<Byte>): (r: seq<Byte>)
    ensures |r| <= |f| && r == f[..|r|]
    ensures forall k :: 0 <= k < |r| ==> !IsStop(r[k])
    ensures |r| < |f| ==> IsStop(f[|r|])
  {
    if f == [] || IsStop(f[0]) then [] else [f[0]] + Field(f[1..])
  }

  /** The number that the octal digits of s make; other characters are passed over. */
  function Value(s: seq<Byte>): nat {
    if s == [] then 0
    else
      var c := s[|s| - 1];
      if IsOctal(c) then Value(s[..|s| - 1]) * 8 + (c - 48) else Value(s[..|s| - 1])
  }

  /** n in w octal digits with leading zeros. */
  function Digits(n: nat, w: nat): (r: seq<Byte>)
    ensures |r| == w && forall k :: 0 <= k < w ==> IsOctal(r[k])
  {
    if w == 0 then [] else Digits(n / 8, w - 1) + [48 + n % 8]
  }

  function Pow8(w: nat): (r: nat)
    ensures r > 0
  {
    if w == 0 then 1 else 8 * Pow8(w - 1)
  }

  lemma {:induction false} DigitsValue(n: nat, w: nat)
    requires n < Pow8(w)
    ensures Value(Digits(n, w)) == n
  {
    if w > 0 {
      DigitsValue(n / 8, w - 1);
      assert Digits(n, w)[..w - 1] == Digits(n / 8, w - 1);
    }
  }

  lemma {:induction false} FieldIs(f: seq<Byte>, n: nat)
    requires n < |f| && IsStop(f[n]) && forall k :: 0 <= k < n ==> !IsStop(f[k])
    ensures Field(f) == f[..n]
  {
    if n > 0 { FieldIs(f[1..], n - 1); }
  }

  /** A field written as w digits and a NUL or space reads back, whatever follows the stop. */
  lemma OctalRoundTrip(n: nat, w: nat, stop: Byte, rest: seq<Byte>)
    requires n < Pow8(w) && IsStop(stop)
    ensures Value(Field(Digits(n, w) + [stop] + rest)) == n
  {
    var f := Digits(n, w) + [stop] + rest;
    assert forall k :: 0 <= k < w ==> f[k] == Digits(n, w)[k];
    FieldIs(f, w);
    assert f[..w] == Digits(n, w);
    DigitsValue(n, w);
  }

  method ParseOctal(s: seq<Byte>, at: nat, maxLen: nat) returns (val: nat)
    requires at + maxLen <= |s|
    ensures val == Value(Field(s[at..at + maxLen]))
  {
    ghost var f := s[at..at + maxLen];
    val := 0;
    for i := 0 to maxLen
      invariant val == Value(f[..i]) && forall k :: 0 <= k < i ==> !IsStop(f[k])
    {
      assert s[at + i] == f[i] && f[..i + 1][..i] == f[..i];
      if IsStop(s[at + i]) {
        FieldIs(f, i);
        return;
      }
      if 48 <= s[at + i] <= 55 {
        val := val * 8 + (s[at + i] - 48);
      }
    }
    assert f == f[..maxLen];
    FieldWhole(f);
  }

  lemma {:induction false} FieldWhole(f: seq<Byte>)
    requires forall k :: 0 <= k < |f| ==> !IsStop(f[k])
    ensures Field(f) == f
  {
    if f != [] { FieldWhole(f[1..]); }
  }

  // ---------------------------------------------------------------------
  // The archive format
  // ---------------------------------------------------------------------

  const NAME: nat := 100
  const SIZE_AT: nat := 124
  const SIZE_LEN: nat := 12
  const HEADER: nat := 512

  /** A member: its name, the fields between name and size, the character that ends the size field, the fields
      after it, and its bytes. */
  datatype Entry = Entry(name: seq<Byte>, mid: seq<Byte>, stop: Byte, rest: seq<Byte>, content: seq<Byte>)

  ghost predicate ValidEntry(e: Entry) {
    && 1 <= |e.name| < NAME && 0 !in e.name
    && |e.mid| == 24 && IsStop(e.stop) && |e.rest| == 376
    && |e.content| < Pow8(11)
  }

  ghost predicate ValidEntries(es: seq<Entry>) {
    forall i :: 0 <= i < |es| ==> ValidEntry(es[i])
  }

  function Zeros(n: nat): (r: seq<Byte>)
    ensures |r| == n && forall k :: 0 <= k < n ==> r[k] == 0
  {
    if n == 0 then [] else Zeros(n - 1) + [0]
  }

  function Header(e: Entry): (r: seq<Byte>)
    requires |e.name| < NAME
    ensures |r| == NAME + |e.mid| + SIZE_LEN + |e.rest|
  {
    e.name + Zeros(NAME - |e.name|) + e.mid + (Digits(|e.content|, 11) + [e.stop]) + e.rest
  }

  /** The digit at place k of w stands for 8^(w - 1 - k). */
  lemma {:induction false} DigitIs(n: nat, w: nat, k: nat)
    requires k < w
    ensures Digits(n, w)[k] == 48 + n / Pow8(w - 1 - k) % 8
  {
    if k < w - 1 {
      DigitIs(n / 8, w - 1, k);
      TwoDivisions(n, 8, Pow8(w - 2 - k));
    }
  }

  lemma HeaderBytes(e: Entry)
    requires ValidEntry(e)
    ensures var h := Header(e);
      && |h| == 512 && h[..|e.name|] == e.name && (forall k :: |e.name| <= k < 100 ==> h[k] == 0)
      && h[124..135] == Digits(|e.content|, 11) && IsStop(h[135])
  {
    var named := e.name + Zeros(NAME - |e.name|);
    var sized := Digits(|e.content|, 11) + [e.stop];
    assert Header(e) == named + e.mid + sized + e.rest;
    SizePlace(named, e.mid, Digits(|e.content|, 11), e.stop, e.rest);
    assert forall k :: 0 <= k < 100 ==> Header(e)[k] == named[k];
  }

  lemma SizePlace(named: seq<Byte>, mid: seq<Byte>, digits: seq<Byte>, stop: Byte, rest: seq<Byte>)
    requires |named| == 100 && |mid| == 24 && |digits| == 11
    ensures var h := named + mid + (digits + [stop]) + rest; h[124..135] == digits && h[135] == stop
  {
  }

  lemma BlocksIs(n: nat)
    ensures Blocks(n) % 512 == 0 && n <= Blocks(n) < n + 512
  {
  }

  lemma RecordSplits(h: seq<Byte>, content: seq<Byte>, pad: seq<Byte>)
    requires |h| == 512
    ensures (h + content + pad)[..512] == h && (h + content + pad)[512..512 + |content|] == content
  {
  }

  /** Where the fields of a record lie: the name in the first 100 bytes with NULs behind it, the size in 11 digits
      from byte 124 on and its stop at 135; the content starts at 512, and the next header at the next multiple of
      512. */
  lemma RecordBytes(e: Entry)
    requires ValidEntry(e)
    ensures var r := Record(e);
      && |r| % 512 == 0 && 512 + |e.content| <= |r| < 1024 + |e.content|
      && r[..|e.name|] == e.name && (forall k :: |e.name| <= k < 100 ==> r[k] == 0)
      && r[124..135] == Digits(|e.content|, 11) && (r[135] == 0 || r[135] == 32)
      && r[512..512 + |e.content|] == e.content
  {
    var h, pad := Header(e), Zeros(Blocks(|e.content|) - |e.content|);
    HeaderBytes(e);
    BlocksIs(|e.content|);
    RecordSplits(h, e.content, pad);
    FrontReads(Record(e), h, |e.name|);
  }

  lemma FrontReads(r: seq<Byte>, h: seq<Byte>, n: nat)
    requires |h| == 512 <= |r| && r[..512] == h && n <= 100
    ensures r[..n] == h[..n] && r[124..135] == h[124..135] && r[135] == h[135]
    ensures forall k :: n <= k < 100 ==> r[k] == h[k]
  {
  }

  /** Length rounded up to whole blocks. */
  function Blocks(n: nat): nat { (n + 511) / 512 * 512 }

  function Record(e: Entry): seq<Byte>
    requires |e.name| < NAME
  {
    Header(e) + e.content + Zeros(Blocks(|e.content|) - |e.content|)
  }

  /** Bytes from one header to the next. */
  function Span(e: Entry): nat { HEADER + Blocks(|e.content|) }

  lemma RecordLength(e: Entry)
    requires ValidEntry(e)
    ensures |Record(e)| == Span(e)
  {
  }

  ghost function Encode(es: seq<Entry>): seq<Byte>
    requires ValidEntries(es)
  {
    if es == [] then [] else Record(es[0]) + Encode(es[1..])
  }

  /** Where record i starts. */
  ghost function Offset(es: seq<Entry>, i: nat): nat
    requires i <= |es|
  {
    if i == 0 then 0 else Span(es[0]) + Offset(es[1..], i - 1)
  }

  /** An archive of the entries: their records, then nothing or a block that starts with a zero byte. */
  ghost predicate Archive(data: seq<Byte>, es: seq<Entry>) {
    && ValidEntries(es)
    && Encode(es) <= data
    && (|data| > |Encode(es)| ==> data[|Encode(es)|] == 0)
  }

  /** Record i of the encoding stands at its offset. */
  lemma {:induction false} RecordAt(es: seq<Entry>, i: nat)
    requires ValidEntries(es) && i < |es|
    ensures Offset(es, i + 1) == Offset(es, i) + Span(es[i]) <= |Encode(es)|
    ensures Encode(es)[Offset(es, i)..Offset(es, i + 1)] == Record(es[i])
  {
    RecordLength(es[0]);
    var tail := Encode(es[1..]);
    if i == 0 {
      assert Offset(es, 1) == Span(es[0]) + Offset(es[1..], 0) == Span(es[0]);
      FirstSlice(Record(es[0]), tail);
    } else {
      RecordAt(es[1..], i - 1);
      assert es[1..][i - 1] == es[i];
      LaterRecord(es, i, tail, Offset(es[1..], i - 1), Offset(es[1..], i));
    }
  }

  lemma LaterRecord(es: seq<Entry>, i: nat, tail: seq<Byte>, from: nat, to: nat)
    requires 0 < i < |es| && ValidEntries(es) && tail == Encode(es[1..]) && |Record(es[0])| == Span(es[0])
    requires from == Offset(es[1..], i - 1) && to == Offset(es[1..], i) && from <= to <= |tail|
    ensures Offset(es, i) == Span(es[0]) + from && Offset(es, i + 1) == Span(es[0]) + to <= |Encode(es)|
    ensures Encode(es)[Offset(es, i)..Offset(es, i + 1)] == tail[from..to]
  {
    ShiftedSlice(Record(es[0]), tail, from, to);
  }

  lemma FirstSlice(a: seq<Byte>, b: seq<Byte>)
    ensures (a + b)[0..|a|] == a
  {
  }

  lemma ShiftedSlice(a: seq<Byte>, b: seq<Byte>, i: nat, j: nat)
    requires i <= j <= |b|
    ensures (a + b)[|a| + i..|a| + j] == b[i..j]
  {
  }

  lemma {:induction false} EndOffset(es: seq<Entry>)
    requires ValidEntries(es)
    ensures Offset(es, |es|) == |Encode(es)|
  {
    if es != [] {
      EndOffset(es[1..]);
      RecordLength(es[0]);
    }
  }

  /** What the reader finds at p, where an entry's record stands: its name as a C string, its size, its content. */
  ghost predicate ReadsAt(data: seq<Byte>, p: nat, e: Entry) {
    && p + HEADER + |e.content| <= |data|
    && data[p] != 0 && Terminated(data, p) && StringAt(data, p) == e.name
    && Value(Field(data[p + SIZE_AT..p + SIZE_AT + SIZE_LEN])) == |e.content|
    && data[p + HEADER..p + HEADER + |e.content|] == e.content
  }

  lemma HeaderReads(data: seq<Byte>, es: seq<Entry>, i: nat)
    requires Archive(data, es) && i < |es|
    ensures ReadsAt(data, Offset(es, i), es[i])
    ensures Offset(es, i + 1) == Offset(es, i) + Span(es[i]) <= |data|
  {
    RecordAt(es, i);
    RecordLength(es[i]);
    PrefixSlice(Encode(es), data, Offset(es, i), Offset(es, i + 1));
    RecordReads(data, Offset(es, i), es[i]);
  }

  /** The walk stops exactly when no record is left; otherwise the next one stands at the cursor. */
  lemma AtCursor(data: seq<Byte>, es: seq<Entry>, ptr: nat, i: nat)
    requires Archive(data, es) && i <= |es| && ptr == Offset(es, i)
    ensures ptr < |data| && data[ptr] != 0 <==> i < |es|
    ensures i < |es| ==> ReadsAt(data, ptr, es[i]) && Offset(es, i + 1) == ptr + Span(es[i])
  {
    if i < |es| { HeaderReads(data, es, i); } else { EndOffset(es); }
  }

  lemma PrefixSlice(a: seq<Byte>, b: seq<Byte>, i: nat, j: nat)
    requires a <= b && i <= j <= |a|
    ensures b[i..j] == a[i..j]
  {
  }

  lemma RecordReads(data: seq<Byte>, p: nat, e: Entry)
    requires ValidEntry(e) && p + |Record(e)| <= |data| && data[p..p + |Record(e)|] == Record(e)
    ensures ReadsAt(data, p, e)
  {
    NameReads(data, p, e);
    SizeReads(data, p, e);
    ContentReads(data, p, e);
  }

  lemma NameReads(data: seq<Byte>, p: nat, e: Entry)
    requires ValidEntry(e) && p + |Record(e)| <= |data| && data[p..p + |Record(e)|] == Record(e)
    ensures data[p] != 0 && Terminated(data, p) && StringAt(data, p) == e.name
  {
    var after := NameFirst(e);
    NameBytes(data, p, e.name, after);
    NameIs(data, p, e.name);
  }

  lemma NameIs(data: seq<Byte>, p: nat, name: seq<Byte>)
    requires name != [] && 0 !in name && p + |name| < |data| && data[p..p + |name|] == name && data[p + |name|] == 0
    ensures data[p] != 0 && Terminated(data, p) && StringAt(data, p) == name
  {
    assert data[p..p + |name|][0] == name[0];
    StringIs(data, p, name);
  }

  lemma NameBytes(data: seq<Byte>, p: nat, name: seq<Byte>, after: seq<Byte>)
    requires p + |name + [0] + after| <= |data| && data[p..p + |name + [0] + after|] == name + [0] + after
    ensures data[p..p + |name|] == name && data[p + |name|] == 0
  {
    MiddleReads(data, p, name, [0], after);
    assert data[p + |name|..p + |name| + 1][0] == 0;
    assert name + [0] + after == [] + name + ([0] + after);
    MiddleReads(data, p, [], name, [0] + after);
  }

  /** The name is followed by a NUL. */
  lemma NameFirst(e: Entry) returns (after: seq<Byte>)
    requires ValidEntry(e)
    ensures Record(e) == e.name + [0] + after
  {
    var pad := Zeros(NAME - |e.name|);
    assert pad == [0] + pad[1..];
    after := Record(e)[|e.name| + 1..];
  }

  lemma SizeReads(data: seq<Byte>, p: nat, e: Entry)
    requires ValidEntry(e) && p + |Record(e)| <= |data| && data[p..p + |Record(e)|] == Record(e)
    ensures Value(Field(data[p + SIZE_AT..p + SIZE_AT + SIZE_LEN])) == |e.content|
  {
    var size := Digits(|e.content|, 11) + [e.stop];
    var before := e.name + Zeros(NAME - |e.name|) + e.mid;
    var after := e.rest + e.content + Zeros(Blocks(|e.content|) - |e.content|);
    assert Record(e) == before + size + after;
    MiddleReads(data, p, before, size, after);
    OctalRoundTrip(|e.content|, 11, e.stop, []);
    assert size + [] == size;
  }

  /** A part of what stands at p. */
  lemma MiddleReads(data: seq<Byte>, p: nat, a: seq<Byte>, b: seq<Byte>, c: seq<Byte>)
    requires p + |a + b + c| <= |data| && data[p..p + |a + b + c|] == a + b + c
    ensures data[p + |a|..p + |a| + |b|] == b
  {
    var all := a + b + c;
    assert all[|a|..|a| + |b|] == b;
    PartOfPart(data, p, p + |all|, |a|, |a| + |b|);
  }

  lemma PartOfPart(s: seq<Byte>, lo: nat, hi: nat, i: nat, j: nat)
    requires lo <= hi <= |s| && i <= j <= hi - lo
    ensures s[lo..hi][i..j] == s[lo + i..lo + j]
  {
    assert forall k :: 0 <= k < j - i ==> s[lo..hi][i..j][k] == s[lo..hi][i + k] == s[lo + i + k];
  }

  lemma ContentReads(data: seq<Byte>, p: nat, e: Entry)
    requires ValidEntry(e) && p + |Record(e)| <= |data| && data[p..p + |Record(e)|] == Record(e)
    ensures p + HEADER + |e.content| <= |data| && data[p + HEADER..p + HEADER + |e.content|] == e.content
  {
    MiddleReads(data, p, Header(e), e.content, Zeros(Blocks(|e.content|) - |e.content|));
  }

  // ---------------------------------------------------------------------
  // Lookup
  // ---------------------------------------------------------------------

  datatype Want = Named(name: seq<Byte>) | Ending(suffix: seq<Byte>)

  predicate Matches(w: Want, e: Entry) {
    match w
    case Named(name) => e.name == name
    case Ending(suffix) => |suffix| <= |e.name| && e.name[|e.name| - |suffix|..] == suffix
  }

  /** NULL; a place and size in the archive; or the file that the firmware handed over. */
  datatype Found = NotFound | InArchive(at: nat, size: nat) | Companion(addr: nat, size: nat)

  ghost predicate NoneBefore(es: seq<Entry>, w: Want, n: nat)
    requires n <= |es|
  {
    forall k :: 0 <= k < n ==> !Matches(w, es[k])
  }

  lemma NoneOfOneMore(es: seq<Entry>, w: Want, n: nat)
    requires n < |es| && NoneBefore(es, w, n) && !Matches(w, es[n])
    ensures NoneBefore(es, w, n + 1)
  {
  }

  /** The first of the entries that matches, with exactly its bytes and its size; nothing when none matches. */
  ghost predicate IsAnswer(data: seq<Byte>, es: seq<Entry>, w: Want, r: Found, i: nat) {
    && (r.NotFound? || r.InArchive?)
    && (r.NotFound? <==> NoneBefore(es, w, |es|))
    && (r.InArchive? ==>
          && i < |es| && Matches(w, es[i]) && NoneBefore(es, w, i)
          && r.at + r.size <= |data| && data[r.at..r.at + r.size] == es[i].content && r.size == |es[i].content|)
  }

  lemma AnswerFound(data: seq<Byte>, es: seq<Entry>, w: Want, p: nat, size: nat, i: nat)
    requires i < |es| && ReadsAt(data, p, es[i]) && size == |es[i].content|
    requires NoneBefore(es, w, i) && Matches(w, es[i])
    ensures IsAnswer(data, es, w, InArchive(p + HEADER, size), i)
  {
  }

  /** ".instruct" */
  const INSTRUCT: seq<Byte> := [46, 105, 110, 115, 116, 114, 117, 99, 116]

  /** "uefi_companion.instruct" */
  const COMPANION_NAME: seq<Byte> :=
    [117, 101, 102, 105, 95, 99, 111, 109, 112, 97, 110, 105, 111, 110, 46, 105, 110, 115, 116, 114, 117, 99, 116]

  lemma NamesAre()
    ensures |INSTRUCT| == |".instruct"| && forall i :: 0 <= i < |INSTRUCT| ==> INSTRUCT[i] == ".instruct"[i] as int
    ensures |COMPANION_NAME| == |"uefi_companion.instruct"|
    ensures forall i :: 0 <= i < |COMPANION_NAME| ==> COMPANION_NAME[i] == "uefi_companion.instruct"[i] as int
  {
  }

  /** The size field of a header and the place of the header after it. */
  method ReadSize(data: seq<Byte>, ptr: nat, ghost e: Entry) returns (size: nat, next: nat)
    requires ReadsAt(data, ptr, e)
    ensures size == |e.content| && next == ptr + Span(e)
  {
    size := ParseOctal(data, ptr + SIZE_AT, SIZE_LEN);
    next := ptr + HEADER + Blocks(size);
  }

  /** Whether an entry has the wanted name. */
  method SameName(data: seq<Byte>, ptr: nat, filename: seq<Byte>, ghost e: Entry) returns (same: bool)
    requires ReadsAt(data, ptr, e) && Terminated(filename, 0)
    ensures same <==> Matches(Named(StringAt(filename, 0)), e)
  {
    var r := StrCmp(data, ptr, filename, 0);
    same := r == 0;
  }

  /** The walk of tar_find_file. */
  method WalkForName(data: seq<Byte>, filename: seq<Byte>, ghost es: seq<Entry>) returns (r: Found, ghost i: nat)
    requires Archive(data, es) && Terminated(filename, 0)
    ensures IsAnswer(data, es, Named(StringAt(filename, 0)), r, i)
    ensures r == NotFound <==> forall k :: 0 <= k < |es| ==> es[k].name != StringAt(filename, 0)
  {
    ghost var w := Named(StringAt(filename, 0));
    i := 0;
    var ptr := 0;
    while ptr < |data|
      invariant i <= |es| && ptr == Offset(es, i) && NoneBefore(es, w, i)
      decreases |es| - i
    {
      AtCursor(data, es, ptr, i);
      if data[ptr] == 0 {
        break;
      }
      var size, next := ReadSize(data, ptr, es[i]);
      var same := SameName(data, ptr, filename, es[i]);
      if same {
        AnswerFound(data, es, w, ptr, size, i);
        return InArchive(ptr + HEADER, size), i;
      }
      NoneOfOneMore(es, w, i);
      ptr := next;
      i := i + 1;
    }
    AtCursor(data, es, ptr, i);
    r := NotFound;
  }

  // ---------------------------------------------------------------------
  // Lookup by suffix
  // ---------------------------------------------------------------------

  lemma TextIs(text: seq<Byte>)
    requires 0 !in text
    ensures Terminated(text + [0], 0) && StringAt(text + [0], 0) == text
  {
    StringIs(text + [0], 0, text);
  }

  /** What a name buffer holds after a name was written into it. */
  function Written(name: seq<Byte>, before: seq<Byte>): seq<Byte>
    requires |name| < |before|
  {
    name + [0] + before[|name| + 1..]
  }

  /** Whether the name at ptr, which is n bytes long, ends in the suffix, which is m. */
  method HasSuffix(data: seq<Byte>, ptr: nat, n: nat, suffix: seq<Byte>, m: nat, ghost name: seq<Byte>) returns (has: bool)
    requires Terminated(data, ptr) && StringAt(data, ptr) == name && n == |name|
    requires Terminated(suffix, 0) && m == |StringAt(suffix, 0)|
    ensures has <==> m <= n && name[n - m..] == StringAt(suffix, 0)
  {
    if n < m {
      return false;
    }
    NameTail(data, ptr, name, n - m);
    var r := StrCmp(data, ptr + (n - m), suffix, 0);
    has := r == 0;
  }

  lemma {:induction false} NameTail(data: seq<Byte>, ptr: nat, name: seq<Byte>, k: nat)
    requires Terminated(data, ptr) && StringAt(data, ptr) == name && k <= |name|
    ensures Terminated(data, ptr + k) && StringAt(data, ptr + k) == name[k..]
    decreases k
  {
    if k > 0 { NameTail(data, ptr + 1, name[1..], k - 1); }
  }

  lemma WrittenIs(name: seq<Byte>, before: seq<Byte>, after: seq<Byte>)
    requires |name| < |before| == |after| && after[|name|] == 0
    requires forall k :: 0 <= k < |name| ==> after[k] == name[k]
    requires forall k :: |name| < k < |after| ==> after[k] == before[k]
    ensures after == Written(name, before)
  {
  }

  /** The copy loop into the caller's buffer of 100 bytes, and the NUL behind the copy. */
  method CopyName(s: seq<Byte>, at: nat, n: nat, outName: array?<Byte>)
    requires at + n <= |s| && n < NAME
    requires outName != null ==> outName.Length >= NAME
    modifies outName
    ensures outName != null ==> outName[..] == Written(s[at..at + n], old(outName[..]))
  {
    if outName == null {
      return;
    }
    ghost var name, before := s[at..at + n], outName[..];
    for i := 0 to n
      invariant forall k :: 0 <= k < i ==> outName[k] == name[k]
      invariant forall k :: i <= k < outName.Length ==> outName[k] == before[k]
    {
      outName[i] := s[at + i];
    }
    outName[n] := 0;
    WrittenIs(name, before, outName[..]);
  }

  /** The walk of tar_find_by_suffix. */
  method WalkForSuffix(data: seq<Byte>, suffix: seq<Byte>, outName: array?<Byte>, ghost es: seq<Entry>)
      returns (r: Found, ghost i: nat)
    requires Archive(data, es) && Terminated(suffix, 0)
    requires outName != null ==> outName.Length >= NAME
    modifies outName
    ensures IsAnswer(data, es, Ending(StringAt(suffix, 0)), r, i)
    ensures outName != null ==>
      outName[..] == if r.InArchive? then Written(es[i].name, old(outName[..])) else old(outName[..])
  {
    ghost var w := Ending(StringAt(suffix, 0));
    i := 0;
    var ptr := 0;
    var suffixLen := StrLen(suffix, 0);
    while ptr < |data|
      invariant i <= |es| && ptr == Offset(es, i) && NoneBefore(es, w, i)
      invariant outName != null ==> outName[..] == old(outName[..])
      decreases |es| - i
    {
      AtCursor(data, es, ptr, i);
      if data[ptr] == 0 {
        break;
      }
      var size, next := ReadSize(data, ptr, es[i]);
      var nameLen := StrLen(data, ptr);
      var has := HasSuffix(data, ptr, nameLen, suffix, suffixLen, es[i].name);
      if has {
        AnswerFound(data, es, w, ptr, size, i);
        CopyHeaderName(data, ptr, nameLen, outName, es[i]);
        return InArchive(ptr + HEADER, size), i;
      }
      NoneOfOneMore(es, w, i);
      ptr := next;
      i := i + 1;
    }
    AtCursor(data, es, ptr, i);
    r := NotFound;
  }

  /** At most 99 bytes of the name are copied. */
  method CopyHeaderName(data: seq<Byte>, ptr: nat, nameLen: nat, outName: array?<Byte>, ghost e: Entry)
    requires ReadsAt(data, ptr, e) && nameLen == |e.name| < NAME
    requires outName != null ==> outName.Length >= NAME
    modifies outName
    ensures outName != null ==> outName[..] == Written(e.name, old(outName[..]))
  {
    StringStands(data, ptr);
    var n := if nameLen < 99 then nameLen else 99;
    CopyName(data, ptr, n, outName);
  }

  class Initrd {
    var mounted: bool
    var data: seq<Byte>
    var companionAddr: nat
    var companionSize: nat
    ghost var entries: seq<Entry>

    ghost predicate Valid()
      reads this
    {
      mounted ==> Archive(data, entries)
    }

    constructor ()
      ensures Valid() && !mounted && companionAddr == 0
    {
      mounted, data, companionAddr, companionSize, entries := false, [], 0, 0, [];
    }

    method Init(archive: seq<Byte>, ghost es: seq<Entry>)
      requires Archive(archive, es)
      modifies this
      ensures Valid() && mounted && data == archive && entries == es
      ensures companionAddr == old(companionAddr) && companionSize == old(companionSize)
    {
      mounted, data, entries := true, archive, es;
    }

    method SetCompanion(addr: nat, size: nat)
      modifies `companionAddr, `companionSize
      ensures companionAddr == addr && companionSize == size
    {
      companionAddr, companionSize := addr, size;
    }

    method FindFile(filename: seq<Byte>) returns (r: Found, ghost i: nat)
      requires Valid() && Terminated(filename, 0)
      ensures mounted ==> IsAnswer(data, entries, Named(StringAt(filename, 0)), r, i)
      ensures !mounted ==> r == NotFound
    {
      if !mounted {
        return NotFound, 0;
      }
      r, i := WalkForName(data, filename, entries);
    }

    /** The name of the answer goes to outName, NUL-terminated, when the caller gives a buffer. */
    method FindBySuffix(suffix: seq<Byte>, outName: array?<Byte>) returns (r: Found, ghost i: nat)
      requires Valid() && Terminated(suffix, 0)
      requires outName != null ==> outName.Length >= NAME
      modifies outName
      ensures mounted ==> IsAnswer(data, entries, Ending(StringAt(suffix, 0)), r, i)
      ensures !mounted ==>
        r == if companionAddr != 0 && StringAt(suffix, 0) == INSTRUCT then Companion(companionAddr, companionSize) else NotFound
      ensures outName != null ==>
        outName[..] == match r
          case NotFound => old(outName[..])
          case InArchive(_, _) => Written(entries[i].name, old(outName[..]))
          case Companion(_, _) => Written(COMPANION_NAME, old(outName[..]))
    {
      i := 0;
      if !mounted {
        if companionAddr == 0 {
          return NotFound, i;
        }
        TextIs(INSTRUCT);
        var differs := StrCmp(suffix, 0, INSTRUCT + [0], 0);
        if differs != 0 {
          return NotFound, i;
        }
        CopyName(COMPANION_NAME + [0], 0, |COMPANION_NAME|, outName);
        return Companion(companionAddr, companionSize), i;
      }
      r, i := WalkForSuffix(data, suffix, outName, entries);
    }
  }
}
