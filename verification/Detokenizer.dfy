/** The text on its way to the tokenizer and the tokens on their way to the screen: preprocess_text and
    print_token of gguf.c, and when printing undoes preprocessing and tokenizing. */
module Detokenizer {
  import opened CStrings
  import opened VocabIndex
  import opened Tokenizer

  /** U+2581 in UTF-8, the mark for a space. */
  const BLOCK: seq<Byte> := [0xE2, 0x96, 0x81]

  const SHOWN: nat := 255

  // ---------------------------------------------------------------------
  // Printing
  // ---------------------------------------------------------------------

  /** The bytes i .. n of s with each block turned into a space. */
  function Spaced(s: seq<Byte>, i: nat, n: nat): (r: seq<Byte>)
    requires i <= n <= |s|
    ensures |r| <= n - i
    decreases n - i
  {
    if i == n then []
    else if i + 3 <= n && BlockAt(s, i) then [32] + Spaced(s, i + 3, n)
    else [s[i]] + Spaced(s, i + 1, n)
  }

  /** What print_token hands to its callback. */
  function Shown(t: seq<Byte>): seq<Byte> {
    if IsLiteral(t) then Spelled(t)
    else
      var all := Spaced(t, 0, |t|);
      if |all| > SHOWN then all[..SHOWN] else all
  }

  method PrintToken(tokens: seq<seq<Byte>>, id: int) returns (called: bool, shown: seq<Byte>)
    ensures called <==> 0 <= id < |tokens|
    ensures called ==> shown == Shown(tokens[id]) && |shown| <= 255
    ensures called && !IsLiteral(tokens[id]) && |Spaced(tokens[id], 0, |tokens[id]|)| <= 255 ==>
      shown == Spaced(tokens[id], 0, |tokens[id]|)
  {
    if id < 0 || id >= |tokens| {
      return false, [];
    }
    called := true;
    var str := tokens[id];
    if |str| == 6 && str[0] == 60 && str[1] == 48 && str[2] == 120 && str[5] == 62 {
      shown := [HexValue(str[3]) * 16 + HexValue(str[4])];
      return;
    }
    shown := ShowBytes(str);
  }

  /** The copying loop, into a buffer of 256 bytes. */
  method ShowBytes(str: seq<Byte>) returns (shown: seq<Byte>)
    ensures var all := Spaced(str, 0, |str|); shown == if |all| > SHOWN then all[..SHOWN] else all
  {
    shown := [];
    ghost var all := Spaced(str, 0, |str|);
    var i := 0;
    while i < |str| && |shown| < SHOWN
      invariant i <= |str| && |shown| <= SHOWN
      invariant shown + Spaced(str, i, |str|) == all
    {
      if i + 2 < |str| && BlockAt(str, i) {
        MoveByte(shown, 32, Spaced(str, i, |str|), Spaced(str, i + 3, |str|), all);
        shown := shown + [32];
        i := i + 3;
      } else {
        MoveByte(shown, str[i], Spaced(str, i, |str|), Spaced(str, i + 1, |str|), all);
        shown := shown + [str[i]];
        i := i + 1;
      }
    }
    Tail(shown, Spaced(str, i, |str|), all);
  }

  /** One byte moves from what is left to what is shown. */
  lemma MoveByte(shown: seq<Byte>, x: Byte, left: seq<Byte>, rest: seq<Byte>, all: seq<Byte>)
    requires shown + left == all && left == [x] + rest
    ensures (shown + [x]) + rest == all
  {
  }

  lemma Tail(a: seq<Byte>, b: seq<Byte>, all: seq<Byte>)
    requires a + b == all
    ensures all[..|a|] == a && (b == [] ==> all == a)
  {
  }

  function ShowAll(v: Setup, ids: seq<int>): seq<Byte> {
    if ids == [] then []
    else (if 0 <= ids[0] < |v.tokens| then Shown(v.tokens[ids[0]]) else []) + ShowAll(v, ids[1..])
  }

  // ---------------------------------------------------------------------
  // Printing the tokens of a text
  // ---------------------------------------------------------------------

  /** No block of s lies across j. */
  ghost predicate Uncut(s: seq<Byte>, j: nat) {
    forall p: nat :: p < j < p + 3 <= |s| ==> !BlockAt(s, p)
  }

  /** No token of the text ends inside a block. */
  ghost predicate NoBlockCut(v: Setup, s: seq<Byte>, i: nat)
    requires i <= |s|
    decreases |s| - i
  {
    i == |s| || (Uncut(s, i + Step(v, s, i)) && NoBlockCut(v, s, i + Step(v, s, i)))
  }

  lemma {:induction false} SpacedSplits(s: seq<Byte>, i: nat, j: nat, n: nat)
    requires i <= j <= n <= |s| && Uncut(s, j)
    ensures Spaced(s, i, n) == Spaced(s, i, j) + Spaced(s, j, n)
    decreases j - i
  {
    if i < j {
      SpacedSplits(s, if i + 3 <= n && BlockAt(s, i) then i + 3 else i + 1, j, n);
    }
  }

  lemma {:induction false} SpacedShift(s: seq<Byte>, a: nat, b: nat, i: nat)
    requires a <= b <= |s| && i <= b - a
    ensures Spaced(s[a..b], i, b - a) == Spaced(s, a + i, b)
    decreases b - a - i
  {
    if i < b - a {
      SpacedShift(s, a, b, i + 1);
      if i + 3 <= b - a { SpacedShift(s, a, b, i + 3); }
    }
  }

  /** The tokens of a text are printed as the text with its blocks as spaces, unless a piece has the form of a
      byte token or a token ends inside a block. */
  lemma {:induction false} PrintsText(v: Setup, s: seq<Byte>, i: nat)
    requires v.sentencePiece && AllByteTokens(v) && i <= |s|
    requires NoLiteralPiece(v, s, i) && NoBlockCut(v, s, i)
    ensures ShowAll(v, Tokens(v, s, i)) == Spaced(s, i, |s|)
    decreases |s| - i
  {
    if i < |s| {
      var j := ShowFirst(v, s, i);
      CutNext(v, s, i, j);
      assert ShowAll(v, Tokens(v, s, j)) == Spaced(s, j, |s|) by { PrintsText(v, s, j); }
      assert Spaced(s, i, |s|) == Spaced(s, i, j) + Spaced(s, j, |s|) by { SpacedSplits(s, i, j, |s|); }
    }
  }

  lemma CutNext(v: Setup, s: seq<Byte>, i: nat, j: nat)
    requires i < |s| && j == i + Step(v, s, i)
    ensures NoBlockCut(v, s, i) <==> Uncut(s, j) && NoBlockCut(v, s, j)
  {
  }

  lemma ShowFirst(v: Setup, s: seq<Byte>, i: nat) returns (j: nat)
    requires v.sentencePiece && AllByteTokens(v) && i < |s| && NoLiteralPiece(v, s, i)
    ensures j == i + Step(v, s, i) && i < j <= |s| && NoLiteralPiece(v, s, j)
    ensures ShowAll(v, Tokens(v, s, i)) == Spaced(s, i, j) + ShowAll(v, Tokens(v, s, j))
  {
    var id;
    id, j := FirstToken(v, s, i);
    var x := TokenShows(v, s, i, id, j);
    assert ([id] + Tokens(v, s, j))[1..] == Tokens(v, s, j);
  }

  /** A block that lies across j takes one byte in the whole text and three in its parts. */
  lemma BlockApart(s: seq<Byte>, p: nat, j: nat)
    requires p < j < p + 3 <= |s| && BlockAt(s, p)
    ensures |Spaced(s, p, |s|)| + 2 == |Spaced(s, p, j)| + |Spaced(s, j, |s|)|
  {
    assert Spaced(s, j, j) == [];
    if j == p + 2 { assert |Spaced(s, p + 1, j)| == 1; }
  }

  lemma {:induction false} SpacedAtMost(s: seq<Byte>, i: nat, j: nat)
    requires i <= j <= |s|
    ensures |Spaced(s, i, |s|)| <= |Spaced(s, i, j)| + |Spaced(s, j, |s|)|
    decreases j - i
  {
    if i < j {
      if i + 3 > |s| || !BlockAt(s, i) {
        SpacedAtMost(s, i + 1, j);
      } else if i + 3 <= j {
        SpacedAtMost(s, i + 3, j);
      } else {
        BlockApart(s, i, j);
      }
    }
  }

  lemma {:induction false} SpacedLess(s: seq<Byte>, i: nat, j: nat, p: nat)
    requires i <= p < j < p + 3 <= |s| && BlockAt(s, p)
    ensures |Spaced(s, i, |s|)| < |Spaced(s, i, j)| + |Spaced(s, j, |s|)|
    decreases p - i
  {
    if i == p {
      BlockApart(s, i, j);
    } else if BlockAt(s, i) {
      SpacedLess(s, i + 3, j, p);
    } else {
      SpacedLess(s, i + 1, j, p);
    }
  }

  /** The tokens never print less than the text with its blocks as spaces. */
  lemma {:induction false} ShowsAtLeast(v: Setup, s: seq<Byte>, i: nat)
    requires v.sentencePiece && AllByteTokens(v) && i <= |s| && NoLiteralPiece(v, s, i)
    ensures |ShowAll(v, Tokens(v, s, i))| >= |Spaced(s, i, |s|)|
    decreases |s| - i
  {
    if i < |s| {
      var j := ShowFirst(v, s, i);
      ShowsAtLeast(v, s, j);
      SpacedAtMost(s, i, j);
    }
  }

  /** And more than that when one of them ends inside a block. */
  lemma {:induction false} CutShowsMore(v: Setup, s: seq<Byte>, i: nat)
    requires v.sentencePiece && AllByteTokens(v) && i <= |s| && NoLiteralPiece(v, s, i)
    requires Uncut(s, i) && !NoBlockCut(v, s, i)
    ensures |ShowAll(v, Tokens(v, s, i))| > |Spaced(s, i, |s|)|
    decreases |s| - i
  {
    var j := ShowFirst(v, s, i);
    CutNext(v, s, i, j);
    if Uncut(s, j) {
      assert |ShowAll(v, Tokens(v, s, j))| > |Spaced(s, j, |s|)| by { CutShowsMore(v, s, j); }
      SpacedAtMost(s, i, j);
    } else {
      var p: nat :| p < j < p + 3 <= |s| && BlockAt(s, p);
      ShowsAtLeast(v, s, j);
      SpacedLess(s, i, j, p);
    }
  }

  /** The tokens of a text without pieces of the form of a byte token are printed as the text with its blocks as
      spaces exactly when no token ends inside a block. */
  lemma PrintsTextIff(v: Setup, s: seq<Byte>, i: nat)
    requires v.sentencePiece && AllByteTokens(v) && i <= |s|
    requires Uncut(s, i) && NoLiteralPiece(v, s, i)
    ensures ShowAll(v, Tokens(v, s, i)) == Spaced(s, i, |s|) <==> NoBlockCut(v, s, i)
  {
    if NoBlockCut(v, s, i) { PrintsText(v, s, i); } else { CutShowsMore(v, s, i); }
  }

  lemma TokenShows(v: Setup, s: seq<Byte>, i: nat, id: int, j: nat) returns (x: seq<Byte>)
    requires v.sentencePiece && AllByteTokens(v) && i < j <= |s| && id == TokenAt(v, s, i) && j == i + Step(v, s, i)
    requires !LiteralAt(v, s, i)
    ensures 0 <= id < |v.tokens| && x == Shown(v.tokens[id]) == Spaced(s, i, j)
  {
    LongestIs(v, s, i, Reach(s, i));
    x := Spaced(s, i, j);
    if PieceAt(v, s, i) > 0 {
      PieceShows(s, i, j);
    } else {
      assert Literal(s[i]) in v.tokens;
      LiteralShows(s, i);
    }
  }

  lemma PieceShows(s: seq<Byte>, i: nat, j: nat)
    requires i <= j <= |s| && j - i <= SHOWN && !IsLiteral(s[i..j])
    ensures Shown(s[i..j]) == Spaced(s, i, j)
  {
    SpacedShift(s, i, j, 0);
  }

  lemma LiteralShows(s: seq<Byte>, i: nat)
    requires i < |s|
    ensures Shown(Literal(s[i])) == Spaced(s, i, i + 1)
  {
    LiteralSpells(s[i]);
  }

  // ---------------------------------------------------------------------
  // Preprocessing
  // ---------------------------------------------------------------------

  /** byte_to_unicode_cp: the code point that stands for a byte in a BPE vocabulary. */
  function CodePoint(b: Byte): nat {
    if 33 <= b <= 126 || 161 <= b <= 172 || b >= 174 then b
    else if b <= 32 then 256 + b
    else if 127 <= b <= 160 then 256 + 33 + (b - 127)
    else 256 + 33 + 34
  }

  /** How many of the bytes below n are not printable in Latin-1: all but 33 - 126, 161 - 172 and 174 - 255. */
  function UnprintableBelow(n: nat): nat {
    if n == 0 then 0
    else UnprintableBelow(n - 1) + if 33 <= n - 1 <= 126 || 161 <= n - 1 <= 172 || n - 1 >= 174 then 0 else 1
  }

  lemma {:induction false} UnprintableCount(n: nat)
    ensures UnprintableBelow(n) ==
      if n <= 33 then n else if n <= 127 then 33 else if n <= 161 then n - 94 else if n <= 173 then 67 else 68
  {
    if n > 0 { UnprintableCount(n - 1); }
  }

  /** Printable bytes stand for themselves, the others take the code points from 256 on in ascending order. */
  lemma CodePointIs(b: Byte)
    ensures 33 <= b <= 126 || 161 <= b <= 172 || 174 <= b ==> CodePoint(b) == b
    ensures !(33 <= b <= 126 || 161 <= b <= 172 || 174 <= b) ==> CodePoint(b) == 256 + UnprintableBelow(b)
  {
    UnprintableCount(b);
  }

  /** UTF-8 of a code point below 2048. */
  function Utf8(u: nat): seq<Byte>
    requires u < 2048
  {
    if u <= 127 then [u] else [0xC0 + u / 64, 0x80 + u % 64]
  }

  /** One byte below 128; otherwise a lead byte and a continuation byte that hold the code point's bits. */
  lemma Utf8Decodes(u: nat)
    requires u < 2048
    ensures u < 128 ==> Utf8(u) == [u]
    ensures u >= 128 ==> |Utf8(u)| == 2 && 0xC2 <= Utf8(u)[0] < 0xE0 && 0x80 <= Utf8(u)[1] < 0xC0
    ensures u >= 128 ==> u == (Utf8(u)[0] as int - 0xC0) * 64 + (Utf8(u)[1] as int - 0x80)
  {
  }

  /** What one byte of the prompt becomes. */
  function Mapped(sentencePiece: bool, b: Byte): (r: seq<Byte>)
    ensures 1 <= |r| <= 3
  {
    if !sentencePiece then Utf8(CodePoint(b)) else if b == 32 then BLOCK else [b]
  }

  function MapAll(sentencePiece: bool, s: seq<Byte>): seq<Byte> {
    if s == [] then [] else MapAll(sentencePiece, s[..|s| - 1]) + Mapped(sentencePiece, s[|s| - 1])
  }

  /** A SentencePiece text starts with a mark even when the prompt does not start with a space. */
  function Lead(sentencePiece: bool, s: seq<Byte>): seq<Byte> {
    if sentencePiece && s != [] && s[0] != 32 then BLOCK else []
  }

  /** preprocess_text: as many bytes of the prompt as fit are mapped; the result is NUL-terminated. */
  method Preprocess(sentencePiece: bool, src: seq<Byte>, dest: array<Byte>, maxLen: nat) returns (j: nat, k: nat)
    requires Terminated(src, 0) && 4 <= maxLen <= dest.Length
    modifies dest
    ensures var s := StringAt(src, 0);
      && k <= |s| && j < maxLen && dest[j] == 0
      && dest[..j] == Lead(sentencePiece, s) + MapAll(sentencePiece, s[..k])
      && (k < |s| ==> j + (if sentencePiece then 4 else 3) >= maxLen)
      && (k > 0 ==> |Lead(sentencePiece, s) + MapAll(sentencePiece, s[..k - 1])| + (if sentencePiece then 4 else 3) < maxLen)
  {
    ghost var s := StringAt(src, 0);
    StringStands(src, 0);
    j := 0;
    if sentencePiece && src[0] != 32 && src[0] != 0 {
      dest[0], dest[1], dest[2] := 0xE2, 0x96, 0x81;
      j := 3;
    }
    assert dest[..j] == Lead(sentencePiece, s);
    j, k := MapLoop(sentencePiece, src, dest, maxLen, j, s);
    dest[j] := 0;
  }

  /** The loop of either branch; a SentencePiece text keeps one byte more free. */
  method MapLoop(sentencePiece: bool, src: seq<Byte>, dest: array<Byte>, maxLen: nat, from: nat, ghost s: seq<Byte>)
      returns (j: nat, k: nat)
    requires |s| < |src| && src[..|s|] == s && src[|s|] == 0 && 0 !in s
    requires from < maxLen <= dest.Length
    modifies dest
    ensures k <= |s| && j < maxLen
    ensures dest[..j] == old(dest[..from]) + MapAll(sentencePiece, s[..k])
    ensures k < |s| ==> j + (if sentencePiece then 4 else 3) >= maxLen
    ensures k > 0 ==> |old(dest[..from]) + MapAll(sentencePiece, s[..k - 1])| + (if sentencePiece then 4 else 3) < maxLen
  {
    var room := if sentencePiece then 4 else 3;
    ghost var lead := dest[..from];
    j, k := from, 0;
    while src[k] != 0 && j + room < maxLen
      invariant k <= |s| && j < maxLen
      invariant dest[..j] == lead + MapAll(sentencePiece, s[..k])
      invariant k > 0 ==> |lead + MapAll(sentencePiece, s[..k - 1])| + room < maxLen
      decreases |s| - k
    {
      MapNext(sentencePiece, s, k, lead);
      j := MapByte(sentencePiece, src[k], dest, j);
      k := k + 1;
    }
  }

  lemma MapNext(sentencePiece: bool, s: seq<Byte>, k: nat, lead: seq<Byte>)
    requires k < |s|
    ensures lead + MapAll(sentencePiece, s[..k + 1]) == lead + MapAll(sentencePiece, s[..k]) + Mapped(sentencePiece, s[k])
  {
    assert s[..k + 1][..k] == s[..k];
  }

  /** The body of either loop. */
  method MapByte(sentencePiece: bool, b: Byte, dest: array<Byte>, j: nat) returns (j': nat)
    requires j + 3 <= dest.Length
    modifies dest
    ensures j' == j + |Mapped(sentencePiece, b)|
    ensures dest[..j'] == old(dest[..j]) + Mapped(sentencePiece, b)
  {
    j' := j;
    if sentencePiece {
      if b == 32 {
        dest[j], dest[j + 1], dest[j + 2] := 0xE2, 0x96, 0x81;
        j' := j + 3;
      } else {
        dest[j] := b;
        j' := j + 1;
      }
    } else {
      var u := CodePoint(b);
      if u <= 127 {
        dest[j] := u;
        j' := j + 1;
      } else {
        dest[j], dest[j + 1] := 0xC0 + u / 64, 0x80 + u % 64;
        j' := j + 2;
      }
    }
  }

  // ---------------------------------------------------------------------
  // Undoing the preprocessing
  // ---------------------------------------------------------------------

  lemma {:induction false} MapFront(sentencePiece: bool, s: seq<Byte>)
    requires s != []
    ensures MapAll(sentencePiece, s) == Mapped(sentencePiece, s[0]) + MapAll(sentencePiece, s[1..])
  {
    var n, t := |s| - 1, s[1..];
    if n > 0 {
      MapFront(sentencePiece, s[..n]);
      assert t[..n - 1] == s[..n][1..] && t[n - 1] == s[n];
      Associative(Mapped(sentencePiece, s[0]), MapAll(sentencePiece, t[..n - 1]), Mapped(sentencePiece, s[n]));
    } else {
      assert s[..0] == [] == t;
    }
  }

  lemma Associative(a: seq<Byte>, b: seq<Byte>, c: seq<Byte>)
    ensures a + b + c == a + (b + c)
  {
  }

  /** A BPE vocabulary's text determines the prompt, byte by byte. */
  lemma {:induction false} BpeTextDetermines(s: seq<Byte>, t: seq<Byte>)
    requires MapAll(false, s) == MapAll(false, t)
    ensures s == t
  {
    if s != [] { MapFront(false, s); }
    if t != [] { MapFront(false, t); }
    if s != [] && t != [] {
      var a, b := Mapped(false, s[0]), Mapped(false, t[0]);
      assert (a + MapAll(false, s[1..]))[0] == (b + MapAll(false, t[1..]))[0];
      assert |a| == |b|;
      assert (a + MapAll(false, s[1..]))[|a|..] == MapAll(false, s[1..]);
      assert (b + MapAll(false, t[1..]))[|b|..] == MapAll(false, t[1..]);
      assert a == (a + MapAll(false, s[1..]))[..|a|] == (b + MapAll(false, t[1..]))[..|b|] == b;
      SameByte(s[0], t[0]);
      BpeTextDetermines(s[1..], t[1..]);
    }
  }

  lemma SameByte(x: Byte, y: Byte)
    requires Utf8(CodePoint(x)) == Utf8(CodePoint(y))
    ensures x == y
  {
    var u, w := CodePoint(x), CodePoint(y);
    if u > 127 && w > 127 {
      assert Utf8(u)[0] == Utf8(w)[0] && Utf8(u)[1] == Utf8(w)[1];
    }
    assert u == w;
  }

  /** The spaces put back for the marks. */
  function Unmarked(m: seq<Byte>): seq<Byte> { Spaced(m, 0, |m|) }

  lemma UnmarkedFront(a: seq<Byte>, m: seq<Byte>)
    requires a == BLOCK || (|a| == 1 && (|m| >= 2 ==> !BlockAt(a + m, 0)))
    ensures Unmarked(a + m) == (if a == BLOCK then [32] else a) + Unmarked(m)
  {
    SpacedShift(a + m, |a|, |a + m|, 0);
    assert (a + m)[|a|..|a + m|] == m;
  }

  /** Marking spaces makes and hides no block at the front. */
  lemma FrontBlock(s: seq<Byte>)
    requires s != [] && s[0] != 32
    ensures var m := MapAll(true, s);
      && m != [] && m[0] == s[0]
      && (|m| >= 3 && BlockAt(m, 0) <==> |s| >= 3 && BlockAt(s, 0))
      && (|s| >= 3 && BlockAt(s, 0) ==> m == BLOCK + MapAll(true, s[3..]))
  {
    MapFront(true, s);
    var m1 := MapAll(true, s[1..]);
    PairIs(s[1..]);
    BlockIff(s[0], m1);
    BlockIff(s[0], s[1..]);
    assert s == [s[0]] + s[1..];
    if |s| >= 3 && BlockAt(s, 0) { BlockMapped(s[1..], m1); }
  }

  lemma BlockMapped(t: seq<Byte>, m: seq<Byte>)
    requires EndsBlock(t) && m == [0x96, 0x81] + MapAll(true, t[2..])
    ensures [0xE2] + m == BLOCK + MapAll(true, t[2..])
  {
  }

  predicate EndsBlock(s: seq<Byte>) {
    |s| >= 2 && s[0] == 0x96 && s[1] == 0x81
  }

  lemma BlockIff(c: Byte, s: seq<Byte>)
    ensures |[c] + s| >= 3 && BlockAt([c] + s, 0) <==> c == 0xE2 && EndsBlock(s)
  {
  }

  lemma PairIs(t: seq<Byte>)
    ensures EndsBlock(MapAll(true, t)) <==> EndsBlock(t)
    ensures EndsBlock(t) ==> MapAll(true, t) == [0x96, 0x81] + MapAll(true, t[2..])
  {
    FrontIs(t, 0x96);
    if t != [] && t[0] == 0x96 {
      FrontIs(t[1..], 0x81);
      if |t| >= 2 { assert t[1..][1..] == t[2..]; }
    }
  }

  /** A byte that is neither a space nor the first of a mark shows at the front exactly when it was there. */
  lemma FrontIs(t: seq<Byte>, x: Byte)
    requires x != 32 && x != 0xE2
    ensures var m := MapAll(true, t);
      && (t != [] && t[0] == x <==> m != [] && m[0] == x)
      && (t != [] && t[0] == x ==> m == [x] + MapAll(true, t[1..]))
  {
    if t != [] { MapFront(true, t); }
  }

  lemma BlockInTail(s: seq<Byte>)
    requires s != [] && !(|s| >= 3 && BlockAt(s, 0))
    ensures HasBlock(s) <==> HasBlock(s[1..])
  {
    var t := s[1..];
    if HasBlock(s) {
      var j :| 0 <= j && j + 3 <= |s| && BlockAt(s, j);
      assert BlockAt(t, j - 1);
    }
    if HasBlock(t) {
      var j :| 0 <= j && j + 3 <= |t| && BlockAt(t, j);
      assert BlockAt(s, j + 1);
    }
  }

  /** Putting the spaces back gives the prompt again exactly when the prompt has no block of its own. */
  lemma {:induction false} MarksUndone(s: seq<Byte>)
    ensures |Unmarked(MapAll(true, s))| <= |s|
    ensures Unmarked(MapAll(true, s)) == s <==> !HasBlock(s)
  {
    if s != [] {
      MapFront(true, s);
      MarksUndone(s[1..]);
      assert s == [s[0]] + s[1..];
      if s[0] == 32 {
        UnmarkedFront(BLOCK, MapAll(true, s[1..]));
        BlockInTail(s);
        SameTails(32, Unmarked(MapAll(true, s[1..])), s[1..]);
      } else {
        FrontBlock(s);
        if |s| >= 3 && BlockAt(s, 0) {
          MarksUndone(s[3..]);
          UnmarkedFront(BLOCK, MapAll(true, s[3..]));
          assert HasBlock(s);
        } else {
          UnmarkedFront([s[0]], MapAll(true, s[1..]));
          BlockInTail(s);
          SameTails(s[0], Unmarked(MapAll(true, s[1..])), s[1..]);
        }
      }
    }
  }

  /** A token that ends inside a block. */
  predicate EndsInBlock(t: seq<Byte>) {
    || (|t| >= 1 && t[|t| - 1] == 0xE2)
    || (|t| >= 2 && t[|t| - 2] == 0xE2 && t[|t| - 1] == 0x96)
  }

  /** The block is a token and no token ends inside one; a test on the vocabulary. */
  ghost predicate WholeBlocks(v: Setup) {
    BLOCK in v.tokens && forall t :: t in v.tokens ==> !EndsInBlock(t)
  }

  /** Then no text is cut inside a block. */
  lemma {:induction false} WholeBlocksStayWhole(v: Setup, s: seq<Byte>, i: nat)
    requires WholeBlocks(v) && i <= |s| && Uncut(s, i)
    ensures NoBlockCut(v, s, i)
    decreases |s| - i
  {
    if i < |s| {
      var j := i + Step(v, s, i);
      forall p: nat | p < j < p + 3 <= |s| ensures !BlockAt(s, p) { StepKeepsBlock(v, s, i, j, p); }
      WholeBlocksStayWhole(v, s, j);
    }
  }

  lemma BlockIsPiece(s: seq<Byte>, p: nat)
    requires p + 3 <= |s|
    ensures BlockAt(s, p) <==> Piece(s, p, 3) == BLOCK
  {
  }

  lemma StepKeepsBlock(v: Setup, s: seq<Byte>, i: nat, j: nat, p: nat)
    requires WholeBlocks(v) && i < |s| && Uncut(s, i) && j == i + Step(v, s, i) && p < j < p + 3 <= |s|
    ensures !BlockAt(s, p)
  {
    LongestIs(v, s, i, Reach(s, i));
    BlockIsPiece(s, p);
    if p >= i && PieceAt(v, s, i) > 0 {
      var t := Piece(s, i, j - i);
      assert t in v.tokens && t[|t| - 1] == s[j - 1];
      assert |t| >= 2 ==> t[|t| - 2] == s[j - 2];
    }
  }

  /** The prompt as it is printed: with a space before it when it does not start with one. */
  function Spoken(src: seq<Byte>): seq<Byte> { (if src != [] && src[0] != 32 then [32] else []) + src }

  /** A prompt without blocks of its own, whose text yields no piece of the form of a byte token, comes back through
      preprocessing, tokenizing and printing exactly when no token ends inside a block; every byte has its token. */
  lemma PromptComesBackIff(v: Setup, src: seq<Byte>, m: seq<Byte>)
    requires v.sentencePiece && AllByteTokens(v) && !HasBlock(src)
    requires m == Lead(true, src) + MapAll(true, src) && NoLiteralPiece(v, m, 0)
    ensures ShowAll(v, Tokens(v, m, 0)) == Spoken(src) <==> NoBlockCut(v, m, 0)
  {
    PrintsTextIff(v, m, 0);
    if src != [] && src[0] != 32 {
      var full := [32] + src;
      MapFront(true, full);
      assert full[1..] == src;
      BlockInTail(full);
      MarksUndone(full);
    } else {
      assert m == MapAll(true, src);
      MarksUndone(src);
    }
  }

  /** The same from tests on the vocabulary and the text alone: every byte has its token, the block is a token,
      no token ends inside a block, and nothing in the text has the form of a byte token. */
  lemma PlainPromptComesBack(v: Setup, src: seq<Byte>, m: seq<Byte>)
    requires v.sentencePiece && AllByteTokens(v) && WholeBlocks(v)
    requires !HasBlock(src) && m == Lead(true, src) + MapAll(true, src)
    requires forall k: nat :: k + 6 <= |m| ==> !IsLiteral(Piece(m, k, 6))
    ensures ShowAll(v, Tokens(v, m, 0)) == Spoken(src)
  {
    PlainTextHasNoLiteralPiece(v, m, 0);
    WholeBlocksStayWhole(v, m, 0);
    PromptComesBackIff(v, src, m);
  }

  /** Preprocessing keeps the whole prompt when its mapped bytes leave five bytes of the buffer free. */
  lemma WholePromptFits(sentencePiece: bool, s: seq<Byte>, k: nat, maxLen: nat)
    requires k <= |s| && (k < |s| ==> |Lead(sentencePiece, s) + MapAll(sentencePiece, s[..k])| + 4 >= maxLen)
    requires |Lead(sentencePiece, s) + MapAll(sentencePiece, s)| + 4 < maxLen
    ensures k == |s|
  {
    MapGrows(sentencePiece, s, k);
  }

  lemma {:induction false} MapGrows(sentencePiece: bool, s: seq<Byte>, k: nat)
    requires k <= |s|
    ensures |MapAll(sentencePiece, s[..k])| <= |MapAll(sentencePiece, s)|
  {
    if k < |s| {
      MapGrows(sentencePiece, s[..|s| - 1], k);
      assert s[..|s| - 1][..k] == s[..k];
    } else {
      assert s[..k] == s;
    }
  }
}
