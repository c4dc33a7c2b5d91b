/** The greedy tokenizer of gguf.c: what it covers the text with, and when its tokens spell the text again. */
module Tokenizer {
  import opened CStrings
  import opened VocabIndex

  const MAX_PIECE: nat := 64

  // ---------------------------------------------------------------------
  // Looking a piece up
  // ---------------------------------------------------------------------

  /** The vocabulary and the settings that tokenizing depends on. */
  datatype Setup = Setup(tokens: seq<seq<Byte>>, hashed: bool, sentencePiece: bool, addBos: int, bos: int, unk: int)

  function FirstIndex(tokens: seq<seq<Byte>>, q: seq<Byte>, i: nat): (r: int)
    requires i <= |tokens|
    ensures r >= 0 ==> i <= r < |tokens| && tokens[r] == q
    ensures forall k :: i <= k < (if r < 0 then |tokens| else r) ==> tokens[k] != q
    decreases |tokens| - i
  {
    if i == |tokens| then -1 else if tokens[i] == q then i else FirstIndex(tokens, q, i + 1)
  }

  function LastIndex(tokens: seq<seq<Byte>>, q: seq<Byte>, n: nat): (r: int)
    requires n <= |tokens|
    ensures -1 <= r < n && (r >= 0 ==> tokens[r] == q)
    ensures forall k :: r < k < n ==> tokens[k] != q
  {
    if n == 0 then -1 else if tokens[n - 1] == q then n - 1 else LastIndex(tokens, q, n - 1)
  }

  /** The token of a piece, negative when there is none: the largest index with the hash index, the smallest without. */
  function Lookup(v: Setup, q: seq<Byte>): (r: int)
    ensures r >= 0 <==> q in v.tokens
    ensures r >= 0 ==> r < |v.tokens| && v.tokens[r] == q
  {
    if v.hashed then LastIndex(v.tokens, q, |v.tokens|) else FirstIndex(v.tokens, q, 0)
  }

  ghost predicate SetupOf(v: Setup, voc: Vocabulary)
    reads voc, voc.heads, voc.next
  {
    && voc.Valid()
    && v.tokens == voc.tokens && v.hashed == voc.hashed && v.sentencePiece == voc.sentencePiece && v.addBos == voc.addBos
  }

  lemma LookupOfFound(v: Setup, q: seq<Byte>, r: int)
    requires 0 !in q
    requires if v.hashed then IsLastHit(v.tokens, q, r) else IsFirstMatch(v.tokens, q, r)
    ensures r == -1 <==> Lookup(v, q) < 0
    ensures r != -1 ==> r == Lookup(v, q)
  {
    forall k | 0 <= k < |v.tokens|
      ensures Matches(v.tokens[k], q) <==> v.tokens[k] == q
      ensures Hit(v.tokens[k], q) <==> v.tokens[k] == q
    {
      MatchIsEquality(v.tokens[k], q);
    }
    var l := Lookup(v, q);
    if r >= 0 { assert v.tokens[r] == q; }
    if l >= 0 { assert v.tokens[l] == q; }
  }

  // ---------------------------------------------------------------------
  // The tokens of a text
  // ---------------------------------------------------------------------

  /** The l bytes at i. */
  function Piece(s: seq<Byte>, i: nat, l: nat): seq<Byte>
    requires i + l <= |s|
  {
    s[i..i + l]
  }

  /** The longest piece of at most n bytes at i that is in the vocabulary; 0 when there is none. */
  function Longest(v: Setup, s: seq<Byte>, i: nat, n: nat): (l: nat)
    requires i + n <= |s|
    ensures l <= n
  {
    if n == 0 then 0 else if Piece(s, i, n) in v.tokens then n else Longest(v, s, i, n - 1)
  }

  lemma {:induction false} LongestIs(v: Setup, s: seq<Byte>, i: nat, n: nat)
    requires i + n <= |s|
    ensures Longest(v, s, i, n) > 0 ==> Piece(s, i, Longest(v, s, i, n)) in v.tokens
    ensures forall m :: Longest(v, s, i, n) < m <= n ==> Piece(s, i, m) !in v.tokens
  {
    if n > 0 { LongestIs(v, s, i, n - 1); }
  }

  /** Pieces are looked for up to here. */
  function Reach(s: seq<Byte>, i: nat): (n: nat)
    requires i <= |s|
    ensures i + n <= |s|
  {
    if |s| - i > MAX_PIECE then MAX_PIECE else |s| - i
  }

  function PieceAt(v: Setup, s: seq<Byte>, i: nat): (l: nat)
    requires i <= |s|
    ensures i + l <= |s|
  {
    Longest(v, s, i, Reach(s, i))
  }

  function HexDigit(n: nat): Byte
    requires n < 16
  {
    if n < 10 then 48 + n else 55 + n
  }

  /** "<0xXX>" for a byte. */
  function Literal(c: Byte): seq<Byte> {
    [60, 48, 120, HexDigit(c / 16), HexDigit(c % 16), 62]
  }

  /** The token of a byte that starts no piece. */
  function Fallback(v: Setup, c: Byte): int {
    if v.sentencePiece && Lookup(v, Literal(c)) >= 0 then Lookup(v, Literal(c)) else v.unk
  }

  /** The bytes that the token at i stands for. */
  function Step(v: Setup, s: seq<Byte>, i: nat): (l: nat)
    requires i < |s|
    ensures 0 < l <= MAX_PIECE && i + l <= |s|
  {
    if PieceAt(v, s, i) > 0 then PieceAt(v, s, i) else 1
  }

  /** The token at i. */
  function TokenAt(v: Setup, s: seq<Byte>, i: nat): int
    requires i < |s|
  {
    var l := PieceAt(v, s, i);
    if l > 0 then Lookup(v, Piece(s, i, l)) else Fallback(v, s[i])
  }

  /** The tokens of the text from i on. */
  function Tokens(v: Setup, s: seq<Byte>, i: nat): (r: seq<int>)
    requires i <= |s|
    ensures |r| <= |s| - i
    decreases |s| - i
  {
    if i == |s| then [] else [TokenAt(v, s, i)] + Tokens(v, s, i + Step(v, s, i))
  }

  // ---------------------------------------------------------------------
  // Spelling the text again
  // ---------------------------------------------------------------------

  function HexValue(c: Byte): (n: nat)
    ensures n < 16
  {
    if 48 <= c <= 57 then c - 48 else if 65 <= c <= 70 then c - 55 else if 97 <= c <= 102 then c - 87 else 0
  }

  /** What print_token takes for a byte token: "<0x", any two characters, ">". */
  predicate IsLiteral(t: seq<Byte>) {
    |t| == 6 && t[0] == 60 && t[1] == 48 && t[2] == 120 && t[5] == 62
  }

  /** The bytes that a token stands for. */
  function Spelled(t: seq<Byte>): seq<Byte> {
    if IsLiteral(t) then [HexValue(t[3]) * 16 + HexValue(t[4])] else t
  }

  lemma LiteralSpells(c: Byte)
    ensures IsLiteral(Literal(c)) && Spelled(Literal(c)) == [c]
  {
  }

  /** Every token of the form with two upper-case digits is the byte token of the byte it spells. */
  lemma LiteralIff(t: seq<Byte>, c: Byte)
    ensures t == Literal(c) <==>
      && |t| == 6 && t[0] == 60 && t[1] == 48 && t[2] == 120 && t[5] == 62
      && (48 <= t[3] <= 57 || 65 <= t[3] <= 70) && (48 <= t[4] <= 57 || 65 <= t[4] <= 70)
      && c == 16 * (if t[3] <= 57 then t[3] - 48 else t[3] - 55) + (if t[4] <= 57 then t[4] - 48 else t[4] - 55)
    ensures t == Literal(c) ==> Spelled(t) == [c]
  {
    assert c == 16 * (c / 16) + c % 16;
  }

  /** A byte token spells the byte of its two hexadecimal digits, of either case; other characters count as 0. */
  lemma SpelledIs(t: seq<Byte>, high: nat, low: nat)
    requires |t| == 6 && t[0] == 60 && t[1] == 48 && t[2] == 120 && t[5] == 62 && high < 16 && low < 16
    requires t[3] == "0123456789ABCDEF"[high] as int || t[3] == "0123456789abcdef"[high] as int
             || (high == 0 && forall k :: 0 <= k < 16 ==> t[3] != "0123456789ABCDEF"[k] as int && t[3] != "0123456789abcdef"[k] as int)
    requires t[4] == "0123456789ABCDEF"[low] as int || t[4] == "0123456789abcdef"[low] as int
             || (low == 0 && forall k :: 0 <= k < 16 ==> t[4] != "0123456789ABCDEF"[k] as int && t[4] != "0123456789abcdef"[k] as int)
    ensures Spelled(t) == [16 * high + low]
  {
    DigitIs(t[3], high);
    DigitIs(t[4], low);
  }

  lemma DigitIs(d: Byte, k: nat)
    requires k < 16
    ensures d == "0123456789ABCDEF"[k] as int || d == "0123456789abcdef"[k] as int ==> HexValue(d) == k
    ensures (forall j :: 0 <= j < 16 ==> d != "0123456789ABCDEF"[j] as int && d != "0123456789abcdef"[j] as int) ==> HexValue(d) == 0
  {
    var upper, lower := "0123456789ABCDEF", "0123456789abcdef";
    assert upper[if 48 <= d <= 57 then d - 48 else if 65 <= d <= 70 then d - 55 else 0] as int == d || d > 70 || d < 48 || 57 < d < 65;
    assert lower[if 97 <= d <= 102 then d - 87 else 0] as int == d || d > 102 || d < 97;
  }

  /** Bytes that start no piece: with the byte token t of the byte in a SentencePiece vocabulary, t is found; with no
      such token, or in any other vocabulary, it is the unknown token. */
  lemma ByteTokenFound(v: Setup, s: seq<Byte>, i: nat, t: seq<Byte>)
    requires i < |s| && forall j :: i < j <= |s| && j <= i + 64 ==> s[i..j] !in v.tokens
    requires |t| == 6 && t[0] == 60 && t[1] == 48 && t[2] == 120 && t[5] == 62
    requires (48 <= t[3] <= 57 || 65 <= t[3] <= 70) && (48 <= t[4] <= 57 || 65 <= t[4] <= 70)
    requires s[i] == 16 * (if t[3] <= 57 then t[3] - 48 else t[3] - 55) + (if t[4] <= 57 then t[4] - 48 else t[4] - 55)
    ensures Step(v, s, i) == 1
    ensures v.sentencePiece && t in v.tokens ==> 0 <= TokenAt(v, s, i) < |v.tokens| && v.tokens[TokenAt(v, s, i)] == t
    ensures !v.sentencePiece || t !in v.tokens ==> TokenAt(v, s, i) == v.unk
  {
    LongestIs(v, s, i, Reach(s, i));
    LiteralIff(t, s[i]);
  }

  /** Where a piece starts, the longest one of at most 64 bytes is taken: its largest index with the hash index, its
      smallest without. */
  lemma LongestPieceFound(v: Setup, s: seq<Byte>, i: nat, l: nat)
    requires 0 < l <= 64 && i + l <= |s| && s[i..i + l] in v.tokens
    requires forall j :: i + l < j <= |s| && j <= i + 64 ==> s[i..j] !in v.tokens
    ensures Step(v, s, i) == l && 0 <= TokenAt(v, s, i) < |v.tokens| && v.tokens[TokenAt(v, s, i)] == s[i..i + l]
    ensures forall k :: 0 <= k < |v.tokens| && v.tokens[k] == s[i..i + l] ==>
      if v.hashed then k <= TokenAt(v, s, i) else TokenAt(v, s, i) <= k
  {
    LongestIs(v, s, i, Reach(s, i));
    assert Piece(s, i, l) in v.tokens;
  }

  function Spell(v: Setup, ids: seq<int>): seq<Byte> {
    if ids == [] then []
    else (if 0 <= ids[0] < |v.tokens| then Spelled(v.tokens[ids[0]]) else []) + Spell(v, ids[1..])
  }

  /** Every byte has its token. */
  ghost predicate AllByteTokens(v: Setup) {
    forall c: Byte :: Literal(c) in v.tokens
  }

  /** A piece taken from the vocabulary at i that is itself of the form of a byte token. */
  predicate LiteralAt(v: Setup, s: seq<Byte>, i: nat)
    requires i < |s|
  {
    var l := PieceAt(v, s, i);
    l > 0 && IsLiteral(Piece(s, i, l))
  }

  predicate NoLiteralPiece(v: Setup, s: seq<Byte>, i: nat)
    requires i <= |s|
    decreases |s| - i
  {
    i == |s| || (!LiteralAt(v, s, i) && NoLiteralPiece(v, s, i + Step(v, s, i)))
  }

  /** With all byte tokens in a SentencePiece vocabulary, the tokens spell the text again exactly when no piece
      taken from it has the form of a byte token; otherwise they spell something shorter. */
  lemma {:induction false} SpellsTextIff(v: Setup, s: seq<Byte>, i: nat)
    requires v.sentencePiece && AllByteTokens(v) && i <= |s|
    ensures Spell(v, Tokens(v, s, i)) == s[i..] <==> NoLiteralPiece(v, s, i)
    ensures ShorterOrSame(Spell(v, Tokens(v, s, i)), s[i..])
    decreases |s| - i
  {
    if i < |s| {
      var j, x, y, plain := SpellsFirst(v, s, i);
      SpellsTextIff(v, s, j);
      SplitAt(s, i, j);
      JoinIff(x, s[i..j], y, s[j..]);
    }
  }

  /** The first token apart: it ends at j and spells x, the rest spells y. */
  lemma SpellsFirst(v: Setup, s: seq<Byte>, i: nat) returns (j: nat, x: seq<Byte>, y: seq<Byte>, plain: bool)
    requires v.sentencePiece && AllByteTokens(v) && i < |s|
    ensures i < j <= |s| && y == Spell(v, Tokens(v, s, j)) && Spell(v, Tokens(v, s, i)) == x + y
    ensures ShorterOrSame(x, s[i..j]) && (plain <==> x == s[i..j])
    ensures NoLiteralPiece(v, s, i) <==> plain && NoLiteralPiece(v, s, j)
  {
    var id;
    id, j := FirstToken(v, s, i);
    x, plain := TokenSpells(v, s, i, id, j);
    y := Spell(v, Tokens(v, s, j));
    SpellFirst(v, id, Tokens(v, s, j));
  }

  lemma FirstToken(v: Setup, s: seq<Byte>, i: nat) returns (id: int, j: nat)
    requires i < |s|
    ensures id == TokenAt(v, s, i) && j == i + Step(v, s, i) && i < j <= |s|
    ensures Tokens(v, s, i) == [id] + Tokens(v, s, j)
    ensures NoLiteralPiece(v, s, i) <==> !LiteralAt(v, s, i) && NoLiteralPiece(v, s, j)
  {
    id, j := TokenAt(v, s, i), i + Step(v, s, i);
  }

  lemma SplitAt(s: seq<Byte>, i: nat, j: nat)
    requires i <= j <= |s|
    ensures s[i..] == s[i..j] + s[j..]
  {
  }

  /** What the token at i spells: its stretch of the text, or less when that is of the form of a byte token. */
  lemma TokenSpells(v: Setup, s: seq<Byte>, i: nat, id: int, j: nat) returns (x: seq<Byte>, plain: bool)
    requires v.sentencePiece && AllByteTokens(v) && i < j <= |s| && id == TokenAt(v, s, i) && j == i + Step(v, s, i)
    ensures 0 <= id < |v.tokens| && x == Spelled(v.tokens[id])
    ensures ShorterOrSame(x, s[i..j]) && (plain <==> x == s[i..j]) && (plain <==> !LiteralAt(v, s, i))
  {
    LongestIs(v, s, i, Reach(s, i));
    plain := !LiteralAt(v, s, i);
    if PieceAt(v, s, i) > 0 {
      x := Spelled(Piece(s, i, PieceAt(v, s, i)));
    } else {
      LiteralSpells(s[i]);
      assert Literal(s[i]) in v.tokens;
      x := [s[i]];
    }
  }

  predicate ShorterOrSame(x: seq<Byte>, a: seq<Byte>) {
    |x| < |a| || x == a
  }

  lemma JoinIff(x: seq<Byte>, a: seq<Byte>, y: seq<Byte>, b: seq<Byte>)
    requires ShorterOrSame(x, a) && ShorterOrSame(y, b)
    ensures x + y == a + b <==> x == a && y == b
    ensures ShorterOrSame(x + y, a + b)
  {
    if |x| < |a| || |y| < |b| {
      assert |x + y| < |a + b|;
    }
  }

  lemma SpellFirst(v: Setup, id: int, ids: seq<int>)
    requires 0 <= id < |v.tokens|
    ensures Spell(v, [id] + ids) == Spelled(v.tokens[id]) + Spell(v, ids)
  {
    assert ([id] + ids)[1..] == ids;
  }

  /** In particular for every text without "<0x..>" in it. */
  lemma {:induction false} PlainTextHasNoLiteralPiece(v: Setup, s: seq<Byte>, i: nat)
    requires i <= |s| && forall k: nat :: k + 6 <= |s| ==> !IsLiteral(Piece(s, k, 6))
    ensures NoLiteralPiece(v, s, i)
    decreases |s| - i
  {
    if i < |s| {
      PlainTextHasNoLiteralPiece(v, s, i + Step(v, s, i));
    }
  }

  /** Start and end of each token's stretch of the text: the cuts tile it, each stretch is either the longest
      piece of at most 64 bytes that the vocabulary has there, or one byte at which it has none. */
  ghost predicate Tiles(v: Setup, s: seq<Byte>, ids: seq<int>, cuts: seq<nat>) {
    && |cuts| == |ids| + 1 && cuts[|ids|] == |s|
    && forall k :: 0 <= k < |ids| ==> TileAt(v, s, cuts[k], cuts[k + 1], ids[k])
  }

  ghost predicate TileAt(v: Setup, s: seq<Byte>, a: nat, b: nat, id: int) {
    && a < b <= |s| && b - a <= MAX_PIECE
    && (forall m :: b - a < m <= Reach(s, a) ==> Piece(s, a, m) !in v.tokens)
    && (Piece(s, a, b - a) in v.tokens ==> 0 <= id < |v.tokens| && v.tokens[id] == Piece(s, a, b - a))
    && (Piece(s, a, b - a) !in v.tokens ==> b == a + 1 && id == Fallback(v, s[a]))
  }

  lemma StepTiles(v: Setup, s: seq<Byte>, i: nat)
    requires i < |s|
    ensures TileAt(v, s, i, i + Step(v, s, i), TokenAt(v, s, i))
  {
    LongestIs(v, s, i, Reach(s, i));
  }

  lemma {:induction false} TokensTile(v: Setup, s: seq<Byte>, i: nat) returns (cuts: seq<nat>)
    requires i <= |s|
    ensures Tiles(v, s, Tokens(v, s, i), cuts) && cuts[0] == i
    decreases |s| - i
  {
    if i == |s| {
      cuts := [i];
    } else {
      var j := i + Step(v, s, i);
      var rest := TokensTile(v, s, j);
      cuts := [i] + rest;
      StepTiles(v, s, i);
      OneMoreTile(v, s, TokenAt(v, s, i), Tokens(v, s, j), i, rest);
    }
  }

  lemma OneMoreTile(v: Setup, s: seq<Byte>, id: int, ids: seq<int>, i: nat, cuts: seq<nat>)
    requires Tiles(v, s, ids, cuts) && TileAt(v, s, i, cuts[0], id)
    ensures Tiles(v, s, [id] + ids, [i] + cuts)
  {
    forall k | 0 <= k < |ids| + 1 ensures TileAt(v, s, ([i] + cuts)[k], ([i] + cuts)[k + 1], ([id] + ids)[k]) {
      if k > 0 { assert TileAt(v, s, cuts[k - 1], cuts[k], ids[k - 1]); }
    }
  }

  // ---------------------------------------------------------------------
  // The tokenizer
  // ---------------------------------------------------------------------

  /** The text and its place in the caller's buffer. */
  ghost predicate IsText(s: seq<Byte>, text: seq<Byte>) {
    s <= text && 0 !in s
  }

  method FindPiece(voc: Vocabulary, text: seq<Byte>, i: nat, l: nat, ghost v: Setup, ghost s: seq<Byte>) returns (tok: int)
    requires SetupOf(v, voc) && IsText(s, text) && i + l <= |s|
    ensures tok == -1 <==> Piece(s, i, l) !in v.tokens
    ensures tok != -1 ==> tok == Lookup(v, Piece(s, i, l))
  {
    assert text[i..i + l] == Piece(s, i, l);
    tok := voc.FindToken(text[i..i + l]);
    LookupOfFound(v, Piece(s, i, l), tok);
  }

  /** The inner loop: tries every length in turn and keeps the last that matches. */
  method LongestMatch(voc: Vocabulary, text: seq<Byte>, i: nat, len: nat, ghost v: Setup, ghost s: seq<Byte>)
      returns (longest: int, l: nat)
    requires SetupOf(v, voc) && IsText(s, text) && |s| == len && i < len
    ensures l == PieceAt(v, s, i)
    ensures longest == if l > 0 then Lookup(v, Piece(s, i, l)) else -1
    ensures l > 0 ==> longest >= 0
  {
    longest, l := -1, 0;
    var maxLen := len - i;
    if maxLen > 64 {
      maxLen := 64;
    }
    var n := 0;
    while n < maxLen
      invariant n <= maxLen == Reach(s, i) && l == Longest(v, s, i, n) <= n
      invariant longest == if l > 0 then Lookup(v, Piece(s, i, l)) else -1
      invariant l > 0 ==> longest >= 0
    {
      n := n + 1;
      var tok := FindPiece(voc, text, i, n, v, s);
      if tok != -1 {
        longest, l := tok, n;
      }
    }
  }

  method ByteToken(voc: Vocabulary, unk: int, c: Byte, ghost v: Setup) returns (tok: int)
    requires SetupOf(v, voc) && v.unk == unk
    ensures tok == Fallback(v, c)
  {
    if !voc.sentencePiece {
      return unk;
    }
    var digits := "0123456789ABCDEF";
    assert digits[c / 16] as int == HexDigit(c / 16) && digits[c % 16] as int == HexDigit(c % 16);
    var hex: seq<Byte> := [60, 48, 120, digits[c / 16] as int, digits[c % 16] as int, 62];
    tok := FindPiece(voc, hex, 0, 6, v, hex);
    assert Piece(hex, 0, 6) == Literal(c);
    if tok == -1 {
      tok := unk;
    }
  }

  /** The beginning-of-text token when the vocabulary asks for it. */
  function Start(v: Setup): seq<int> { if v.addBos != 0 then [v.bos] else [] }

  /** tokenize, given room for as many tokens as the text has bytes and the beginning-of-text token. */
  method Tokenize(voc: Vocabulary, bos: int, unk: int, text: seq<Byte>, out: array<int>, ghost v: Setup) returns (n: nat)
    requires SetupOf(v, voc) && v.bos == bos && v.unk == unk && Terminated(text, 0)
    requires out.Length >= |StringAt(text, 0)| + |Start(v)| && out != voc.heads && out != voc.next
    modifies out
    ensures n <= |StringAt(text, 0)| + 1 && n <= out.Length
    ensures out[..n] == (if v.addBos != 0 then [bos] else []) + Tokens(v, StringAt(text, 0), 0)
    ensures out[n..] == old(out[n..])
  {
    ghost var s := StringAt(text, 0);
    StringStands(text, 0);
    n := 0;
    var len := StrLen(text, 0);
    if voc.addBos != 0 {
      out[0] := bos;
      n := 1;
    }
    n := TokenizeAll(voc, unk, text, len, out, n, v, s);
  }

  /** The outer loop. */
  method TokenizeAll(voc: Vocabulary, unk: int, text: seq<Byte>, len: nat, out: array<int>, from: nat, ghost v: Setup, ghost s: seq<Byte>)
      returns (n: nat)
    requires SetupOf(v, voc) && v.unk == unk && IsText(s, text) && |s| == len
    requires out.Length >= len + from && out != voc.heads && out != voc.next
    modifies out
    ensures n <= len + from
    ensures out[..n] == old(out[..from]) + Tokens(v, s, 0) && out[n..] == old(out[n..])
  {
    n := from;
    ghost var done, all := out[..from], out[..from] + Tokens(v, s, 0);
    var i := 0;
    while i < len
      invariant i <= len && from <= n <= from + i
      invariant SetupOf(v, voc)
      invariant out[..n] == done && done + Tokens(v, s, i) == all
      invariant forall k :: n <= k < out.Length ==> out[k] == old(out[k])
    {
      var l;
      l, done := Turn(voc, unk, text, i, len, out, n, v, s, done, all);
      n, i := n + 1, i + l;
    }
    assert Tokens(v, s, i) == [] && done + [] == done;
  }

  /** One turn: the token at i goes behind the n there are. */
  method Turn(voc: Vocabulary, unk: int, text: seq<Byte>, i: nat, len: nat, out: array<int>, n: nat, ghost v: Setup, ghost s: seq<Byte>,
              ghost done: seq<int>, ghost all: seq<int>)
      returns (l: nat, ghost done': seq<int>)
    requires SetupOf(v, voc) && v.unk == unk && IsText(s, text) && |s| == len && i < len
    requires n < out.Length && out != voc.heads && out != voc.next
    requires out[..n] == done && done + Tokens(v, s, i) == all
    modifies out
    ensures SetupOf(v, voc) && l > 0 && i + l <= len
    ensures out[..n + 1] == done' && done' + Tokens(v, s, i + l) == all
    ensures forall k :: n < k < out.Length ==> out[k] == old(out[k])
  {
    var tok;
    tok, l := NextToken(voc, unk, text, i, len, v, s);
    MoveOne(done, tok, Tokens(v, s, i), Tokens(v, s, i + l), all);
    done' := done + [tok];
    Emit(out, n, tok);
  }

  method Emit(out: array<int>, n: nat, tok: int)
    requires n < out.Length
    modifies out
    ensures out[..n + 1] == old(out[..n]) + [tok] && forall k :: n < k < out.Length ==> out[k] == old(out[k])
  {
    out[n] := tok;
  }

  lemma MoveOne(a: seq<int>, x: int, was: seq<int>, b: seq<int>, all: seq<int>)
    requires a + was == all && was == [x] + b
    ensures (a + [x]) + b == all
  {
  }

  /** One turn of the outer loop: the token at i and how far it reaches. */
  method NextToken(voc: Vocabulary, unk: int, text: seq<Byte>, i: nat, len: nat, ghost v: Setup, ghost s: seq<Byte>)
      returns (tok: int, l: nat)
    requires SetupOf(v, voc) && v.unk == unk && IsText(s, text) && |s| == len && i < len
    ensures l > 0 && i + l <= len
    ensures Tokens(v, s, i) == [tok] + Tokens(v, s, i + l)
  {
    tok, l := LongestMatch(voc, text, i, len, v, s);
    if tok == -1 {
      tok := ByteToken(voc, unk, text[i], v);
      l := 1;
    }
  }
}
