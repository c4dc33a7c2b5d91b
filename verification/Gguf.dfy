/** The cursor-advancing reader of gguf.c: on every file that a writer of the format makes, it finds every
    tensor's name, shape, type and data, the alignment and the vocabulary. */
module Gguf {
  import opened CStrings
  import opened GgufFormat
  import VocabIndex

  // ---------------------------------------------------------------------
  // The cursor
  // ---------------------------------------------------------------------

  /** e stands at p. */
  ghost predicate Holds(file: seq<Byte>, p: nat, e: seq<Byte>) {
    p + |e| <= |file| && file[p..p + |e|] == e
  }

  lemma HoldsParts(file: seq<Byte>, p: nat, a: seq<Byte>, b: seq<Byte>)
    requires Holds(file, p, a + b)
    ensures Holds(file, p, a) && Holds(file, p + |a|, b)
  {
    var ab := a + b;
    assert file[p..p + |a|] == file[p..p + |ab|][..|a|] == ab[..|a|];
    assert file[p + |a|..p + |a| + |b|] == file[p..p + |ab|][|a|..] == ab[|a|..];
  }

  /** A 4 or 8 byte load. */
  method Load(file: seq<Byte>, p: nat, w: nat, ghost n: nat) returns (v: nat)
    requires Holds(file, p, Le(n, w)) && n < Pow256(w)
    ensures v == n
  {
    LeRoundTrip(n, w);
    v := FromLe(file[p..p + w]);
  }

  /** A stretch of the file that stands for a string. */
  datatype Span = Span(at: nat, len: nat)

  ghost predicate IsSpan(file: seq<Byte>, s: Span, text: seq<Byte>) {
    s.len == |text| && Holds(file, s.at, text)
  }

  ghost predicate AreSpans(file: seq<Byte>, ss: seq<Span>, texts: seq<seq<Byte>>) {
    |ss| == |texts| && forall k :: 0 <= k < |ss| ==> IsSpan(file, ss[k], texts[k])
  }

  /** parse_string. */
  method ParseString(file: seq<Byte>, p: nat, ghost text: seq<Byte>) returns (s: Span, next: nat)
    requires Holds(file, p, EncodeText(text)) && ShortText(text)
    ensures IsSpan(file, s, text) && next == p + |EncodeText(text)|
  {
    HoldsParts(file, p, Le(|text|, U64), text);
    Widths();
    var len := Load(file, p, 8, |text|);
    s := Span(p + 8, len);
    next := p + 8 + len;
  }

  lemma Widths()
    ensures U32 == 4 && U64 == 8 && Pow256(U32) == 0x1_0000_0000 && Pow256(U64) == 0x1_0000_0000_0000_0000
  {
    assert Pow256(0) == 1 && Pow256(1) == 0x100 && Pow256(2) == 0x1_0000 && Pow256(3) == 0x100_0000;
    assert Pow256(4) == 0x1_0000_0000 && Pow256(5) == 0x100_0000_0000 && Pow256(6) == 0x1_0000_0000_0000;
    assert Pow256(7) == 0x100_0000_0000_0000;
  }

  // ---------------------------------------------------------------------
  // Keys
  // ---------------------------------------------------------------------

  /** "llama." */
  const LLAMA: seq<Byte> := [108, 108, 97, 109, 97, 46]

  /** A key matches a name that it equals; for a name that starts with "llama.", whatever stands before the dot. */
  predicate KeyMatches(key: seq<Byte>, name: seq<Byte>) {
    || key == name
    || (LLAMA <= name &&
        var n := |name| - |LLAMA|;
        |key| > n && key[|key| - n - 1] == 46 && key[|key| - n..] == name[|LLAMA|..])
  }

  /** The same without positions: the key is the name, or the name is "llama." and a rest and the key ends in a dot and
      that rest. */
  lemma KeyMatchesIff(key: seq<Byte>, name: seq<Byte>)
    ensures KeyMatches(key, name) <==>
      || key == name
      || exists before: seq<Byte>, rest: seq<Byte> ::
           name == [108, 108, 97, 109, 97, 46] + rest && key == before + ([46] + rest)
  {
    if LLAMA <= name {
      var rest := name[6..];
      assert name == LLAMA + rest;
      if KeyMatches(key, name) && key != name {
        var before := key[..|key| - |rest| - 1];
        assert key == before + ([46] + rest);
      }
    }
    if before: seq<Byte>, rest: seq<Byte> :| name == [108, 108, 97, 109, 97, 46] + rest && key == before + ([46] + rest) {
      assert name[6..] == rest && name[..6] == LLAMA;
      assert key[|key| - |rest|..] == rest && key[|key| - |rest| - 1] == 46;
    }
  }

  method KeyMatch(key: seq<Byte>, name: seq<Byte>) returns (m: bool)
    requires 0 !in name
    ensures m <==> KeyMatches(key, name)
  {
    if LLAMA <= name {
      var suffix := name[|LLAMA|..];
      var n := |suffix|;
      if |key| > n && key[|key| - n - 1] == 46 {
        var same := SameBytes(key[|key| - n..], suffix);
        if same {
          return true;
        }
      }
    }
    if |name| != |key| {
      return false;
    }
    m := SameBytes(key, name);
  }

  method SameBytes(a: seq<Byte>, name: seq<Byte>) returns (same: bool)
    requires |a| == |name| && 0 !in name
    ensures same <==> a == name
  {
    var r := StrNCmp(a, name, |name|);
    VocabIndex.MatchIsEquality(a, name);
    same := r == 0;
  }

  lemma PlainNames()
    ensures 0 !in ALIGNMENT && 0 !in TOKENS && !(LLAMA <= ALIGNMENT) && !(LLAMA <= TOKENS)
  {
    assert LLAMA[0] == 108 && ALIGNMENT[0] == 103 && TOKENS[0] == 116;
  }

  // ---------------------------------------------------------------------
  // Values
  // ---------------------------------------------------------------------

  /** parse_value, after the type was read: skips the value; the strings of the token list are kept. */
  method ParseValue(file: seq<Byte>, p: nat, kind: nat, isTokens: bool, vocab: seq<Span>, ghost v: Value)
      returns (next: nat, vocab': seq<Span>)
    requires ValidValue(v) && kind == TypeOf(v) && Holds(file, p, EncodeValue(v))
    ensures next == p + |EncodeValue(v)|
    ensures if isTokens && v.Texts? then AreSpans(file, vocab', v.texts) else vocab' == vocab
  {
    vocab' := vocab;
    if kind == 0 || kind == 1 || kind == 7 {
      next := p + 1;
    } else if kind == 2 || kind == 3 {
      next := p + 2;
    } else if kind == 4 || kind == 5 || kind == 6 {
      next := p + 4;
    } else if kind == 8 {
      ghost var s;
      s, next := ParseString(file, p, v.text);
    } else if kind == 9 {
      next, vocab' := ParseArray(file, p, isTokens, vocab, v);
    } else if kind == 10 || kind == 11 || kind == 12 {
      next := p + 8;
    } else {
      next := p;
    }
  }

  method ParseArray(file: seq<Byte>, p: nat, isTokens: bool, vocab: seq<Span>, ghost v: Value)
      returns (next: nat, vocab': seq<Span>)
    requires ValidValue(v) && (v.Scalars? || v.Texts?) && Holds(file, p, EncodeValue(v))
    ensures next == p + |EncodeValue(v)|
    ensures if isTokens && v.Texts? then AreSpans(file, vocab', v.texts) else vocab' == vocab
  {
    ghost var kind := if v.Texts? then 8 else v.kind;
    ghost var count := if v.Texts? then |v.texts| else v.count;
    ghost var body := if v.Texts? then EncodeTexts(v.texts) else v.raw;
    HoldsParts(file, p, Le(kind, U32), Le(count, U64) + body);
    HoldsParts(file, p + 4, Le(count, U64), body);
    Widths();
    var elem := Load(file, p, 4, kind);
    var n := Load(file, p + 4, 8, count);
    vocab' := vocab;
    if elem == 8 {
      var spans;
      next, spans := ParseTexts(file, p + 12, n, v.texts);
      if isTokens {
        vocab' := spans;
      }
    } else {
      var size := if elem < 13 then Width(elem) else 1;
      next := p + 12 + n * size;
    }
  }

  /** The loop over the strings of an array. */
  method ParseTexts(file: seq<Byte>, p: nat, n: nat, ghost texts: seq<seq<Byte>>) returns (next: nat, spans: seq<Span>)
    requires n == |texts| && Holds(file, p, EncodeTexts(texts)) && forall k :: 0 <= k < n ==> ShortText(texts[k])
    ensures next == p + |EncodeTexts(texts)| && AreSpans(file, spans, texts)
  {
    next, spans := p, [];
    for i := 0 to n
      invariant next + |EncodeTexts(texts[i..])| == p + |EncodeTexts(texts)|
      invariant Holds(file, next, EncodeTexts(texts[i..]))
      invariant AreSpans(file, spans, texts[..i])
    {
      assert texts[i..][0] == texts[i] && texts[i..][1..] == texts[i + 1..];
      HoldsParts(file, next, EncodeText(texts[i]), EncodeTexts(texts[i + 1..]));
      var s;
      s, next := ParseString(file, next, texts[i]);
      spans := spans + [s];
    }
    assert texts[..n] == texts;
  }

  // ---------------------------------------------------------------------
  // Metadata
  // ---------------------------------------------------------------------

  /** One turn of the metadata loop: key, type, value. */
  method ParsePair(file: seq<Byte>, p: nat, alignment: nat, vocab: seq<Span>, ghost pair: Pair, ghost tokens: seq<seq<Byte>>)
      returns (next: nat, alignment': nat, vocab': seq<Span>)
    requires ValidPair(pair) && Holds(file, p, EncodePair(pair)) && AreSpans(file, vocab, tokens)
    ensures next == p + |EncodePair(pair)|
    ensures alignment' == AlignmentAfter([pair], alignment)
    ensures AreSpans(file, vocab', TokensAfter([pair], tokens))
  {
    ghost var v := pair.value;
    var q, kind, isAlignment, isTokens := ParseKey(file, p, pair);
    alignment' := alignment;
    if isAlignment {
      alignment' := FromLe(file[q..q + 4]);
    }
    next, vocab' := ParseValue(file, q, kind, isTokens, vocab, v);
    PairAfter(pair, alignment, tokens);
  }

  /** Key and type of a pair, and which of the two keys of interest it is. */
  method ParseKey(file: seq<Byte>, p: nat, ghost pair: Pair) returns (q: nat, kind: nat, isAlignment: bool, isTokens: bool)
    requires ValidPair(pair) && Holds(file, p, EncodePair(pair))
    ensures kind == TypeOf(pair.value) && q + |EncodeValue(pair.value)| == p + |EncodePair(pair)|
    ensures Holds(file, q, EncodeValue(pair.value))
    ensures (isAlignment <==> pair.key == ALIGNMENT) && (isTokens <==> pair.key == TOKENS)
  {
    ghost var v := pair.value;
    HoldsParts(file, p, EncodeText(pair.key), Le(TypeOf(v), U32) + EncodeValue(v));
    var key;
    key, q := ParseString(file, p, pair.key);
    q, kind := ReadKind(file, q, v);
    isAlignment, isTokens := WhichKey(file, key, pair.key);
  }

  method ReadKind(file: seq<Byte>, p: nat, ghost v: Value) returns (q: nat, kind: nat)
    requires ValidValue(v) && Holds(file, p, Le(TypeOf(v), U32) + EncodeValue(v))
    ensures kind == TypeOf(v) && Holds(file, q, EncodeValue(v))
    ensures q + |EncodeValue(v)| == p + |Le(TypeOf(v), U32) + EncodeValue(v)|
  {
    HoldsParts(file, p, Le(TypeOf(v), U32), EncodeValue(v));
    Widths();
    kind := Load(file, p, 4, TypeOf(v));
    q := p + 4;
  }

  method WhichKey(file: seq<Byte>, key: Span, ghost text: seq<Byte>) returns (isAlignment: bool, isTokens: bool)
    requires IsSpan(file, key, text)
    ensures (isAlignment <==> text == ALIGNMENT) && (isTokens <==> text == TOKENS)
  {
    PlainNames();
    isAlignment := KeyMatch(file[key.at..key.at + key.len], ALIGNMENT);
    isTokens := KeyMatch(file[key.at..key.at + key.len], TOKENS);
  }

  lemma PairAfter(pair: Pair, a: nat, tokens: seq<seq<Byte>>)
    ensures AlignmentAfter([pair], a) == if pair.key == ALIGNMENT && pair.value.Scalar? then FromLe(pair.value.raw) else a
    ensures TokensAfter([pair], tokens) == if pair.key == TOKENS && pair.value.Texts? then pair.value.texts else tokens
  {
    assert [pair][1..] == [];
  }

  method ParseMetadata(file: seq<Byte>, p: nat, n: nat, ghost pairs: seq<Pair>)
      returns (next: nat, alignment: nat, vocab: seq<Span>)
    requires n == |pairs| && (forall i :: 0 <= i < n ==> ValidPair(pairs[i])) && Holds(file, p, EncodePairs(pairs))
    ensures next == p + |EncodePairs(pairs)|
    ensures alignment == AlignmentAfter(pairs, 32)
    ensures AreSpans(file, vocab, TokensAfter(pairs, []))
  {
    next, alignment, vocab := p, 32, [];
    ghost var tokens: seq<seq<Byte>>, rest := [], pairs;
    for i := 0 to n
      invariant |rest| == n - i && forall k :: 0 <= k < |rest| ==> ValidPair(rest[k])
      invariant next + |EncodePairs(rest)| == p + |EncodePairs(pairs)| && Holds(file, next, EncodePairs(rest))
      invariant AlignmentAfter(rest, alignment) == AlignmentAfter(pairs, 32)
      invariant TokensAfter(rest, tokens) == TokensAfter(pairs, [])
      invariant AreSpans(file, vocab, tokens)
    {
      next, alignment, vocab, tokens := ParseFirst(file, next, alignment, vocab, rest, tokens);
      rest := rest[1..];
    }
  }

  /** The first pair of those that are left. */
  method ParseFirst(file: seq<Byte>, p: nat, alignment: nat, vocab: seq<Span>, ghost pairs: seq<Pair>, ghost tokens: seq<seq<Byte>>)
      returns (next: nat, alignment': nat, vocab': seq<Span>, ghost tokens': seq<seq<Byte>>)
    requires pairs != [] && ValidPair(pairs[0]) && Holds(file, p, EncodePairs(pairs)) && AreSpans(file, vocab, tokens)
    ensures next + |EncodePairs(pairs[1..])| == p + |EncodePairs(pairs)| && Holds(file, next, EncodePairs(pairs[1..]))
    ensures AlignmentAfter(pairs[1..], alignment') == AlignmentAfter(pairs, alignment)
    ensures TokensAfter(pairs[1..], tokens') == TokensAfter(pairs, tokens)
    ensures AreSpans(file, vocab', tokens')
  {
    ghost var first, rest := pairs[0], pairs[1..];
    FirstPair(pairs, first, rest, alignment, tokens);
    HoldsParts(file, p, EncodePair(first), EncodePairs(rest));
    next, alignment', vocab' := ParsePair(file, p, alignment, vocab, first, tokens);
    tokens' := TokensAfter([first], tokens);
  }

  lemma FirstPair(pairs: seq<Pair>, first: Pair, rest: seq<Pair>, a: nat, tokens: seq<seq<Byte>>)
    requires pairs != [] && first == pairs[0] && rest == pairs[1..]
    ensures EncodePairs(pairs) == EncodePair(first) + EncodePairs(rest)
    ensures AlignmentAfter(pairs, a) == AlignmentAfter(rest, AlignmentAfter([first], a))
    ensures TokensAfter(pairs, tokens) == TokensAfter(rest, TokensAfter([first], tokens))
  {
    PairAfter(first, a, tokens);
  }

  // ---------------------------------------------------------------------
  // Tensors
  // ---------------------------------------------------------------------

  /** An entry of the tensor table; dims are the n_dims first of its four. */
  datatype Info = Info(name: Span, dims: seq<nat>, kind: nat, offset: nat, data: nat)

  ghost predicate Describes(file: seq<Byte>, info: Info, t: Tensor) {
    IsSpan(file, info.name, t.name) && info.dims == t.dims && info.kind == t.kind && info.offset == t.offset
  }

  method ParseDims(file: seq<Byte>, p: nat, n: nat, ghost dims: seq<nat>) returns (next: nat, read: seq<nat>)
    requires n == |dims| && (forall d :: 0 <= d < n ==> dims[d] < Pow256(U64)) && Holds(file, p, EncodeDims(dims))
    ensures next == p + |EncodeDims(dims)| && read == dims
  {
    next, read := p, [];
    for d := 0 to n
      invariant next + |EncodeDims(dims[d..])| == p + |EncodeDims(dims)|
      invariant Holds(file, next, EncodeDims(dims[d..]))
      invariant read == dims[..d]
    {
      assert dims[d..][0] == dims[d] && dims[d..][1..] == dims[d + 1..];
      HoldsParts(file, next, Le(dims[d], U64), EncodeDims(dims[d + 1..]));
      var v := Load(file, next, 8, dims[d]);
      next, read := next + 8, read + [v];
    }
  }

  method ParseTensor(file: seq<Byte>, p: nat, ghost t: Tensor) returns (next: nat, info: Info)
    requires ValidTensor(t) && Holds(file, p, EncodeTensor(t))
    ensures next == p + |EncodeTensor(t)| && Describes(file, info, t)
  {
    Widths();
    ghost var ending := Le(t.kind, U32) + Le(t.offset, U64);
    HoldsParts(file, p, EncodeText(t.name), Le(|t.dims|, U32) + (EncodeDims(t.dims) + ending));
    var name, q := ParseString(file, p, t.name);
    HoldsParts(file, q, Le(|t.dims|, U32), EncodeDims(t.dims) + ending);
    var n := Load(file, q, 4, |t.dims|);
    HoldsParts(file, q + 4, EncodeDims(t.dims), ending);
    var r, dims := ParseDims(file, q + 4, n, t.dims);
    HoldsParts(file, r, Le(t.kind, U32), Le(t.offset, U64));
    var kind := Load(file, r, 4, t.kind);
    var offset := Load(file, r + 4, 8, t.offset);
    info := Info(name, dims, kind, offset, 0);
    next := r + 12;
  }

  ghost predicate DescribesFirst(file: seq<Byte>, infos: seq<Info>, ts: seq<Tensor>, n: nat) {
    n <= |ts| <= |infos| && forall i :: 0 <= i < n ==> Describes(file, infos[i], ts[i])
  }

  ghost predicate DescribesAll(file: seq<Byte>, infos: seq<Info>, ts: seq<Tensor>) { DescribesFirst(file, infos, ts, |ts|) }

  lemma DescribesNext(file: seq<Byte>, infos: seq<Info>, info: Info, ts: seq<Tensor>, i: nat)
    requires DescribesFirst(file, infos, ts, i) && i < |ts| && Describes(file, info, ts[i])
    ensures DescribesFirst(file, infos[i := info], ts, i + 1)
  {
  }

  /** The first tensor info of those that stand at p. */
  method ParseNext(file: seq<Byte>, p: nat, ghost t: Tensor, ghost rest: seq<Tensor>) returns (next: nat, info: Info)
    requires ValidTensor(t) && Holds(file, p, EncodeTensor(t) + EncodeTensors(rest))
    ensures next == p + |EncodeTensor(t)| && Describes(file, info, t) && Holds(file, next, EncodeTensors(rest))
  {
    HoldsParts(file, p, EncodeTensor(t), EncodeTensors(rest));
    next, info := ParseTensor(file, p, t);
  }

  lemma TensorsStep(ts: seq<Tensor>, i: nat)
    requires i < |ts|
    ensures EncodeTensors(ts[i..]) == EncodeTensor(ts[i]) + EncodeTensors(ts[i + 1..])
  {
    assert ts[i..][0] == ts[i] && ts[i..][1..] == ts[i + 1..];
  }

  /** The tensor table. */
  method ParseTensors(file: seq<Byte>, p: nat, n: nat, tensors: array<Info>, ghost ts: seq<Tensor>) returns (next: nat)
    requires n == |ts| <= tensors.Length && (forall i :: 0 <= i < n ==> ValidTensor(ts[i]))
    requires Holds(file, p, EncodeTensors(ts))
    modifies tensors
    ensures next == p + |EncodeTensors(ts)| && DescribesAll(file, tensors[..], ts)
  {
    next := p;
    for i := 0 to n
      invariant next + |EncodeTensors(ts[i..])| == p + |EncodeTensors(ts)|
      invariant Holds(file, next, EncodeTensors(ts[i..]))
      invariant DescribesFirst(file, tensors[..], ts, i)
    {
      TensorsStep(ts, i);
      var info;
      next, info := ParseNext(file, next, ts[i], ts[i + 1..]);
      DescribesNext(file, tensors[..], info, ts, i);
      tensors[i] := info;
    }
  }

  /** The finished table: every tensor described, and its data at its offset from the start of the data block. */
  ghost predicate Table(file: seq<Byte>, infos: seq<Info>, ts: seq<Tensor>, start: nat) {
    && DescribesAll(file, infos, ts)
    && forall i :: 0 <= i < |ts| ==> infos[i].data == start + ts[i].offset
  }

  /** The data addresses, once the start of the data block is known. */
  method PlaceTensors(n: nat, tensors: array<Info>, start: nat, ghost file: seq<Byte>, ghost ts: seq<Tensor>)
    requires n == |ts| && DescribesAll(file, tensors[..], ts)
    modifies tensors
    ensures Table(file, tensors[..], ts, start)
  {
    for i := 0 to n
      invariant DescribesAll(file, tensors[..], ts)
      invariant forall k :: 0 <= k < i ==> tensors[k].data == start + ts[k].offset
    {
      assert Describes(file, tensors[..][i], ts[i]);
      tensors[i] := tensors[i].(data := start + tensors[i].offset);
    }
  }

  // ---------------------------------------------------------------------
  // The file
  // ---------------------------------------------------------------------

  /** The parsing half of gguf_init. A file without the magic is refused. From every other file, whatever follows
      the tensor infos, every name, shape, type and offset is read back, the last alignment and token list win,
      and each tensor's data lies at its offset from the aligned end of the infos. */
  method Parse(file: seq<Byte>, tensors: array<Info>, ghost version: nat, ghost ps: seq<Pair>, ghost ts: seq<Tensor>)
      returns (ok: bool, count: nat, vocab: seq<Span>, start: nat)
    requires |file| >= 24 && tensors.Length == MAX_TENSORS
    requires file[..4] == MAGIC ==> ValidContents(ps, ts) && EncodeFile(version, ps, ts) <= file
    modifies tensors
    ensures ok <==> file[..4] == MAGIC
    ensures ok ==> count == |ts| && AreSpans(file, vocab, TokensAfter(ps, []))
    ensures ok ==> Table(file, tensors[..], ts, start)
    ensures ok ==> start == AlignUp(|EncodeFile(version, ps, ts)|, AlignmentAfter(ps, 32))
  {
    ok := SameBytes(file[..4], MAGIC);
    count, vocab, start := 0, [], 0;
    if ok {
      HeaderParts(file, version, ps, ts);
      count, vocab, start := ParseBody(file, tensors, ps, ts);
    }
  }

  /** Everything after the magic. */
  method ParseBody(file: seq<Byte>, tensors: array<Info>, ghost ps: seq<Pair>, ghost ts: seq<Tensor>)
      returns (count: nat, vocab: seq<Span>, start: nat)
    requires tensors.Length == MAX_TENSORS && ValidContents(ps, ts) && HeaderHolds(file, ps, ts)
    modifies tensors
    ensures count == |ts| && AreSpans(file, vocab, TokensAfter(ps, []))
    ensures Table(file, tensors[..], ts, start)
    ensures start == AlignUp(24 + |EncodePairs(ps)| + |EncodeTensors(ts)|, AlignmentAfter(ps, 32))
  {
    var p, alignment;
    count, vocab, p, alignment := ParseTables(file, tensors, ps, ts);
    start := AlignUp(p, alignment);
    PlaceTensors(count, tensors, start, file, ts);
  }

  /** Metadata and tensor infos. */
  method ParseTables(file: seq<Byte>, tensors: array<Info>, ghost ps: seq<Pair>, ghost ts: seq<Tensor>)
      returns (count: nat, vocab: seq<Span>, p: nat, alignment: nat)
    requires tensors.Length == MAX_TENSORS && ValidContents(ps, ts) && HeaderHolds(file, ps, ts)
    modifies tensors
    ensures count == |ts| && AreSpans(file, vocab, TokensAfter(ps, []))
    ensures DescribesAll(file, tensors[..], ts)
    ensures p == 24 + |EncodePairs(ps)| + |EncodeTensors(ts)| && alignment == AlignmentAfter(ps, 32)
  {
    var pairs;
    count, pairs := ReadCounts(file, ps, ts);
    p, alignment, vocab := ParseMetadata(file, 24, pairs, ps);
    p := ParseTensors(file, p, count, tensors, ts);
  }

  /** The numbers of tensors and of metadata pairs. */
  method ReadCounts(file: seq<Byte>, ghost ps: seq<Pair>, ghost ts: seq<Tensor>) returns (tensors: nat, pairs: nat)
    requires ValidContents(ps, ts) && HeaderHolds(file, ps, ts)
    ensures tensors == |ts| && pairs == |ps|
  {
    Widths();
    tensors := Load(file, 8, 8, |ts|);
    pairs := Load(file, 16, 8, |ps|);
  }

  ghost predicate HeaderHolds(file: seq<Byte>, ps: seq<Pair>, ts: seq<Tensor>) {
    && Holds(file, 8, Le(|ts|, U64)) && Holds(file, 16, Le(|ps|, U64))
    && Holds(file, 24, EncodePairs(ps)) && Holds(file, 24 + |EncodePairs(ps)|, EncodeTensors(ts))
  }

  lemma HeaderParts(file: seq<Byte>, version: nat, ps: seq<Pair>, ts: seq<Tensor>)
    requires EncodeFile(version, ps, ts) <= file
    ensures HeaderHolds(file, ps, ts)
    ensures |EncodeFile(version, ps, ts)| == 24 + |EncodePairs(ps)| + |EncodeTensors(ts)|
  {
    var body := EncodePairs(ps) + EncodeTensors(ts);
    FourParts(file, MAGIC, Le(version, U32), Le(|ts|, U64), Le(|ps|, U64), body);
    HoldsParts(file, 24, EncodePairs(ps), EncodeTensors(ts));
  }

  lemma FourParts(file: seq<Byte>, a: seq<Byte>, b: seq<Byte>, c: seq<Byte>, d: seq<Byte>, e: seq<Byte>)
    requires a + (b + (c + (d + e))) <= file && |a| == |b| == 4 && |c| == |d| == 8
    ensures Holds(file, 8, c) && Holds(file, 16, d) && Holds(file, 24, e)
  {
    assert file[0..0 + |a + (b + (c + (d + e)))|] == a + (b + (c + (d + e)));
    HoldsParts(file, 0, a, b + (c + (d + e)));
    HoldsParts(file, 4, b, c + (d + e));
    HoldsParts(file, 8, c, d + e);
    HoldsParts(file, 16, d, e);
  }
}
