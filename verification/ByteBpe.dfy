/** Byte-level BPE as the Qwen and GLM tokenizers do it: leftmost-longest splitting at special
 *  tokens, pre-tokenization, ranked merging over mapped bytes, and decoding back to bytes.
 */
module ByteBpe {
  import opened Wrappers
  import opened Utf8
  import opened Symbols
  import opened ByteMap
  import Pre = Pretokenizer

  /** How merges are ranked: by a merge table, or by the vocabulary ID of the joined symbol. */
  datatype Ranking = MergeTable(ranks: map<(string, string), nat>) | RankById

  datatype Special = Special(id: nat, text: string)

  /** A decodable token; `raw` texts are their own bytes, others go through the byte table. */
  datatype Entry = Entry(text: string, raw: bool)

  datatype Tokenizer = Tokenizer(
    vocabulary: map<string, nat>,
    ranking: Ranking, specials: seq<Special>,
    decoded: seq<Option<Entry>>)
  {
    function EntryOf(id: nat): Option<Entry> {
      if id < |decoded| then decoded[id] else None
    }

    predicate IsSpecialText(t: string) {
      exists i | 0 <= i < |specials| :: specials[i].text == t
    }

    /** What loading a tokenizer establishes, with special texts in ASCII and, where they decode
        through the byte table, made of visible characters. */
    ghost predicate Valid() {
      && (forall t <- vocabulary :: EntryOf(vocabulary[t]).Some? && EntryOf(vocabulary[t]).value.text == t)
      && (forall t <- vocabulary :: EntryOf(vocabulary[t]).value.raw ==> IsSpecialText(t))
      && (forall i | 0 <= i < |specials| :: SpecialValid(specials[i]))
    }

    ghost predicate SpecialValid(special: Special) {
      && special.text != "" && Ascii(special.text)
      && EntryOf(special.id).Some? && EntryOf(special.id).value.text == special.text
      && (!EntryOf(special.id).value.raw ==> Visible(special.text))
    }

    function Rank(left: string, right: string): Option<nat> {
      match ranking
      case MergeTable(ranks) => if (left, right) in ranks then Some(ranks[(left, right)]) else None
      case RankById => if left + right in vocabulary then Some(vocabulary[left + right]) else None
    }
  }

  // ---------- Decoding ----------

  /** The bytes of one token, specials included. */
  function TokenBytes(t: Tokenizer, id: nat): Option<seq<byte>> {
    match t.EntryOf(id)
    case None => None
    case Some(entry) => if entry.raw then Some(Encode(entry.text)) else UnmapChars(entry.text)
  }

  function Decode(t: Tokenizer, ids: seq<nat>): Option<seq<byte>> {
    if ids == [] then Some([])
    else
      match (TokenBytes(t, ids[0]), Decode(t, ids[1..]))
      case (Some(first), Some(rest)) => Some(first + rest)
      case _ => None
  }

  lemma {:induction false} DecodeConcat(t: Tokenizer, left: seq<nat>, right: seq<nat>)
    ensures Decode(t, left).Some? && Decode(t, right).Some? ==>
      Decode(t, left + right) == Some(Decode(t, left).value + Decode(t, right).value)
  {
    if left == [] {
      assert left + right == right;
      if Decode(t, right).Some? { assert [] + Decode(t, right).value == Decode(t, right).value; }
    } else {
      DecodeConcat(t, left[1..], right);
      assert (left + right)[1..] == left[1..] + right;
      if Decode(t, left).Some? && Decode(t, right).Some? {
        var first, rest := TokenBytes(t, left[0]).value, Decode(t, left[1..]).value;
        assert (first + rest) + Decode(t, right).value == first + (rest + Decode(t, right).value);
      }
    }
  }

  // ---------- Merging one piece ----------

  function PairRank(t: Tokenizer, symbols: seq<string>, k: nat): Option<nat>
    requires k + 1 < |symbols|
  {
    t.Rank(symbols[k], symbols[k + 1])
  }

  function PairCount(symbols: seq<string>): nat {
    if symbols == [] then 0 else |symbols| - 1
  }

  /** Pair k has the lowest rank of all pairs below `limit`, and is the leftmost with it. */
  ghost predicate IsBest(t: Tokenizer, symbols: seq<string>, k: nat, limit: nat) {
    && k < limit && limit < |symbols|
    && PairRank(t, symbols, k).Some?
    && forall j: nat | j < limit && PairRank(t, symbols, j).Some? ::
         PairRank(t, symbols, k).value < PairRank(t, symbols, j).value
         || (PairRank(t, symbols, k).value == PairRank(t, symbols, j).value && k <= j)
  }

  ghost predicate NoPair(t: Tokenizer, symbols: seq<string>, limit: nat) {
    limit < |symbols| + 1 && forall j: nat | j < limit && j + 1 < |symbols| :: PairRank(t, symbols, j).None?
  }

  /** The pair to join next: lowest rank, leftmost on ties. */
  ghost function BestPair(t: Tokenizer, symbols: seq<string>): (r: Option<nat>)
    ensures r.Some? ==> r.value + 1 < |symbols|
  {
    if k: nat :| IsBest(t, symbols, k, PairCount(symbols)) then Some(k) else None
  }

  lemma BestIs(t: Tokenizer, symbols: seq<string>, k: nat)
    ensures BestPair(t, symbols) == Some(k) <==> IsBest(t, symbols, k, PairCount(symbols))
  {
  }

  /** With a merge table the pair joined next is the listed pair of the lowest rank, leftmost on ties. */
  lemma BestByTable(t: Tokenizer, symbols: seq<string>, k: nat)
    requires t.ranking.MergeTable?
    ensures BestPair(t, symbols) == Some(k) <==>
      var ranks := t.ranking.ranks;
      && k + 1 < |symbols| && (symbols[k], symbols[k + 1]) in ranks
      && forall j: nat | j + 1 < |symbols| && (symbols[j], symbols[j + 1]) in ranks ::
           var best, other := ranks[(symbols[k], symbols[k + 1])], ranks[(symbols[j], symbols[j + 1])];
           best < other || (best == other && k <= j)
  {
    BestIs(t, symbols, k);
    assert forall j: nat | j + 1 < |symbols| ::
      PairRank(t, symbols, j).Some? <==> (symbols[j], symbols[j + 1]) in t.ranking.ranks;
  }

  /** Without one it is the pair whose joined text is the token of the lowest ID. */
  lemma BestById(t: Tokenizer, symbols: seq<string>, k: nat)
    requires t.ranking.RankById?
    ensures BestPair(t, symbols) == Some(k) <==>
      && k + 1 < |symbols| && symbols[k] + symbols[k + 1] in t.vocabulary
      && forall j: nat | j + 1 < |symbols| && symbols[j] + symbols[j + 1] in t.vocabulary ::
           var best, other := t.vocabulary[symbols[k] + symbols[k + 1]], t.vocabulary[symbols[j] + symbols[j + 1]];
           best < other || (best == other && k <= j)
  {
    BestIs(t, symbols, k);
    assert forall j: nat | j + 1 < |symbols| ::
      PairRank(t, symbols, j).Some? <==> symbols[j] + symbols[j + 1] in t.vocabulary;
  }

  /** The reference: join the best pair until no pair has a rank. */
  ghost function Merged(t: Tokenizer, symbols: seq<string>): seq<string>
    decreases |symbols|
  {
    match BestPair(t, symbols)
    case None => symbols
    case Some(k) => Merged(t, MergeAt(symbols, k))
  }

  lemma {:induction false} BestExists(t: Tokenizer, symbols: seq<string>, limit: nat)
    requires limit <= PairCount(symbols)
    ensures NoPair(t, symbols, limit) || exists k: nat :: IsBest(t, symbols, k, limit)
  {
    if limit > 0 {
      BestExists(t, symbols, limit - 1);
      if PairRank(t, symbols, limit - 1).Some? {
        if NoPair(t, symbols, limit - 1) {
          assert IsBest(t, symbols, limit - 1, limit);
        } else {
          var k: nat :| IsBest(t, symbols, k, limit - 1);
          var last := PairRank(t, symbols, limit - 1).value < PairRank(t, symbols, k).value;
          assert IsBest(t, symbols, if last then limit - 1 else k, limit);
        }
      } else if !NoPair(t, symbols, limit - 1) {
        var k: nat :| IsBest(t, symbols, k, limit - 1);
        assert IsBest(t, symbols, k, limit);
      }
    }
  }

  /** Merging keeps the text and leaves no pair that has a rank. */
  lemma {:induction false} MergedIsIrreducibleAndKeepsText(t: Tokenizer, symbols: seq<string>)
    ensures Flatten(Merged(t, symbols)) == Flatten(symbols)
    ensures NoPair(t, Merged(t, symbols), PairCount(Merged(t, symbols)))
    decreases |symbols|
  {
    BestExists(t, symbols, PairCount(symbols));
    match BestPair(t, symbols)
    case None =>
    case Some(k) =>
      FlattenMergeAt(symbols, k);
      MergedIsIrreducibleAndKeepsText(t, MergeAt(symbols, k));
  }

  method FindBest(t: Tokenizer, symbols: seq<string>) returns (best: Option<nat>)
    ensures best == BestPair(t, symbols)
  {
    best := None;
    for index := 0 to PairCount(symbols)
      invariant best.Some? ==> index > 0 && IsBest(t, symbols, best.value, index)
      invariant best.None? ==> NoPair(t, symbols, index)
    {
      var rank := t.Rank(symbols[index], symbols[index + 1]);
      if rank.Some? && (best.None? || rank.value < PairRank(t, symbols, best.value).value) {
        best := Some(index);
      }
    }
  }

  function Ids(t: Tokenizer, symbols: seq<string>): Option<seq<nat>> {
    if symbols == [] then Some([])
    else
      match Ids(t, symbols[1..])
      case None => None
      case Some(rest) => if symbols[0] in t.vocabulary then Some([t.vocabulary[symbols[0]]] + rest) else None
  }

  /** The symbols a piece becomes: the whole piece if it is a token, the merged symbols otherwise. */
  ghost function PieceSymbols(t: Tokenizer, bytes: seq<byte>): seq<string> {
    var encoded := MapBytes(bytes);
    if encoded in t.vocabulary then [encoded] else Merged(t, Characters(encoded))
  }

  lemma PieceKeepsText(t: Tokenizer, bytes: seq<byte>)
    ensures Flatten(PieceSymbols(t, bytes)) == MapBytes(bytes)
  {
    var encoded := MapBytes(bytes);
    FlattenCharacters(encoded);
    MergedIsIrreducibleAndKeepsText(t, Characters(encoded));
    assert Flatten([encoded]) == encoded + Flatten([encoded][1..]) == encoded;
  }

  method EncodePiece(t: Tokenizer, bytes: seq<byte>) returns (r: Option<seq<nat>>)
    ensures r == Ids(t, PieceSymbols(t, bytes))
  {
    var encoded := MapBytes(bytes);
    if encoded in t.vocabulary {
      assert Ids(t, [encoded][1..]) == Some([]);
      assert [t.vocabulary[encoded]] + [] == [t.vocabulary[encoded]];
      return Some([t.vocabulary[encoded]]);
    }
    var symbols := Characters(encoded);
    while true
      invariant Merged(t, symbols) == Merged(t, Characters(encoded))
      decreases |symbols|
    {
      var best := FindBest(t, symbols);
      if best.None? { break; }
      var index := best.value;
      symbols := symbols[..index] + [symbols[index] + symbols[index + 1]] + symbols[index + 2..];
    }
    r := Ids(t, symbols);
  }

  // ---------- No special text hides in a chunk ----------

  predicate OccursAt(text: string, t: string, p: nat) {
    p + |t| <= |text| && text[p..p + |t|] == t
  }

  ghost predicate SpecialFree(t: Tokenizer, text: string) {
    forall i: nat, p: nat | i < |t.specials| :: !OccursAt(text, t.specials[i].text, p)
  }

  lemma StartsAscii(t: string)
    requires t != "" && Ascii(t)
    ensures |Encode(t)| >= 1 && Encode(t)[0] < 0x80
  {
  }

  /** Every byte after the first of a character is a continuation byte. */
  lemma InteriorByte(c: char, at: nat)
    requires 0 < at < |EncodeChar(c)|
    ensures EncodeChar(c)[at] >= 0x80
  {
  }

  lemma FirstByteAscii(c: char)
    ensures EncodeChar(c)[0] < 0x80 ==> EncodeChar(c) == [c as int]
  {
  }

  lemma {:induction false} PrefixBytes(text: string, t: string)
    requires Ascii(t) && |Encode(t)| <= |Encode(text)| && Encode(text)[..|Encode(t)|] == Encode(t)
    ensures |t| <= |text| && text[..|t|] == t
  {
    if t != "" {
      assert Encode(t) == [t[0] as int] + Encode(t[1..]);
      FirstByteAscii(text[0]);
      assert Encode(text)[0] == Encode(t)[0] == t[0] as int;
      var rest, more := Encode(t[1..]), Encode(text[1..]);
      assert Encode(text) == [t[0] as int] + more;
      assert more[..|rest|] == Encode(text)[..|Encode(t)|][1..] == rest;
      PrefixBytes(text[1..], t[1..]);
    }
  }

  /** An ASCII text inside the bytes of a string is a substring of it. */
  lemma {:induction false} AsciiBytesAreCharacters(text: string, t: string, at: nat)
    requires t != "" && Ascii(t) && at + |Encode(t)| <= |Encode(text)|
    requires Encode(text)[at..at + |Encode(t)|] == Encode(t)
    ensures exists p: nat :: OccursAt(text, t, p)
  {
    hide EncodeChar;
    if at == 0 {
      PrefixBytes(text, t);
      assert OccursAt(text, t, 0);
    } else {
      var head := EncodeChar(text[0]);
      StartsAscii(t);
      assert Encode(text)[at] == Encode(t)[0];
      if at < |head| { InteriorByte(text[0], at); }
      AsciiBytesAreCharacters(text[1..], t, at - |head|);
      var p: nat :| OccursAt(text[1..], t, p);
      assert text[p + 1..p + 1 + |t|] == text[1..][p..p + |t|];
      assert OccursAt(text, t, p + 1);
    }
  }

  // ---------- Round trip of one piece ----------

  /** A symbol that covers bytes of a special-free text decodes to those bytes. */
  lemma SymbolDecodes(t: Tokenizer, text: string, symbol: string, from: nat, to: nat)
    requires t.Valid() && SpecialFree(t, text) && symbol in t.vocabulary
    requires from <= to <= |Encode(text)| && symbol == MapBytes(Encode(text)[from..to])
    ensures TokenBytes(t, t.vocabulary[symbol]) == Some(Encode(text)[from..to])
  {
    hide Encode;
    var bytes := Encode(text)[from..to];
    UnmapUndoesMap(bytes);
    var entry := t.EntryOf(t.vocabulary[symbol]).value;
    if entry.raw {
      var i :| 0 <= i < |t.specials| && t.specials[i].text == symbol;
      assert t.SpecialValid(t.specials[i]);
      AsciiText(bytes, symbol);
      AsciiBytesAreCharacters(text, symbol, from);
    }
  }

  lemma FirstSymbol(symbols: seq<string>, bytes: seq<byte>)
    requires symbols != [] && Flatten(symbols) == MapBytes(bytes)
    ensures var n := |symbols[0]|;
            && n <= |bytes|
            && symbols[0] == MapBytes(bytes[..n]) && Flatten(symbols[1..]) == MapBytes(bytes[n..])
  {
    var n := |symbols[0]|;
    assert |MapBytes(bytes)| == |bytes|;
    assert symbols[0] == MapBytes(bytes)[..n] == MapBytes(bytes[..n]);
    assert Flatten(symbols[1..]) == MapBytes(bytes)[n..] == MapBytes(bytes[n..]);
  }

  lemma SliceCut(bytes: seq<byte>, from: nat, to: nat, n: nat)
    requires from <= to <= |bytes| && n <= to - from
    ensures bytes[from..to][..n] == bytes[from..from + n] && bytes[from..to][n..] == bytes[from + n..to]
    ensures bytes[from..from + n] + bytes[from + n..to] == bytes[from..to]
  {
  }

  lemma DecodeCons(t: Tokenizer, ids: seq<nat>, first: seq<byte>, rest: seq<byte>)
    requires ids != [] && TokenBytes(t, ids[0]) == Some(first) && Decode(t, ids[1..]) == Some(rest)
    ensures Decode(t, ids) == Some(first + rest)
  {
  }

  lemma IdsCons(t: Tokenizer, symbols: seq<string>)
    requires symbols != [] && Ids(t, symbols).Some?
    ensures symbols[0] in t.vocabulary && Ids(t, symbols[1..]).Some?
    ensures Ids(t, symbols).value != [] && Ids(t, symbols).value[0] == t.vocabulary[symbols[0]]
    ensures Ids(t, symbols).value[1..] == Ids(t, symbols[1..]).value
  {
  }

  lemma NoSymbols(t: Tokenizer, bytes: seq<byte>)
    requires Flatten([]) == MapBytes(bytes)
    ensures Ids(t, []) == Some([]) && Decode(t, []) == Some(bytes)
  {
    assert |MapBytes(bytes)| == |bytes| == 0;
  }

  lemma {:induction false} SymbolsDecode(t: Tokenizer, text: string, symbols: seq<string>, from: nat, to: nat)
    requires t.Valid() && SpecialFree(t, text) && Ids(t, symbols).Some?
    requires from <= to <= |Encode(text)| && Flatten(symbols) == MapBytes(Encode(text)[from..to])
    ensures Decode(t, Ids(t, symbols).value) == Some(Encode(text)[from..to])
  {
    hide Encode, MapBytes, Ids, Flatten, SpecialFree, Decode;
    var bytes := Encode(text)[from..to];
    if symbols == [] {
      NoSymbols(t, bytes);
    } else {
      FirstSymbol(symbols, bytes);
      IdsCons(t, symbols);
      var cut := from + |symbols[0]|;
      SliceCut(Encode(text), from, to, |symbols[0]|);
      SymbolDecodes(t, text, symbols[0], from, cut);
      SymbolsDecode(t, text, symbols[1..], cut, to);
      DecodeCons(t, Ids(t, symbols).value, Encode(text)[from..cut], Encode(text)[cut..to]);
    }
  }

  // ---------- Chunks ----------

  function Append(left: Option<seq<nat>>, right: Option<seq<nat>>): Option<seq<nat>> {
    if left.Some? && right.Some? then Some(left.value + right.value) else None
  }

  ghost function PieceIds(t: Tokenizer, text: string, from: nat, to: nat): Option<seq<nat>>
    requires from <= to <= |text|
  {
    Ids(t, PieceSymbols(t, Encode(text[from..to])))
  }

  /** The tokens of the first n pieces of a chunk, nothing if a symbol has no token. */
  ghost function ChunkIds(t: Tokenizer, chunk: string, ends: seq<nat>, n: nat): Option<seq<nat>>
    requires n <= |ends|
  {
    if n == 0 then Some([])
    else if !(Pre.StartOf(ends, n - 1) <= ends[n - 1] <= |chunk|) then None
    else Append(ChunkIds(t, chunk, ends, n - 1), PieceIds(t, chunk, Pre.StartOf(ends, n - 1), ends[n - 1]))
  }

  lemma {:induction false} FailurePersists(t: Tokenizer, chunk: string, ends: seq<nat>, n: nat, m: nat)
    requires n <= m <= |ends| && ChunkIds(t, chunk, ends, n).None?
    ensures ChunkIds(t, chunk, ends, m).None?
    decreases m
  {
    hide PieceIds;
    if n < m { FailurePersists(t, chunk, ends, n, m - 1); }
  }

  /** The bytes a range selects are those of the piece. */
  lemma PieceBytes(k: Pre.Classes, chunk: string, ranges: seq<(nat, nat)>, ends: seq<nat>, i: nat)
    requires Pre.Tokenized(k, chunk, ends, |chunk|) && Pre.ByteRanges(chunk, ends, ranges) && i < |ends|
    ensures Pre.StartOf(ends, i) <= ends[i] <= |chunk|
    ensures ranges[i].0 <= ranges[i].1 <= |Encode(chunk)|
    ensures Encode(chunk)[ranges[i].0..ranges[i].1] == Encode(chunk[Pre.StartOf(ends, i)..ends[i]])
  {
    hide Encode;
    assert Pre.PieceAt(k, chunk, ends, i) && Pre.RangeAt(chunk, ends, ranges, i);
    Pre.RangeBytes(chunk, Pre.StartOf(ends, i), ends[i]);
  }

  method EncodeRanges(t: Tokenizer, k: Pre.Classes, chunk: string, ranges: seq<(nat, nat)>, ghost ends: seq<nat>)
    returns (r: Option<seq<nat>>)
    requires Pre.Tokenized(k, chunk, ends, |chunk|) && Pre.ByteRanges(chunk, ends, ranges)
    ensures r == ChunkIds(t, chunk, ends, |ends|)
  {
    hide PieceSymbols, Encode;
    var output: seq<nat> := [];
    for i := 0 to |ranges|
      invariant ChunkIds(t, chunk, ends, i) == Some(output)
    {
      PieceBytes(k, chunk, ranges, ends, i);
      var ids := EncodePiece(t, Encode(chunk)[ranges[i].0..ranges[i].1]);
      if ids.None? {
        FailurePersists(t, chunk, ends, i + 1, |ends|);
        return None;
      }
      output := output + ids.value;
    }
    r := Some(output);
  }

  method EncodeChunk(t: Tokenizer, k: Pre.Classes, chunk: string) returns (r: Option<seq<nat>>, ghost ends: seq<nat>)
    requires k.Valid()
    ensures Pre.Tokenized(k, chunk, ends, |chunk|)
    ensures r == ChunkIds(t, chunk, ends, |ends|)
  {
    var ranges, cuts := Pre.PretokenRanges(k, chunk);
    ends := cuts;
    r := EncodeRanges(t, k, chunk, ranges, ends);
  }

  /** Where the first n pieces end. */
  function Reached(ends: seq<nat>, n: nat): nat
    requires n <= |ends|
  {
    if n == 0 then 0 else ends[n - 1]
  }

  lemma ChunkParts(t: Tokenizer, chunk: string, ends: seq<nat>, n: nat)
    requires 0 < n <= |ends| && ChunkIds(t, chunk, ends, n).Some?
    ensures Reached(ends, n - 1) <= Reached(ends, n) <= |chunk|
    ensures ChunkIds(t, chunk, ends, n - 1).Some? && PieceIds(t, chunk, Reached(ends, n - 1), Reached(ends, n)).Some?
    ensures ChunkIds(t, chunk, ends, n).value
         == ChunkIds(t, chunk, ends, n - 1).value + PieceIds(t, chunk, Reached(ends, n - 1), Reached(ends, n)).value
  {
    hide PieceIds;
  }

  lemma NothingReached(t: Tokenizer, chunk: string, ends: seq<nat>)
    ensures Reached(ends, 0) == 0 && ChunkIds(t, chunk, ends, 0) == Some([])
    ensures Decode(t, []) == Some(Encode(chunk[..0]))
  {
    assert chunk[..0] == "";
  }

  lemma PieceRoundTrip(t: Tokenizer, text: string, from: nat, to: nat)
    requires t.Valid() && SpecialFree(t, text)
    requires from <= to <= |text| && PieceIds(t, text, from, to).Some?
    ensures Decode(t, PieceIds(t, text, from, to).value) == Some(Encode(text[from..to]))
  {
    var bytes := Encode(text[from..to]);
    Pre.RangeBytes(text, from, to);
    PieceKeepsText(t, bytes);
    SymbolsDecode(t, text, PieceSymbols(t, bytes), Pre.Offset(text, from), Pre.Offset(text, to));
  }

  lemma DecodedSoFar(t: Tokenizer, text: string, output: seq<nat>, ids: seq<nat>, from: nat, to: nat)
    requires from <= to <= |text|
    requires Decode(t, output) == Some(Encode(text[..from])) && Decode(t, ids) == Some(Encode(text[from..to]))
    ensures Decode(t, output + ids) == Some(Encode(text[..to]))
  {
    DecodeConcat(t, output, ids);
    EncodeConcat(text[..from], text[from..to]);
    assert text[..from] + text[from..to] == text[..to];
  }

  lemma {:induction false} ChunkRoundTrip(t: Tokenizer, chunk: string, ends: seq<nat>, n: nat)
    requires t.Valid() && SpecialFree(t, chunk)
    requires n <= |ends| && ChunkIds(t, chunk, ends, n).Some?
    ensures Reached(ends, n) <= |chunk|
    ensures Decode(t, ChunkIds(t, chunk, ends, n).value) == Some(Encode(chunk[..Reached(ends, n)]))
  {
    hide ChunkIds, PieceIds, Encode, Decode, SpecialFree, Reached;
    if n == 0 {
      NothingReached(t, chunk, ends);
    } else {
      var from, to := Reached(ends, n - 1), Reached(ends, n);
      ChunkParts(t, chunk, ends, n);
      ChunkRoundTrip(t, chunk, ends, n - 1);
      PieceRoundTrip(t, chunk, from, to);
      DecodedSoFar(t, chunk, ChunkIds(t, chunk, ends, n - 1).value, PieceIds(t, chunk, from, to).value, from, to);
    }
  }

  // ---------- Splitting at specials ----------

  /** The first occurrence of `t` at or after `from`. */
  method Find(text: string, t: string, from: nat) returns (r: Option<nat>)
    requires from <= |text|
    ensures r.Some? ==> from <= r.value && OccursAt(text, t, r.value)
    ensures r.Some? ==> forall p: nat | from <= p < r.value :: !OccursAt(text, t, p)
    ensures r.None? ==> forall p: nat | from <= p :: !OccursAt(text, t, p)
  {
    var p := from;
    while p + |t| <= |text|
      invariant from <= p && forall q: nat | from <= q < p :: !OccursAt(text, t, q)
    {
      if text[p..p + |t|] == t { return Some(p); }
      p := p + 1;
    }
    return None;
  }

  /** None of the first `limit` specials occurs from `from` up to (not including) `at`. */
  ghost predicate NoneBetween(t: Tokenizer, text: string, from: nat, at: nat, limit: nat) {
    forall i: nat, p: nat | i < limit && i < |t.specials| && from <= p < at :: !OccursAt(text, t.specials[i].text, p)
  }

  /** `special` is at `at`, nothing special starts between `from` and `at`, and no longer special text
      is at `at`. */
  ghost predicate LeftmostLongest(t: Tokenizer, text: string, from: nat, limit: nat, at: nat, special: Special) {
    && from <= at && special in t.specials && OccursAt(text, special.text, at)
    && NoneBetween(t, text, from, at, limit)
    && forall i: nat | i < limit && i < |t.specials| && OccursAt(text, t.specials[i].text, at) ::
         |Encode(t.specials[i].text)| <= |Encode(special.text)|
  }

  method NextSpecial(t: Tokenizer, text: string, from: nat) returns (r: Option<(nat, Special)>)
    requires from <= |text|
    ensures r.Some? ==> LeftmostLongest(t, text, from, |t.specials|, r.value.0, r.value.1)
    ensures r.None? ==> NoneBetween(t, text, from, |text| + 1, |t.specials|)
  {
    hide Encode;
    r := None;
    for i := 0 to |t.specials|
      invariant r.Some? ==> LeftmostLongest(t, text, from, i, r.value.0, r.value.1)
      invariant r.None? ==> NoneBetween(t, text, from, |text| + 1, i)
    {
      var special := t.specials[i];
      var found := Find(text, special.text, from);
      if found.Some? {
        var position := found.value;
        if r.None? || position < r.value.0
          || (position == r.value.0 && |Encode(special.text)| > |Encode(r.value.1.text)|)
        {
          r := Some((position, special));
        }
      }
    }
  }

  /** When no two specials share a text, the next special does not depend on the order in which the
      table lists them. */
  lemma NextSpecialIsUnique(
    t: Tokenizer, text: string, from: nat, at: nat, special: Special, elsewhere: nat, other: Special)
    requires LeftmostLongest(t, text, from, |t.specials|, at, special)
    requires LeftmostLongest(t, text, from, |t.specials|, elsewhere, other)
    requires forall a <- t.specials, b <- t.specials :: a.text == b.text ==> a == b
    ensures at == elsewhere && special == other
  {
    assert exists i: nat :: i < |t.specials| && t.specials[i] == special;
    assert exists i: nat :: i < |t.specials| && t.specials[i] == other;
    assert at == elsewhere;
    var near, far := at + |special.text|, at + |other.text|;
    if near < far {
      ByteLengthGrows(text, at, near, far);
    } else if far < near {
      ByteLengthGrows(text, at, far, near);
    }
  }

  lemma OccursInside(text: string, from: nat, end: nat, s: string, p: nat)
    requires from <= end <= |text| && OccursAt(text[from..end], s, p)
    ensures OccursAt(text, s, from + p)
  {
    var inner := text[from..end];
    forall i: nat | i < |s| ensures text[from + p + i] == s[i] {
      assert inner[p..p + |s|][i] == inner[p + i];
    }
  }

  lemma ChunkIsSpecialFree(t: Tokenizer, text: string, from: nat, end: nat)
    requires from <= end <= |text| && t.Valid() && NoneBetween(t, text, from, end, |t.specials|)
    ensures SpecialFree(t, text[from..end])
  {
    forall i: nat, p: nat | i < |t.specials| ensures !OccursAt(text[from..end], t.specials[i].text, p) {
      assert t.SpecialValid(t.specials[i]);
      var s := t.specials[i].text;
      if OccursAt(text[from..end], s, p) {
        assert from + p < end;
        OccursInside(text, from, end, s, p);
      }
    }
  }

  // ---------- Whole texts ----------

  /** A stretch of the text: ordinary characters with their piece boundaries, or one special. */
  datatype Segment = Chunk(end: nat, ends: seq<nat>) | Atom(end: nat, special: Special)

  function EndOf(segments: seq<Segment>, n: nat): nat
    requires n <= |segments|
  {
    if n == 0 then 0 else segments[n - 1].end
  }

  /** Segment n starts where the one before it ended. A chunk holds no special and ends at one, or at
      the end of the text; an atom is the longest special at the first place that has one. */
  ghost predicate SegmentAt(t: Tokenizer, k: Pre.Classes, text: string, segments: seq<Segment>, n: nat)
    requires n < |segments|
  {
    var from := EndOf(segments, n);
    match segments[n]
    case Chunk(end, ends) =>
      from < end <= |text| && NoneBetween(t, text, from, end, |t.specials|)
      && Pre.Tokenized(k, text[from..end], ends, end - from)
      && (end == |text| || exists special :: LeftmostLongest(t, text, from, |t.specials|, end, special))
    case Atom(end, special) =>
      LeftmostLongest(t, text, from, |t.specials|, from, special) && end == from + |special.text|
  }

  ghost predicate Split(t: Tokenizer, k: Pre.Classes, text: string, segments: seq<Segment>) {
    forall n: nat | n < |segments| :: SegmentAt(t, k, text, segments, n)
  }

  ghost function SegmentIds(t: Tokenizer, text: string, segments: seq<Segment>, n: nat): Option<seq<nat>>
    requires n < |segments|
  {
    match segments[n]
    case Chunk(end, ends) =>
      if EndOf(segments, n) <= end <= |text| then ChunkIds(t, text[EndOf(segments, n)..end], ends, |ends|) else None
    case Atom(_, special) => Some([special.id])
  }

  ghost function TextIds(t: Tokenizer, text: string, segments: seq<Segment>, n: nat): Option<seq<nat>>
    requires n <= |segments|
  {
    if n == 0 then Some([])
    else Append(TextIds(t, text, segments, n - 1), SegmentIds(t, text, segments, n - 1))
  }

  lemma SegmentIdsPrefix(t: Tokenizer, text: string, segments: seq<Segment>, last: Segment, n: nat)
    requires n < |segments|
    ensures SegmentIds(t, text, segments + [last], n) == SegmentIds(t, text, segments, n)
  {
    hide ChunkIds;
    assert EndOf(segments + [last], n) == EndOf(segments, n);
  }

  lemma {:induction false} TextIdsPrefix(t: Tokenizer, text: string, segments: seq<Segment>, last: Segment, n: nat)
    requires n <= |segments|
    ensures TextIds(t, text, segments + [last], n) == TextIds(t, text, segments, n)
  {
    hide SegmentIds;
    if n > 0 {
      TextIdsPrefix(t, text, segments, last, n - 1);
      SegmentIdsPrefix(t, text, segments, last, n - 1);
    }
  }

  lemma SplitSnoc(t: Tokenizer, k: Pre.Classes, text: string, segments: seq<Segment>, last: Segment)
    requires Split(t, k, text, segments) && SegmentAt(t, k, text, segments + [last], |segments|)
    ensures Split(t, k, text, segments + [last])
    ensures TextIds(t, text, segments + [last], |segments| + 1)
         == Append(TextIds(t, text, segments, |segments|), SegmentIds(t, text, segments + [last], |segments|))
  {
    forall n: nat | n < |segments| + 1 ensures SegmentAt(t, k, text, segments + [last], n) {
      if n < |segments| {
        assert SegmentAt(t, k, text, segments, n);
        assert EndOf(segments + [last], n) == EndOf(segments, n);
      }
    }
    TextIdsPrefix(t, text, segments, last, |segments|);
  }

  /** What is known after encoding a prefix of the text. */
  ghost predicate Progress(
    t: Tokenizer, k: Pre.Classes, text: string, segments: seq<Segment>, offset: nat, r: Option<seq<nat>>)
  {
    && Split(t, k, text, segments)
    && r == TextIds(t, text, segments, |segments|)
    && offset == EndOf(segments, |segments|) <= |text|
  }

  ghost predicate Scanned(t: Tokenizer, text: string, from: nat, next: Option<(nat, Special)>, end: nat) {
    if next.Some?
    then end == next.value.0 && LeftmostLongest(t, text, from, |t.specials|, end, next.value.1)
    else end == |text| && NoneBetween(t, text, from, |text| + 1, |t.specials|)
  }

  lemma ChunkStep(
    t: Tokenizer, k: Pre.Classes, text: string, segments: seq<Segment>, offset: nat, output: seq<nat>,
    next: Option<(nat, Special)>, end: nat, ends: seq<nat>)
    requires Progress(t, k, text, segments, offset, Some(output))
    requires offset < end <= |text| && Scanned(t, text, offset, next, end)
    requires Pre.Tokenized(k, text[offset..end], ends, end - offset)
    ensures Progress(t, k, text, segments + [Chunk(end, ends)], end,
                     Append(Some(output), ChunkIds(t, text[offset..end], ends, |ends|)))
  {
    assert EndOf(segments + [Chunk(end, ends)], |segments|) == EndOf(segments, |segments|);
    SplitSnoc(t, k, text, segments, Chunk(end, ends));
  }

  lemma LeftmostStays(t: Tokenizer, text: string, from: nat, at: nat, special: Special)
    requires LeftmostLongest(t, text, from, |t.specials|, at, special)
    ensures LeftmostLongest(t, text, at, |t.specials|, at, special) && at + |special.text| <= |text|
  {
  }

  lemma AtomStep(
    t: Tokenizer, k: Pre.Classes, text: string, segments: seq<Segment>, from: nat, at: nat, output: seq<nat>,
    special: Special)
    requires Progress(t, k, text, segments, at, Some(output))
    requires from <= at && LeftmostLongest(t, text, from, |t.specials|, at, special)
    ensures Progress(t, k, text, segments + [Atom(at + |special.text|, special)], at + |special.text|,
                     Some(output + [special.id]))
  {
    hide LeftmostLongest, NoneBetween, Split, TextIds;
    var last := Atom(at + |special.text|, special);
    assert EndOf(segments + [last], |segments|) == at;
    LeftmostStays(t, text, from, at, special);
    SplitSnoc(t, k, text, segments, last);
  }

  /** Encoding splits the text leftmost-longest at specials and encodes what lies between; it fails
      only at a chunk that has a symbol without a token. The loop ends because specials are not
      empty. */
  method EncodeText(t: Tokenizer, k: Pre.Classes, text: string)
    returns (r: Option<seq<nat>>, ghost segments: seq<Segment>)
    requires k.Valid() && forall special <- t.specials :: special.text != ""
    ensures Split(t, k, text, segments)
    ensures r == TextIds(t, text, segments, |segments|)
    ensures r.Some? ==> EndOf(segments, |segments|) == |text|
  {
    var output: seq<nat> := [];
    var offset := 0;
    segments := [];
    while offset < |text|
      invariant offset <= |text| && Progress(t, k, text, segments, offset, Some(output))
      decreases |text| - offset
    {
      var next := NextSpecial(t, text, offset);
      var end := if next.Some? then next.value.0 else |text|;
      if end > offset {
        var ids, ends := EncodeChunk(t, k, text[offset..end]);
        ChunkStep(t, k, text, segments, offset, output, next, end, ends);
        segments := segments + [Chunk(end, ends)];
        if ids.None? { return None, segments; }
        output := output + ids.value;
      }
      if next.None? { return Some(output), segments; }
      var special := next.value.1;
      AtomStep(t, k, text, segments, offset, end, output, special);
      segments := segments + [Atom(end + |special.text|, special)];
      output := output + [special.id];
      offset := end + |special.text|;
    }
    r := Some(output);
  }

  lemma SpecialDecodes(t: Tokenizer, special: Special)
    requires t.SpecialValid(special)
    ensures Decode(t, [special.id]) == Some(Encode(special.text))
  {
    UnmapIsEncodeIffVisible(special.text);
    var bytes := Encode(special.text);
    assert TokenBytes(t, special.id) == Some(bytes);
    assert [special.id][1..] == [] && Decode(t, []) == Some([]);
    assert bytes + [] == bytes;
  }

  lemma WholeChunk(t: Tokenizer, k: Pre.Classes, text: string, from: nat, end: nat, ends: seq<nat>)
    requires t.Valid() && from < end <= |text| && NoneBetween(t, text, from, end, |t.specials|)
    requires Pre.Tokenized(k, text[from..end], ends, end - from)
    requires ChunkIds(t, text[from..end], ends, |ends|).Some?
    ensures Decode(t, ChunkIds(t, text[from..end], ends, |ends|).value) == Some(Encode(text[from..end]))
  {
    hide Encode, Decode, ChunkIds, Ids;
    ChunkIsSpecialFree(t, text, from, end);
    ChunkRoundTrip(t, text[from..end], ends, |ends|);
    assert text[from..end][..end - from] == text[from..end];
  }

  lemma AtomDecodes(t: Tokenizer, text: string, from: nat, special: Special)
    requires t.Valid() && LeftmostLongest(t, text, from, |t.specials|, from, special)
    ensures from + |special.text| <= |text|
    ensures Decode(t, [special.id]) == Some(Encode(text[from..from + |special.text|]))
  {
    hide Encode, Decode;
    SpecialDecodes(t, special);
  }

  lemma SegmentRoundTrip(t: Tokenizer, k: Pre.Classes, text: string, segments: seq<Segment>, n: nat)
    requires t.Valid() && n < |segments| && EndOf(segments, n) <= |text| && SegmentAt(t, k, text, segments, n)
    requires SegmentIds(t, text, segments, n).Some?
    ensures EndOf(segments, n) <= EndOf(segments, n + 1) <= |text|
    ensures Decode(t, SegmentIds(t, text, segments, n).value)
         == Some(Encode(text[EndOf(segments, n)..EndOf(segments, n + 1)]))
  {
    hide ChunkIds, Encode, Decode, LeftmostLongest, NoneBetween;
    var from := EndOf(segments, n);
    match segments[n]
    case Chunk(end, ends) =>
      WholeChunk(t, k, text, from, end, ends);
    case Atom(end, special) =>
      AtomDecodes(t, text, from, special);
  }

  /** The round trip: whenever encoding succeeds, decoding with specials included gives back the
      bytes of the text. */
  lemma {:induction false} DecodeUndoesEncode(t: Tokenizer, k: Pre.Classes, text: string, segments: seq<Segment>,
      n: nat)
    requires t.Valid() && n <= |segments| && Split(t, k, text, segments)
    requires TextIds(t, text, segments, n).Some?
    ensures EndOf(segments, n) <= |text|
    ensures Decode(t, TextIds(t, text, segments, n).value) == Some(Encode(text[..EndOf(segments, n)]))
  {
    if n > 0 {
      DecodeUndoesEncode(t, k, text, segments, n - 1);
      assert SegmentAt(t, k, text, segments, n - 1);
      SegmentRoundTrip(t, k, text, segments, n - 1);
      DecodedSoFar(t, text, TextIds(t, text, segments, n - 1).value,
                   SegmentIds(t, text, segments, n - 1).value, EndOf(segments, n - 1), EndOf(segments, n));
    } else {
      assert text[..0] == "";
    }
  }
}
