/** Decoding what the Gemma tokenizer encoded.  A token spelled like a byte token decodes to that byte
 *  and the space mark decodes to a space, so the text is given back under an exact condition only.
 */
module GemmaDecoding {
  import opened Wrappers
  import opened Utf8
  import opened Symbols
  import opened SpmMerge
  import opened GemmaTokenizer
  import Bpe = ByteBpe

  // ---------- Symbols ----------

  /** Merging ends with tokens and single characters only. */
  ghost predicate TokenOrCharacter(v: Vocabulary, symbol: string) {
    symbol in v.tokenToId || |symbol| == 1
  }

  lemma {:induction false} GreedyTokens(v: Vocabulary, symbols: seq<string>)
    requires v.Valid() && forall i: nat | i < |symbols| :: TokenOrCharacter(v, symbols[i])
    ensures forall i: nat | i < |Greedy(v, symbols)| :: TokenOrCharacter(v, Greedy(v, symbols)[i])
    decreases |symbols|
  {
    match BestPair(v, symbols, 0)
    case None =>
    case Some(k) =>
      assert TokenOrCharacter(v, symbols[k] + symbols[k + 1]);
      GreedyTokens(v, MergeAt(symbols, k));
  }

  /** Every byte has its own token, and the space mark is a token. */
  ghost predicate Complete(t: Tokenizer) {
    && t.Valid() && [SPACE_MARK] in t.vocabulary.tokenToId
    && forall b: byte :: t.vocabulary.byteTokens[b].Some? && t.vocabulary.byteTokens[b].value < |t.tokens|
         && ParseByteToken(t.tokens[t.vocabulary.byteTokens[b].value]) == Some(b)
  }

  /** No stretch of the text reads like a byte token. */
  ghost predicate NoByteToken(text: string) {
    forall from: nat, to: nat | from <= to <= |text| :: ParseByteToken(text[from..to]).None?
  }

  lemma {:induction false} ByteIdsDecode(t: Tokenizer, bytes: seq<byte>)
    requires Complete(t)
    ensures DecodedBytes(t, ByteIds(t.vocabulary, bytes), false) == bytes
  {
    hide ParseByteToken;
    if bytes != [] {
      ByteIdsDecode(t, bytes[1..]);
      var id := t.vocabulary.byteTokens[bytes[0]].value;
      assert ByteIds(t.vocabulary, bytes)[1..] == ByteIds(t.vocabulary, bytes[1..]);
      assert TokenBytes(t, id, false) == [bytes[0]];
    }
  }

  /** What `decoded` contributes to a decoded text: exactly `text`, or, wherever it stands, fewer
      characters than `text` has. */
  ghost predicate Reads(decoded: seq<byte>, text: string, exact: bool) {
    if exact then decoded == Encode(text)
    else forall rest: seq<byte> :: |Lossy(decoded + rest)| < |text| + |Lossy(rest)|
  }

  lemma TextInFront(text: string, rest: seq<byte>)
    ensures |Lossy(Encode(text) + rest)| == |text| + |Lossy(rest)|
  {
    LossyOfEncoded(text);
    LossyConcat(Encode(text), rest);
  }

  lemma ReadsConcat(a: seq<byte>, textA: string, exactA: bool, b: seq<byte>, textB: string, exactB: bool)
    requires Reads(a, textA, exactA) && Reads(b, textB, exactB)
    ensures Reads(a + b, textA + textB, exactA && exactB)
  {
    hide Encode, Lossy;
    EncodeConcat(textA, textB);
    if !(exactA && exactB) {
      forall rest: seq<byte> ensures |Lossy((a + b) + rest)| < |textA + textB| + |Lossy(rest)| {
        assert (a + b) + rest == a + (b + rest);
        if exactA { TextInFront(textA, b + rest); }
        if exactB { TextInFront(textB, rest); }
      }
    }
  }

  /** A symbol is ambiguous if it is a token spelled like a byte token: its ID decodes to that byte. */
  predicate Ambiguous(t: Tokenizer, symbol: string) {
    symbol in t.vocabulary.tokenToId && ParseByteToken(symbol).Some?
  }

  predicate NoneAmbiguous(t: Tokenizer, symbols: seq<string>) {
    forall i: nat | i < |symbols| :: !Ambiguous(t, symbols[i])
  }

  /** One byte where a whole text should stand. */
  lemma ByteReads(b: byte, text: string)
    requires |text| > 1
    ensures Reads([b], text, false)
  {
    forall rest: seq<byte> ensures |Lossy([b] + rest)| < |text| + |Lossy(rest)| { OneByteMore(b, rest); }
  }

  lemma ByteTokenLength(symbol: string)
    ensures ParseByteToken(symbol).Some? ==> |symbol| == 6
  {
  }

  lemma TextReads(text: string)
    ensures Reads(Encode(text), text, true)
  {
  }

  lemma TokenReads(t: Tokenizer, id: nat)
    requires id < |t.tokens| == |t.special|
    ensures Reads(DecodedBytes(t, [id], false), Restore(t.tokens[id]), ParseByteToken(t.tokens[id]).None?)
  {
    hide ParseByteToken, Encode, Reads;
    assert DecodedBytes(t, [id], false) == TokenBytes(t, id, false) + DecodedBytes(t, [id][1..], false);
    assert DecodedBytes(t, [id], false) == TokenBytes(t, id, false);
    match ParseByteToken(t.tokens[id])
    case Some(b) =>
      ByteTokenLength(t.tokens[id]);
      ByteReads(b, Restore(t.tokens[id]));
    case None => TextReads(Restore(t.tokens[id]));
  }

  /** Both ways of emitting a symbol decode to its text, unless the symbol is ambiguous. */
  lemma SymbolDecodes(t: Tokenizer, symbol: string)
    requires Complete(t) && TokenOrCharacter(t.vocabulary, symbol)
    ensures Reads(DecodedBytes(t, Emit(t.vocabulary, symbol), false), Restore(symbol), !Ambiguous(t, symbol))
  {
    hide ParseByteToken, Encode, Reads, DecodedBytes;
    if symbol in t.vocabulary.tokenToId {
      TokenReads(t, t.vocabulary.tokenToId[symbol]);
    } else {
      ByteIdsDecode(t, Encode(symbol));
      assert symbol == [symbol[0]] && symbol[0] != SPACE_MARK;
      assert Restore(symbol) == symbol;
      TextReads(symbol);
    }
  }

  lemma CompleteIsValid(t: Tokenizer)
    requires Complete(t)
    ensures t.Valid() && t.vocabulary.Valid() && |t.tokens| == |t.special|
  {
  }

  lemma NothingReads(t: Tokenizer)
    requires |t.tokens| == |t.special|
    ensures Reads(DecodedBytes(t, [], false), Restore(""), true) && Flatten([]) == Restore("") == ""
  {
  }

  lemma {:induction false} SymbolsDecode(t: Tokenizer, symbols: seq<string>)
    requires Complete(t) && forall i: nat | i < |symbols| :: TokenOrCharacter(t.vocabulary, symbols[i])
    ensures Reads(DecodedBytes(t, EmitAll(t.vocabulary, symbols), false), Restore(Flatten(symbols)),
      NoneAmbiguous(t, symbols))
    decreases |symbols|
  {
    hide Complete, Emit, DecodedBytes, Restore, Reads, Ambiguous;
    CompleteIsValid(t);
    if symbols == [] {
      NothingReads(t);
    } else {
      var s, rest := symbols[0], symbols[1..];
      SymbolDecodes(t, s);
      SymbolsDecode(t, rest);
      DecodedConcat(t, Emit(t.vocabulary, s), EmitAll(t.vocabulary, rest), false);
      RestoreConcat(s, Flatten(rest));
      ReadsConcat(DecodedBytes(t, Emit(t.vocabulary, s), false), Restore(s), !Ambiguous(t, s),
                  DecodedBytes(t, EmitAll(t.vocabulary, rest), false), Restore(Flatten(rest)), NoneAmbiguous(t, rest));
      assert NoneAmbiguous(t, symbols) <==> !Ambiguous(t, s) && NoneAmbiguous(t, rest);
    }
  }

  // ---------- Stretches ----------

  /** A byte token has no space and no mark, so it also stands in the text before normalization. */
  lemma ByteTokenIsOld(raw: string, from: nat, to: nat)
    requires from <= to <= |Normalize(raw)| && ParseByteToken(Normalize(raw)[from..to]).Some?
    ensures 0 < from && ParseByteToken(raw[from - 1..to - 1]) == ParseByteToken(Normalize(raw)[from..to])
  {
    var s := Normalize(raw);
    var found := s[from..to];
    assert found[0] == '<' && found[1] == '0' && found[2] == 'x' by { assert found[..3] == "<0x"; }
    assert forall i: nat | i < 6 :: found[i] == s[from + i];
    assert from > 0;
    assert forall i: nat | i < 6 :: raw[from - 1 + i] == found[i];
    assert raw[from - 1..to - 1] == found;
  }

  lemma NormalizedHasNoByteToken(raw: string)
    requires NoByteToken(raw)
    ensures NoByteToken(Normalize(raw))
  {
    var s := Normalize(raw);
    forall from: nat, to: nat | from <= to <= |s| ensures ParseByteToken(s[from..to]).None? {
      if ParseByteToken(s[from..to]).Some? { ByteTokenIsOld(raw, from, to); }
    }
  }

  /** The symbols a stretch of raw text is merged into. */
  ghost function RawSymbols(t: Tokenizer, raw: string): seq<string>
    requires t.vocabulary.Valid()
  {
    Greedy(t.vocabulary, Characters(Normalize(raw)))
  }

  lemma RawSymbolsAre(t: Tokenizer, raw: string)
    requires Complete(t)
    ensures t.vocabulary.Valid() && Flatten(RawSymbols(t, raw)) == Normalize(raw)
    ensures forall i: nat | i < |RawSymbols(t, raw)| :: TokenOrCharacter(t.vocabulary, RawSymbols(t, raw)[i])
  {
    GreedyTokens(t.vocabulary, Characters(Normalize(raw)));
    GreedyIsIrreducibleAndKeepsText(t.vocabulary, Characters(Normalize(raw)));
    FlattenCharacters(Normalize(raw));
  }

  lemma SpaceIsRestored()
    ensures Restore(" ") == " "
  {
  }

  /** An encoded stretch decodes to it behind one space, with marks turned into spaces, unless one of
      its symbols is ambiguous. */
  lemma RawDecodes(t: Tokenizer, raw: string)
    requires Complete(t)
    ensures t.vocabulary.Valid()
    ensures Reads(DecodedBytes(t, RawIds(t, raw), false), Restore(" " + raw), NoneAmbiguous(t, RawSymbols(t, raw)))
  {
    hide Complete, DecodedBytes, Normalize, Restore, Greedy, Reads, NoneAmbiguous;
    CompleteIsValid(t);
    RawSymbolsAre(t, raw);
    SymbolsDecode(t, RawSymbols(t, raw));
    RestoreNormalized(raw);
    RestoreConcat(" ", raw);
    SpaceIsRestored();
  }

  lemma {:induction false} PiecesAreNoByteTokens(text: string, symbols: seq<string>, from: nat)
    requires NoByteToken(text) && from <= |text| && Flatten(symbols) == text[from..]
    ensures forall i: nat | i < |symbols| :: ParseByteToken(symbols[i]).None?
    decreases |symbols|
  {
    hide ParseByteToken;
    if symbols != [] {
      var cut := from + |symbols[0]|;
      assert Flatten(symbols) == symbols[0] + Flatten(symbols[1..]);
      assert symbols[0] == text[from..cut] && Flatten(symbols[1..]) == text[cut..];
      PiecesAreNoByteTokens(text, symbols[1..], cut);
    }
  }

  /** A text in which nothing reads like a byte token has no ambiguous symbol. */
  lemma NoByteTokenMeansNoneAmbiguous(t: Tokenizer, raw: string)
    requires Complete(t) && NoByteToken(raw)
    ensures NoneAmbiguous(t, RawSymbols(t, raw))
  {
    hide Complete, ParseByteToken, Normalize, Greedy;
    RawSymbolsAre(t, raw);
    NormalizedHasNoByteToken(raw);
    assert Normalize(raw)[0..] == Normalize(raw);
    PiecesAreNoByteTokens(Normalize(raw), RawSymbols(t, raw), 0);
  }

  // ---------- Texts ----------

  /** What a segment should be given back as: a special token as it is, a stretch behind one space. */
  function Given(text: string, segments: seq<Segment>, n: nat): string
    requires n < |segments|
  {
    match segments[n]
    case Raw(end) => if EndOf(segments, n) <= end <= |text| then " " + text[EndOf(segments, n)..end] else ""
    case Atom(_, s) => s.text
  }

  function GivenUpTo(text: string, segments: seq<Segment>, n: nat): string
    requires n <= |segments|
  {
    if n == 0 then "" else GivenUpTo(text, segments, n - 1) + Given(text, segments, n - 1)
  }

  /** No token of the segment is spelled like a byte token. */
  ghost predicate Spelled(t: Tokenizer, text: string, segments: seq<Segment>, n: nat)
    requires t.vocabulary.Valid() && n < |segments|
  {
    match segments[n]
    case Raw(end) => EndOf(segments, n) <= end <= |text| ==>
      NoneAmbiguous(t, RawSymbols(t, text[EndOf(segments, n)..end]))
    case Atom(_, s) => ParseByteToken(s.text).None?
  }

  /** Decoding gives this segment back: no token is spelled like a byte token and no mark is in it. */
  ghost predicate Readable(t: Tokenizer, text: string, segments: seq<Segment>, n: nat)
    requires t.vocabulary.Valid() && n < |segments|
  {
    Spelled(t, text, segments, n) && SPACE_MARK !in Given(text, segments, n)
  }

  ghost predicate AllSpelled(t: Tokenizer, text: string, segments: seq<Segment>, n: nat)
    requires t.vocabulary.Valid() && n <= |segments|
  {
    forall i: nat | i < n :: Spelled(t, text, segments, i)
  }

  ghost predicate AllReadable(t: Tokenizer, text: string, segments: seq<Segment>, n: nat)
    requires t.vocabulary.Valid() && n <= |segments|
  {
    forall i: nat | i < n :: Readable(t, text, segments, i)
  }

  lemma SegmentDecodes(t: Tokenizer, text: string, segments: seq<Segment>, n: nat)
    requires Complete(t) && n < |segments| && SegmentAt(t, text, segments, n)
    ensures t.vocabulary.Valid()
    ensures Reads(DecodedBytes(t, SegmentIds(t, text, segments, n), false), Restore(Given(text, segments, n)),
                  Spelled(t, text, segments, n))
  {
    hide ParseByteToken, RawIds, Restore, DecodedBytes, Reads, NoneAmbiguous, RawSymbols;
    match segments[n]
    case Raw(end) => RawDecodes(t, text[EndOf(segments, n)..end]);
    case Atom(_, s) => TokenReads(t, s.id);
  }

  lemma {:induction false} SegmentsDecode(t: Tokenizer, text: string, segments: seq<Segment>, n: nat)
    requires Complete(t) && n <= |segments| && Split(t, text, segments)
    ensures t.vocabulary.Valid()
    ensures Reads(DecodedBytes(t, TextIds(t, text, segments, n), false), Restore(GivenUpTo(text, segments, n)),
                  AllSpelled(t, text, segments, n))
  {
    hide DecodedBytes, SegmentIds, Given, Complete, Spelled, Reads, Restore;
    CompleteIsValid(t);
    if n == 0 {
      NothingReads(t);
    } else {
      var k := n - 1;
      var ids, more := TextIds(t, text, segments, k), SegmentIds(t, text, segments, k);
      SegmentsDecode(t, text, segments, k);
      assert SegmentAt(t, text, segments, k);
      SegmentDecodes(t, text, segments, k);
      DecodedConcat(t, ids, more, false);
      RestoreConcat(GivenUpTo(text, segments, k), Given(text, segments, k));
      ReadsConcat(
        DecodedBytes(t, ids, false), Restore(GivenUpTo(text, segments, k)), AllSpelled(t, text, segments, k),
        DecodedBytes(t, more, false), Restore(Given(text, segments, k)), Spelled(t, text, segments, k));
      assert AllSpelled(t, text, segments, n) <==> AllSpelled(t, text, segments, k) && Spelled(t, text, segments, k);
    }
  }

  lemma RestoredIffNoMark(s: string)
    ensures |Restore(s)| == |s| && (Restore(s) == s <==> SPACE_MARK !in s)
  {
    if SPACE_MARK in s {
      var i :| 0 <= i < |s| && s[i] == SPACE_MARK;
      assert Restore(s)[i] != s[i];
    }
  }

  lemma {:induction false} MarkSomewhere(text: string, segments: seq<Segment>, n: nat)
    requires n <= |segments|
    ensures SPACE_MARK in GivenUpTo(text, segments, n)
      <==> exists i: nat | i < n :: SPACE_MARK in Given(text, segments, i)
  {
    hide Given;
    if n > 0 { MarkSomewhere(text, segments, n - 1); }
  }

  lemma ReadableMeans(t: Tokenizer, text: string, segments: seq<Segment>, n: nat)
    requires t.vocabulary.Valid() && n <= |segments|
    ensures AllReadable(t, text, segments, n)
      <==> AllSpelled(t, text, segments, n) && SPACE_MARK !in GivenUpTo(text, segments, n)
  {
    hide Spelled, Given;
    MarkSomewhere(text, segments, n);
    if AllReadable(t, text, segments, n) {
      forall i: nat | i < n ensures Spelled(t, text, segments, i) && SPACE_MARK !in Given(text, segments, i) {
        assert Readable(t, text, segments, i);
      }
    } else {
      var i: nat :| i < n && !Readable(t, text, segments, i);
    }
  }

  lemma ReadsMeans(decoded: seq<byte>, text: string, exact: bool)
    requires Reads(decoded, text, exact)
    ensures if exact then Lossy(decoded) == text else |Lossy(decoded)| < |text|
  {
    LossyOfEncoded(text);
    assert decoded + [] == decoded;
  }

  lemma ExactBytes(decoded: seq<byte>, text: string)
    requires Reads(decoded, text, true)
    ensures decoded == Encode(text)
  {
  }

  /** Decoding an encoded text with special tokens included gives back every special token as it is and
      every stretch between them behind one space, exactly when every segment is readable; the same
      condition decides it for the decoded bytes. */
  lemma DecodeGivesBack(t: Tokenizer, text: string, segments: seq<Segment>, n: nat)
    requires Complete(t) && n <= |segments| && Split(t, text, segments)
    ensures t.vocabulary.Valid()
    ensures Decode(t, TextIds(t, text, segments, n), false) == GivenUpTo(text, segments, n)
      <==> AllReadable(t, text, segments, n)
    ensures DecodedBytes(t, TextIds(t, text, segments, n), false) == Encode(GivenUpTo(text, segments, n))
      <==> AllReadable(t, text, segments, n)
  {
    hide Complete, Encode, Lossy, DecodedBytes, Restore, AllSpelled, AllReadable, GivenUpTo, TextIds, Split, Reads;
    CompleteIsValid(t);
    var given, bytes := GivenUpTo(text, segments, n), DecodedBytes(t, TextIds(t, text, segments, n), false);
    SegmentsDecode(t, text, segments, n);
    ReadsMeans(bytes, Restore(given), AllSpelled(t, text, segments, n));
    RestoredIffNoMark(given);
    ReadableMeans(t, text, segments, n);
    LossyOfEncoded(given);
    if AllReadable(t, text, segments, n) { ExactBytes(bytes, given); }
  }

  lemma PartHasNoByteToken(text: string, from: nat, end: nat)
    requires NoByteToken(text) && from <= end <= |text|
    ensures NoByteToken(text[from..end])
  {
    hide ParseByteToken;
    var part := text[from..end];
    forall a: nat, b: nat | a <= b <= |part| ensures ParseByteToken(part[a..b]).None? {
      var c, d := from + a, from + b;
      assert forall i: nat | i < b - a :: part[a..b][i] == text[c + i];
      assert part[a..b] == text[c..d];
    }
  }

  /** Nothing like a byte token and no mark in the text, nor in any special token: enough for every
      segment to be readable. */
  lemma PlainTextIsReadable(t: Tokenizer, text: string, segments: seq<Segment>)
    requires Complete(t) && Split(t, text, segments) && NoByteToken(text) && SPACE_MARK !in text
    requires forall s: Bpe.Special | t.IsSpecial(s) :: ParseByteToken(s.text).None? && SPACE_MARK !in s.text
    ensures t.vocabulary.Valid() && AllReadable(t, text, segments, |segments|)
  {
    hide ParseByteToken, Restore, NoneAmbiguous, RawSymbols, NoByteToken;
    CompleteIsValid(t);
    forall n: nat | n < |segments| ensures Readable(t, text, segments, n) {
      assert SegmentAt(t, text, segments, n);
      if segments[n].Raw? {
        PartHasNoByteToken(text, EndOf(segments, n), segments[n].end);
        NoByteTokenMeansNoneAmbiguous(t, text[EndOf(segments, n)..segments[n].end]);
      }
    }
  }

  // ---------- Skipping special tokens ----------

  predicate IsSpecialId(t: Tokenizer, id: nat)
    requires |t.tokens| == |t.special|
  {
    id < |t.special| && t.special[id]
  }

  predicate NoneSpecial(t: Tokenizer, ids: seq<nat>)
    requires |t.tokens| == |t.special|
  {
    forall id <- ids :: !IsSpecialId(t, id)
  }

  function WithoutSpecials(t: Tokenizer, ids: seq<nat>): seq<nat>
    requires |t.tokens| == |t.special|
  {
    if ids == [] then []
    else (if IsSpecialId(t, ids[0]) then [] else [ids[0]]) + WithoutSpecials(t, ids[1..])
  }

  /** What replies are decoded with: skipping special tokens is decoding the others. */
  lemma {:induction false} SkippingIsFiltering(t: Tokenizer, ids: seq<nat>)
    requires |t.tokens| == |t.special|
    ensures DecodedBytes(t, ids, true) == DecodedBytes(t, WithoutSpecials(t, ids), false)
    ensures NoneSpecial(t, ids) ==> WithoutSpecials(t, ids) == ids
  {
    hide Encode, ParseByteToken, Restore;
    if ids != [] {
      SkippingIsFiltering(t, ids[1..]);
      var rest := WithoutSpecials(t, ids[1..]);
      if !IsSpecialId(t, ids[0]) {
        assert ([ids[0]] + rest)[1..] == rest;
        assert TokenBytes(t, ids[0], true) == TokenBytes(t, ids[0], false);
        assert WithoutSpecials(t, ids) == [ids[0]] + rest;
      } else {
        assert TokenBytes(t, ids[0], true) == [];
        assert WithoutSpecials(t, ids) == rest;
      }
      assert NoneSpecial(t, ids) ==> NoneSpecial(t, ids[1..]) && ids == [ids[0]] + ids[1..];
    }
  }

  /** What is left of a segment without special tokens. */
  function Stretch(text: string, segments: seq<Segment>, n: nat): string
    requires n < |segments|
  {
    if segments[n].Raw? then Given(text, segments, n) else ""
  }

  function StretchesUpTo(text: string, segments: seq<Segment>, n: nat): string
    requires n <= |segments|
  {
    if n == 0 then "" else StretchesUpTo(text, segments, n - 1) + Stretch(text, segments, n - 1)
  }

  /** No stretch before n was merged into a special token. */
  ghost predicate OwnTokens(t: Tokenizer, text: string, segments: seq<Segment>, n: nat)
    requires t.Valid() && n <= |segments|
  {
    forall i: nat | i < n && segments[i].Raw? :: NoneSpecial(t, SegmentIds(t, text, segments, i))
  }

  ghost predicate StretchesSpelled(t: Tokenizer, text: string, segments: seq<Segment>, n: nat)
    requires t.vocabulary.Valid() && n <= |segments|
  {
    forall i: nat | i < n && segments[i].Raw? :: Spelled(t, text, segments, i)
  }

  ghost predicate StretchesReadable(t: Tokenizer, text: string, segments: seq<Segment>, n: nat)
    requires t.vocabulary.Valid() && n <= |segments|
  {
    forall i: nat | i < n && segments[i].Raw? :: Readable(t, text, segments, i)
  }

  lemma AtomIsSkipped(t: Tokenizer, text: string, segments: seq<Segment>, n: nat)
    requires t.Valid() && n < |segments| && SegmentAt(t, text, segments, n) && segments[n].Atom?
    ensures DecodedBytes(t, SegmentIds(t, text, segments, n), true) == []
  {
    var id := segments[n].special.id;
    assert DecodedBytes(t, [id], true) == TokenBytes(t, id, true) + DecodedBytes(t, [id][1..], true);
  }

  lemma NothingDecodes(t: Tokenizer)
    requires |t.tokens| == |t.special|
    ensures DecodedBytes(t, [], false) == DecodedBytes(t, [], true) == []
  {
  }

  lemma SegmentSkips(t: Tokenizer, text: string, segments: seq<Segment>, n: nat)
    requires Complete(t) && n < |segments| && SegmentAt(t, text, segments, n)
    requires t.Valid() && (segments[n].Raw? ==> NoneSpecial(t, SegmentIds(t, text, segments, n)))
    ensures Reads(DecodedBytes(t, SegmentIds(t, text, segments, n), true), Restore(Stretch(text, segments, n)),
                  segments[n].Raw? ==> Spelled(t, text, segments, n))
  {
    hide SegmentIds, Restore, DecodedBytes, Reads, Spelled, SegmentAt, Complete, Given;
    if segments[n].Raw? {
      SegmentDecodes(t, text, segments, n);
      SkippingIsFiltering(t, SegmentIds(t, text, segments, n));
    } else {
      AtomIsSkipped(t, text, segments, n);
      NothingReads(t);
      NothingDecodes(t);
    }
  }

  lemma {:induction false} SegmentsSkip(t: Tokenizer, text: string, segments: seq<Segment>, n: nat)
    requires Complete(t) && n <= |segments| && Split(t, text, segments)
    requires t.Valid() && OwnTokens(t, text, segments, n)
    ensures Reads(DecodedBytes(t, TextIds(t, text, segments, n), true), Restore(StretchesUpTo(text, segments, n)),
                  StretchesSpelled(t, text, segments, n))
  {
    hide DecodedBytes, SegmentIds, Stretch, Complete, Spelled, Reads, Restore, NoneSpecial;
    if n == 0 {
      NothingReads(t);
      NothingDecodes(t);
    } else {
      var k := n - 1;
      var ids, more := TextIds(t, text, segments, k), SegmentIds(t, text, segments, k);
      SegmentsSkip(t, text, segments, k);
      assert SegmentAt(t, text, segments, k);
      SegmentSkips(t, text, segments, k);
      DecodedConcat(t, ids, more, true);
      RestoreConcat(StretchesUpTo(text, segments, k), Stretch(text, segments, k));
      ReadsConcat(
        DecodedBytes(t, ids, true), Restore(StretchesUpTo(text, segments, k)), StretchesSpelled(t, text, segments, k),
        DecodedBytes(t, more, true), Restore(Stretch(text, segments, k)),
        segments[k].Raw? ==> Spelled(t, text, segments, k));
      assert StretchesSpelled(t, text, segments, n)
        <==> StretchesSpelled(t, text, segments, k) && (segments[k].Raw? ==> Spelled(t, text, segments, k));
    }
  }

  lemma {:induction false} StretchMarks(t: Tokenizer, text: string, segments: seq<Segment>, n: nat)
    requires t.vocabulary.Valid() && n <= |segments|
    ensures StretchesReadable(t, text, segments, n)
      <==> StretchesSpelled(t, text, segments, n) && SPACE_MARK !in StretchesUpTo(text, segments, n)
  {
    hide Spelled, Given;
    if n > 0 {
      var k := n - 1;
      StretchMarks(t, text, segments, k);
      assert StretchesSpelled(t, text, segments, n)
        <==> StretchesSpelled(t, text, segments, k) && (segments[k].Raw? ==> Spelled(t, text, segments, k));
      assert StretchesReadable(t, text, segments, n)
        <==> StretchesReadable(t, text, segments, k) && (segments[k].Raw? ==> Readable(t, text, segments, k));
    }
  }

  /** Decoding an encoded text without special tokens gives the stretches between them, each behind one
      space, exactly when every stretch is readable, as long as none was merged into a special token. */
  lemma SkippingGivesStretches(t: Tokenizer, text: string, segments: seq<Segment>, n: nat)
    requires Complete(t) && n <= |segments| && Split(t, text, segments)
    requires t.Valid() && OwnTokens(t, text, segments, n)
    ensures Decode(t, TextIds(t, text, segments, n), true) == StretchesUpTo(text, segments, n)
      <==> StretchesReadable(t, text, segments, n)
  {
    hide Complete, Encode, Lossy, DecodedBytes, Restore, StretchesSpelled, StretchesReadable, StretchesUpTo, TextIds,
      Split, Reads, OwnTokens;
    var given := StretchesUpTo(text, segments, n);
    SegmentsSkip(t, text, segments, n);
    ReadsMeans(DecodedBytes(t, TextIds(t, text, segments, n), true), Restore(given),
               StretchesSpelled(t, text, segments, n));
    RestoredIffNoMark(given);
    StretchMarks(t, text, segments, n);
  }

  // ---------- Two texts that are not given back ----------

  function HexChar(digit: nat): char
    requires digit < 16
  {
    if digit < 10 then (digit + '0' as int) as char else (digit - 10 + 'A' as int) as char
  }

  function ByteText(b: byte): string {
    "<0x" + [HexChar(b / 16), HexChar(b % 16), '>']
  }

  lemma ByteTextParses(b: byte)
    ensures ParseByteToken(ByteText(b)) == Some(b)
  {
    var text := ByteText(b);
    assert text[..3] == "<0x" && text[3] == HexChar(b / 16) && text[4] == HexChar(b % 16) && text[5] == '>';
  }

  const MARK: string := [SPACE_MARK]

  /** The byte tokens, the mark, and the beginnings of "<0x41>", all with one score. */
  function TinyTokens(): (r: seq<string>)
    ensures |r| == 261 && (forall b: byte :: r[b] == ByteText(b))
    ensures r[256..] == [MARK, "<0", "<0x", "<0x4", "<0x41"]
  {
    seq(256, b requires 0 <= b < 256 => ByteText(b)) + [MARK, "<0", "<0x", "<0x4", "<0x41"]
  }

  function TinyId(text: string): nat {
    match ParseByteToken(text)
    case Some(b) => b
    case None =>
      if text == MARK then 256 else if text == "<0" then 257 else if text == "<0x" then 258
      else if text == "<0x4" then 259 else 260
  }

  function Tiny(): Tokenizer {
    Tokenizer(
      Vocabulary(map s <- TinyTokens() :: TinyId(s), seq(261, i => 0), seq(256, b => Some(b)), 0),
      TinyTokens(), seq(261, i => false), map[], 0)
  }

  lemma TinyTokenHasId(i: nat)
    requires i < 261
    ensures TinyId(TinyTokens()[i]) == i
  {
    var tokens := TinyTokens();
    if i < 256 {
      ByteTextParses(i);
    } else {
      assert tokens[i] == tokens[256..][i - 256];
    }
  }

  lemma TinyIsComplete()
    ensures Complete(Tiny())
  {
    var t := Tiny();
    forall s <- t.vocabulary.tokenToId
      ensures t.vocabulary.tokenToId[s] < 261 && t.tokens[t.vocabulary.tokenToId[s]] == s
    {
      var i :| 0 <= i < 261 && TinyTokens()[i] == s;
      TinyTokenHasId(i);
    }
    forall b: byte ensures ParseByteToken(t.tokens[b]) == Some(b) { ByteTextParses(b); }
    assert TinyTokens()[256] == TinyTokens()[256..][0] == MARK;
  }

  /** Which texts are tokens, by length. */
  lemma TinyHas(s: string)
    ensures |s| != 6 ==> (s in TinyTokens() <==> s in [MARK, "<0", "<0x", "<0x4", "<0x41"])
    ensures "<0x41>" in TinyTokens()
  {
    var tokens := TinyTokens();
    if s in [MARK, "<0", "<0x", "<0x4", "<0x41"] {
      var j :| 0 <= j < 5 && tokens[256..][j] == s;
      assert tokens[256 + j] == s;
    }
    if s in tokens && |s| != 6 {
      var i :| 0 <= i < 261 && tokens[i] == s;
      assert i >= 256 && tokens[256..][i - 256] == s;
    }
    assert tokens[0x41] == ByteText(0x41) == "<0x41>";
  }

  lemma TinyScores(s: string)
    ensures Tiny().vocabulary.Valid()
    ensures Tiny().vocabulary.Score(s) == if s in TinyTokens() then Some(0) else None
  {
    hide TinyTokens, TinyId;
    TinyIsComplete();
  }

  /** With equal scores the leftmost pair is merged. */
  lemma LeftmostIsBest(v: Vocabulary, symbols: seq<string>, k: nat)
    requires v.Valid() && k + 1 < |symbols| && PairScore(v, symbols, k) == Some(0)
    requires forall j: nat | j + 1 < |symbols| && PairScore(v, symbols, j).Some? ::
      j >= k && PairScore(v, symbols, j).value == 0
    ensures Greedy(v, symbols) == Greedy(v, MergeAt(symbols, k))
  {
    hide PairScore;
    var best := BestPair(v, symbols, 0);
    assert best == Some(k);
  }

  lemma TinyMerges(symbols: seq<string>, k: nat)
    requires k + 1 < |symbols| && symbols[k] + symbols[k + 1] in TinyTokens()
    requires forall j: nat | j < k :: symbols[j] + symbols[j + 1] !in TinyTokens()
    ensures Tiny().vocabulary.Valid()
    ensures Greedy(Tiny().vocabulary, symbols) == Greedy(Tiny().vocabulary, MergeAt(symbols, k))
  {
    hide TinyTokens, Tiny, Greedy, Vocabulary.Score;
    TinyScores(symbols[k] + symbols[k + 1]);
    forall j: nat | j + 1 < |symbols|
      ensures PairScore(Tiny().vocabulary, symbols, j).Some? ==>
        j >= k && PairScore(Tiny().vocabulary, symbols, j).value == 0
    {
      TinyScores(symbols[j] + symbols[j + 1]);
    }
    LeftmostIsBest(Tiny().vocabulary, symbols, k);
  }

  lemma TinyGrows(prefix: string, next: char, rest: seq<string>)
    requires prefix + [next] in TinyTokens() && MARK + prefix !in TinyTokens()
    ensures Tiny().vocabulary.Valid()
    ensures Greedy(Tiny().vocabulary, [MARK, prefix, [next]] + rest)
      == Greedy(Tiny().vocabulary, [MARK, prefix + [next]] + rest)
  {
    hide TinyTokens, Tiny;
    var symbols := [MARK, prefix, [next]] + rest;
    TinyMerges(symbols, 1);
    assert MergeAt(symbols, 1) == [MARK, prefix + [next]] + rest;
  }

  lemma TinyStops(symbols: seq<string>)
    requires |symbols| == 2 && symbols[0] + symbols[1] !in TinyTokens()
    ensures Tiny().vocabulary.Valid() && Greedy(Tiny().vocabulary, symbols) == symbols
  {
    hide TinyTokens, Tiny;
    TinyScores(symbols[0] + symbols[1]);
  }

  lemma TinySplits(text: string)
    requires text != ""
    ensures Split(Tiny(), text, [Raw(|text|)])
  {
  }

  /** Every token but the mark starts with an angle bracket. */
  lemma MarkedIsNoToken(s: string)
    requires s != ""
    ensures MARK + s !in TinyTokens()
  {
    var tokens, marked := TinyTokens(), MARK + s;
    forall i: nat | i < 261 ensures tokens[i] != marked {
      assert marked[0] == SPACE_MARK && |marked| > 1;
      if i >= 256 { assert tokens[i] == tokens[256..][i - 256]; }
    }
  }

  lemma TinySpelled()
    ensures Characters(Normalize("<0x41>")) == [MARK, "<", "0"] + ["x", "4", "1", ">"]
    ensures [MARK, "<0"] + ["x", "4", "1", ">"] == [MARK, "<0", "x"] + ["4", "1", ">"]
    ensures [MARK, "<0x"] + ["4", "1", ">"] == [MARK, "<0x", "4"] + ["1", ">"]
    ensures [MARK, "<0x4"] + ["1", ">"] == [MARK, "<0x4", "1"] + [">"]
    ensures [MARK, "<0x41"] + [">"] == [MARK, "<0x41", ">"] + [] && [MARK, "<0x41>"] + [] == [MARK, "<0x41>"]
  {
  }

  /** The text "<0x41>" merges to the token of that spelling. */
  lemma TinySymbols()
    ensures Tiny().vocabulary.Valid() && RawSymbols(Tiny(), "<0x41>") == [MARK, "<0x41>"]
  {
    hide TinyTokens, Tiny, Greedy;
    TinyHas("<0"); TinyHas("<0x"); TinyHas("<0x4"); TinyHas("<0x41");
    MarkedIsNoToken("<"); MarkedIsNoToken("<0"); MarkedIsNoToken("<0x");
    MarkedIsNoToken("<0x4"); MarkedIsNoToken("<0x41"); MarkedIsNoToken("<0x41>");
    assert "<" + ['0'] == "<0" && "<0" + ['x'] == "<0x" && "<0x" + ['4'] == "<0x4";
    assert "<0x4" + ['1'] == "<0x41" && "<0x41" + ['>'] == "<0x41>";
    TinyGrows("<", '0', ["x", "4", "1", ">"]);
    TinyGrows("<0", 'x', ["4", "1", ">"]);
    TinyGrows("<0x", '4', ["1", ">"]);
    TinyGrows("<0x4", '1', [">"]);
    TinyGrows("<0x41", '>', []);
    TinyStops([MARK, "<0x41>"]);
    TinySpelled();
  }

  lemma TinyEntry(i: nat)
    requires i < 261
    ensures var t, text := Tiny(), TinyTokens()[i];
      && t.vocabulary.Valid() && text in t.vocabulary.tokenToId && t.vocabulary.tokenToId[text] == i
      && |t.tokens| == |t.special| == 261 && t.tokens[i] == text
  {
    hide TinyTokens, TinyId;
    TinyIsComplete();
    TinyTokenHasId(i);
  }

  lemma TinyTexts()
    ensures TinyTokens()[256] == MARK && TinyTokens()[0x41] == "<0x41>"
  {
    assert TinyTokens()[256] == TinyTokens()[256..][0];
    assert TinyTokens()[0x41] == ByteText(0x41) == "<0x41>";
  }

  lemma TinyEntries()
    ensures var t := Tiny();
      && t.vocabulary.Valid() && MARK in t.vocabulary.tokenToId && "<0x41>" in t.vocabulary.tokenToId
      && t.vocabulary.tokenToId[MARK] == 256 && t.vocabulary.tokenToId["<0x41>"] == 0x41
      && |t.tokens| == |t.special| == 261 && t.tokens[256] == MARK && t.tokens[0x41] == "<0x41>"
  {
    hide TinyTokens, Tiny;
    TinyTexts();
    TinyEntry(256);
    TinyEntry(0x41);
  }

  lemma TinyBytes()
    ensures Tiny().vocabulary.Valid() && |Tiny().tokens| == |Tiny().special|
    ensures TokenBytes(Tiny(), 256, false) == [0x20] && TokenBytes(Tiny(), 0x41, false) == [0x41]
  {
    hide TinyTokens, Tiny;
    TinyEntries();
    ByteTextParses(0x41);
    assert ByteText(0x41) == "<0x41>" && Restore(MARK) == " ";
    assert Encode(" ") == [0x20];
  }

  lemma TinyEmits()
    ensures Tiny().vocabulary.Valid() && EmitAll(Tiny().vocabulary, [MARK, "<0x41>"]) == [256, 0x41]
  {
    hide TinyTokens, Tiny;
    TinyEntries();
    var v, symbols := Tiny().vocabulary, [MARK, "<0x41>"];
    assert symbols[1..] == ["<0x41>"] && EmitAll(v, ["<0x41>"]) == [0x41] + EmitAll(v, []);
  }

  lemma SpaceAndLetter()
    ensures Lossy([0x20, 0x41]) == " A"
  {
    assert Encode(" A") == [0x20] + Encode("A") == [0x20, 0x41];
    LossyOfEncoded(" A");
  }

  lemma OneStretch(t: Tokenizer, text: string)
    requires t.vocabulary.Valid()
    ensures TextIds(t, text, [Raw(|text|)], 1) == EmitAll(t.vocabulary, RawSymbols(t, text))
  {
    assert text[0..|text|] == text;
  }

  lemma TwoIds(t: Tokenizer, a: nat, b: nat)
    requires |t.tokens| == |t.special|
    ensures DecodedBytes(t, [a, b], false) == TokenBytes(t, a, false) + TokenBytes(t, b, false)
  {
    hide TokenBytes;
    assert [a, b][1..] == [b] && [b][1..] == [];
    assert DecodedBytes(t, [b], false) == TokenBytes(t, b, false) + DecodedBytes(t, [], false);
  }

  lemma DecodeIs(t: Tokenizer, ids: seq<nat>)
    requires |t.tokens| == |t.special|
    ensures Decode(t, ids, false) == Lossy(DecodedBytes(t, ids, false))
  {
  }

  /** A text spelled like a byte token comes back as that byte's character. */
  lemma ByteTokenIsNotGivenBack()
    ensures Complete(Tiny()) && Split(Tiny(), "<0x41>", [Raw(6)])
    ensures Decode(Tiny(), TextIds(Tiny(), "<0x41>", [Raw(6)], 1), false) == " A"
  {
    hide *;
    TinyIsComplete();
    CompleteIsValid(Tiny());
    TinySplits("<0x41>");
    TinySymbols();
    TinyEmits();
    OneStretch(Tiny(), "<0x41>");
    TinyBytes();
    TwoIds(Tiny(), 256, 0x41);
    SpaceAndLetter();
    DecodeIs(Tiny(), [256, 0x41]);
    assert [0x20] + [0x41] == [0x20, 0x41];
  }

  /** A text that contains the mark comes back with a space instead. */
  lemma MarkIsNotGivenBack(t: Tokenizer)
    requires Complete(t) && Split(t, MARK, [Raw(1)])
    ensures t.vocabulary.Valid() && Decode(t, TextIds(t, MARK, [Raw(1)], 1), false) == "  "
  {
    hide Complete, Split, Reads, DecodedBytes, TextIds, RawSymbols, NoneAmbiguous, Lossy;
    CompleteIsValid(t);
    SegmentsDecode(t, MARK, [Raw(1)], 1);
    NoByteTokenMeansNoneAmbiguous(t, MARK);
    assert MARK[0..1] == MARK && GivenUpTo(MARK, [Raw(1)], 1) == " " + MARK;
    assert Restore(" " + MARK) == "  ";
    ReadsMeans(DecodedBytes(t, TextIds(t, MARK, [Raw(1)], 1), false), "  ", true);
  }
}
