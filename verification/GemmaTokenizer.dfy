/** The Gemma tokenizer around the merge engine: special tokens are cut out longest-first, the text
 *  between them is normalized and merged, and decoding undoes it up to the space put in front.
 */
module GemmaTokenizer {
  import opened Wrappers
  import opened Utf8
  import opened Symbols
  import opened SpmMerge
  import Bpe = ByteBpe

  const SPACE_MARK: char := '\U{2581}'

  function FirstByte(s: string): byte
    requires s != ""
  {
    EncodeChar(s[0])[0]
  }

  datatype Tokenizer = Tokenizer(
    vocabulary: Vocabulary,
    tokens: seq<string>,
    special: seq<bool>,
    specialsByFirstByte: map<byte, seq<Bpe.Special>>,
    bosId: nat)
  {
    predicate IsSpecial(s: Bpe.Special) {
      s.id < |tokens| == |special| && special[s.id] && tokens[s.id] == s.text && s.text != ""
    }

    ghost predicate Valid() {
      && vocabulary.Valid() && |vocabulary.scores| == |tokens| == |special|
      && (forall s <- vocabulary.tokenToId :: tokens[vocabulary.tokenToId[s]] == s)
      && (forall b <- specialsByFirstByte :: GroupValid(specialsByFirstByte[b]))
      && forall id: nat | id < |tokens| :: Grouped(id)
    }

    /** A group lists special tokens, longest first. */
    ghost predicate GroupValid(group: seq<Bpe.Special>) {
      && (forall i: nat | i < |group| :: IsSpecial(group[i]))
      && forall i: nat, j: nat | i < j < |group| :: |Encode(group[j].text)| <= |Encode(group[i].text)|
    }

    /** Every non-empty special token is in the group of its first byte. */
    ghost predicate Grouped(id: nat)
      requires id < |tokens| == |special|
    {
      special[id] && tokens[id] != "" ==>
        && FirstByte(tokens[id]) in specialsByFirstByte
        && Bpe.Special(id, tokens[id]) in specialsByFirstByte[FirstByte(tokens[id])]
    }
  }

  // ---------- Normalization ----------

  function Replace(s: string, from: char, to: char): (r: string)
    ensures |r| == |s| && forall i: nat | i < |s| :: r[i] == if s[i] == from then to else s[i]
  {
    seq(|s|, i requires 0 <= i < |s| => if s[i] == from then to else s[i])
  }

  function Normalize(raw: string): string {
    [SPACE_MARK] + Replace(raw, ' ', SPACE_MARK)
  }

  function Restore(s: string): string { Replace(s, SPACE_MARK, ' ') }

  lemma RestoreConcat(a: string, b: string)
    ensures Restore(a + b) == Restore(a) + Restore(b)
  {
  }

  lemma RestoreNormalized(raw: string)
    ensures Restore(Normalize(raw)) == " " + Restore(raw)
  {
  }

  // ---------- Byte tokens ----------

  function HexDigit(c: char): Option<nat> {
    if '0' <= c <= '9' then Some(c as int - '0' as int)
    else if 'a' <= c <= 'f' then Some(c as int - 'a' as int + 10)
    else if 'A' <= c <= 'F' then Some(c as int - 'A' as int + 10)
    else None
  }

  /** The byte a token of the form <0xHH> stands for; the parser also takes a plus sign for the first
      digit. */
  function ParseByteToken(token: string): Option<byte> {
    if |token| != 6 || token[..3] != "<0x" || token[5] != '>' then None
    else
      match (HexDigit(token[3]), HexDigit(token[4]))
      case (Some(high), Some(low)) => Some(high * 16 + low)
      case (None, Some(low)) => if token[3] == '+' then Some(low) else None
      case _ => None
  }

  predicate Spells(c: char, digit: nat)
    requires digit < 16
  {
    c == "0123456789abcdef"[digit] || c == "0123456789ABCDEF"[digit]
  }

  lemma SpellsDigit(c: char, digit: nat)
    requires digit < 16
    ensures HexDigit(c) == Some(digit) <==> Spells(c, digit)
  {
  }

  lemma PlusIsNoDigit()
    ensures HexDigit('+').None?
  {
  }

  lemma DigitIsSmall(c: char)
    ensures HexDigit(c).Some? ==> HexDigit(c).value < 16
  {
  }

  /** Exactly the texts that stand for a byte. */
  lemma ByteTokenSpelling(token: string, b: byte)
    ensures ParseByteToken(token) == Some(b) <==>
      && |token| == 6 && token[..3] == "<0x" && token[5] == '>'
      && (Spells(token[3], b / 16) || (token[3] == '+' && b < 16)) && Spells(token[4], b % 16)
  {
    hide HexDigit, Spells;
    if |token| == 6 {
      SpellsDigit(token[3], b / 16);
      SpellsDigit(token[4], b % 16);
      DigitIsSmall(token[3]);
      DigitIsSmall(token[4]);
      PlusIsNoDigit();
    }
  }

  // ---------- Decoding ----------

  function TokenBytes(t: Tokenizer, id: nat, skipSpecial: bool): seq<byte>
    requires |t.tokens| == |t.special|
  {
    if id >= |t.tokens| then []
    else if skipSpecial && t.special[id] then []
    else
      match ParseByteToken(t.tokens[id])
      case Some(b) => [b]
      case None => Encode(Restore(t.tokens[id]))
  }

  function DecodedBytes(t: Tokenizer, ids: seq<nat>, skipSpecial: bool): seq<byte>
    requires |t.tokens| == |t.special|
  {
    if ids == [] then [] else TokenBytes(t, ids[0], skipSpecial) + DecodedBytes(t, ids[1..], skipSpecial)
  }

  function Decode(t: Tokenizer, ids: seq<nat>, skipSpecial: bool): string
    requires |t.tokens| == |t.special|
  {
    Lossy(DecodedBytes(t, ids, skipSpecial))
  }

  lemma {:induction false} DecodedConcat(t: Tokenizer, left: seq<nat>, right: seq<nat>, skipSpecial: bool)
    requires |t.tokens| == |t.special|
    ensures DecodedBytes(t, left + right, skipSpecial)
         == DecodedBytes(t, left, skipSpecial) + DecodedBytes(t, right, skipSpecial)
  {
    hide TokenBytes;
    if left == [] {
      assert left + right == right;
    } else {
      DecodedConcat(t, left[1..], right, skipSpecial);
      assert (left + right)[1..] == left[1..] + right;
      var first, more := TokenBytes(t, left[0], skipSpecial), DecodedBytes(t, left[1..], skipSpecial);
      var last := DecodedBytes(t, right, skipSpecial);
      assert first + (more + last) == (first + more) + last;
    }
  }

  // ---------- Splitting at special tokens ----------

  /** The longest special token that starts here, if one does. */
  ghost predicate LongestAt(t: Tokenizer, text: string, at: nat, s: Bpe.Special) {
    && t.IsSpecial(s) && Bpe.OccursAt(text, s.text, at)
    && forall other: Bpe.Special | t.IsSpecial(other) && Bpe.OccursAt(text, other.text, at) ::
         |Encode(other.text)| <= |Encode(s.text)|
  }

  ghost predicate NoneAt(t: Tokenizer, text: string, at: nat) {
    forall s: Bpe.Special | t.IsSpecial(s) :: !Bpe.OccursAt(text, s.text, at)
  }

  /** A special token that starts here is in the group that is searched. */
  lemma InSearchedGroup(t: Tokenizer, text: string, at: nat, s: Bpe.Special)
    requires t.Valid() && at < |text| && t.IsSpecial(s) && Bpe.OccursAt(text, s.text, at)
    ensures FirstByte(text[at..]) in t.specialsByFirstByte
    ensures s in t.specialsByFirstByte[FirstByte(text[at..])]
  {
    assert t.Grouped(s.id);
    assert s.text[0] == text[at..at + |s.text|][0] == text[at];
  }

  method MatchSpecial(t: Tokenizer, text: string, at: nat) returns (r: Option<Bpe.Special>)
    requires t.Valid() && at < |text|
    ensures r.Some? ==> LongestAt(t, text, at, r.value)
    ensures r.None? ==> NoneAt(t, text, at)
  {
    var first := FirstByte(text[at..]);
    forall s: Bpe.Special | t.IsSpecial(s) && Bpe.OccursAt(text, s.text, at)
      ensures first in t.specialsByFirstByte && s in t.specialsByFirstByte[first]
    {
      InSearchedGroup(t, text, at, s);
    }
    if first !in t.specialsByFirstByte { return None; }
    var group := t.specialsByFirstByte[first];
    hide Encode;
    for i := 0 to |group|
      invariant forall j: nat | j < i :: !Bpe.OccursAt(text, group[j].text, at)
    {
      if Bpe.OccursAt(text, group[i].text, at) {
        return Some(group[i]);
      }
    }
    return None;
  }

  datatype Segment = Raw(end: nat) | Atom(end: nat, special: Bpe.Special)

  function EndOf(segments: seq<Segment>, n: nat): nat
    requires n <= |segments|
  {
    if n == 0 then 0 else segments[n - 1].end
  }

  /** A raw stretch has no special token anywhere and runs up to one or to the end; an atom is the
      longest special token at its place. */
  ghost predicate SegmentAt(t: Tokenizer, text: string, segments: seq<Segment>, n: nat)
    requires n < |segments|
  {
    var from := EndOf(segments, n);
    match segments[n]
    case Raw(end) =>
      && from < end <= |text| && (forall p: nat | from <= p < end :: NoneAt(t, text, p))
      && (end == |text| || exists s :: LongestAt(t, text, end, s))
    case Atom(end, s) => LongestAt(t, text, from, s) && end == from + |s.text|
  }

  ghost predicate Split(t: Tokenizer, text: string, segments: seq<Segment>) {
    forall n: nat | n < |segments| :: SegmentAt(t, text, segments, n)
  }

  function RawIds(t: Tokenizer, raw: string): seq<nat>
    requires t.vocabulary.Valid()
  {
    EmitAll(t.vocabulary, Greedy(t.vocabulary, Characters(Normalize(raw))))
  }

  function SegmentIds(t: Tokenizer, text: string, segments: seq<Segment>, n: nat): seq<nat>
    requires t.vocabulary.Valid() && n < |segments|
  {
    match segments[n]
    case Raw(end) => if EndOf(segments, n) <= end <= |text| then RawIds(t, text[EndOf(segments, n)..end]) else []
    case Atom(_, s) => [s.id]
  }

  function TextIds(t: Tokenizer, text: string, segments: seq<Segment>, n: nat): seq<nat>
    requires t.vocabulary.Valid() && n <= |segments|
  {
    if n == 0 then [] else TextIds(t, text, segments, n - 1) + SegmentIds(t, text, segments, n - 1)
  }

  lemma {:induction false} TextIdsPrefix(t: Tokenizer, text: string, segments: seq<Segment>, last: Segment, n: nat)
    requires t.vocabulary.Valid() && n <= |segments|
    ensures TextIds(t, text, segments + [last], n) == TextIds(t, text, segments, n)
  {
    hide RawIds;
    if n > 0 {
      TextIdsPrefix(t, text, segments, last, n - 1);
      assert EndOf(segments + [last], n - 1) == EndOf(segments, n - 1);
    }
  }

  lemma SplitSnoc(t: Tokenizer, text: string, segments: seq<Segment>, last: Segment)
    requires t.vocabulary.Valid() && Split(t, text, segments) && SegmentAt(t, text, segments + [last], |segments|)
    ensures Split(t, text, segments + [last])
    ensures TextIds(t, text, segments + [last], |segments| + 1)
         == TextIds(t, text, segments, |segments|) + SegmentIds(t, text, segments + [last], |segments|)
  {
    hide LongestAt, NoneAt, SegmentIds;
    forall n: nat | n < |segments| + 1 ensures SegmentAt(t, text, segments + [last], n) {
      if n < |segments| {
        assert SegmentAt(t, text, segments, n);
        assert EndOf(segments + [last], n) == EndOf(segments, n);
      }
    }
    TextIdsPrefix(t, text, segments, last, |segments|);
  }

  /** What is known after encoding a prefix of the text behind `bos`. */
  ghost predicate Progress(
    t: Tokenizer, text: string, segments: seq<Segment>, offset: nat, bos: seq<nat>, output: seq<nat>)
    requires t.vocabulary.Valid()
  {
    && Split(t, text, segments)
    && output == bos + TextIds(t, text, segments, |segments|)
    && offset == EndOf(segments, |segments|)
  }

  lemma Progressed(
    t: Tokenizer, text: string, segments: seq<Segment>, offset: nat, bos: seq<nat>, output: seq<nat>, last: Segment,
    more: seq<nat>)
    requires t.vocabulary.Valid() && Progress(t, text, segments, offset, bos, output)
    requires SegmentAt(t, text, segments + [last], |segments|)
    requires more == SegmentIds(t, text, segments + [last], |segments|)
    ensures Progress(t, text, segments + [last], last.end, bos, output + more)
  {
    hide SegmentAt, SegmentIds, TextIds, Split;
    var before := TextIds(t, text, segments, |segments|);
    SplitSnoc(t, text, segments, last);
    assert (bos + before) + more == bos + (before + more);
  }

  lemma RawStep(
    t: Tokenizer, text: string, segments: seq<Segment>, from: nat, end: nat, bos: seq<nat>, output: seq<nat>)
    requires t.vocabulary.Valid() && Progress(t, text, segments, from, bos, output)
    requires from < end <= |text| && forall p: nat | from <= p < end :: NoneAt(t, text, p)
    requires end == |text| || exists s :: LongestAt(t, text, end, s)
    ensures Progress(t, text, segments + [Raw(end)], end, bos, output + RawIds(t, text[from..end]))
  {
    hide LongestAt, NoneAt, RawIds, TextIds, Split;
    assert EndOf(segments + [Raw(end)], |segments|) == from;
    Progressed(t, text, segments, from, bos, output, Raw(end), RawIds(t, text[from..end]));
  }

  lemma AtomStep(
    t: Tokenizer, text: string, segments: seq<Segment>, from: nat, s: Bpe.Special, bos: seq<nat>, output: seq<nat>)
    requires t.vocabulary.Valid() && Progress(t, text, segments, from, bos, output) && LongestAt(t, text, from, s)
    ensures Progress(t, text, segments + [Atom(from + |s.text|, s)], from + |s.text|, bos, output + [s.id])
  {
    hide LongestAt, NoneAt, TextIds, Split;
    var last := Atom(from + |s.text|, s);
    assert EndOf(segments + [last], |segments|) == from;
    Progressed(t, text, segments, from, bos, output, last, [s.id]);
  }

  method EncodeRaw(t: Tokenizer, raw: string) returns (ids: seq<nat>)
    requires t.vocabulary.Valid()
    ensures ids == if raw == "" then [] else RawIds(t, raw)
  {
    if raw == "" { return []; }
    ghost var pops;
    ids, pops := EncodeSpm(t.vocabulary, Normalize(raw));
  }

  /** Encodes the raw stretch that ends here, if there is one. */
  method EncodeStretch(
    t: Tokenizer, text: string, from: nat, end: nat, ghost segments: seq<Segment>, ghost bos: seq<nat>,
    output: seq<nat>)
    returns (longer: seq<nat>, ghost more: seq<Segment>)
    requires t.Valid() && Progress(t, text, segments, from, bos, output)
    requires from <= end <= |text| && forall p: nat | from <= p < end :: NoneAt(t, text, p)
    requires end == |text| || exists s :: LongestAt(t, text, end, s)
    ensures Progress(t, text, more, end, bos, longer)
  {
    hide Progress, LongestAt, NoneAt, RawIds;
    var raw := EncodeRaw(t, text[from..end]);
    longer, more := output + raw, segments;
    if from < end {
      RawStep(t, text, segments, from, end, bos, output);
      more := segments + [Raw(end)];
    } else {
      assert output + raw == output;
    }
  }

  lemma NoProgress(t: Tokenizer, text: string, bos: seq<nat>)
    requires t.Valid()
    ensures t.vocabulary.Valid() && Progress(t, text, [], 0, bos, bos)
  {
  }

  lemma SpecialIsNotEmpty(t: Tokenizer, text: string, at: nat, s: Bpe.Special)
    requires LongestAt(t, text, at, s)
    ensures s.text != "" && at + |s.text| <= |text|
  {
  }

  /** Encodes the raw stretch before a special token, then the token. */
  method TakeSpecial(
    t: Tokenizer, text: string, from: nat, at: nat, s: Bpe.Special, ghost segments: seq<Segment>, ghost bos: seq<nat>,
    output: seq<nat>)
    returns (longer: seq<nat>, ghost more: seq<Segment>)
    requires t.Valid() && Progress(t, text, segments, from, bos, output)
    requires from <= at <= |text| && LongestAt(t, text, at, s) && forall p: nat | from <= p < at :: NoneAt(t, text, p)
    ensures s.text != "" && at + |s.text| <= |text|
    ensures Progress(t, text, more, at + |s.text|, bos, longer)
  {
    hide Progress, LongestAt, NoneAt;
    SpecialIsNotEmpty(t, text, at, s);
    longer, more := EncodeStretch(t, text, from, at, segments, bos, output);
    AtomStep(t, text, more, at, s, bos, longer);
    longer, more := longer + [s.id], more + [Atom(at + |s.text|, s)];
  }

  lemma ProgressMeans(t: Tokenizer, text: string, segments: seq<Segment>, offset: nat, bos: seq<nat>, output: seq<nat>)
    requires t.vocabulary.Valid() && Progress(t, text, segments, offset, bos, output)
    ensures Split(t, text, segments) && EndOf(segments, |segments|) == offset
    ensures output == bos + TextIds(t, text, segments, |segments|)
  {
  }

  /** A text to merge: the space mark, then the raw text with a space mark for every space. */
  ghost predicate Marked(raw: string, s: string) {
    && |s| == |raw| + 1 && s[0] == '\U{2581}'
    && forall i: nat | i < |raw| :: s[i + 1] == if raw[i] == ' ' then '\U{2581}' else raw[i]
  }

  /** What a segment contributes: a raw stretch its marked text, merged greedily; an atom its ID. */
  ghost predicate Contributes(t: Tokenizer, text: string, segments: seq<Segment>, n: nat, ids: seq<nat>)
    requires t.vocabulary.Valid() && n < |segments|
  {
    match segments[n]
    case Raw(end) =>
      && EndOf(segments, n) <= end <= |text|
      && exists s :: Marked(text[EndOf(segments, n)..end], s)
                     && ids == EmitAll(t.vocabulary, Greedy(t.vocabulary, Characters(s)))
    case Atom(_, s) => ids == [s.id]
  }

  lemma SplitAt(t: Tokenizer, text: string, segments: seq<Segment>, n: nat)
    requires Split(t, text, segments) && n < |segments|
    ensures SegmentAt(t, text, segments, n)
  {
  }

  lemma SegmentContributes(t: Tokenizer, text: string, segments: seq<Segment>, n: nat)
    requires t.vocabulary.Valid() && n < |segments| && SegmentAt(t, text, segments, n)
    ensures Contributes(t, text, segments, n, SegmentIds(t, text, segments, n))
  {
    hide LongestAt, NoneAt;
    if segments[n].Raw? {
      var raw := text[EndOf(segments, n)..segments[n].end];
      assert Marked(raw, Normalize(raw));
    }
  }

  /** Encoding scans for special tokens character by character; the result is that of cutting the text
      leftmost-longest, and of marking and merging what lies between. */
  method EncodeText(t: Tokenizer, text: string, addBos: bool) returns (output: seq<nat>, ghost segments: seq<Segment>)
    requires t.Valid()
    ensures Split(t, text, segments) && EndOf(segments, |segments|) == |text|
    ensures output == (if addBos then [t.bosId] else []) + TextIds(t, text, segments, |segments|)
    ensures forall n: nat | n < |segments| :: Contributes(t, text, segments, n, SegmentIds(t, text, segments, n))
  {
    hide Progress, LongestAt, NoneAt, Tokenizer.Valid, Split, TextIds, EndOf, Contributes, SegmentIds, SegmentAt;
    output := if addBos then [t.bosId] else [];
    ghost var bos := output;
    NoProgress(t, text, bos);
    var rawStart: nat, position: nat := 0, 0;
    segments := [];
    while position < |text|
      invariant rawStart <= position <= |text|
      invariant Progress(t, text, segments, rawStart, bos, output)
      invariant forall p: nat | rawStart <= p < position :: NoneAt(t, text, p)
    {
      var matched := MatchSpecial(t, text, position);
      if matched.None? {
        position := position + 1;
      } else {
        output, segments := TakeSpecial(t, text, rawStart, position, matched.value, segments, bos, output);
        position := position + |matched.value.text|;
        rawStart := position;
      }
    }
    output, segments := EncodeStretch(t, text, rawStart, |text|, segments, bos, output);
    ProgressMeans(t, text, segments, |text|, bos, output);
    forall n: nat | n < |segments| ensures Contributes(t, text, segments, n, SegmentIds(t, text, segments, n)) {
      SplitAt(t, text, segments, n);
      SegmentContributes(t, text, segments, n);
    }
  }
}
