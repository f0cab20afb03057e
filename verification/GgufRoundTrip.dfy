/** Writing a GGUF file, and that reading it back returns what was written. */
module GgufRoundTrip {
  import opened Wrappers
  import opened Utf8
  import opened GgufReader
  import opened GgufIndex
  import opened GgufOverlap

  // ---------- The writer ----------

  function ToLe(n: nat, width: nat): (b: seq<byte>)
    ensures |b| == width
    decreases n, width
  {
    if width == 0 then [] else [n % 256] + ToLe(n / 256, width - 1)
  }

  function Power256(width: nat): nat {
    if width == 0 then 1 else 256 * Power256(width - 1)
  }

  function WriteText(text: string): seq<byte> {
    ToLe(|Encode(text)|, 8) + Encode(text)
  }

  /** Bytes of an integer or a float of each kind. */
  function Size(kind: nat): nat {
    match kind
    case 0 => 1 // u8
    case 1 => 1 // i8
    case 2 => 2 // u16
    case 3 => 2 // i16
    case 4 => 4 // u32
    case 5 => 4 // i32
    case 6 => 4 // f32
    case 10 => 8 // u64
    case 11 => 8 // i64
    case 12 => 8 // f64
    case _ => 0
  }

  function WriteItem(kind: nat, item: Item): seq<byte> {
    match item
    case Bits(bits) => ToLe(bits, Size(kind))
    case Flag(on) => [if on then 1 else 0]
    case Words(text) => WriteText(text)
  }

  function WriteItems(kind: nat, items: seq<Item>): seq<byte> {
    if items == [] then [] else WriteItem(kind, items[0]) + WriteItems(kind, items[1..])
  }

  function KindOf(value: Value): nat {
    if value.Single? then value.kind else 9
  }

  function WriteValue(value: Value): seq<byte> {
    match value
    case Single(kind, item) => WriteItem(kind, item)
    case ArrayValues(element, items) => ToLe(element, 4) + (ToLe(|items|, 8) + WriteItems(element, items))
    case Array(element, length) => []
  }

  function WriteEntry(entry: Entry): seq<byte> {
    WriteText(entry.key) + (ToLe(KindOf(entry.value), 4) + WriteValue(entry.value))
  }

  function WriteEntries(entries: seq<Entry>): seq<byte> {
    if entries == [] then [] else WriteEntry(entries[0]) + WriteEntries(entries[1..])
  }

  function WriteDimensions(dimensions: seq<nat>): seq<byte> {
    if dimensions == [] then [] else ToLe(dimensions[0], 8) + WriteDimensions(dimensions[1..])
  }

  function WriteRaw(raw: Raw): seq<byte> {
    WriteText(raw.name)
      + (ToLe(|raw.dimensions|, 4) + (WriteDimensions(raw.dimensions) + (ToLe(raw.kind, 4) + ToLe(raw.offset, 8))))
  }

  function WriteRaws(raws: seq<Raw>): seq<byte> {
    if raws == [] then [] else WriteRaw(raws[0]) + WriteRaws(raws[1..])
  }

  /** Everything before the padding. */
  function WriteTables(version: nat, entries: seq<Entry>, raws: seq<Raw>): seq<byte> {
    Encode("GGUF")
      + (ToLe(version, 4) + (ToLe(|raws|, 8) + (ToLe(|entries|, 8) + (WriteEntries(entries) + WriteRaws(raws)))))
  }

  // ---------- What can be written ----------

  predicate ItemOf(kind: nat, item: Item) {
    match item
    case Bits(bits) => Size(kind) > 0 && bits < Power256(Size(kind))
    case Flag(_) => kind == 7
    case Words(text) => kind == 8 && |Encode(text)| <= MAX_VALUE_STRING_BYTES
  }

  predicate ItemsOf(kind: nat, items: seq<Item>) {
    forall i: nat | i < |items| :: ItemOf(kind, items[i])
  }

  function Bytes(items: seq<Item>): nat {
    if items == [] then 0 else Retained(items[0]) + Bytes(items[1..])
  }

  predicate Writable(value: Value) {
    match value
    case Single(kind, item) => ItemOf(kind, item)
    case ArrayValues(element, items) =>
      ScalarKind(element) && ItemsOf(element, items) && |items| <= MAX_CAPTURED_ARRAY_ELEMENTS
      && |items| * Charge(element) + Bytes(items) <= MAX_CAPTURED_ARRAY_BYTES
    case Array(_, _) => false
  }

  predicate WritableEntry(entry: Entry) {
    |Encode(entry.key)| <= MAX_KEY_BYTES && Writable(entry.value)
  }

  predicate WritableRaw(raw: Raw) {
    && |Encode(raw.name)| <= MAX_NAME_BYTES && |raw.dimensions| <= MAX_DIMENSIONS
    && (forall i: nat | i < |raw.dimensions| :: 0 < raw.dimensions[i] <= MAX_U64)
    && raw.offset <= MAX_U64 && WellTyped(raw)
  }

  // ---------- Numbers and texts ----------

  /** `written` stands at `at` in a file of at most 2^64 - 1 bytes. */
  ghost predicate Holds(data: seq<byte>, at: nat, written: seq<byte>) {
    at + |written| <= |data| <= MAX_U64 && data[at..at + |written|] == written
  }

  lemma HoldsBoth(data: seq<byte>, at: nat, first: seq<byte>, second: seq<byte>)
    requires Holds(data, at, first + second)
    ensures Holds(data, at, first) && Holds(data, at + |first|, second)
  {
    assert data[at..at + |first|] == (first + second)[..|first|];
    assert data[at + |first|..at + |first| + |second|] == (first + second)[|first|..];
  }

  lemma {:induction false} FromToLe(n: nat, width: nat)
    requires n < Power256(width)
    ensures FromLe(ToLe(n, width)) == n
  {
    if width > 0 {
      FromToLe(n / 256, width - 1);
      assert ToLe(n, width)[1..] == ToLe(n / 256, width - 1);
    }
  }

  lemma NumberReadsBack(data: seq<byte>, at: nat, n: nat, width: nat)
    requires Holds(data, at, ToLe(n, width)) && n < Power256(width)
    ensures Number(data, at, width) == Got(n, at + width)
  {
    FromToLe(n, width);
  }

  lemma DecodedEncoding(text: string)
    ensures Decoded(Encode(text)) == Some(text)
  {
    hide Lossy, ValidUpTo, Encode;
    LossyOfEncoded(text);
    DecodedIffValid(Encode(text));
  }

  lemma TextParts(data: seq<byte>, at: nat, text: string, limit: nat)
    requires Number(data, at, 8) == Got(|Encode(text)|, at + 8) && |Encode(text)| <= limit
    requires Holds(data, at + 8, Encode(text)) && Decoded(Encode(text)) == Some(text)
    ensures Text(data, at, limit) == Got(text, at + 8 + |Encode(text)|)
  {
    hide Encode, Decoded, FromLe;
  }

  lemma TextReadsBack(data: seq<byte>, at: nat, text: string, limit: nat)
    requires Holds(data, at, WriteText(text)) && |Encode(text)| <= limit
    ensures Text(data, at, limit) == Got(text, at + |WriteText(text)|)
  {
    hide Encode, ToLe, Decoded, Number, Text;
    var bytes := Encode(text);
    HoldsBoth(data, at, ToLe(|bytes|, 8), bytes);
    NumberReadsBack(data, at, |bytes|, 8);
    DecodedEncoding(text);
    TextParts(data, at, text, limit);
  }

  // ---------- Values ----------

  lemma ItemReadsBack(data: seq<byte>, at: nat, kind: nat, offset: nat, item: Item)
    requires Holds(data, at, WriteItem(kind, item)) && ItemOf(kind, item)
    ensures ItemAt(data, at, kind, offset) == Got(item, at + |WriteItem(kind, item)|)
  {
    match item
    case Bits(bits) => NumberReadsBack(data, at, bits, Size(kind));
    case Flag(on) =>
      var n := if on then 1 else 0;
      assert ToLe(n, 1) == [n];
      assert Power256(1) == 256;
      NumberReadsBack(data, at, n, 1);
    case Words(text) => TextReadsBack(data, at, text, MAX_VALUE_STRING_BYTES);
  }

  lemma CaptureStep(
    data: seq<byte>, at: nat, kind: nat, offset: nat, retained: nat, before: seq<Item>, items: seq<Item>, next: nat,
    end: nat)
    requires items != [] && ItemAt(data, at, kind, offset) == Got(items[0], next)
    requires retained + Retained(items[0]) <= MAX_CAPTURED_ARRAY_BYTES
    requires CaptureFrom(data, next, kind, offset, |items| - 1, retained + Retained(items[0]), before + [items[0]])
          == Got(before + [items[0]] + items[1..], end)
    ensures CaptureFrom(data, at, kind, offset, |items|, retained, before) == Got(before + items, end)
  {
    hide ItemAt, Retained;
    assert before + items == before + [items[0]] + items[1..];
  }

  lemma CaptureNothing(data: seq<byte>, at: nat, kind: nat, offset: nat, retained: nat, before: seq<Item>)
    ensures CaptureFrom(data, at, kind, offset, 0, retained, before) == Got(before, at)
  {
  }

  lemma {:induction false} ItemsReadBack(
    data: seq<byte>, at: nat, kind: nat, offset: nat, items: seq<Item>, retained: nat, before: seq<Item>)
    requires Holds(data, at, WriteItems(kind, items)) && ItemsOf(kind, items)
    requires retained + Bytes(items) <= MAX_CAPTURED_ARRAY_BYTES
    ensures CaptureFrom(data, at, kind, offset, |items|, retained, before)
         == Got(before + items, at + |WriteItems(kind, items)|)
    decreases |items|
  {
    hide ItemAt, CaptureFrom, WriteItem, ItemOf;
    if items == [] {
      assert before + items == before;
      CaptureNothing(data, at, kind, offset, retained, before);
    } else {
      var first, rest := items[0], items[1..];
      var next := at + |WriteItem(kind, first)|;
      var charged, longer, end := retained + Retained(first), before + [first], next + |WriteItems(kind, rest)|;
      HoldsBoth(data, at, WriteItem(kind, first), WriteItems(kind, rest));
      assert ItemAt(data, at, kind, offset) == Got(first, next) by { ItemReadsBack(data, at, kind, offset, first); }
      assert CaptureFrom(data, next, kind, offset, |rest|, charged, longer) == Got(longer + rest, end) by {
        ItemsReadBack(data, next, kind, offset, rest, charged, longer);
      }
      CaptureStep(data, at, kind, offset, retained, before, items, next, end);
    }
  }

  lemma ArrayReadsBack(data: seq<byte>, at: nat, element: nat, items: seq<Item>)
    requires Holds(data, at, WriteValue(ArrayValues(element, items))) && Writable(ArrayValues(element, items))
    ensures ArrayAt(data, at, true)
         == Got(ArrayValues(element, items), at + |WriteValue(ArrayValues(element, items))|)
  {
    hide CaptureFrom, ToLe, WriteItem, WriteItems, Number;
    var body := ToLe(|items|, 8) + WriteItems(element, items);
    HoldsBoth(data, at, ToLe(element, 4), body);
    HoldsBoth(data, at + 4, ToLe(|items|, 8), WriteItems(element, items));
    NumberReadsBack(data, at, element, 4);
    NumberReadsBack(data, at + 4, |items|, 8);
    ItemsReadBack(data, at + 12, element, at, items, |items| * Charge(element), []);
    assert [] + items == items;
  }

  lemma CapturedValueReadsBack(data: seq<byte>, at: nat, offset: nat, value: Value)
    requires Holds(data, at, WriteValue(value)) && Writable(value)
    ensures ValueAt(data, at, KindOf(value), offset, true) == Got(value, at + |WriteValue(value)|)
  {
    match value
    case Single(kind, item) =>
      ItemReadsBack(data, at, kind, offset, item);
    case ArrayValues(element, items) =>
      ArrayReadsBack(data, at, element, items);
  }

  /** What a reader that captures only the arrays named in `captured` keeps of an entry. */
  function Kept(captured: set<string>, entry: Entry): Value {
    if entry.key in captured then entry.value else Plain(entry.value)
  }

  lemma EntryParts(data: seq<byte>, at: nat, captured: set<string>, key: string, kindAt: nat, kind: nat)
    requires Text(data, at, MAX_KEY_BYTES) == Got(key, kindAt) && Number(data, kindAt, 4) == Got(kind, kindAt + 4)
    requires ValueAt(data, kindAt + 4, kind, kindAt, key in captured).Got?
    ensures var value := ValueAt(data, kindAt + 4, kind, kindAt, key in captured);
            EntryAt(data, at, captured) == Got(Entry(key, value.value), value.next)
  {
  }

  lemma ValueReadsBack(data: seq<byte>, at: nat, offset: nat, captured: set<string>, entry: Entry)
    requires Holds(data, at, WriteValue(entry.value)) && Writable(entry.value)
    ensures ValueAt(data, at, KindOf(entry.value), offset, entry.key in captured)
         == Got(Kept(captured, entry), at + |WriteValue(entry.value)|)
  {
    CapturedValueReadsBack(data, at, offset, entry.value);
    ValueLockstep(data, at, KindOf(entry.value), offset);
  }

  lemma KindIsSmall(value: Value)
    requires Writable(value)
    ensures KindOf(value) < Power256(4)
  {
  }

  lemma EntryReadsBack(data: seq<byte>, at: nat, captured: set<string>, entry: Entry)
    requires Holds(data, at, WriteEntry(entry)) && WritableEntry(entry)
    ensures EntryAt(data, at, captured) == Got(Entry(entry.key, Kept(captured, entry)), at + |WriteEntry(entry)|)
  {
    hide EntryAt, ValueAt, WriteValue, Text, Writable, Plain;
    var kind := KindOf(entry.value);
    HoldsBoth(data, at, WriteText(entry.key), ToLe(kind, 4) + WriteValue(entry.value));
    TextReadsBack(data, at, entry.key, MAX_KEY_BYTES);
    var kindAt := at + |WriteText(entry.key)|;
    HoldsBoth(data, kindAt, ToLe(kind, 4), WriteValue(entry.value));
    KindIsSmall(entry.value);
    NumberReadsBack(data, kindAt, kind, 4);
    ValueReadsBack(data, kindAt + 4, kindAt, captured, entry);
    EntryParts(data, at, captured, entry.key, kindAt, kind);
  }

  // ---------- Tables ----------

  function Filled(captured: set<string>, entries: seq<Entry>, metadata: map<string, Value>): map<string, Value> {
    if entries == [] then metadata
    else Filled(captured, entries[1..], metadata[entries[0].key := Kept(captured, entries[0])])
  }

  ghost predicate DistinctKeys(entries: seq<Entry>) {
    forall i: nat, j: nat | i < j < |entries| :: entries[i].key != entries[j].key
  }

  lemma {:induction false} EntriesReadBack(
    data: seq<byte>, at: nat, captured: set<string>, entries: seq<Entry>, metadata: map<string, Value>)
    requires Holds(data, at, WriteEntries(entries)) && DistinctKeys(entries)
    requires forall i: nat | i < |entries| :: WritableEntry(entries[i]) && entries[i].key !in metadata
    ensures EntriesFrom(data, at, |entries|, captured, metadata)
         == Got(Filled(captured, entries, metadata), at + |WriteEntries(entries)|)
    decreases |entries|
  {
    hide EntryAt, WriteEntry, Writable;
    if entries != [] {
      var first, rest := entries[0], entries[1..];
      HoldsBoth(data, at, WriteEntry(first), WriteEntries(rest));
      EntryReadsBack(data, at, captured, first);
      var next, kept := at + |WriteEntry(first)|, Kept(captured, first);
      EntriesReadBack(data, next, captured, rest, metadata[first.key := kept]);
    }
  }

  lemma {:induction false} DimensionsReadBack(data: seq<byte>, at: nat, dimensions: seq<nat>, before: seq<nat>)
    requires Holds(data, at, WriteDimensions(dimensions)) && forall i: nat | i < |dimensions| ::
      0 < dimensions[i] <= MAX_U64
    ensures DimensionsFrom(data, at, |dimensions|, before)
      == Got(before + dimensions, at + |WriteDimensions(dimensions)|)
    decreases |dimensions|
  {
    if dimensions == [] {
      assert before + dimensions == before;
    } else {
      var first, rest := dimensions[0], dimensions[1..];
      HoldsBoth(data, at, ToLe(first, 8), WriteDimensions(rest));
      NumberReadsBack(data, at, first, 8);
      DimensionsReadBack(data, at + 8, rest, before + [first]);
      assert before + dimensions == before + [first] + rest;
    }
  }

  lemma TypeReadsBack(data: seq<byte>, at: nat, raw: Raw)
    requires Holds(data, at, ToLe(raw.kind, 4) + ToLe(raw.offset, 8)) && WritableRaw(raw)
    ensures TypeAndOffset(data, at, raw.name, raw.dimensions) == Got(raw, at + 12)
  {
    HoldsBoth(data, at, ToLe(raw.kind, 4), ToLe(raw.offset, 8));
    NumberReadsBack(data, at, raw.kind, 4);
    NumberReadsBack(data, at + 4, raw.offset, 8);
  }

  lemma RawParts(
    data: seq<byte>, at: nat, names: set<string>, raw: Raw, countAt: nat, bodyAt: nat, kindAt: nat, next: nat)
    requires Text(data, at, MAX_NAME_BYTES) == Got(raw.name, countAt) && raw.name !in names
    requires Number(data, countAt, 4) == Got(|raw.dimensions|, bodyAt) && |raw.dimensions| <= MAX_DIMENSIONS
    requires DimensionsFrom(data, bodyAt, |raw.dimensions|, []) == Got(raw.dimensions, kindAt)
    requires TypeAndOffset(data, kindAt, raw.name, raw.dimensions) == Got(raw, next)
    ensures TensorAt(data, at, names) == Got(raw, next)
  {
  }

  /** Where the parts of a written tensor entry stand. */
  lemma RawHolds(data: seq<byte>, at: nat, raw: Raw, countAt: nat, kindAt: nat)
    requires Holds(data, at, WriteRaw(raw))
    requires countAt == at + |WriteText(raw.name)| && kindAt == countAt + 4 + |WriteDimensions(raw.dimensions)|
    ensures Holds(data, at, WriteText(raw.name)) && Holds(data, countAt, ToLe(|raw.dimensions|, 4))
    ensures Holds(data, countAt + 4, WriteDimensions(raw.dimensions))
    ensures Holds(data, kindAt, ToLe(raw.kind, 4) + ToLe(raw.offset, 8)) && kindAt + 12 == at + |WriteRaw(raw)|
  {
    hide WriteText, WriteDimensions, ToLe;
    var tail := ToLe(raw.kind, 4) + ToLe(raw.offset, 8);
    var body := WriteDimensions(raw.dimensions) + tail;
    HoldsBoth(data, at, WriteText(raw.name), ToLe(|raw.dimensions|, 4) + body);
    HoldsBoth(data, countAt, ToLe(|raw.dimensions|, 4), body);
    HoldsBoth(data, countAt + 4, WriteDimensions(raw.dimensions), tail);
  }

  lemma CountReadsBack(data: seq<byte>, at: nat, count: nat)
    requires Holds(data, at, ToLe(count, 4)) && count <= 0xFFFF_FFFF
    ensures Number(data, at, 4) == Got(count, at + 4)
  {
    NumberReadsBack(data, at, count, 4);
  }

  lemma NameAndCount(data: seq<byte>, at: nat, raw: Raw, countAt: nat)
    requires Holds(data, at, WriteText(raw.name)) && Holds(data, countAt, ToLe(|raw.dimensions|, 4)) && WritableRaw(raw)
    requires countAt == at + |WriteText(raw.name)|
    ensures Text(data, at, MAX_NAME_BYTES) == Got(raw.name, countAt)
    ensures Number(data, countAt, 4) == Got(|raw.dimensions|, countAt + 4)
  {
    hide Holds, Text, Number, WriteText, ToLe, WellTyped;
    TextReadsBack(data, at, raw.name, MAX_NAME_BYTES);
    CountReadsBack(data, countAt, |raw.dimensions|);
  }

  lemma ShapeAndType(data: seq<byte>, at: nat, raw: Raw, kindAt: nat)
    requires Holds(data, at, WriteDimensions(raw.dimensions)) && WritableRaw(raw)
    requires kindAt == at + |WriteDimensions(raw.dimensions)|
    requires Holds(data, kindAt, ToLe(raw.kind, 4) + ToLe(raw.offset, 8))
    ensures DimensionsFrom(data, at, |raw.dimensions|, []) == Got(raw.dimensions, kindAt)
    ensures TypeAndOffset(data, kindAt, raw.name, raw.dimensions) == Got(raw, kindAt + 12)
  {
    hide Holds, DimensionsFrom, TypeAndOffset, WriteDimensions, ToLe, WellTyped;
    DimensionsReadBack(data, at, raw.dimensions, []);
    assert [] + raw.dimensions == raw.dimensions;
    TypeReadsBack(data, kindAt, raw);
  }

  lemma RawReadsBack(data: seq<byte>, at: nat, names: set<string>, raw: Raw)
    requires Holds(data, at, WriteRaw(raw)) && WritableRaw(raw) && raw.name !in names
    ensures TensorAt(data, at, names) == Got(raw, at + |WriteRaw(raw)|)
  {
    hide Holds, TensorAt, Text, Number, TypeAndOffset, DimensionsFrom, WriteRaw, WriteText, WriteDimensions, ToLe,
      WellTyped;
    var countAt := at + |WriteText(raw.name)|;
    var bodyAt := countAt + 4;
    var kindAt := bodyAt + |WriteDimensions(raw.dimensions)|;
    RawHolds(data, at, raw, countAt, kindAt);
    NameAndCount(data, at, raw, countAt);
    ShapeAndType(data, bodyAt, raw, kindAt);
    var next := kindAt + 12;
    RawParts(data, at, names, raw, countAt, bodyAt, kindAt, next);
  }

  lemma NameIsNew(before: seq<Raw>, raws: seq<Raw>)
    requires raws != [] && DistinctNames(before + raws)
    ensures raws[0].name !in Names(before)
  {
    forall raw <- before ensures raw.name != raws[0].name {
      var i: nat :| i < |before| && before[i] == raw;
      assert (before + raws)[i] == raw && (before + raws)[|before|] == raws[0];
    }
  }

  lemma {:induction false} RawsReadBack(data: seq<byte>, at: nat, raws: seq<Raw>, before: seq<Raw>)
    requires Holds(data, at, WriteRaws(raws)) && DistinctNames(before + raws)
    requires forall i: nat | i < |raws| :: WritableRaw(raws[i])
    ensures TensorsFrom(data, at, |raws|, before) == Got(before + raws, at + |WriteRaws(raws)|)
    decreases |raws|
  {
    hide TensorAt, WriteRaw, WritableRaw;
    if raws == [] {
      assert before + raws == before;
    } else {
      var first, rest := raws[0], raws[1..];
      HoldsBoth(data, at, WriteRaw(first), WriteRaws(rest));
      NameIsNew(before, raws);
      RawReadsBack(data, at, Names(before), first);
      assert before + raws == before + [first] + rest;
      RawsReadBack(data, at + |WriteRaw(first)|, rest, before + [first]);
    }
  }

  // ---------- Whole files ----------

  lemma EncodedMagic()
    ensures Encode("GGUF") == MAGIC
  {
    assert "GGUF"[1..] == "GUF" && "GUF"[1..] == "UF" && "UF"[1..] == "F" && "F"[1..] == "";
  }

  lemma HeaderReadsBack(data: seq<byte>, version: nat, raws: nat, entries: nat, rest: seq<byte>)
    requires Holds(data, 0, Encode("GGUF") + (ToLe(version, 4) + (ToLe(raws, 8) + (ToLe(entries, 8) + rest))))
    requires (version == 2 || version == 3) && raws <= MAX_TENSORS && entries <= MAX_METADATA_ENTRIES
    ensures HeaderAt(data) == Got((version, raws, entries), 24) && Holds(data, 24, rest)
  {
    EncodedMagic();
    HoldsBoth(data, 0, MAGIC, ToLe(version, 4) + (ToLe(raws, 8) + (ToLe(entries, 8) + rest)));
    HoldsBoth(data, 4, ToLe(version, 4), ToLe(raws, 8) + (ToLe(entries, 8) + rest));
    HoldsBoth(data, 8, ToLe(raws, 8), ToLe(entries, 8) + rest);
    HoldsBoth(data, 16, ToLe(entries, 8), rest);
    NumberReadsBack(data, 4, version, 4);
    NumberReadsBack(data, 8, raws, 8);
    NumberReadsBack(data, 16, entries, 8);
  }

  function Placed(raws: seq<Raw>, dataOffset: nat): (r: seq<Tensor>)
    ensures |r| == |raws| && forall i: nat | i < |raws| :: r[i] == Tensor(raws[i], dataOffset + raws[i].offset)
  {
    if raws == [] then [] else [Tensor(raws[0], dataOffset + raws[0].offset)] + Placed(raws[1..], dataOffset)
  }

  lemma PlacedCons(raws: seq<Raw>, dataOffset: nat, tensors: seq<Tensor>)
    requires raws != []
    ensures tensors + Placed(raws, dataOffset)
         == tensors + [Tensor(raws[0], dataOffset + raws[0].offset)] + Placed(raws[1..], dataOffset)
  {
    var first, rest := Tensor(raws[0], dataOffset + raws[0].offset), Placed(raws[1..], dataOffset);
    assert tensors + ([first] + rest) == tensors + [first] + rest;
  }

  lemma {:induction false} LocateReadsBack(
    raws: seq<Raw>, dataOffset: nat, alignment: nat, fileLength: nat, tensors: seq<Tensor>)
    requires alignment > 0 && fileLength <= MAX_U64
    requires forall i: nat | i < |raws| ::
      raws[i].offset % alignment == 0 && dataOffset + raws[i].offset + raws[i].byteLength <= fileLength
    ensures LocateFrom(raws, dataOffset, alignment, fileLength, tensors) == Ok(tensors + Placed(raws, dataOffset))
    decreases |raws|
  {
    if raws == [] {
      assert tensors + Placed(raws, dataOffset) == tensors;
    } else {
      var first := Tensor(raws[0], dataOffset + raws[0].offset);
      LocateReadsBack(raws[1..], dataOffset, alignment, fileLength, tensors + [first]);
      PlacedCons(raws, dataOffset, tensors);
    }
  }

  /** A description that can be written: its alignment, where the data section starts and the file's
      length are those of the written file. */
  ghost predicate Describes(
    version: nat, entries: seq<Entry>, raws: seq<Raw>, alignment: nat, dataOffset: nat, fileLength: nat)
  {
    && (version == 2 || version == 3)
    && |entries| <= MAX_METADATA_ENTRIES && DistinctKeys(entries)
      && (forall i: nat | i < |entries| :: WritableEntry(entries[i]))
    && AlignmentOf(Filled({}, entries, map[])) == Ok(alignment)
    && |raws| <= MAX_TENSORS && DistinctNames(raws) && (forall i: nat | i < |raws| :: WritableRaw(raws[i]))
    && alignment > 0 && AlignUp(|WriteTables(version, entries, raws)|, alignment) == Some(dataOffset)
    && dataOffset <= fileLength <= MAX_U64
    && forall i: nat | i < |raws| ::
      raws[i].offset % alignment == 0 && dataOffset + raws[i].offset + raws[i].byteLength <= fileLength
  }

  /** Capturing does not change the alignment entry. */
  lemma {:induction false} FilledPlain(captured: set<string>, entries: seq<Entry>, metadata: map<string, Value>)
    ensures PlainAll(Filled(captured, entries, metadata)) == Filled({}, entries, PlainAll(metadata))
    decreases |entries|
  {
    if entries != [] {
      var first := entries[0];
      FilledPlain(captured, entries[1..], metadata[first.key := Kept(captured, first)]);
      assert PlainAll(metadata[first.key := Kept(captured, first)])
        == PlainAll(metadata)[first.key := Plain(first.value)];
    }
  }

  lemma TablesReadBack(data: seq<byte>, captured: set<string>, entries: seq<Entry>, raws: seq<Raw>)
    requires Holds(data, 24, WriteEntries(entries) + WriteRaws(raws))
    requires DistinctKeys(entries) && forall i: nat | i < |entries| :: WritableEntry(entries[i])
    requires DistinctNames(raws) && forall i: nat | i < |raws| :: WritableRaw(raws[i])
    ensures EntriesFrom(data, 24, |entries|, captured, map[])
         == Got(Filled(captured, entries, map[]), 24 + |WriteEntries(entries)|)
    ensures TensorsFrom(data, 24 + |WriteEntries(entries)|, |raws|, [])
         == Got(raws, 24 + |WriteEntries(entries)| + |WriteRaws(raws)|)
  {
    hide EntryAt, TensorAt, WritableRaw, WritableEntry, WriteEntries, WriteRaws;
    var tensorsAt := 24 + |WriteEntries(entries)|;
    var next := tensorsAt + |WriteRaws(raws)|;
    HoldsBoth(data, 24, WriteEntries(entries), WriteRaws(raws));
    assert EntriesFrom(data, 24, |entries|, captured, map[]) == Got(Filled(captured, entries, map[]), tensorsAt) by {
      EntriesReadBack(data, 24, captured, entries, map[]);
    }
    assert TensorsFrom(data, tensorsAt, |raws|, []) == Got(raws, next) by {
      assert [] + raws == raws;
      RawsReadBack(data, tensorsAt, raws, []);
    }
  }

  lemma CapturingKeepsAlignment(captured: set<string>, entries: seq<Entry>)
    ensures AlignmentOf(Filled(captured, entries, map[])) == AlignmentOf(Filled({}, entries, map[]))
  {
    FilledPlain(captured, entries, map[]);
    assert PlainAll(map[]) == map[];
  }

  lemma LocatedReadsBack(
    data: seq<byte>, version: nat, metadata: map<string, Value>, alignment: nat, raws: seq<Raw>, dataOffset: nat,
    at: nat)
    requires alignment > 0 && AlignUp(at, alignment) == Some(dataOffset) && dataOffset <= |data| <= MAX_U64
    requires forall i: nat | i < |raws| ::
      raws[i].offset % alignment == 0 && dataOffset + raws[i].offset + raws[i].byteLength <= |data|
    ensures Located(data, version, metadata, alignment, raws, at)
         == Ok(Index(version, alignment, dataOffset, |data|, metadata, Placed(raws, dataOffset)))
  {
    LocateReadsBack(raws, dataOffset, alignment, |data|, []);
    assert [] + Placed(raws, dataOffset) == Placed(raws, dataOffset);
  }

  /** Parsing a written file's tables gives back what was written: the tables, the alignment, and every tensor at
      its place in the data section; arrays that were not asked for come back as their type and
      length. The padding and the tensor data are whatever follows the tables. */
  lemma IndexReadsBack(
    data: seq<byte>, captured: set<string>, version: nat, entries: seq<Entry>, raws: seq<Raw>,
    alignment: nat, dataOffset: nat)
    requires Describes(version, entries, raws, alignment, dataOffset, |data|)
    requires Holds(data, 0, WriteTables(version, entries, raws))
    ensures Indexed(data, captured)
         == Ok(Index(version, alignment, dataOffset, |data|, Filled(captured, entries, map[]),
           Placed(raws, dataOffset)))
  {
    hide EntriesFrom, TensorsFrom, WriteEntries, WriteRaws, ToLe, AlignUp, WritableRaw, WritableEntry, HeaderAt,
      Located, AlignmentOf, Filled, Placed, Holds, DistinctKeys, DistinctNames;
    HeaderReadsBack(data, version, |raws|, |entries|, WriteEntries(entries) + WriteRaws(raws));
    TablesReadBack(data, captured, entries, raws);
    CapturingKeepsAlignment(captured, entries);
    LocatedReadsBack(data, version, Filled(captured, entries, map[]), alignment, raws, dataOffset,
                     |WriteTables(version, entries, raws)|);
  }

  /** Reading a written file returns what was written, however the parser's sort breaks ties, exactly
      when its tensors are apart and no empty one starts where a non-empty one does. */
  lemma RoundTrip(
    data: seq<byte>, captured: set<string>, version: nat, entries: seq<Entry>, raws: seq<Raw>,
    alignment: nat, dataOffset: nat)
    requires Describes(version, entries, raws, alignment, dataOffset, |data|)
    requires Holds(data, 0, WriteTables(version, entries, raws))
    ensures var written :=
        Index(version, alignment, dataOffset, |data|, Filled(captured, entries, map[]), Placed(raws, dataOffset));
      (forall sort | Sorts(sort) :: Inspected(data, captured, sort) == Ok(written))
      <==> AllApart(written.tensors) && !Tied(written.tensors)
  {
    hide Describes, Holds, WriteTables, Indexed, Inspected, Sorts, Filled, Placed, AllApart, Tied;
    IndexReadsBack(data, captured, version, entries, raws, alignment, dataOffset);
    AcceptedByEverySort(data, captured);
  }

  // ---------- A file whose fate the sort decides ----------

  /** An empty block-quantized tensor and 32 bytes of floats at the same offset. */
  function EmptyRaw(): Raw { Raw("a", [], 2, 0, 0) }

  function FullRaw(): Raw { Raw("b", [8], 0, 0, 32) }

  function TiedRaws(): seq<Raw> { [EmptyRaw(), FullRaw()] }

  /** The written tables, padding up to the data section at 96, and the floats. */
  function TiedFile(): seq<byte> {
    WriteTables(3, [], TiedRaws()) + seq(46, i => 0)
  }

  lemma RawLength(raw: Raw)
    ensures |WriteRaw(raw)| == 24 + |Encode(raw.name)| + |WriteDimensions(raw.dimensions)|
  {
  }

  lemma TiedParts()
    ensures |WriteDimensions(EmptyRaw().dimensions)| == 0 && |WriteDimensions(FullRaw().dimensions)| == 8
    ensures |Encode(EmptyRaw().name)| == |Encode(FullRaw().name)| == 1
  {
  }

  lemma TiedTables()
    ensures |WriteTables(3, [], TiedRaws())| == 82 && |TiedFile()| == 128
  {
    hide ToLe, WriteRaw, EmptyRaw, FullRaw;
    var raws := TiedRaws();
    RawLength(raws[0]);
    RawLength(raws[1]);
    assert raws[1..] == [raws[1]] && raws[1..][1..] == [];
    assert WriteRaws(raws) == WriteRaw(raws[0]) + (WriteRaw(raws[1]) + WriteRaws([]));
    TiedParts();
  }

  lemma TiedIsWritable()
    ensures WritableRaw(EmptyRaw()) && WritableRaw(FullRaw())
  {
    assert Elements([], 0) == Some(1) && Elements([8], 1) == Some(8);
    TiedParts();
  }

  lemma TiedOffsets()
    ensures EmptyRaw().name != FullRaw().name
    ensures EmptyRaw().offset == FullRaw().offset == EmptyRaw().byteLength == 0 && FullRaw().byteLength == 32
  {
  }

  /** The tables describe the file, and it parses to the two tensors at one place. */
  lemma TiedFileParses()
    ensures Describes(3, [], TiedRaws(), 32, 96, |TiedFile()|)
    ensures Holds(TiedFile(), 0, WriteTables(3, [], TiedRaws()))
    ensures Indexed(TiedFile(), {}) == Ok(Index(3, 32, 96, 128, map[], Placed(TiedRaws(), 96)))
  {
    hide WriteTables, WritableRaw, EmptyRaw, FullRaw;
    TiedTables();
    TiedIsWritable();
    TiedOffsets();
    assert TiedFile()[0..82] == WriteTables(3, [], TiedRaws());
    assert AlignUp(82, 32) == Some(96);
    IndexReadsBack(TiedFile(), {}, 3, [], TiedRaws(), 32, 96);
  }

  lemma TwoTied(empty: Tensor, full: Tensor)
    requires empty.raw.byteLength == 0 < full.raw.byteLength && empty.absoluteOffset == full.absoluteOffset
    ensures AllApart([empty, full]) && Tied([empty, full])
  {
    assert empty in [empty, full] && full in [empty, full];
  }

  lemma TiedPlaces()
    ensures AllApart(Placed(TiedRaws(), 96)) && Tied(Placed(TiedRaws(), 96))
  {
    hide EmptyRaw, FullRaw, AllApart, Tied;
    TiedOffsets();
    TwoTied(Tensor(EmptyRaw(), 96), Tensor(FullRaw(), 96));
    assert Placed(TiedRaws(), 96) == [Tensor(EmptyRaw(), 96), Tensor(FullRaw(), 96)];
  }

  /** One file, and two sorts by offset of which one makes the parser accept it and the other does not. */
  lemma SortDecidesTiedFile()
    ensures exists sort :: Sorts(sort) && Inspected(TiedFile(), {}, sort) == Indexed(TiedFile(), {})
    ensures exists sort :: Sorts(sort) && Inspected(TiedFile(), {}, sort) != Indexed(TiedFile(), {})
  {
    hide *;
    TiedFileParses();
    TiedPlaces();
    SortDecidesTies(TiedFile(), {});
  }
}
