/** The bounded GGUF reader and its metadata values: the reader with its moving position, the two ways
 *  to get past an array (capture it or skip it), and that they stay in lockstep.
 */
module GgufReader {
  import opened Wrappers
  import opened Utf8

  const MAX_U64: nat := 0xFFFF_FFFF_FFFF_FFFF
  const MAX_VALUE_STRING_BYTES: nat := 64 * 1024 * 1024
  const MAX_ARRAY_ELEMENTS: nat := 16_000_000
  const MAX_CAPTURED_ARRAY_ELEMENTS: nat := 1_000_000
  const MAX_CAPTURED_ARRAY_BYTES: nat := 256 * 1024 * 1024
  const STRING_BYTES: nat := 24 // size of a string handle on a 64-bit machine

  datatype Error =
    | Overflow | Cut(offset: nat) | LengthLimit(length: nat) | CountLimit(count: nat) | InvalidUtf8(offset: nat)
    | UnknownMetadataType(kind: nat, offset: nat) | InvalidBoolean(offset: nat) | NestedArray(offset: nat)
    | CapturedArrayTooLarge | CapturedArrayBudget
    | InvalidMagic | UnsupportedVersion(version: nat) | DuplicateMetadataKey(key: string) | InvalidAlignment(value: nat)
    | DuplicateTensorName(name: string) | InvalidDimensionCount(count: nat) | ZeroDimension
    | UnsupportedTensorType(kind: nat)
    | InvalidBlockShape | MisalignedTensor(name: string) | TensorOutOfBounds(name: string)
    | OverlappingTensor(name: string)

  /** What parsing at a position gives: a value and the position after it, or an error. */
  datatype Parsed<+T> = Got(value: T, next: nat) | Failed(error: Error)

  /** A reading method returned what the parse says. After an error the position no longer matters:
      every caller gives up. */
  predicate Agrees<T(==)>(r: Result<T, Error>, position: nat, p: Parsed<T>) {
    match p
    case Got(value, next) => r == Ok(value) && position == next
    case Failed(error) => r == Err(error)
  }

  // ---------- Bytes, numbers, strings ----------

  function Range(data: seq<byte>, at: nat, length: nat): (p: Parsed<seq<byte>>)
    ensures p.Got? ==> p.next == at + length <= |data| && |p.value| == length
  {
    if at + length > MAX_U64 then Failed(Overflow)
    else if at + length > |data| then Failed(Cut(at))
    else Got(data[at..at + length], at + length)
  }

  /** Little-endian value of a byte string. */
  function FromLe(b: seq<byte>): nat {
    if b == [] then 0 else b[0] + 256 * FromLe(b[1..])
  }

  function Number(data: seq<byte>, at: nat, width: nat): (p: Parsed<nat>)
    ensures p.Got? ==> p.next == at + width <= |data|
  {
    match Range(data, at, width)
    case Got(bytes, next) => Got(FromLe(bytes), next)
    case Failed(error) => Failed(error)
  }

  ghost function Text(data: seq<byte>, at: nat, limit: nat): (p: Parsed<string>)
    ensures p.Got? ==> at + 8 <= p.next <= |data|
  {
    match Number(data, at, 8)
    case Failed(error) => Failed(error)
    case Got(length, body) =>
      if length > limit then Failed(LengthLimit(length))
      else
        match Range(data, body, length)
        case Failed(error) => Failed(error)
        case Got(bytes, next) =>
          match Decoded(bytes)
          case Some(text) => Got(text, next)
          case None => Failed(InvalidUtf8(body))
  }

  class BoundedReader {
    const data: seq<byte>
    var position: nat

    constructor (data: seq<byte>)
      ensures this.data == data && position == 0
    {
      this.data := data;
      position := 0;
    }

    method EnsureAvailable(length: nat) returns (r: Result<(), Error>)
      ensures r.Ok? <==> position + length <= MAX_U64 && position + length <= |data|
      ensures r.Err? ==> Range(data, position, length) == Failed(r.error)
    {
      if position + length > MAX_U64 { return Err(Overflow); }
      if position + length > |data| { return Err(Cut(position)); }
      return Ok(());
    }

    method ReadArray(length: nat) returns (r: Result<seq<byte>, Error>)
      modifies this
      ensures Agrees(r, position, Range(data, old(position), length))
    {
      var available := EnsureAvailable(length);
      if available.Err? { return Err(available.error); }
      r := Ok(data[position..position + length]);
      position := position + length;
    }

    method ReadNumber(width: nat) returns (r: Result<nat, Error>)
      modifies this
      ensures Agrees(r, position, Number(data, old(position), width))
    {
      var bytes := ReadArray(width);
      r := if bytes.Ok? then Ok(FromLe(bytes.value)) else Err(bytes.error);
    }

    method ReadString(limit: nat) returns (r: Result<string, Error>)
      modifies this
      ensures Agrees(r, position, Text(data, old(position), limit))
    {
      var length := ReadNumber(8);
      if length.Err? { return Err(length.error); }
      if length.value > limit { return Err(LengthLimit(length.value)); }
      var offset := position;
      var bytes := ReadArray(length.value);
      if bytes.Err? { return Err(bytes.error); }
      DecodedIffValid(bytes.value);
      r := if ValidUpTo(bytes.value) == |bytes.value| then Ok(Lossy(bytes.value)) else Err(InvalidUtf8(offset));
    }

    method Skip(length: nat) returns (r: Result<(), Error>)
      modifies this
      ensures r.Ok? <==> Range(data, old(position), length).Got?
      ensures r.Ok? ==> position == old(position) + length
      ensures r.Err? ==> Range(data, old(position), length) == Failed(r.error)
    {
      r := EnsureAvailable(length);
      if r.Ok? { position := position + length; }
    }
  }

  // ---------- Metadata values ----------

  /** A scalar: the bit pattern of an integer or a float, a flag, or a string. */
  datatype Item = Bits(bits: nat) | Flag(on: bool) | Words(text: string)

  datatype Value =
    | Single(kind: nat, item: Item)
    | Array(element: nat, length: nat)
    | ArrayValues(element: nat, items: seq<Item>)

  /** What skipping takes from the file for an element of a fixed-size kind, zero for the others. */
  function FixedSize(kind: nat): nat {
    if kind == 0 || kind == 1 then 1
    else if kind == 2 || kind == 3 then 2
    else if 4 <= kind <= 6 then 4
    else if 10 <= kind <= 12 then 8
    else 0
  }

  predicate ScalarKind(kind: nat) { kind <= 8 || 10 <= kind <= 12 }

  function BadKind(kind: nat, offset: nat): Error {
    if kind == 9 then NestedArray(offset) else UnknownMetadataType(kind, offset)
  }

  function Boolean(data: seq<byte>, at: nat): Parsed<bool> {
    match Number(data, at, 1)
    case Failed(error) => Failed(error)
    case Got(value, next) => if value <= 1 then Got(value == 1, next) else Failed(InvalidBoolean(at))
  }

  /** The bit pattern of an integer or a float. */
  function Pattern(data: seq<byte>, at: nat, width: nat): (p: Parsed<Item>)
    ensures p.Got? ==> p.next == at + width <= |data|
  {
    match Number(data, at, width)
    case Got(bits, next) => Got(Bits(bits), next)
    case Failed(error) => Failed(error)
  }

  /** Reading an element: every kind has its own decoder. */
  ghost function ItemAt(data: seq<byte>, at: nat, kind: nat, offset: nat): (p: Parsed<Item>)
    ensures p.Got? ==> at < p.next <= |data|
  {
    if kind <= 1 then Pattern(data, at, 1)
    else if kind <= 3 then Pattern(data, at, 2)
    else if kind <= 6 then Pattern(data, at, 4)
    else if kind == 7 then
      match Boolean(data, at)
      case Got(flag, next) => Got(Flag(flag), next)
      case Failed(error) => Failed(error)
    else if kind == 8 then
      match Text(data, at, MAX_VALUE_STRING_BYTES)
      case Got(text, next) => Got(Words(text), next)
      case Failed(error) => Failed(error)
    else if 10 <= kind <= 12 then Pattern(data, at, 8)
    else Failed(BadKind(kind, offset))
  }

  ghost function SkipAt(data: seq<byte>, at: nat, kind: nat, offset: nat): Parsed<()> {
    if FixedSize(kind) > 0 then
      match Range(data, at, FixedSize(kind))
      case Got(_, next) => Got((), next)
      case Failed(error) => Failed(error)
    else if kind == 7 then
      match Boolean(data, at)
      case Got(_, next) => Got((), next)
      case Failed(error) => Failed(error)
    else if kind == 8 then
      match Text(data, at, MAX_VALUE_STRING_BYTES)
      case Got(_, next) => Got((), next)
      case Failed(error) => Failed(error)
    else Failed(BadKind(kind, offset))
  }

  ghost function SkipFrom(data: seq<byte>, at: nat, kind: nat, offset: nat, remaining: nat): Parsed<()>
    decreases remaining
  {
    if remaining == 0 then Got((), at)
    else
      match SkipAt(data, at, kind, offset)
      case Failed(error) => Failed(error)
      case Got(_, next) => SkipFrom(data, next, kind, offset, remaining - 1)
  }

  /** Bytes a captured element is charged before its contents are known. */
  function Charge(kind: nat): nat {
    if kind <= 1 || kind == 7 then 1
    else if kind <= 3 then 2
    else if kind <= 6 then 4
    else if kind == 8 then STRING_BYTES
    else 8
  }

  function Retained(item: Item): nat {
    if item.Words? then |Encode(item.text)| else 0
  }

  /** Captures `remaining` more elements, `retained` bytes being charged already. */
  ghost function CaptureFrom(
    data: seq<byte>, at: nat, kind: nat, offset: nat, remaining: nat, retained: nat, items: seq<Item>)
    : Parsed<seq<Item>>
    decreases remaining
  {
    if remaining == 0 then Got(items, at)
    else
      match ItemAt(data, at, kind, offset)
      case Failed(error) => Failed(error)
      case Got(item, next) =>
        if item.Words? && retained + Retained(item) > MAX_CAPTURED_ARRAY_BYTES then Failed(CapturedArrayBudget)
        else CaptureFrom(data, next, kind, offset, remaining - 1, retained + Retained(item), items + [item])
  }

  ghost function Capture(data: seq<byte>, at: nat, kind: nat, offset: nat, length: nat): Parsed<seq<Item>> {
    if length > MAX_CAPTURED_ARRAY_ELEMENTS then Failed(CapturedArrayTooLarge)
    else if !ScalarKind(kind) then Failed(BadKind(kind, offset))
    else if length * Charge(kind) > MAX_CAPTURED_ARRAY_BYTES then Failed(CapturedArrayBudget)
    else CaptureFrom(data, at, kind, offset, length, length * Charge(kind), [])
  }

  ghost function ArrayAt(data: seq<byte>, at: nat, captured: bool): Parsed<Value> {
    match Number(data, at, 4)
    case Failed(error) => Failed(error)
    case Got(element, afterKind) =>
      if element == 9 then Failed(NestedArray(at))
      else
        match Number(data, afterKind, 8)
        case Failed(error) => Failed(error)
        case Got(length, body) =>
          if length > MAX_ARRAY_ELEMENTS then Failed(CountLimit(length))
          else if captured then
            match Capture(data, body, element, at, length)
            case Got(items, next) => Got(ArrayValues(element, items), next)
            case Failed(error) => Failed(error)
          else
            match SkipFrom(data, body, element, at, length)
            case Got(_, next) => Got(Array(element, length), next)
            case Failed(error) => Failed(error)
  }

  ghost function ValueAt(data: seq<byte>, at: nat, kind: nat, offset: nat, captured: bool): Parsed<Value> {
    if kind == 9 then ArrayAt(data, at, captured)
    else
      match ItemAt(data, at, kind, offset)
      case Got(item, next) => Got(Single(kind, item), next)
      case Failed(error) => Failed(error)
  }

  // ---------- The decoders ----------

  method ReadBoolean(input: BoundedReader) returns (r: Result<bool, Error>)
    modifies input
    ensures Agrees(r, input.position, Boolean(input.data, old(input.position)))
  {
    var offset := input.position;
    var value := input.ReadNumber(1);
    if value.Err? { return Err(value.error); }
    r := if value.value <= 1 then Ok(value.value == 1) else Err(InvalidBoolean(offset));
  }

  method ReadPattern(input: BoundedReader, width: nat) returns (r: Result<Item, Error>)
    modifies input
    ensures Agrees(r, input.position, Pattern(input.data, old(input.position), width))
  {
    var bits := input.ReadNumber(width);
    r := if bits.Ok? then Ok(Bits(bits.value)) else Err(bits.error);
  }

  method ReadItem(input: BoundedReader, kind: nat, kindOffset: nat) returns (r: Result<Item, Error>)
    modifies input
    ensures Agrees(r, input.position, ItemAt(input.data, old(input.position), kind, kindOffset))
  {
    if kind <= 1 {
      r := ReadPattern(input, 1);
    } else if kind <= 3 {
      r := ReadPattern(input, 2);
    } else if kind <= 6 {
      r := ReadPattern(input, 4);
    } else if kind == 7 {
      var flag := ReadBoolean(input);
      r := if flag.Ok? then Ok(Flag(flag.value)) else Err(flag.error);
    } else if kind == 8 {
      var text := input.ReadString(MAX_VALUE_STRING_BYTES);
      r := if text.Ok? then Ok(Words(text.value)) else Err(text.error);
    } else if 10 <= kind <= 12 {
      r := ReadPattern(input, 8);
    } else {
      r := Err(BadKind(kind, kindOffset));
    }
  }

  method SkipMetadataValue(input: BoundedReader, kind: nat, kindOffset: nat) returns (r: Result<(), Error>)
    modifies input
    ensures Agrees(r, input.position, SkipAt(input.data, old(input.position), kind, kindOffset))
  {
    if FixedSize(kind) > 0 {
      var skipped := input.Skip(FixedSize(kind));
      r := if skipped.Ok? then Ok(()) else Err(skipped.error);
    } else if kind == 7 {
      var flag := ReadBoolean(input);
      r := if flag.Ok? then Ok(()) else Err(flag.error);
    } else if kind == 8 {
      var text := input.ReadString(MAX_VALUE_STRING_BYTES);
      r := if text.Ok? then Ok(()) else Err(text.error);
    } else {
      r := Err(BadKind(kind, kindOffset));
    }
  }

  method ReadMetadataArray(input: BoundedReader, kind: nat, kindOffset: nat, length: nat)
    returns (r: Result<seq<Item>, Error>)
    modifies input
    ensures Agrees(r, input.position, Capture(input.data, old(input.position), kind, kindOffset, length))
  {
    hide ItemAt;
    if length > MAX_CAPTURED_ARRAY_ELEMENTS { return Err(CapturedArrayTooLarge); }
    if !ScalarKind(kind) { return Err(BadKind(kind, kindOffset)); }
    if length * Charge(kind) > MAX_CAPTURED_ARRAY_BYTES { return Err(CapturedArrayBudget); }
    var items: seq<Item>, retained: nat := [], length * Charge(kind);
    for left := length downto 0
      invariant CaptureFrom(input.data, input.position, kind, kindOffset, left, retained, items)
             == CaptureFrom(input.data, old(input.position), kind, kindOffset, length, length * Charge(kind), [])
    {
      var item := ReadItem(input, kind, kindOffset);
      if item.Err? { return Err(item.error); }
      if item.value.Words? {
        if retained + |Encode(item.value.text)| > MAX_CAPTURED_ARRAY_BYTES { return Err(CapturedArrayBudget); }
        retained := retained + |Encode(item.value.text)|;
      }
      items := items + [item.value];
    }
    return Ok(items);
  }

  method SkipMetadataArray(input: BoundedReader, kind: nat, kindOffset: nat, length: nat) returns (r: Result<(), Error>)
    modifies input
    ensures Agrees(r, input.position, SkipFrom(input.data, old(input.position), kind, kindOffset, length))
  {
    for left := length downto 0
      invariant SkipFrom(input.data, input.position, kind, kindOffset, left)
             == SkipFrom(input.data, old(input.position), kind, kindOffset, length)
    {
      var skipped := SkipMetadataValue(input, kind, kindOffset);
      if skipped.Err? { return Err(skipped.error); }
    }
    return Ok(());
  }

  method ReadMetadataValue(input: BoundedReader, kind: nat, kindOffset: nat, captured: bool)
    returns (r: Result<Value, Error>)
    modifies input
    ensures Agrees(r, input.position, ValueAt(input.data, old(input.position), kind, kindOffset, captured))
  {
    if kind != 9 {
      var item := ReadItem(input, kind, kindOffset);
      return if item.Ok? then Ok(Single(kind, item.value)) else Err(item.error);
    }
    var elementOffset := input.position;
    var element := input.ReadNumber(4);
    if element.Err? { return Err(element.error); }
    if element.value == 9 { return Err(NestedArray(elementOffset)); }
    var length := input.ReadNumber(8);
    if length.Err? { return Err(length.error); }
    if length.value > MAX_ARRAY_ELEMENTS { return Err(CountLimit(length.value)); }
    if captured {
      var items := ReadMetadataArray(input, element.value, elementOffset, length.value);
      r := if items.Ok? then Ok(ArrayValues(element.value, items.value)) else Err(items.error);
    } else {
      var skipped := SkipMetadataArray(input, element.value, elementOffset, length.value);
      r := if skipped.Ok? then Ok(Array(element.value, length.value)) else Err(skipped.error);
    }
  }

  // ---------- What the kinds stand for ----------

  /** Two, four and eight bytes, the lowest first. */
  function Word2(b: seq<byte>): nat
    requires |b| == 2
  {
    b[0] as nat + 0x100 * b[1] as nat
  }

  function Word4(b: seq<byte>): nat
    requires |b| == 4
  {
    b[0] as nat + 0x100 * b[1] as nat + 0x1_0000 * b[2] as nat + 0x100_0000 * b[3] as nat
  }

  function Word8(b: seq<byte>): nat
    requires |b| == 8
  {
    Word4(b[..4]) + 0x1_0000_0000 * Word4(b[4..])
  }

  lemma TwoBytes(b: seq<byte>)
    requires |b| == 2
    ensures FromLe(b) == Word2(b)
  {
    assert FromLe(b[1..]) == b[1] as nat + 0x100 * FromLe([]);
  }

  lemma FourBytes(b: seq<byte>, rest: seq<byte>)
    requires |b| == 4
    ensures FromLe(b + rest) == Word4(b) + 0x1_0000_0000 * FromLe(rest)
  {
    var all := b + rest;
    assert all[1..][1..] == all[2..] && all[2..][1..] == all[3..] && all[3..][1..] == rest;
    assert FromLe(all[3..]) == b[3] as nat + 0x100 * FromLe(rest);
    assert FromLe(all[2..]) == b[2] as nat + 0x100 * FromLe(all[3..]);
    assert FromLe(all[1..]) == b[1] as nat + 0x100 * FromLe(all[2..]);
  }

  lemma EightBytes(b: seq<byte>)
    requires |b| == 8
    ensures FromLe(b) == Word8(b)
  {
    assert b[..4] + b[4..] == b && b[4..] + [] == b[4..];
    FourBytes(b[..4], b[4..]);
    FourBytes(b[4..], []);
  }

  /** Which bytes stand for which element of a fixed-size kind. */
  predicate Stands(kind: nat, b: seq<byte>, item: Item) {
    match kind
    case 0 => |b| == 1 && item == Bits(b[0])
    case 1 => |b| == 1 && item == Bits(b[0])
    case 2 => |b| == 2 && item == Bits(Word2(b))
    case 3 => |b| == 2 && item == Bits(Word2(b))
    case 4 => |b| == 4 && item == Bits(Word4(b))
    case 5 => |b| == 4 && item == Bits(Word4(b))
    case 6 => |b| == 4 && item == Bits(Word4(b))
    case 7 => |b| == 1 && b[0] <= 1 && item == Flag(b[0] == 1)
    case 10 => |b| == 8 && item == Bits(Word8(b))
    case 11 => |b| == 8 && item == Bits(Word8(b))
    case 12 => |b| == 8 && item == Bits(Word8(b))
    case _ => false
  }

  /** An element of a fixed-size kind is read exactly when its bytes lie in the file and stand for it. */
  lemma FixedSizesAreRead(data: seq<byte>, at: nat, kind: nat, offset: nat, next: nat, item: Item)
    requires |data| <= MAX_U64 && kind != 8
    ensures ItemAt(data, at, kind, offset) == Got(item, next)
      <==> at <= next <= |data| && Stands(kind, data[at..next], item)
  {
    if at <= next <= |data| {
      var b := data[at..next];
      if |b| == 1 { assert FromLe(b) == b[0] as nat + 0x100 * FromLe([]); }
      if |b| == 2 { TwoBytes(b); }
      if |b| == 4 { assert b + [] == b; FourBytes(b, []); }
      if |b| == 8 { EightBytes(b); }
    }
  }

  /** The kinds that are no elements are refused before anything is read, arrays in arrays by their own
      error. */
  lemma OtherKindsAreRefused(data: seq<byte>, at: nat, kind: nat, offset: nat)
    requires kind == 9 || kind > 12
    ensures ItemAt(data, at, kind, offset)
         == Failed(if kind == 9 then NestedArray(offset) else UnknownMetadataType(kind, offset))
  {
  }

  // ---------- Lockstep ----------

  /** Reading and skipping one element accept the same bytes, stop at the same place and report the
      same errors. */
  lemma SkipFollowsItem(data: seq<byte>, at: nat, kind: nat, offset: nat)
    ensures SkipAt(data, at, kind, offset).Got? <==> ItemAt(data, at, kind, offset).Got?
    ensures SkipAt(data, at, kind, offset).Got? ==>
      SkipAt(data, at, kind, offset).next == ItemAt(data, at, kind, offset).next
    ensures SkipAt(data, at, kind, offset).Failed? ==>
      SkipAt(data, at, kind, offset).error == ItemAt(data, at, kind, offset).error
  {
  }

  lemma ItemShape(data: seq<byte>, at: nat, kind: nat, offset: nat)
    requires ItemAt(data, at, kind, offset).Got?
    ensures ItemAt(data, at, kind, offset).value.Words? <==> kind == 8
    ensures ItemAt(data, at, kind, offset).next
         == at + if kind == 8 then 8 + Retained(ItemAt(data, at, kind, offset).value) else Charge(kind)
  {
  }

  /** Capturing succeeds exactly when skipping does and the strings stay within the budget; both then
      stop at the same place. */
  lemma {:induction false} CaptureFollowsSkip(
    data: seq<byte>, at: nat, kind: nat, offset: nat, remaining: nat, retained: nat, items: seq<Item>)
    requires kind == 8 ==> retained <= MAX_CAPTURED_ARRAY_BYTES
    ensures var skipped := SkipFrom(data, at, kind, offset, remaining);
            var captured := CaptureFrom(data, at, kind, offset, remaining, retained, items);
            && (skipped.Got? ==>
                  if kind == 8 then skipped.next >= at + 8 * remaining
                  else skipped.next == at + remaining * Charge(kind))
            && (captured.Got? <==> (skipped.Got?
                  && (kind == 8 ==> retained + (skipped.next - at - 8 * remaining) <= MAX_CAPTURED_ARRAY_BYTES)))
            && (captured.Got? ==> captured.next == skipped.next && |captured.value| == |items| + remaining)
    decreases remaining
  {
    hide ItemAt, SkipAt, Charge;
    if remaining > 0 && ItemAt(data, at, kind, offset).Got? {
      var item, next := ItemAt(data, at, kind, offset).value, ItemAt(data, at, kind, offset).next;
      SkipFollowsItem(data, at, kind, offset);
      ItemShape(data, at, kind, offset);
      assert remaining * Charge(kind) == (remaining - 1) * Charge(kind) + Charge(kind);
      if kind == 8 && retained + Retained(item) > MAX_CAPTURED_ARRAY_BYTES {
        CaptureFollowsSkip(data, next, kind, offset, remaining - 1, MAX_CAPTURED_ARRAY_BYTES, []);
      } else {
        CaptureFollowsSkip(data, next, kind, offset, remaining - 1, retained + Retained(item), items + [item]);
      }
    } else {
      SkipFollowsItem(data, at, kind, offset);
    }
  }

  /** What a captured array must meet beyond being skippable; `size` is how many bytes of the file the
      elements take.  A string is charged a handle of 24 bytes instead of its length field of 8. */
  predicate WithinBudget(kind: nat, length: nat, size: int) {
    && length <= MAX_CAPTURED_ARRAY_ELEMENTS
    && kind != 9 && kind <= 12
    && size + (if kind == 8 then 16 * length else 0) <= MAX_CAPTURED_ARRAY_BYTES
  }

  /** Exactly when an array that can be skipped can also be captured. */
  lemma CaptureIffSkipWithinBudget(data: seq<byte>, at: nat, kind: nat, offset: nat, length: nat)
    ensures var skipped := SkipFrom(data, at, kind, offset, length);
            var captured := Capture(data, at, kind, offset, length);
            && (captured.Got? <==> skipped.Got? && WithinBudget(kind, length, skipped.next - at))
            && (captured.Got? ==> captured.next == skipped.next && |captured.value| == length)
  {
    var skipped := SkipFrom(data, at, kind, offset, length);
    if length * Charge(kind) <= MAX_CAPTURED_ARRAY_BYTES {
      CaptureFollowsSkip(data, at, kind, offset, length, length * Charge(kind), []);
    } else {
      CaptureFollowsSkip(data, at, kind, offset, length, 0, []);
    }
  }

  /** What plain inspection keeps of a value: everything but array bodies. */
  function Plain(value: Value): Value {
    if value.ArrayValues? then Array(value.element, |value.items|) else value
  }

  /** Whatever is accepted with its array captured is accepted without, up to the same byte and equal
      except for the array's body. */
  lemma ValueLockstep(data: seq<byte>, at: nat, kind: nat, offset: nat)
    requires ValueAt(data, at, kind, offset, true).Got?
    ensures var captured := ValueAt(data, at, kind, offset, true);
            ValueAt(data, at, kind, offset, false) == Got(Plain(captured.value), captured.next)
  {
    if kind == 9 {
      var element := Number(data, at, 4).value;
      var length := Number(data, at + 4, 8).value;
      CaptureIffSkipWithinBudget(data, at + 12, element, at, length);
    }
  }
}
