/** The GGUF index: the metadata table, the tensor table, where each tensor lies in the file, and the
 *  check that no two tensors overlap.
 */
module GgufIndex {
  import opened Wrappers
  import opened Utf8
  import opened GgufReader

  const MAGIC: seq<byte> := [0x47, 0x47, 0x55, 0x46]
  const DEFAULT_ALIGNMENT: nat := 32
  const MAX_METADATA_ENTRIES: nat := 1_000_000
  const MAX_TENSORS: nat := 1_000_000
  const MAX_KEY_BYTES: nat := 64 * 1024
  const MAX_NAME_BYTES: nat := 1024 * 1024
  const MAX_DIMENSIONS: nat := 4
  const ALIGNMENT_KEY: string := "general.alignment"
  const U32: nat := 4

  datatype Entry = Entry(key: string, value: Value)

  /** A tensor as the table lists it, and as it is located in the file. */
  datatype Raw = Raw(name: string, dimensions: seq<nat>, kind: nat, offset: nat, byteLength: nat)
  datatype Tensor = Tensor(raw: Raw, absoluteOffset: nat)
  {
    function End(): nat { absoluteOffset + raw.byteLength }
  }

  datatype Index = Index(
    version: nat, alignment: nat, dataOffset: nat, fileLength: nat, metadata: map<string, Value>, tensors: seq<Tensor>)

  /** How many elements and bytes a block of a tensor type has. */
  datatype BlockLayout = BlockLayout(elements: nat, bytes: nat)

  /** The tensor types by their numbers in the file. */
  function Layout(kind: nat): (r: Option<BlockLayout>)
    ensures r.Some? ==> r.value.elements > 0 && r.value.bytes > 0 && kind < 31
  {
    match kind
    case 0 => Some(BlockLayout(1, 4))
    case 1 => Some(BlockLayout(1, 2))
    case 2 => Some(BlockLayout(32, 18))
    case 3 => Some(BlockLayout(32, 20))
    case 6 => Some(BlockLayout(32, 22))
    case 7 => Some(BlockLayout(32, 24))
    case 8 => Some(BlockLayout(32, 34))
    case 9 => Some(BlockLayout(32, 40))
    case 10 => Some(BlockLayout(256, 84))
    case 11 => Some(BlockLayout(256, 110))
    case 12 => Some(BlockLayout(256, 144))
    case 13 => Some(BlockLayout(256, 176))
    case 14 => Some(BlockLayout(256, 210))
    case 15 => Some(BlockLayout(256, 292))
    case 24 => Some(BlockLayout(1, 1))
    case 25 => Some(BlockLayout(1, 2))
    case 26 => Some(BlockLayout(1, 4))
    case 27 => Some(BlockLayout(1, 8))
    case 28 => Some(BlockLayout(1, 8))
    case 30 => Some(BlockLayout(1, 2))
    case _ => None
  }

  // ---------- Sizes ----------

  /** The product of the first n dimensions, nothing if a partial product leaves 64 bits. */
  function Elements(dimensions: seq<nat>, n: nat): Option<nat>
    requires n <= |dimensions|
  {
    if n == 0 then Some(1)
    else
      match Elements(dimensions, n - 1)
      case None => None
      case Some(total) => if total * dimensions[n - 1] > MAX_U64 then None else Some(total * dimensions[n - 1])
  }

  function Product(dimensions: seq<nat>, n: nat): nat
    requires n <= |dimensions|
  {
    if n == 0 then 1 else Product(dimensions, n - 1) * dimensions[n - 1]
  }

  predicate AllPositive(dimensions: seq<nat>) {
    forall i: nat | i < |dimensions| :: dimensions[i] > 0
  }

  lemma {:induction false} ProductGrows(dimensions: seq<nat>, n: nat)
    requires n < |dimensions| && AllPositive(dimensions)
    ensures Product(dimensions, n) <= Product(dimensions, n + 1)
  {
    var before, last := Product(dimensions, n), dimensions[n];
    assert before * last == before + before * (last - 1);
  }

  /** Counting elements with a check at every factor fails exactly when their number leaves 64 bits. */
  lemma {:induction false} ElementsIsProduct(dimensions: seq<nat>, n: nat)
    requires n <= |dimensions| && AllPositive(dimensions)
    ensures Elements(dimensions, n)
         == if Product(dimensions, n) <= 0xFFFF_FFFF_FFFF_FFFF then Some(Product(dimensions, n)) else None
  {
    if n > 0 {
      ElementsIsProduct(dimensions, n - 1);
      ProductGrows(dimensions, n - 1);
    }
  }

  function ByteLength(dimensions: seq<nat>, layout: BlockLayout): Result<nat, Error>
    requires layout.elements > 0
  {
    match Elements(dimensions, |dimensions|)
    case None => Err(Overflow)
    case Some(count) =>
      if dimensions != [] && dimensions[0] % layout.elements != 0 then Err(InvalidBlockShape)
      else if count / layout.elements * layout.bytes > MAX_U64 then Err(Overflow)
      else Ok(count / layout.elements * layout.bytes)
  }

  predicate PowerOfTwo(n: nat) {
    n == 1 || (n > 0 && n % 2 == 0 && PowerOfTwo(n / 2))
  }

  /** Clearing the low bits of the padded value, for an alignment that is a power of two. */
  function AlignUp(value: nat, alignment: nat): Option<nat>
    requires alignment > 0
  {
    if value + (alignment - 1) > MAX_U64 then None else Some((value + (alignment - 1)) / alignment * alignment)
  }

  lemma Distribute(x: int, y: int, z: int)
    ensures (x + y) * z == x * z + y * z
  {
  }

  lemma MultipleHasNoRemainder(q: nat, alignment: nat)
    requires alignment > 0
    ensures q * alignment % alignment == 0
  {
    var product := q * alignment;
    var d, r := product / alignment, product % alignment;
    Distribute(q - d, d, alignment);
    assert (q - d) * alignment == r;
    if q - d > 0 {
      Distribute(q - d - 1, 1, alignment);
    } else if q - d < 0 {
      Distribute(q - d + 1, -1, alignment);
    }
  }

  lemma Steps(k: nat, q: nat, alignment: nat)
    requires k <= q
    ensures k * alignment <= q * alignment
    ensures k < q ==> k * alignment + alignment <= q * alignment
  {
    Distribute(k, q - k, alignment);
    if k < q { Distribute(q - k - 1, 1, alignment); }
  }

  /** The aligned value is the least multiple that is not below the value. */
  lemma AlignUpIsLeast(value: nat, alignment: nat, other: nat)
    requires alignment > 0 && AlignUp(value, alignment).Some?
    ensures AlignUp(value, alignment).value % alignment == 0
      && value <= AlignUp(value, alignment).value < value + alignment
    ensures other % alignment == 0 && value <= other ==> AlignUp(value, alignment).value <= other
  {
    var sum := value + (alignment - 1);
    var q := sum / alignment;
    assert sum == q * alignment + sum % alignment;
    MultipleHasNoRemainder(q, alignment);
    if other % alignment == 0 && value <= other {
      var k := other / alignment;
      assert other == k * alignment;
      if k < q { Steps(k, q, alignment); }
      else { Steps(q, k, alignment); }
    }
  }

  function Doubled(times: nat): nat {
    if times == 0 then 1 else 2 * Doubled(times - 1)
  }

  lemma {:induction false} HalvingUndoes(n: nat) returns (times: nat)
    requires PowerOfTwo(n)
    ensures n == Doubled(times)
  {
    if n == 1 {
      times := 0;
    } else {
      var half := HalvingUndoes(n / 2);
      times := half + 1;
    }
  }

  lemma {:induction false} DoubledIsPower(times: nat)
    ensures PowerOfTwo(Doubled(times)) && Doubled(times) > 0
  {
    if times > 0 { DoubledIsPower(times - 1); }
  }

  lemma ZeroIsNoPower()
    ensures !PowerOfTwo(0)
  {
  }

  /** Halving down to one accepts exactly the powers of two. */
  lemma PowersOfTwo(n: nat)
    ensures PowerOfTwo(n) <==> exists times: nat :: Doubled(times) == n
  {
    if PowerOfTwo(n) {
      var times := HalvingUndoes(n);
    }
    forall times: nat | Doubled(times) == n ensures PowerOfTwo(n) { DoubledIsPower(times); }
  }

  /** A power of two divides every larger one. */
  lemma {:induction false} PowerDivides(alignment: nat, times: nat) returns (quotient: nat)
    requires PowerOfTwo(alignment) && alignment <= Doubled(times)
    ensures quotient * alignment == Doubled(times)
    decreases times
  {
    if alignment == 1 {
      quotient := Doubled(times);
    } else {
      quotient := PowerDivides(alignment / 2, times - 1);
      assert quotient * (2 * (alignment / 2)) == 2 * (quotient * (alignment / 2));
    }
  }

  lemma WordIsDoubled()
    ensures Doubled(64) == MAX_U64 + 1
  {
    assert Doubled(8) == 0x100;
    assert Doubled(16) == 0x1_0000;
    assert Doubled(24) == 0x100_0000;
    assert Doubled(32) == 0x1_0000_0000;
    assert Doubled(40) == 0x100_0000_0000;
    assert Doubled(48) == 0x1_0000_0000_0000;
    assert Doubled(56) == 0x100_0000_0000_0000;
  }

  /** The last alignment before 2^64 holds no multiple but its start. */
  lemma NoMultipleLeft(value: nat, alignment: nat, quotient: nat, other: nat)
    requires alignment > 0 && quotient * alignment == MAX_U64 + 1
    requires MAX_U64 < value + (alignment - 1) && value <= other <= MAX_U64
    ensures other % alignment != 0
  {
    var k, r := other / alignment, other % alignment;
    assert other == k * alignment + r;
    if k < quotient { Steps(k, quotient, alignment); } else { Steps(quotient, k, alignment); }
  }

  /** Rounding up fails exactly when no multiple from the value on fits in 64 bits. */
  lemma AlignUpFailsIffNothingFits(value: nat, alignment: nat)
    requires PowerOfTwo(alignment) && alignment <= MAX_U64 && value <= MAX_U64
    ensures AlignUp(value, alignment).None?
      <==> forall other: nat | value <= other <= MAX_U64 :: other % alignment != 0
  {
    hide Doubled;
    if AlignUp(value, alignment).Some? {
      AlignUpIsLeast(value, alignment, AlignUp(value, alignment).value);
      assert value <= AlignUp(value, alignment).value <= MAX_U64;
    } else {
      WordIsDoubled();
      var quotient := PowerDivides(alignment, 64);
      forall other: nat | value <= other <= MAX_U64 ensures other % alignment != 0 {
        NoMultipleLeft(value, alignment, quotient, other);
      }
    }
  }

  // ---------- Tables ----------

  ghost function EntryAt(data: seq<byte>, at: nat, captured: set<string>): Parsed<Entry> {
    match Text(data, at, MAX_KEY_BYTES)
    case Failed(error) => Failed(error)
    case Got(key, kindAt) =>
      match Number(data, kindAt, 4)
      case Failed(error) => Failed(error)
      case Got(kind, body) =>
        match ValueAt(data, body, kind, kindAt, key in captured)
        case Failed(error) => Failed(error)
        case Got(value, next) => Got(Entry(key, value), next)
  }

  ghost function EntriesFrom(
    data: seq<byte>, at: nat, remaining: nat, captured: set<string>, metadata: map<string, Value>)
    : Parsed<map<string, Value>>
    decreases remaining
  {
    if remaining == 0 then Got(metadata, at)
    else
      match EntryAt(data, at, captured)
      case Failed(error) => Failed(error)
      case Got(entry, next) =>
        if entry.key in metadata then Failed(DuplicateMetadataKey(entry.key))
        else EntriesFrom(data, next, remaining - 1, captured, metadata[entry.key := entry.value])
  }

  function AlignmentOf(metadata: map<string, Value>): Result<nat, Error> {
    if ALIGNMENT_KEY !in metadata then Ok(DEFAULT_ALIGNMENT)
    else
      match metadata[ALIGNMENT_KEY]
      case Single(kind, item) =>
        if kind != U32 || !item.Bits? then Err(InvalidAlignment(0))
        else if item.bits == 0 || !PowerOfTwo(item.bits) then Err(InvalidAlignment(item.bits))
        else Ok(item.bits)
      case _ => Err(InvalidAlignment(0))
  }

  /** The alignment is 32 unless the metadata gives one as a U32 that is a power of two; anything else
      under that key is refused. */
  lemma AlignmentIs(metadata: map<string, Value>, alignment: nat)
    ensures AlignmentOf(metadata) == Ok(alignment) <==>
      if "general.alignment" in metadata
      then
        metadata["general.alignment"] == Single(4, Bits(alignment))
        && exists times: nat :: Doubled(times) == alignment
      else alignment == 32
    ensures AlignmentOf(metadata) == Err(InvalidAlignment(alignment)) ==>
      "general.alignment" in metadata
      && (metadata["general.alignment"] == Single(4, Bits(alignment)) || alignment == 0)
  {
    hide PowerOfTwo;
    PowersOfTwo(alignment);
    if alignment == 0 { ZeroIsNoPower(); }
  }

  function DimensionsFrom(data: seq<byte>, at: nat, remaining: nat, dimensions: seq<nat>): Parsed<seq<nat>>
    decreases remaining
  {
    if remaining == 0 then Got(dimensions, at)
    else
      match Number(data, at, 8)
      case Failed(error) => Failed(error)
      case Got(dimension, next) =>
        if dimension == 0 then Failed(ZeroDimension)
        else DimensionsFrom(data, next, remaining - 1, dimensions + [dimension])
  }

  function TypeAndOffset(data: seq<byte>, at: nat, name: string, dimensions: seq<nat>): Parsed<Raw> {
    match Number(data, at, 4)
    case Failed(error) => Failed(error)
    case Got(kind, offsetAt) =>
      if Layout(kind).None? then Failed(UnsupportedTensorType(kind))
      else
        match Number(data, offsetAt, 8)
        case Failed(error) => Failed(error)
        case Got(offset, next) =>
          match ByteLength(dimensions, Layout(kind).value)
          case Err(error) => Failed(error)
          case Ok(length) => Got(Raw(name, dimensions, kind, offset, length), next)
  }

  ghost function TensorAt(data: seq<byte>, at: nat, names: set<string>): Parsed<Raw> {
    match Text(data, at, MAX_NAME_BYTES)
    case Failed(error) => Failed(error)
    case Got(name, countAt) =>
      if name in names then Failed(DuplicateTensorName(name))
      else
        match Number(data, countAt, 4)
        case Failed(error) => Failed(error)
        case Got(count, body) =>
          if count > MAX_DIMENSIONS then Failed(InvalidDimensionCount(count))
          else
            match DimensionsFrom(data, body, count, [])
            case Failed(error) => Failed(error)
            case Got(dimensions, kindAt) => TypeAndOffset(data, kindAt, name, dimensions)
  }

  function Names(raws: seq<Raw>): set<string> {
    set raw <- raws :: raw.name
  }

  ghost function TensorsFrom(data: seq<byte>, at: nat, remaining: nat, raws: seq<Raw>): Parsed<seq<Raw>>
    decreases remaining
  {
    if remaining == 0 then Got(raws, at)
    else
      match TensorAt(data, at, Names(raws))
      case Failed(error) => Failed(error)
      case Got(raw, next) => TensorsFrom(data, next, remaining - 1, raws + [raw])
  }

  function Locate(raw: Raw, dataOffset: nat, alignment: nat, fileLength: nat): Result<Tensor, Error>
    requires alignment > 0
  {
    if raw.offset % alignment != 0 then Err(MisalignedTensor(raw.name))
    else if dataOffset + raw.offset > MAX_U64 || dataOffset + raw.offset + raw.byteLength > MAX_U64 then Err(Overflow)
    else if dataOffset + raw.offset + raw.byteLength > fileLength then Err(TensorOutOfBounds(raw.name))
    else Ok(Tensor(raw, dataOffset + raw.offset))
  }

  /** A tensor is refused for its alignment first, then for leaving 64 bits, then for leaving the file. */
  lemma LocateRefuses(raw: Raw, dataOffset: nat, alignment: nat, fileLength: nat)
    requires alignment > 0 && fileLength <= MAX_U64
    ensures var end := dataOffset + raw.offset + raw.byteLength;
      var tensor := Locate(raw, dataOffset, alignment, fileLength);
      && (tensor.Ok? <==> raw.offset % alignment == 0 && end <= fileLength)
      && (tensor == Err(MisalignedTensor(raw.name)) <==> raw.offset % alignment != 0)
      && (tensor == Err(TensorOutOfBounds(raw.name))
          <==> raw.offset % alignment == 0 && fileLength < end <= 0xFFFF_FFFF_FFFF_FFFF)
      && (tensor == Err(Overflow) <==> raw.offset % alignment == 0 && 0xFFFF_FFFF_FFFF_FFFF < end)
  {
  }

  function LocateFrom(raws: seq<Raw>, dataOffset: nat, alignment: nat, fileLength: nat, tensors: seq<Tensor>)
    : Result<seq<Tensor>, Error>
    requires alignment > 0
  {
    if raws == [] then Ok(tensors)
    else
      match Locate(raws[0], dataOffset, alignment, fileLength)
      case Err(error) => Err(error)
      case Ok(tensor) => LocateFrom(raws[1..], dataOffset, alignment, fileLength, tensors + [tensor])
  }

  /** The magic, the version and the two counts. */
  function HeaderAt(data: seq<byte>): Parsed<(nat, nat, nat)> {
    match Range(data, 0, 4)
    case Failed(error) => Failed(error)
    case Got(magic, _) =>
      if magic != MAGIC then Failed(InvalidMagic)
      else
        match Number(data, 4, 4)
        case Failed(error) => Failed(error)
        case Got(version, _) =>
          if version != 2 && version != 3 then Failed(UnsupportedVersion(version))
          else
            match Number(data, 8, 8)
            case Failed(error) => Failed(error)
            case Got(tensors, _) =>
              if tensors > MAX_TENSORS then Failed(CountLimit(tensors))
              else
                match Number(data, 16, 8)
                case Failed(error) => Failed(error)
                case Got(entries, next) =>
                  if entries > MAX_METADATA_ENTRIES then Failed(CountLimit(entries))
                  else Got((version, tensors, entries), next)
  }

  /** The located tensors once both tables are read. */
  function Located(data: seq<byte>, version: nat, metadata: map<string, Value>, alignment: nat, raws: seq<Raw>, at: nat)
    : Result<Index, Error>
    requires alignment > 0
  {
    match AlignUp(at, alignment)
    case None => Err(Overflow)
    case Some(dataOffset) =>
      if dataOffset > |data| then Err(Cut(at))
      else
        match LocateFrom(raws, dataOffset, alignment, |data|, [])
        case Err(error) => Err(error)
        case Ok(tensors) => Ok(Index(version, alignment, dataOffset, |data|, metadata, tensors))
  }

  /** The index of a file, before tensors are checked for overlap. */
  ghost function Indexed(data: seq<byte>, captured: set<string>): Result<Index, Error> {
    match HeaderAt(data)
    case Failed(error) => Err(error)
    case Got((version, tensorCount, entryCount), at) =>
      match EntriesFrom(data, at, entryCount, captured, map[])
      case Failed(error) => Err(error)
      case Got(metadata, tensorsAt) =>
        match AlignmentOf(metadata)
        case Err(error) => Err(error)
        case Ok(alignment) =>
          match TensorsFrom(data, tensorsAt, tensorCount, [])
          case Failed(error) => Err(error)
          case Got(raws, next) => Located(data, version, metadata, alignment, raws, next)
  }

  // ---------- Overlap ----------

  predicate SortedByOffset(ordered: seq<Tensor>) {
    forall i: nat, j: nat | i < j < |ordered| :: ordered[i].absoluteOffset <= ordered[j].absoluteOffset
  }

  /** An order the sort may leave the tensors in; it says nothing about tensors with equal offsets. */
  ghost predicate Order(tensors: seq<Tensor>, ordered: seq<Tensor>) {
    multiset(ordered) == multiset(tensors) && SortedByOffset(ordered)
  }

  /** What the parser's unstable sort promises. */
  ghost predicate Sorts(sort: seq<Tensor> -> seq<Tensor>) {
    forall tensors: seq<Tensor> :: Order(tensors, sort(tensors))
  }

  /** Each tensor of the order starts no earlier than the one before it ends. */
  predicate Scan(ordered: seq<Tensor>) {
    forall i: nat | 0 < i < |ordered| :: ordered[i - 1].End() <= ordered[i].absoluteOffset
  }

  /** The first tensor of the order that starts before the one in front of it ends. */
  function FirstOverlap(ordered: seq<Tensor>, from: nat): Option<Tensor>
    requires from > 0
    decreases |ordered| - from
  {
    if from >= |ordered| then None
    else if ordered[from].absoluteOffset < ordered[from - 1].End() then Some(ordered[from])
    else FirstOverlap(ordered, from + 1)
  }

  lemma {:induction false} NoOverlapIffScan(ordered: seq<Tensor>, from: nat)
    requires from > 0
    ensures FirstOverlap(ordered, from).None?
      <==> forall i: nat | from <= i < |ordered| :: ordered[i - 1].End() <= ordered[i].absoluteOffset
    decreases |ordered| - from
  {
    if from < |ordered| { NoOverlapIffScan(ordered, from + 1); }
  }

  predicate Apart(a: Tensor, b: Tensor) {
    a.End() <= b.absoluteOffset || b.End() <= a.absoluteOffset
  }

  ghost predicate AllApart(tensors: seq<Tensor>) {
    forall a <- tensors, b <- tensors :: a == b || Apart(a, b)
  }

  lemma {:induction false} ScanReaches(ordered: seq<Tensor>, i: nat, j: nat)
    requires Scan(ordered) && i < j < |ordered|
    ensures ordered[i].End() <= ordered[j].absoluteOffset
    decreases j
  {
    if i + 1 < j {
      ScanReaches(ordered, i, j - 1);
      assert ordered[j - 1].End() <= ordered[j].absoluteOffset;
    }
  }

  /** The scan compares neighbours only, yet it proves every two tensors apart. */
  lemma ScanProvesApart(tensors: seq<Tensor>, ordered: seq<Tensor>)
    requires Order(tensors, ordered) && Scan(ordered)
    ensures AllApart(tensors)
  {
    forall a <- tensors, b <- tensors | a != b ensures Apart(a, b) {
      assert a in multiset(ordered) && b in multiset(ordered);
      var i: nat :| i < |ordered| && ordered[i] == a;
      var j: nat :| j < |ordered| && ordered[j] == b;
      if i < j { ScanReaches(ordered, i, j); } else { ScanReaches(ordered, j, i); }
    }
  }

  /** A tensor without dimensions in a blocked type is empty. */
  lemma ScalarOfBlockedTypeIsEmpty(kind: nat)
    requires Layout(kind).Some? && Layout(kind).value.elements > 1
    ensures ByteLength([], Layout(kind).value) == Ok(0)
  {
    assert Elements([], 0) == Some(1);
    assert 1 / Layout(kind).value.elements == 0;
  }

  /** What the parser returns for a file when `sort` orders its tensors. */
  ghost function Inspected(data: seq<byte>, captured: set<string>, sort: seq<Tensor> -> seq<Tensor>)
    : Result<Index, Error> {
    match Indexed(data, captured)
    case Err(error) => Err(error)
    case Ok(index) =>
      match FirstOverlap(sort(index.tensors), 1)
      case Some(tensor) => Err(OverlappingTensor(tensor.raw.name))
      case None => Ok(index)
  }

  lemma {:induction false} LocateFromKeeps(
    raws: seq<Raw>, dataOffset: nat, alignment: nat, fileLength: nat, tensors: seq<Tensor>)
    requires alignment > 0 && LocateFrom(raws, dataOffset, alignment, fileLength, tensors).Ok?
    ensures var all := LocateFrom(raws, dataOffset, alignment, fileLength, tensors).value;
            && |all| == |tensors| + |raws| && all[..|tensors|] == tensors
            && forall i: nat | i < |raws| ::
              Ok(all[|tensors| + i]) == Locate(raws[i], dataOffset, alignment, fileLength)
    decreases |raws|
  {
    if raws != [] {
      var tensor := Locate(raws[0], dataOffset, alignment, fileLength).value;
      LocateFromKeeps(raws[1..], dataOffset, alignment, fileLength, tensors + [tensor]);
      var all := LocateFrom(raws, dataOffset, alignment, fileLength, tensors).value;
      assert all[|tensors|] == all[..|tensors| + 1][|tensors|] == tensor;
      assert all[..|tensors|] == all[..|tensors| + 1][..|tensors|];
      forall i: nat | i < |raws|
        ensures Ok(all[|tensors| + i]) == Locate(raws[i], dataOffset, alignment, fileLength)
      {
        if i > 0 {
          assert all[|tensors| + i] == all[|tensors + [tensor]| + (i - 1)];
          assert raws[i] == raws[1..][i - 1];
        }
      }
    }
  }

  ghost predicate DistinctNames(raws: seq<Raw>) {
    forall i: nat, j: nat | i < j < |raws| :: raws[i].name != raws[j].name
  }

  predicate WellTyped(raw: Raw) {
    AllPositive(raw.dimensions) && Layout(raw.kind).Some?
      && ByteLength(raw.dimensions, Layout(raw.kind).value) == Ok(raw.byteLength)
  }

  lemma {:induction false} DimensionsArePositive(data: seq<byte>, at: nat, remaining: nat, dimensions: seq<nat>)
    requires DimensionsFrom(data, at, remaining, dimensions).Got? && AllPositive(dimensions)
    ensures AllPositive(DimensionsFrom(data, at, remaining, dimensions).value)
    decreases remaining
  {
    if remaining > 0 {
      var dimension := Number(data, at, 8).value;
      DimensionsArePositive(data, at + 8, remaining - 1, dimensions + [dimension]);
    }
  }

  lemma TensorAtIsWellTyped(data: seq<byte>, at: nat, names: set<string>)
    requires TensorAt(data, at, names).Got?
    ensures TensorAt(data, at, names).value.name !in names && WellTyped(TensorAt(data, at, names).value)
  {
    hide Text;
    var countAt := Text(data, at, MAX_NAME_BYTES).next;
    DimensionsArePositive(data, countAt + 4, Number(data, countAt, 4).value, []);
  }

  lemma {:induction false} TensorsFromKeeps(data: seq<byte>, at: nat, remaining: nat, raws: seq<Raw>)
    requires TensorsFrom(data, at, remaining, raws).Got?
    requires DistinctNames(raws) && forall raw <- raws :: WellTyped(raw)
    ensures var all := TensorsFrom(data, at, remaining, raws).value;
            && |all| == |raws| + remaining && DistinctNames(all) && forall raw <- all :: WellTyped(raw)
    decreases remaining
  {
    hide Text, DimensionsFrom, TensorAt, WellTyped;
    if remaining > 0 {
      var raw, next := TensorAt(data, at, Names(raws)).value, TensorAt(data, at, Names(raws)).next;
      TensorAtIsWellTyped(data, at, Names(raws));
      TensorsFromKeeps(data, next, remaining - 1, raws + [raw]);
    }
  }

  /** What an accepted file's index promises of one tensor. */
  predicate Sound(index: Index, tensor: Tensor) {
    && WellTyped(tensor.raw)
    && tensor.absoluteOffset == index.dataOffset + tensor.raw.offset
    && index.alignment > 0 && tensor.absoluteOffset % index.alignment == 0
    && index.dataOffset <= tensor.absoluteOffset && tensor.End() <= index.fileLength
  }

  lemma SumOfMultiples(a: nat, b: nat, alignment: nat)
    requires alignment > 0 && a % alignment == 0 && b % alignment == 0
    ensures (a + b) % alignment == 0
  {
    var p, q := a / alignment, b / alignment;
    assert a + b == (p + q) * alignment;
    MultipleHasNoRemainder(p + q, alignment);
  }

  lemma LocatedIsSound(
    data: seq<byte>, version: nat, metadata: map<string, Value>, alignment: nat, raws: seq<Raw>, at: nat)
    requires alignment > 0 && Located(data, version, metadata, alignment, raws, at).Ok?
    requires DistinctNames(raws) && forall raw <- raws :: WellTyped(raw)
    ensures var index := Located(data, version, metadata, alignment, raws, at).value;
            && index.fileLength == |data|
            && (forall tensor <- index.tensors :: Sound(index, tensor))
            && forall i: nat, j: nat | i < j < |index.tensors| :: index.tensors[i].raw.name != index.tensors[j].raw.name
  {
    var index := Located(data, version, metadata, alignment, raws, at).value;
    AlignUpIsLeast(at, alignment, 0);
    LocateFromKeeps(raws, index.dataOffset, alignment, |data|, []);
    forall i: nat | i < |index.tensors| ensures index.tensors[i].raw == raws[i] && Sound(index, index.tensors[i]) {
      assert Ok(index.tensors[0 + i]) == Locate(raws[i], index.dataOffset, alignment, |data|);
      assert raws[i] in raws;
      SumOfMultiples(index.dataOffset, raws[i].offset, alignment);
    }
  }

  /** Every index the parser builds has distinct tensor names and, for each tensor, an aligned range
      inside the file of exactly the size its type and dimensions need. */
  lemma IndexedIsSound(data: seq<byte>, captured: set<string>)
    requires Indexed(data, captured).Ok?
    ensures var index := Indexed(data, captured).value;
            && index.fileLength == |data|
            && (forall tensor <- index.tensors :: Sound(index, tensor))
            && forall i: nat, j: nat | i < j < |index.tensors| :: index.tensors[i].raw.name != index.tensors[j].raw.name
  {
    var header := HeaderAt(data);
    var entries := EntriesFrom(data, header.next, header.value.2, captured, map[]);
    var raws := TensorsFrom(data, entries.next, header.value.1, []);
    TensorsFromKeeps(data, entries.next, header.value.1, []);
    LocatedIsSound(data, header.value.0, entries.value, AlignmentOf(entries.value).value, raws.value, raws.next);
  }

  // ---------- The parser ----------

  method ReadEntry(input: BoundedReader, captured: set<string>) returns (r: Result<Entry, Error>)
    modifies input
    ensures Agrees(r, input.position, EntryAt(input.data, old(input.position), captured))
  {
    var key := input.ReadString(MAX_KEY_BYTES);
    if key.Err? { return Err(key.error); }
    var kindOffset := input.position;
    var kind := input.ReadNumber(4);
    if kind.Err? { return Err(kind.error); }
    var value := ReadMetadataValue(input, kind.value, kindOffset, key.value in captured);
    if value.Err? { return Err(value.error); }
    return Ok(Entry(key.value, value.value));
  }

  method ReadMetadata(input: BoundedReader, count: nat, captured: set<string>)
    returns (r: Result<map<string, Value>, Error>)
    modifies input
    ensures Agrees(r, input.position, EntriesFrom(input.data, old(input.position), count, captured, map[]))
  {
    hide Text, EntryAt;
    var metadata: map<string, Value> := map[];
    ghost var all := EntriesFrom(input.data, input.position, count, captured, metadata);
    for left := count downto 0
      invariant EntriesFrom(input.data, input.position, left, captured, metadata) == all
    {
      var entry := ReadEntry(input, captured);
      if entry.Err? { return Err(entry.error); }
      var key, value := entry.value.key, entry.value.value;
      if key in metadata { return Err(DuplicateMetadataKey(key)); }
      metadata := metadata[key := value];
    }
    return Ok(metadata);
  }

  method ReadDimensions(input: BoundedReader, count: nat) returns (r: Result<seq<nat>, Error>)
    modifies input
    ensures Agrees(r, input.position, DimensionsFrom(input.data, old(input.position), count, []))
  {
    var dimensions: seq<nat> := [];
    for left := count downto 0
      invariant DimensionsFrom(input.data, input.position, left, dimensions)
             == DimensionsFrom(input.data, old(input.position), count, [])
    {
      var dimension := input.ReadNumber(8);
      if dimension.Err? { return Err(dimension.error); }
      if dimension.value == 0 { return Err(ZeroDimension); }
      dimensions := dimensions + [dimension.value];
    }
    return Ok(dimensions);
  }

  method ReadTensor(input: BoundedReader, names: set<string>) returns (r: Result<Raw, Error>)
    modifies input
    ensures Agrees(r, input.position, TensorAt(input.data, old(input.position), names))
  {
    var name := input.ReadString(MAX_NAME_BYTES);
    if name.Err? { return Err(name.error); }
    if name.value in names { return Err(DuplicateTensorName(name.value)); }
    var count := input.ReadNumber(4);
    if count.Err? { return Err(count.error); }
    if count.value > MAX_DIMENSIONS { return Err(InvalidDimensionCount(count.value)); }
    var dimensions := ReadDimensions(input, count.value);
    if dimensions.Err? { return Err(dimensions.error); }
    var kind := input.ReadNumber(4);
    if kind.Err? { return Err(kind.error); }
    if Layout(kind.value).None? { return Err(UnsupportedTensorType(kind.value)); }
    var offset := input.ReadNumber(8);
    if offset.Err? { return Err(offset.error); }
    var length := ByteLength(dimensions.value, Layout(kind.value).value);
    if length.Err? { return Err(length.error); }
    return Ok(Raw(name.value, dimensions.value, kind.value, offset.value, length.value));
  }

  method ReadTensors(input: BoundedReader, count: nat) returns (r: Result<seq<Raw>, Error>)
    modifies input
    ensures Agrees(r, input.position, TensorsFrom(input.data, old(input.position), count, []))
  {
    hide Text, TensorAt;
    var raws: seq<Raw>, names: set<string> := [], {};
    ghost var data, all := input.data, TensorsFrom(input.data, input.position, count, []);
    for left := count downto 0
      invariant names == Names(raws)
      invariant TensorsFrom(data, input.position, left, raws) == all
    {
      var raw := ReadTensor(input, names);
      if raw.Err? { return Err(raw.error); }
      raws := raws + [raw.value];
      names := names + {raw.value.name};
    }
    return Ok(raws);
  }

  method LocateTensors(raws: seq<Raw>, dataOffset: nat, alignment: nat, fileLength: nat)
    returns (r: Result<seq<Tensor>, Error>)
    requires alignment > 0
    ensures r == LocateFrom(raws, dataOffset, alignment, fileLength, [])
  {
    var tensors: seq<Tensor> := [];
    for i := 0 to |raws|
      invariant LocateFrom(raws[i..], dataOffset, alignment, fileLength, tensors)
             == LocateFrom(raws, dataOffset, alignment, fileLength, [])
    {
      assert raws[i..][0] == raws[i] && raws[i..][1..] == raws[i + 1..];
      var tensor := Locate(raws[i], dataOffset, alignment, fileLength);
      if tensor.Err? { return Err(tensor.error); }
      tensors := tensors + [tensor.value];
    }
    return Ok(tensors);
  }

  method ValidateNonOverlapping(tensors: seq<Tensor>, sort: seq<Tensor> -> seq<Tensor>) returns (r: Result<(), Error>)
    ensures r == match FirstOverlap(sort(tensors), 1)
                 case Some(tensor) => Err(OverlappingTensor(tensor.raw.name))
                 case None => Ok(())
  {
    var ordered := sort(tensors);
    var previousEnd := 0;
    for i := 0 to |ordered|
      invariant previousEnd == (if i == 0 then 0 else ordered[i - 1].End())
      invariant FirstOverlap(ordered, 1) == FirstOverlap(ordered, if i == 0 then 1 else i)
    {
      if ordered[i].absoluteOffset < previousEnd {
        return Err(OverlappingTensor(ordered[i].raw.name));
      }
      previousEnd := ordered[i].absoluteOffset + ordered[i].raw.byteLength;
    }
    return Ok(());
  }

  method ReadHeader(input: BoundedReader) returns (r: Result<(nat, nat, nat), Error>)
    requires input.position == 0
    modifies input
    ensures Agrees(r, input.position, HeaderAt(input.data))
  {
    var magic := input.ReadArray(4);
    if magic.Err? { return Err(magic.error); }
    if magic.value != MAGIC { return Err(InvalidMagic); }
    var version := input.ReadNumber(4);
    if version.Err? { return Err(version.error); }
    if version.value != 2 && version.value != 3 { return Err(UnsupportedVersion(version.value)); }
    var tensors := input.ReadNumber(8);
    if tensors.Err? { return Err(tensors.error); }
    if tensors.value > MAX_TENSORS { return Err(CountLimit(tensors.value)); }
    var entries := input.ReadNumber(8);
    if entries.Err? { return Err(entries.error); }
    if entries.value > MAX_METADATA_ENTRIES { return Err(CountLimit(entries.value)); }
    return Ok((version.value, tensors.value, entries.value));
  }

  /** An accepted file's tensors are pairwise apart, however the sort breaks ties. */
  method ReadIndex(data: seq<byte>, captured: set<string>, sort: seq<Tensor> -> seq<Tensor>)
    returns (r: Result<Index, Error>)
    ensures r == Inspected(data, captured, sort)
    ensures Sorts(sort) && r.Ok? ==> AllApart(r.value.tensors)
  {
    var input := new BoundedReader(data);
    var header := ReadHeader(input);
    if header.Err? { return Err(header.error); }
    var metadata := ReadMetadata(input, header.value.2, captured);
    if metadata.Err? { return Err(metadata.error); }
    var alignment := AlignmentOf(metadata.value);
    if alignment.Err? { return Err(alignment.error); }
    var raws := ReadTensors(input, header.value.1);
    if raws.Err? { return Err(raws.error); }
    var dataOffset := AlignUp(input.position, alignment.value);
    if dataOffset.None? { return Err(Overflow); }
    if dataOffset.value > |data| { return Err(Cut(input.position)); }
    var tensors := LocateTensors(raws.value, dataOffset.value, alignment.value, |data|);
    if tensors.Err? { return Err(tensors.error); }
    var valid := ValidateNonOverlapping(tensors.value, sort);
    if valid.Err? { return Err(valid.error); }
    NoOverlapIffScan(sort(tensors.value), 1);
    if Sorts(sort) { ScanProvesApart(tensors.value, sort(tensors.value)); }
    return Ok(Index(header.value.0, alignment.value, dataOffset.value, |data|, metadata.value, tensors.value));
  }

  // ---------- Lockstep of whole files ----------

  function PlainAll(metadata: map<string, Value>): map<string, Value> {
    map key <- metadata :: Plain(metadata[key])
  }

  lemma EntryLockstep(data: seq<byte>, at: nat, captured: set<string>)
    requires EntryAt(data, at, captured).Got?
    ensures var entry := EntryAt(data, at, captured);
            EntryAt(data, at, {}) == Got(Entry(entry.value.key, Plain(entry.value.value)), entry.next)
  {
    var key, kindAt := Text(data, at, MAX_KEY_BYTES).value, Text(data, at, MAX_KEY_BYTES).next;
    var kind := Number(data, kindAt, 4).value;
    if key in captured { ValueLockstep(data, kindAt + 4, kind, kindAt); }
  }

  lemma {:induction false} EntriesLockstep(
    data: seq<byte>, at: nat, remaining: nat, captured: set<string>, metadata: map<string, Value>)
    requires EntriesFrom(data, at, remaining, captured, metadata).Got?
    ensures var all := EntriesFrom(data, at, remaining, captured, metadata);
            EntriesFrom(data, at, remaining, {}, PlainAll(metadata)) == Got(PlainAll(all.value), all.next)
    decreases remaining
  {
    hide EntryAt, Plain;
    if remaining > 0 {
      var entry, next := EntryAt(data, at, captured).value, EntryAt(data, at, captured).next;
      EntryLockstep(data, at, captured);
      assert PlainAll(metadata[entry.key := entry.value]) == PlainAll(metadata)[entry.key := Plain(entry.value)];
      EntriesLockstep(data, next, remaining - 1, captured, metadata[entry.key := entry.value]);
    }
  }

  /** Up to the overlap check, capturing arrays changes nothing but array bodies. */
  lemma IndexLockstep(data: seq<byte>, captured: set<string>)
    requires Indexed(data, captured).Ok?
    ensures var index := Indexed(data, captured).value;
            Indexed(data, {}) == Ok(index.(metadata := PlainAll(index.metadata)))
  {
    var header := HeaderAt(data);
    EntriesLockstep(data, header.next, header.value.2, captured, map[]);
    var metadata := EntriesFrom(data, header.next, header.value.2, captured, map[]).value;
    assert PlainAll(map[]) == map[];
    assert AlignmentOf(PlainAll(metadata)) == AlignmentOf(metadata);
  }

  /** Any file accepted with captured arrays is accepted by plain inspection, which agrees on everything
      but array bodies; and one that captures but overlaps is refused for the same tensor. */
  lemma InspectionLockstep(data: seq<byte>, captured: set<string>, sort: seq<Tensor> -> seq<Tensor>)
    ensures Inspected(data, captured, sort).Ok? ==>
      var index := Inspected(data, captured, sort).value;
      Inspected(data, {}, sort) == Ok(index.(metadata := PlainAll(index.metadata)))
    ensures Indexed(data, captured).Ok? && Inspected(data, captured, sort).Err? ==>
      Inspected(data, {}, sort) == Inspected(data, captured, sort)
  {
    hide Indexed, PlainAll;
    if Indexed(data, captured).Ok? { IndexLockstep(data, captured); }
  }
}
