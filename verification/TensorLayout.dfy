/** Where the rows and experts of an indexed tensor lie: the CPU slice of the tensor's bytes, the slice
 *  of the file mapping that Metal is given, and the range a streamed expert cache reads.
 */
module TensorLayout {
  import opened Wrappers
  import opened Utf8
  import opened FlatRows
  import opened GgufReader
  import opened GgufIndex

  datatype Slice = Slice(start: nat, length: nat)

  /** A product that stays within a machine word. */
  function Times(a: nat, b: nat): Option<nat> {
    if a * b > MAX_U64 then None else Some(a * b)
  }

  /** Bytes of one row, if its length is a whole number of blocks. */
  function RowByteLength(kind: nat, columns: nat): Option<nat> {
    match Layout(kind)
    case None => None
    case Some(layout) => if columns % layout.elements != 0 then None else Times(columns / layout.elements, layout.bytes)
  }

  /** One row of a rank-two tensor, within the tensor's bytes. */
  function RowSlice(raw: Raw, row: nat): Option<Slice> {
    if |raw.dimensions| != 2 || row >= raw.dimensions[1] then None
    else
      match RowByteLength(raw.kind, raw.dimensions[0])
      case None => None
      case Some(rowBytes) =>
        match Times(row, rowBytes)
        case None => None
        case Some(start) => Some(Slice(start, rowBytes))
  }

  /** One expert of a rank-three tensor, within the tensor's bytes: what the CPU multiplies by. */
  function CpuExpertSlice(raw: Raw, expert: nat): Option<Slice> {
    if |raw.dimensions| != 3 || expert >= raw.dimensions[2] then None
    else
      match RowByteLength(raw.kind, raw.dimensions[0])
      case None => None
      case Some(rowBytes) =>
        match Times(raw.dimensions[1], rowBytes)
        case None => None
        case Some(expertBytes) =>
          match Times(expert, expertBytes)
          case None => None
          case Some(start) => Some(Slice(start, expertBytes))
  }

  /** The same expert within the whole-file mapping. */
  function MappedExpertSlice(tensor: Tensor, expert: nat): Option<Slice> {
    match CpuExpertSlice(tensor.raw, expert)
    case None => None
    case Some(slice) =>
      if tensor.absoluteOffset + slice.start > MAX_U64 then None
      else Some(Slice(tensor.absoluteOffset + slice.start, slice.length))
  }

  function BytesPerExpert(total: nat, experts: nat): Option<nat> {
    if experts == 0 || total % experts != 0 then None else Some(total / experts)
  }

  /** A tensor is split among experts exactly when the same number of bytes for each makes it up. */
  lemma ExpertsShareEvenly(total: nat, experts: nat, bytes: nat)
    ensures BytesPerExpert(total, experts) == Some(bytes) <==> experts > 0 && total == bytes * experts
  {
    if experts > 0 {
      assert total == total / experts * experts + total % experts;
      RowCount(bytes, experts);
      MultipleHasNoRemainder(bytes, experts);
    }
  }

  /** Where in the file a streamed expert starts. */
  function ExpertOffset(base: nat, bytes: nat, expert: nat): Option<nat> {
    if expert * bytes > MAX_U64 || base + expert * bytes > MAX_U64 then None else Some(base + expert * bytes)
  }

  /** The offset is refused exactly when it leaves 64 bits. */
  lemma OffsetsFit(base: nat, bytes: nat, expert: nat)
    ensures ExpertOffset(base, bytes, expert)
         == if base + expert * bytes <= 0xFFFF_FFFF_FFFF_FFFF then Some(base + expert * bytes) else None
  {
  }

  /** What the streamed cache reads, from the tensor's byte length alone. */
  function StreamedExpertSlice(tensor: Tensor, experts: nat, expert: nat): Option<Slice> {
    match BytesPerExpert(tensor.raw.byteLength, experts)
    case None => None
    case Some(bytes) =>
      match ExpertOffset(tensor.absoluteOffset, bytes, expert)
      case None => None
      case Some(start) => Some(Slice(start, bytes))
  }

  // ---------- Arithmetic ----------

  lemma Regroup(a: nat, b: nat, c: nat, d: nat)
    ensures a * b * c * d == (a * c * d) * b
  {
    assert a * b * c == (a * c) * b;
    assert (a * c) * b * d == (a * c * d) * b;
  }

  lemma Pull(q: nat, r: nat, n: nat, w: nat)
    ensures q * r * n * w == n * (r * (q * w))
  {
    assert q * r * n * w == q * r * (n * w) == q * (r * (n * w));
    assert r * (q * w) == q * (r * w);
    assert n * (q * (r * w)) == q * (n * (r * w));
    assert n * (r * w) == r * (n * w);
  }

  lemma Covers(count: nat, width: nat, k: nat)
    requires k < count
    ensures k * width + width <= count * width && width <= count * width
  {
    RowFits(width, k, count);
    Distribute(count - 1, 1, width);
  }

  // ---------- Rank two ----------

  lemma MatrixBytes(raw: Raw)
    requires WellTyped(raw) && |raw.dimensions| == 2
    ensures RowByteLength(raw.kind, raw.dimensions[0]).Some?
    ensures var rowBytes := RowByteLength(raw.kind, raw.dimensions[0]).value;
            rowBytes > 0 && raw.byteLength == raw.dimensions[1] * rowBytes
  {
    var c, r := raw.dimensions[0], raw.dimensions[1];
    var layout := Layout(raw.kind).value;
    var q := c / layout.elements;
    assert Elements(raw.dimensions, 1) == Some(1 * c);
    assert Elements(raw.dimensions, 2) == Some(c * r);
    assert c == q * layout.elements;
    Regroup(q, layout.elements, r, 1);
    RowCount(q * r, layout.elements);
    Pull(q, r, 1, layout.bytes);
    Covers(r, q * layout.bytes, 0);
    assert q > 0;
    Covers(q, layout.bytes, 0);
  }

  /** The rows of a matrix lie inside it, back to back. */
  lemma RowsTile(raw: Raw, row: nat)
    requires WellTyped(raw) && raw.byteLength <= MAX_U64 && |raw.dimensions| == 2 && row < raw.dimensions[1]
    ensures var rowBytes := RowByteLength(raw.kind, raw.dimensions[0]);
            && rowBytes.Some? && RowSlice(raw, row) == Some(Slice(row * rowBytes.value, rowBytes.value))
            && row * rowBytes.value + rowBytes.value <= raw.byteLength == raw.dimensions[1] * rowBytes.value
  {
    hide RowByteLength;
    MatrixBytes(raw);
    Covers(raw.dimensions[1], RowByteLength(raw.kind, raw.dimensions[0]).value, row);
  }

  /** What one step of a decoder takes and fills: the blocks the CPU can turn into numbers. */
  function DecoderBlock(kind: nat): Option<BlockLayout> {
    match kind
    case 0 => Some(BlockLayout(1, 4)) // F32
    case 1 => Some(BlockLayout(1, 2)) // F16
    case 6 => Some(BlockLayout(32, 2 + 4 + 16)) // Q5_0: scale, high bits, nibbles
    case 8 => Some(BlockLayout(32, 2 + 32)) // Q8_0: scale, bytes
    case 12 => Some(BlockLayout(256, 2 + 2 + 12 + 128)) // Q4_K: scale, minimum, packed scales, nibbles
    case 14 => Some(BlockLayout(256, 128 + 64 + 16 + 2)) // Q6_K: low bits, high bits, scales, scale
    case _ => None
  }

  /** A row that has the length its type asks for is decoded to its last byte and its last element: the
      decoder's steps through both run out together. */
  lemma DecodersConsumeRows(kind: nat, columns: nat)
    requires DecoderBlock(kind).Some? && RowByteLength(kind, columns).Some?
    ensures var block, rowBytes := DecoderBlock(kind).value, RowByteLength(kind, columns).value;
            var steps := columns / block.elements;
            steps * block.elements == columns && steps * block.bytes == rowBytes
  {
  }

  /** There is a slice for exactly the rows of a matrix and the experts of a stack. */
  lemma OutsideIsRefused(raw: Raw, row: nat, expert: nat)
    ensures RowSlice(raw, row).Some? ==> |raw.dimensions| == 2 && row < raw.dimensions[1]
    ensures CpuExpertSlice(raw, expert).Some? ==> |raw.dimensions| == 3 && expert < raw.dimensions[2]
  {
  }

  // ---------- Rank three ----------

  /** The size of an expert, from the shape and from the byte length, is the same. */
  lemma ExpertBytes(raw: Raw)
    requires WellTyped(raw) && raw.byteLength <= MAX_U64 && |raw.dimensions| == 3
    ensures var rowBytes := RowByteLength(raw.kind, raw.dimensions[0]);
            && rowBytes.Some? && raw.dimensions[1] * rowBytes.value > 0
            && raw.byteLength == raw.dimensions[2] * (raw.dimensions[1] * rowBytes.value)
  {
    var c, r, n := raw.dimensions[0], raw.dimensions[1], raw.dimensions[2];
    var layout := Layout(raw.kind).value;
    var q := c / layout.elements;
    assert Elements(raw.dimensions, 3).Some?;
    assert Elements(raw.dimensions, 2).Some?;
    assert Elements(raw.dimensions, 1) == Some(1 * c);
    assert Elements(raw.dimensions, 2) == Some(c * r);
    assert Elements(raw.dimensions, 3) == Some(c * r * n);
    assert c == q * layout.elements;
    Regroup(q, layout.elements, r, n);
    RowCount(q * r * n, layout.elements);
    Pull(q, r, n, layout.bytes);
    Covers(n, r * (q * layout.bytes), 0);
    Covers(r, q * layout.bytes, 0);
    assert q > 0;
    Covers(q, layout.bytes, 0);
  }

  /** For every expert of every tensor of an accepted index, the three computations succeed and select
      the same bytes of the file, inside the tensor. */
  lemma ExpertSlicesAgree(index: Index, tensor: Tensor, expert: nat)
    requires Sound(index, tensor) && index.fileLength <= MAX_U64
    requires |tensor.raw.dimensions| == 3 && expert < tensor.raw.dimensions[2]
    ensures var experts := tensor.raw.dimensions[2];
            var length := tensor.raw.byteLength / experts;
            && length > 0 && tensor.raw.byteLength == experts * length
            && CpuExpertSlice(tensor.raw, expert) == Some(Slice(expert * length, length))
            && MappedExpertSlice(tensor, expert) == Some(Slice(tensor.absoluteOffset + expert * length, length))
            && StreamedExpertSlice(tensor, experts, expert) == MappedExpertSlice(tensor, expert)
            && expert * length + length <= tensor.raw.byteLength
  {
    var experts := tensor.raw.dimensions[2];
    ExpertBytes(tensor.raw);
    var length := tensor.raw.dimensions[1] * RowByteLength(tensor.raw.kind, tensor.raw.dimensions[0]).value;
    RowCount(length, experts);
    assert length * experts == tensor.raw.byteLength;
    MultipleHasNoRemainder(length, experts);
    Covers(experts, length, expert);
  }

  predicate Covering(tensor: Tensor, expert: nat, at: nat) {
    var slice := CpuExpertSlice(tensor.raw, expert);
    slice.Some? && slice.value.start <= at < slice.value.start + slice.value.length
  }

  /** Experts are equal stretches: a byte's owner is its position divided by the stretch. */
  lemma OwnerIsQuotient(tensor: Tensor, length: nat, expert: nat, at: nat)
    requires length > 0 && CpuExpertSlice(tensor.raw, expert) == Some(Slice(expert * length, length))
    ensures Covering(tensor, expert, at) <==> expert == at / length
  {
    hide CpuExpertSlice;
    var owner := at / length;
    assert at == owner * length + at % length;
    if owner < expert { Steps(owner, expert, length); }
    if expert < owner { Steps(expert, owner, length); }
  }

  lemma OwnerExists(at: nat, experts: nat, length: nat)
    requires length > 0 && at < experts * length
    ensures at / length < experts
  {
    assert at == at / length * length + at % length;
    if at / length >= experts { Steps(experts, at / length, length); }
  }

  /** The experts' slices tile the tensor: every byte of it belongs to exactly one expert. */
  lemma ExpertsTile(index: Index, tensor: Tensor, at: nat)
    requires Sound(index, tensor) && index.fileLength <= MAX_U64
    requires |tensor.raw.dimensions| == 3 && at < tensor.raw.byteLength
    ensures var experts := tensor.raw.dimensions[2];
            exists owner: nat :: owner < experts && Covering(tensor, owner, at)
              && forall other: nat :: other < experts && Covering(tensor, other, at) ==> other == owner
  {
    hide CpuExpertSlice, Covering;
    var experts := tensor.raw.dimensions[2];
    assert AllPositive(tensor.raw.dimensions);
    ExpertSlicesAgree(index, tensor, 0);
    var length := tensor.raw.byteLength / experts;
    var owner := at / length;
    OwnerExists(at, experts, length);
    forall expert: nat | expert < experts ensures Covering(tensor, expert, at) <==> expert == owner {
      ExpertSlicesAgree(index, tensor, expert);
      OwnerIsQuotient(tensor, length, expert, at);
    }
    assert Covering(tensor, owner, at);
  }

  // ---------- Bytes ----------

  function TensorBytes(data: seq<byte>, tensor: Tensor): seq<byte>
    requires tensor.End() <= |data|
  {
    data[tensor.absoluteOffset..tensor.End()]
  }

  lemma SliceOfSlice(data: seq<byte>, from: nat, to: nat, offset: nat, length: nat)
    requires from <= to <= |data| && offset + length <= to - from
    ensures data[from..to][offset..offset + length] == data[from + offset..from + offset + length]
  {
    var tensor, start := data[from..to], from + offset;
    var part, whole := tensor[offset..offset + length], data[start..start + length];
    forall i: nat | i < length ensures part[i] == whole[i] {
      assert part[i] == tensor[offset + i] == data[start + i];
    }
    assert part == whole;
  }

  /** The CPU slices the tensor's bytes, the other two slice the file: the bytes are the same. */
  lemma SameExpertBytes(data: seq<byte>, index: Index, tensor: Tensor, expert: nat)
    requires Sound(index, tensor) && index.fileLength == |data| <= MAX_U64
    requires |tensor.raw.dimensions| == 3 && expert < tensor.raw.dimensions[2]
    ensures var cpu := CpuExpertSlice(tensor.raw, expert);
            var streamed := StreamedExpertSlice(tensor, tensor.raw.dimensions[2], expert);
            && cpu.Some? && cpu.value.start + cpu.value.length <= tensor.raw.byteLength
            && streamed.Some? && streamed.value.start + streamed.value.length <= |data|
            && TensorBytes(data, tensor)[cpu.value.start..cpu.value.start + cpu.value.length]
               == data[streamed.value.start..streamed.value.start + streamed.value.length]
  {
    ExpertSlicesAgree(index, tensor, expert);
    hide CpuExpertSlice, StreamedExpertSlice;
    var slice := CpuExpertSlice(tensor.raw, expert).value;
    SliceOfSlice(data, tensor.absoluteOffset, tensor.End(), slice.start, slice.length);
  }

  /** A bounded read of part of a tensor: refused outside the tensor, and otherwise the bytes the file
      has there. */
  method ReadTensorAt(data: seq<byte>, tensor: Tensor, offset: nat, destination: array<byte>) returns (ok: bool)
    requires tensor.End() <= |data| <= MAX_U64
    modifies destination
    ensures ok <==> offset + destination.Length <= tensor.raw.byteLength
    ensures ok ==> destination[..] == TensorBytes(data, tensor)[offset..offset + destination.Length]
    ensures !ok ==> destination[..] == old(destination[..])
  {
    if offset + destination.Length > MAX_U64 || offset + destination.Length > tensor.raw.byteLength { return false; }
    var start := tensor.absoluteOffset + offset;
    for i := 0 to destination.Length
      invariant destination[..i] == data[start..start + i]
    {
      destination[i] := data[start + i];
    }
    assert destination[..destination.Length] == destination[..];
    SliceOfSlice(data, tensor.absoluteOffset, tensor.End(), offset, destination.Length);
    return true;
  }
}
