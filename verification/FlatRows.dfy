/** Flat buffers of equal-width rows, and the index arithmetic that goes with them. */
module FlatRows {

  lemma MulMonotone(c: nat, a: nat, b: nat)
    requires a <= b
    ensures c * a <= c * b && c * (a + 1) == c * a + c
  {
  }

  /** Row `row` of a flat buffer of rows of `width` elements. */
  function Row<F>(flat: seq<F>, width: nat, row: nat): seq<F>
    requires row * width + width <= |flat|
  {
    flat[row * width..row * width + width]
  }

  predicate IsRow<F(==)>(flat: seq<F>, width: nat, row: nat, r: seq<F>)
    requires row * width + width <= |flat|
  {
    |r| == width && forall j: nat | j < width :: r[j] == flat[row * width + j]
  }

  lemma RowFits(width: nat, row: nat, rows: nat)
    requires row < rows
    ensures row * width + width <= rows * width
  {
    var spare := rows - row - 1;
    assert rows * width == row * width + width + spare * width;
  }

  /** Reading a stretch of a spliced sequence that lies wholly inside or outside the written part. */
  lemma Spliced<F>(before: seq<F>, after: seq<F>, start: nat, written: seq<F>, at: nat, width: nat)
    requires |written| == width && start + width <= |before| && at + width <= |before|
    requires after == before[..start] + written + before[start + width..]
    requires at == start || at + width <= start || start + width <= at
    ensures after[at..at + width] == if at == start then written else before[at..at + width]
  {
  }

  /** Overwriting one row leaves every other row alone. */
  lemma OtherRows<F>(before: seq<F>, after: seq<F>, width: nat, rows: nat, row: nat, written: seq<F>, other: nat)
    requires row < rows && other < rows && |before| == rows * width && |written| == width
    requires row * width + width <= |before|
    requires after == before[..row * width] + written + before[row * width + width..]
    requires other * width + width <= |before|
    ensures Row(after, width, other) == if other == row then written else Row(before, width, other)
  {
    var start, at := row * width, other * width;
    if other < row { RowFits(width, other, row); }
    if row < other { RowFits(width, row, other); }
    assert |after| == |before| && (at == start || at + width <= start || start + width <= at);
    Spliced(before, after, start, written, at, width);
  }

  lemma RowCount(rows: nat, width: nat)
    requires width > 0
    ensures rows * width / width == rows
  {
    var quotient := rows * width / width;
    assert rows * width == width * quotient + rows * width % width;
    if quotient < rows { RowFits(width, quotient, rows); }
    if rows < quotient { RowFits(width, rows, quotient); }
  }

  method CopyRow<F>(destination: array<F>, offset: nat, row: seq<F>)
    requires offset + |row| <= destination.Length
    modifies destination
    ensures destination[..] == old(destination[..offset]) + row + old(destination[offset + |row|..])
  {
    for i := 0 to |row|
      invariant destination[..] == old(destination[..offset]) + row[..i] + old(destination[offset + i..])
    {
      destination[offset + i] := row[i];
    }
  }

  /** Moves everything one row towards the front and stores a new last row. */
  method ShiftIn<F>(buffer: array<F>, newest: seq<F>)
    requires |newest| <= buffer.Length
    modifies buffer
    ensures buffer[..] == old(buffer[|newest|..]) + newest
  {
    var width := |newest|;
    var kept := buffer.Length - width;
    for i := 0 to kept
      invariant forall j | 0 <= j < i :: buffer[j] == old(buffer[j + width])
      invariant forall j | i <= j < buffer.Length :: buffer[j] == old(buffer[j])
    {
      buffer[i] := buffer[i + width];
    }
    assert buffer[..kept] == old(buffer[width..]);
    CopyRow(buffer, kept, newest);
  }
}
