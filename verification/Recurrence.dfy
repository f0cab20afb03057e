/** The Qwen recurrent layer over reals: the streaming convolution and the in-place gated delta rule
 *  against their batch definitions.
 */
module Recurrence {
  import opened FlatRows

  // ---------- Causal depthwise convolution ----------

  /** Channel c of the projection `back` tokens ago (1 is the newest); zero before the beginning. */
  ghost function Past(history: seq<seq<real>>, back: nat, c: nat): real {
    if 1 <= back <= |history| && c < |history[|history| - back]| then history[|history| - back][c] else 0.0
  }

  /** The first `taps` terms of the causal convolution of a whole history at its last token. */
  ghost function Causal(history: seq<seq<real>>, weights: seq<real>, kernel: nat, c: nat, taps: nat): real
    requires taps <= kernel && c * kernel + kernel <= |weights|
  {
    if taps == 0 then 0.0
    else
      Causal(history, weights, kernel, c, taps - 1)
      + Past(history, kernel - (taps - 1), c) * weights[c * kernel + taps - 1]
  }

  ghost function PastRow(history: seq<seq<real>>, back: nat, width: nat): (r: seq<real>)
    ensures |r| == width
  {
    seq(width, c requires 0 <= c < width => Past(history, back, c))
  }

  /** The last `rows` projections, oldest first, zero-padded in front. */
  ghost function PastRows(history: seq<seq<real>>, rows: nat, width: nat): (r: seq<real>)
    ensures |r| == rows * width
  {
    if rows == 0 then [] else PastRow(history, rows, width) + PastRows(history, rows - 1, width)
  }

  lemma {:induction false} PastRowsAt(history: seq<seq<real>>, rows: nat, width: nat, tap: nat, c: nat)
    requires tap < rows && c < width
    ensures tap * width + c < rows * width
    ensures PastRows(history, rows, width)[tap * width + c] == Past(history, rows - tap, c)
  {
    RowFits(width, tap, rows);
    if tap > 0 {
      PastRowsAt(history, rows - 1, width, tap - 1, c);
      assert tap * width + c == width + ((tap - 1) * width + c);
    }
  }

  /** A new projection pushes everything one row towards the past. */
  lemma {:induction false} PastRowsShift(history: seq<seq<real>>, rows: nat, width: nat, newest: seq<real>)
    requires |newest| == width && rows >= 1
    ensures PastRows(history + [newest], rows, width) == PastRows(history, rows - 1, width) + newest
  {
    var longer := history + [newest];
    if rows == 1 {
      assert PastRow(longer, 1, width) == newest;
      assert PastRows(longer, 0, width) == [] == PastRows(history, 0, width);
    } else {
      PastRowsShift(history, rows - 1, width, newest);
      assert PastRow(longer, rows, width) == PastRow(history, rows - 1, width);
    }
  }

  lemma NewestTap(history: seq<seq<real>>, newest: seq<real>, c: nat)
    requires c < |newest|
    ensures Past(history + [newest], 1, c) == newest[c]
  {
  }

  ghost predicate Convolved(history: seq<seq<real>>, weights: seq<real>, kernel: nat, c: nat, output: real) {
    c * kernel + kernel <= |weights| && output == Causal(history, weights, kernel, c, kernel)
  }

  lemma {:induction false} PastIsZero(rows: nat, width: nat)
    ensures forall i | 0 <= i < rows * width :: PastRows([], rows, width)[i] == 0.0
  {
    if rows > 0 { PastIsZero(rows - 1, width); }
  }

  class StreamingConvolution {
    const kernel: nat
    const projection: nat
    const buffer: array<real>
    ghost var history: seq<seq<real>>

    ghost predicate Valid()
      reads this, buffer
    {
      kernel >= 1 && buffer[..] == PastRows(history, kernel - 1, projection)
    }

    constructor (kernel: nat, projection: nat)
      requires kernel >= 1
      ensures Valid() && history == [] && fresh(buffer)
      ensures this.kernel == kernel && this.projection == projection
    {
      MulMonotone(projection, 0, kernel - 1);
      this.kernel, this.projection := kernel, projection;
      buffer := new real[(kernel - 1) * projection](i => 0.0);
      history := [];
      new;
      PastIsZero(kernel - 1, projection);
    }

    /** The buffer's cell for a tap is the projection that far back. */
    lemma TapReads(projected: seq<real>, tap: nat, c: nat)
      requires Valid() && tap + 1 < kernel && c < projection
      ensures tap * projection + c < buffer.Length
      ensures buffer[tap * projection + c] == Past(history + [projected], kernel - tap, c)
    {
      PastRowsAt(history, kernel - 1, projection, tap, c);
      assert buffer[tap * projection + c] == buffer[..][tap * projection + c];
      assert Past(history + [projected], kernel - tap, c) == Past(history, kernel - 1 - tap, c);
    }

    method ConvolveChannel(projected: seq<real>, weights: seq<real>, c: nat) returns (sum: real)
      requires Valid() && |projected| == projection && c < projection && c * kernel + kernel <= |weights|
      ensures sum == Causal(history + [projected], weights, kernel, c, kernel)
    {
      hide Past, PastRows;
      ghost var longer := history + [projected];
      sum := 0.0;
      for tap := 0 to kernel - 1
        invariant sum == Causal(longer, weights, kernel, c, tap)
      {
        TapReads(projected, tap, c);
        sum := buffer[tap * projection + c] * weights[c * kernel + tap] + sum;
      }
      NewestTap(history, projected, c);
      sum := projected[c] * weights[c * kernel + kernel - 1] + sum;
    }

    /** Drops the oldest row and stores the newest one. */
    method Shift(projected: seq<real>)
      requires Valid() && |projected| == projection
      modifies this`history, buffer
      ensures Valid() && history == old(history) + [projected]
    {
      if kernel > 1 {
        PastRowsShift(history, kernel - 1, projection, projected);
        assert buffer[..] == PastRow(history, kernel - 1, projection) + PastRows(history, kernel - 2, projection);
        MulMonotone(projection, 1, kernel - 1);
        ShiftIn(buffer, projected);
      }
      history := history + [projected];
    }

    method ConvolveAll(projected: seq<real>, weights: seq<real>) returns (convolved: seq<real>)
      requires Valid() && |projected| == projection && |weights| == projection * kernel
      ensures |convolved| == projection
      ensures forall c: nat | c < projection :: Convolved(history + [projected], weights, kernel, c, convolved[c])
    {
      convolved := [];
      for c := 0 to projection
        invariant |convolved| == c
        invariant forall k: nat | k < c :: Convolved(history + [projected], weights, kernel, k, convolved[k])
      {
        RowFits(kernel, c, projection);
        var sum := ConvolveChannel(projected, weights, c);
        convolved := convolved + [sum];
      }
    }

    /** One token: every channel is the full causal convolution of everything seen so far. */
    method Push(projected: seq<real>, weights: seq<real>) returns (convolved: seq<real>)
      requires Valid() && |projected| == projection && |weights| == projection * kernel
      modifies this`history, buffer
      ensures Valid() && history == old(history) + [projected]
      ensures |convolved| == projection
      ensures forall c: nat | c < projection :: Convolved(history, weights, kernel, c, convolved[c])
    {
      convolved := ConvolveAll(projected, weights);
      Shift(projected);
    }
  }

  // ---------- The gated delta rule ----------

  ghost function Sum(n: nat, f: nat -> real): real {
    if n == 0 then 0.0 else Sum(n - 1, f) + f(n - 1)
  }

  lemma {:induction false} SumExtensional(n: nat, f: nat -> real, g: nat -> real)
    requires forall i: nat | i < n :: f(i) == g(i)
    ensures Sum(n, f) == Sum(n, g)
  {
    if n > 0 { SumExtensional(n - 1, f, g); }
  }

  /** Rows are key components, columns are value components. */
  type Matrix = (nat, nat) -> real

  datatype HeadInput = HeadInput(query: seq<real>, key: seq<real>, value: seq<real>, decay: real, beta: real,
    scale: real)
  {
    predicate Sized(size: nat) { |query| == |key| == |value| == size }
  }

  function At(x: seq<real>, i: nat): real { if i < |x| then x[i] else 0.0 }

  ghost function Scaled(s: Matrix, factor: real): Matrix {
    (k: nat, v: nat) => s(k, v) * factor
  }

  ghost function Products(s: Matrix, v: nat, x: seq<real>): nat -> real {
    (k: nat) => s(k, v) * At(x, k)
  }

  /** The product of a state with a vector of key components: one entry per column. */
  ghost function Product(size: nat, s: Matrix, x: seq<real>, v: nat): real {
    Sum(size, Products(s, v, x))
  }

  ghost function CorrectedBy(size: nat, s: Matrix, input: HeadInput): Matrix {
    (k: nat, v: nat) => s(k, v)
      + At(input.key, k) * ((At(input.value, v) - Product(size, s, input.key, v)) * input.beta)
  }

  /** Decay, then the rank-one correction towards `value`, predicted from the decayed state. */
  ghost function DeltaRule(size: nat, s: Matrix, input: HeadInput): Matrix {
    CorrectedBy(size, Scaled(s, input.decay), input)
  }

  function ScaledQuery(input: HeadInput): seq<real> {
    seq(|input.query|, i requires 0 <= i < |input.query| => input.query[i] * input.scale)
  }

  /** The state of one head after a sequence of tokens. */
  ghost function Recur(size: nat, inputs: seq<HeadInput>): Matrix {
    if inputs == [] then (k: nat, v: nat) => 0.0
    else DeltaRule(size, Recur(size, inputs[..|inputs| - 1]), inputs[|inputs| - 1])
  }

  ghost predicate Agree(size: nat, s: Matrix, t: Matrix) {
    forall k: nat, v: nat | k < size && v < size :: s(k, v) == t(k, v)
  }

  lemma ProductAgrees(size: nat, s: Matrix, t: Matrix, x: seq<real>, v: nat)
    requires v < size && forall k: nat | k < size :: s(k, v) == t(k, v)
    ensures Product(size, s, x, v) == Product(size, t, x, v)
  {
    SumExtensional(size, Products(s, v, x), Products(t, v, x));
  }

  lemma DeltaRuleAgrees(size: nat, s: Matrix, t: Matrix, input: HeadInput)
    requires Agree(size, s, t)
    ensures Agree(size, DeltaRule(size, s, input), DeltaRule(size, t, input))
  {
    forall v: nat | v < size
      ensures Product(size, Scaled(s, input.decay), input.key, v) == Product(size, Scaled(t, input.decay), input.key, v)
    {
      ProductAgrees(size, Scaled(s, input.decay), Scaled(t, input.decay), input.key, v);
    }
  }

  // ---------- The in-place update of a flat state ----------

  function Cell(base: nat, size: nat, k: nat, v: nat): nat { base + k * size + v }

  ghost function BlockAt(flat: seq<real>, base: nat, size: nat, k: nat, v: nat): real {
    if base + k * size + v < |flat| then flat[base + k * size + v] else 0.0
  }

  ghost function Block(flat: seq<real>, base: nat, size: nat): Matrix {
    (k: nat, v: nat) => BlockAt(flat, base, size, k, v)
  }

  lemma CellInBlock(base: nat, size: nat, k: nat, v: nat)
    requires k < size && v < size
    ensures base <= Cell(base, size, k, v) < base + size * size
  {
    RowFits(size, k, size);
  }

  lemma CellsDiffer(base: nat, size: nat, k: nat, v: nat, k': nat, v': nat)
    requires v < size && v' < size && (k, v) != (k', v')
    ensures Cell(base, size, k, v) != Cell(base, size, k', v')
  {
    if k < k' { RowFits(size, k, k'); }
    if k' < k { RowFits(size, k', k); }
  }

  /** Only cells of the block may differ. */
  ghost predicate SameOutside(before: seq<real>, after: seq<real>, base: nat, size: nat) {
    |before| == |after| && forall i | 0 <= i < |before| && !(base <= i < base + size * size) :: after[i] == before[i]
  }

  /** Writing one cell of a block. */
  lemma WroteCell(before: seq<real>, after: seq<real>, base: nat, size: nat, k: nat, v: nat, x: real)
    requires k < size && v < size && base + size * size <= |before|
    requires Cell(base, size, k, v) < |before| && after == before[Cell(base, size, k, v) := x]
    ensures SameOutside(before, after, base, size)
    ensures forall k': nat, v': nat | k' < size && v' < size ::
      Block(after, base, size)(k', v') == if (k', v') == (k, v) then x else Block(before, base, size)(k', v')
  {
    CellInBlock(base, size, k, v);
    forall k': nat, v': nat | k' < size && v' < size && (k', v') != (k, v)
      ensures Block(after, base, size)(k', v') == Block(before, base, size)(k', v')
    {
      CellInBlock(base, size, k', v');
      CellsDiffer(base, size, k, v, k', v');
    }
  }

  method DecayBlock(state: array<real>, base: nat, size: nat, decay: real)
    requires base + size * size <= state.Length
    modifies state
    ensures SameOutside(old(state[..]), state[..], base, size)
    ensures Agree(size, Block(state[..], base, size), Scaled(Block(old(state[..]), base, size), decay))
  {
    for i := base to base + size * size
      invariant forall j | base <= j < i :: state[j] == old(state[j]) * decay
      invariant forall j | 0 <= j < state.Length && !(base <= j < i) :: state[j] == old(state[j])
    {
      state[i] := state[i] * decay;
    }
    forall k: nat, v: nat | k < size && v < size
      ensures Block(state[..], base, size)(k, v) == Scaled(Block(old(state[..]), base, size), decay)(k, v)
    {
      CellInBlock(base, size, k, v);
    }
  }

  method ColumnProduct(state: array<real>, base: nat, size: nat, v: nat, x: seq<real>) returns (sum: real)
    requires base + size * size <= state.Length && v < size && |x| == size
    ensures sum == Product(size, Block(state[..], base, size), x, v)
  {
    ghost var terms := Products(Block(state[..], base, size), v, x);
    sum := 0.0;
    for k := 0 to size
      invariant sum == Sum(k, terms)
    {
      CellInBlock(base, size, k, v);
      assert BlockAt(state[..], base, size, k, v) == state[Cell(base, size, k, v)];
      assert terms(k) == Block(state[..], base, size)(k, v) * At(x, k);
      assert Block(state[..], base, size)(k, v) == BlockAt(state[..], base, size, k, v);
      sum := state[Cell(base, size, k, v)] * x[k] + sum;
    }
  }

  /** One column after its correction; the other columns as they were. */
  ghost function Corrected(s: Matrix, key: seq<real>, column: nat, delta: real, rows: nat): Matrix {
    (k: nat, v: nat) => if v == column && k < rows then s(k, v) + At(key, k) * delta else s(k, v)
  }

  /** Adding one term to one cell of the column corrects one row more. */
  lemma CellCorrected(
    start: seq<real>, before: seq<real>, after: seq<real>, base: nat, size: nat, v: nat, key: seq<real>, delta: real,
    k: nat)
    requires k < size && v < size && |key| == size && base + size * size <= |before| == |start|
    requires SameOutside(start, before, base, size)
    requires Agree(size, Block(before, base, size), Corrected(Block(start, base, size), key, v, delta, k))
    requires Cell(base, size, k, v) < |before|
    requires after == before[Cell(base, size, k, v) := before[Cell(base, size, k, v)] + key[k] * delta]
    ensures SameOutside(start, after, base, size)
    ensures Agree(size, Block(after, base, size), Corrected(Block(start, base, size), key, v, delta, k + 1))
  {
    var x := before[Cell(base, size, k, v)] + key[k] * delta;
    WroteCell(before, after, base, size, k, v, x);
    assert Block(before, base, size)(k, v) == Block(start, base, size)(k, v);
    assert At(key, k) == key[k];
    hide Block, Cell;
  }

  method CorrectColumn(state: array<real>, base: nat, size: nat, v: nat, key: seq<real>, delta: real)
    requires base + size * size <= state.Length && v < size && |key| == size
    modifies state
    ensures SameOutside(old(state[..]), state[..], base, size)
    ensures Agree(size, Block(state[..], base, size), Corrected(Block(old(state[..]), base, size), key, v, delta, size))
  {
    ghost var start := state[..];
    hide Agree, SameOutside, Block;
    for k := 0 to size
      invariant SameOutside(start, state[..], base, size)
      invariant Agree(size, Block(state[..], base, size), Corrected(Block(start, base, size), key, v, delta, k))
    {
      CellInBlock(base, size, k, v);
      ghost var before := state[..];
      var cell := Cell(base, size, k, v);
      state[cell] := state[cell] + key[k] * delta;
      CellCorrected(start, before, state[..], base, size, v, key, delta, k);
    }
  }

  ghost function Halfway(done: Matrix, todo: Matrix, columns: nat): Matrix {
    (k: nat, v: nat) => if v < columns then done(k, v) else todo(k, v)
  }

  /** Correcting column v of a state whose columns before v are done does one column more; the
      prediction for column v does not see the columns already corrected. */
  lemma HalfwayStep(size: nat, s: Matrix, after: Matrix, decayed: Matrix, input: HeadInput, v: nat)
    requires v < size && input.Sized(size)
    requires Agree(size, s, Halfway(CorrectedBy(size, decayed, input), decayed, v))
    requires Agree(size, after,
      Corrected(s, input.key, v, (input.value[v] - Product(size, s, input.key, v)) * input.beta, size))
    ensures Agree(size, after, Halfway(CorrectedBy(size, decayed, input), decayed, v + 1))
  {
    ProductAgrees(size, s, decayed, input.key, v);
  }

  method CorrectColumns(state: array<real>, base: nat, size: nat, input: HeadInput, ghost decayed: Matrix)
    requires base + size * size <= state.Length && input.Sized(size)
    requires Agree(size, Block(state[..], base, size), decayed)
    modifies state
    ensures SameOutside(old(state[..]), state[..], base, size)
    ensures Agree(size, Block(state[..], base, size), CorrectedBy(size, decayed, input))
  {
    for v := 0 to size
      invariant SameOutside(old(state[..]), state[..], base, size)
      invariant Agree(size, Block(state[..], base, size), Halfway(CorrectedBy(size, decayed, input), decayed, v))
    {
      ghost var s := Block(state[..], base, size);
      var prediction := ColumnProduct(state, base, size, v, input.key);
      CorrectColumn(state, base, size, v, input.key, (input.value[v] - prediction) * input.beta);
      HalfwayStep(size, s, Block(state[..], base, size), decayed, input, v);
    }
  }

  method ReadColumns(state: array<real>, base: nat, size: nat, query: seq<real>, ghost s: Matrix)
    returns (output: seq<real>)
    requires base + size * size <= state.Length && |query| == size
    requires Agree(size, Block(state[..], base, size), s)
    ensures |output| == size && forall v: nat | v < size :: output[v] == Product(size, s, query, v)
  {
    output := [];
    for v := 0 to size
      invariant |output| == v && forall u: nat | u < v :: output[u] == Product(size, s, query, u)
    {
      var sum := ColumnProduct(state, base, size, v, query);
      ProductAgrees(size, Block(state[..], base, size), s, query, v);
      output := output + [sum];
    }
  }

  ghost function Readings(s: Matrix, v: nat, input: HeadInput): nat -> real {
    (k: nat) => s(k, v) * (At(input.query, k) * input.scale)
  }

  /** The head's output is the updated state read with the scaled query. */
  ghost predicate HeadOutput(size: nat, s: Matrix, input: HeadInput, output: seq<real>) {
    |output| == size && forall v: nat | v < size :: output[v] == Sum(size, Readings(s, v, input))
  }

  lemma ScaledReading(size: nat, s: Matrix, input: HeadInput, v: nat)
    requires input.Sized(size)
    ensures Product(size, s, ScaledQuery(input), v) == Sum(size, Readings(s, v, input))
  {
    forall k: nat | k < size ensures Products(s, v, ScaledQuery(input))(k) == Readings(s, v, input)(k) {
      assert At(ScaledQuery(input), k) == At(input.query, k) * input.scale;
    }
    SumExtensional(size, Products(s, v, ScaledQuery(input)), Readings(s, v, input));
  }

  lemma ReadingsAgree(size: nat, s: Matrix, t: Matrix, input: HeadInput, v: nat)
    requires v < size && Agree(size, s, t)
    ensures Sum(size, Readings(s, v, input)) == Sum(size, Readings(t, v, input))
  {
    SumExtensional(size, Readings(s, v, input), Readings(t, v, input));
  }

  /** One head of `gated_delta_update`: column after column in place gives the matrix rule. */
  method UpdateHead(state: array<real>, base: nat, size: nat, input: HeadInput) returns (output: seq<real>)
    requires base + size * size <= state.Length && input.Sized(size)
    modifies state
    ensures SameOutside(old(state[..]), state[..], base, size)
    ensures Agree(size, Block(state[..], base, size), DeltaRule(size, Block(old(state[..]), base, size), input))
    ensures HeadOutput(size, DeltaRule(size, Block(old(state[..]), base, size), input), input, output)
  {
    ghost var s := Block(state[..], base, size);
    DecayBlock(state, base, size, input.decay);
    ghost var decayed := Scaled(s, input.decay);
    CorrectColumns(state, base, size, input, decayed);
    ghost var now := DeltaRule(size, s, input);
    output := ReadColumns(state, base, size, ScaledQuery(input), now);
    forall v: nat | v < size ensures output[v] == Sum(size, Readings(now, v, input)) {
      ScaledReading(size, now, input, v);
    }
  }

  /** The flat per-token inputs of all heads; decays are already exponentiated gates. */
  datatype GatedDeltaInput = GatedDeltaInput(
    queries: seq<real>, keys: seq<real>, values: seq<real>, decays: seq<real>, betas: seq<real>,
    keyHeads: nat, valueHeads: nat, size: nat, scale: real)
  {
    predicate Valid() {
      && keyHeads > 0
      && |queries| == |keys| == keyHeads * size
      && |values| == valueHeads * size && |decays| == |betas| == valueHeads
    }

    /** Whose numbers value head h works on: its own value, decay and correction rate, and the query and
        key of key head h mod keyHeads. */
    ghost predicate IsHead(h: nat, input: HeadInput)
      requires Valid() && h < valueHeads
    {
      RowFits(size, h % keyHeads, keyHeads);
      RowFits(size, h, valueHeads);
      && IsRow(queries, size, h % keyHeads, input.query) && IsRow(keys, size, h % keyHeads, input.key)
      && IsRow(values, size, h, input.value)
      && input.decay == decays[h] && input.beta == betas[h] && input.scale == scale
    }

    /** Value heads share key heads cyclically. */
    function Head(h: nat): (input: HeadInput)
      requires Valid() && h < valueHeads
      ensures input.Sized(size) && IsHead(h, input)
    {
      var keyHead := h % keyHeads;
      RowFits(size, keyHead, keyHeads);
      RowFits(size, h, valueHeads);
      HeadInput(Row(queries, size, keyHead), Row(keys, size, keyHead), Row(values, size, h), decays[h], betas[h], scale)
    }

    function Heads(): (inputs: seq<HeadInput>)
      requires Valid()
      ensures |inputs| == valueHeads
    {
      seq(valueHeads, h requires 0 <= h < valueHeads => Head(h))
    }
  }

  // ---------- All heads, all tokens ----------

  /** Head g's block is the recurrence over its inputs. */
  ghost predicate HeadHolds(flat: seq<real>, past: seq<HeadInput>, g: nat, size: nat) {
    Agree(size, Block(flat, g * (size * size), size), Recur(size, past))
  }

  ghost function Column(history: seq<seq<HeadInput>>, h: nat, heads: nat): seq<HeadInput>
    requires h < heads && forall inputs <- history :: |inputs| == heads
  {
    seq(|history|, t requires 0 <= t < |history| => history[t][h])
  }

  ghost predicate HeadAt(flat: seq<real>, history: seq<seq<HeadInput>>, inputs: seq<HeadInput>, done: nat, heads: nat,
      g: nat, size: nat)
    requires g < heads && forall row <- history :: |row| == heads
    requires done > 0 ==> |inputs| == heads
  {
    HeadHolds(flat, Column(if g < done then history + [inputs] else history, g, heads), g, size)
  }

  /** The heads before `done` have seen the newest inputs, the others have not. */
  ghost predicate HeadsHold(flat: seq<real>, history: seq<seq<HeadInput>>, inputs: seq<HeadInput>, done: nat,
      heads: nat, size: nat)
    requires forall row <- history :: |row| == heads
    requires done > 0 ==> |inputs| == heads
  {
    forall g: nat | g < heads :: HeadAt(flat, history, inputs, done, heads, g, size)
  }

  lemma HeadsDone(flat: seq<real>, history: seq<seq<HeadInput>>, inputs: seq<HeadInput>, heads: nat, size: nat)
    requires |inputs| == heads && forall row <- history :: |row| == heads
    requires HeadsHold(flat, history, inputs, heads, heads, size)
    ensures HeadsHold(flat, history + [inputs], [], 0, heads, size)
  {
    forall g: nat | g < heads ensures HeadAt(flat, history + [inputs], [], 0, heads, g, size) {
      assert HeadAt(flat, history, inputs, heads, heads, g, size);
    }
  }

  lemma HeadsUntouched(flat: seq<real>, history: seq<seq<HeadInput>>, inputs: seq<HeadInput>, heads: nat, size: nat)
    requires |inputs| == heads && forall row <- history :: |row| == heads
    requires HeadsHold(flat, history, [], 0, heads, size)
    ensures HeadsHold(flat, history, inputs, 0, heads, size)
  {
    forall g: nat | g < heads ensures HeadAt(flat, history, inputs, 0, heads, g, size) {
      assert HeadAt(flat, history, [], 0, heads, g, size);
    }
  }

  lemma ZeroBlock(flat: seq<real>, base: nat, size: nat)
    requires forall i | 0 <= i < |flat| :: flat[i] == 0.0
    ensures Agree(size, Block(flat, base, size), Recur(size, []))
  {
    forall k: nat, v: nat ensures BlockAt(flat, base, size, k, v) == 0.0 {
    }
  }

  lemma ZeroHeads(flat: seq<real>, heads: nat, size: nat)
    requires |flat| == heads * (size * size) && forall i | 0 <= i < |flat| :: flat[i] == 0.0
    ensures HeadsHold(flat, [], [], 0, heads, size)
  {
    hide Agree, Block, Recur;
    forall g: nat | g < heads ensures HeadAt(flat, [], [], 0, heads, g, size) {
      ZeroBlock(flat, g * (size * size), size);
      assert Column([], g, heads) == [];
    }
  }

  lemma HeadStep(size: nat, was: Matrix, now: Matrix, past: seq<HeadInput>, input: HeadInput, output: seq<real>)
    requires Agree(size, was, Recur(size, past))
    requires Agree(size, now, DeltaRule(size, was, input))
      && HeadOutput(size, DeltaRule(size, was, input), input, output)
    ensures Agree(size, now, Recur(size, past + [input]))
    ensures HeadOutput(size, Recur(size, past + [input]), input, output)
  {
    assert (past + [input])[..|past|] == past;
    DeltaRuleAgrees(size, was, Recur(size, past), input);
    forall v: nat | v < size ensures output[v] == Sum(size, Readings(Recur(size, past + [input]), v, input)) {
      ReadingsAgree(size, DeltaRule(size, was, input), Recur(size, past + [input]), input, v);
    }
  }

  /** Updating one head's block leaves the other blocks alone. */
  lemma OtherHead(before: seq<real>, after: seq<real>, size: nat, heads: nat, h: nat, g: nat)
    requires h < heads && g < heads && h != g && |before| == heads * (size * size)
    requires SameOutside(before, after, h * (size * size), size)
    ensures Agree(size, Block(after, g * (size * size), size), Block(before, g * (size * size), size))
  {
    if g < h { RowFits(size * size, g, h); } else { RowFits(size * size, h, g); }
    forall k: nat, v: nat | k < size && v < size
      ensures Block(after, g * (size * size), size)(k, v) == Block(before, g * (size * size), size)(k, v)
    {
      CellInBlock(g * (size * size), size, k, v);
    }
  }

  lemma ColumnSnoc(history: seq<seq<HeadInput>>, inputs: seq<HeadInput>, h: nat, heads: nat)
    requires h < heads == |inputs| && forall row <- history :: |row| == heads
    ensures Column(history + [inputs], h, heads) == Column(history, h, heads) + [inputs[h]]
  {
  }

  lemma HeadsStep(was: seq<real>, now: seq<real>, history: seq<seq<HeadInput>>, inputs: seq<HeadInput>, h: nat,
      heads: nat, size: nat, output: seq<real>)
    requires h < heads == |inputs| && |was| == heads * (size * size) && forall row <- history :: |row| == heads
    requires HeadsHold(was, history, inputs, h, heads, size)
    requires SameOutside(was, now, h * (size * size), size)
    requires Agree(size, Block(now, h * (size * size), size),
      DeltaRule(size, Block(was, h * (size * size), size), inputs[h]))
    requires HeadOutput(size, DeltaRule(size, Block(was, h * (size * size), size), inputs[h]), inputs[h], output)
    ensures HeadsHold(now, history, inputs, h + 1, heads, size)
    ensures HeadOutput(size, Recur(size, Column(history + [inputs], h, heads)), inputs[h], output)
  {
    hide HeadOutput, DeltaRule, SameOutside;
    assert HeadAt(was, history, inputs, h, heads, h, size);
    ColumnSnoc(history, inputs, h, heads);
    HeadStep(size, Block(was, h * (size * size), size), Block(now, h * (size * size), size),
             Column(history, h, heads), inputs[h], output);
    var done := h + 1;
    forall g: nat | g < heads ensures HeadAt(now, history, inputs, done, heads, g, size) {
      if g != h {
        OtherHead(was, now, size, heads, h, g);
        assert HeadAt(was, history, inputs, h, heads, g, size);
      }
    }
  }

  /** The delta state of a layer: one square block per value head. */
  class DeltaState {
    const heads: nat
    const size: nat
    const state: array<real>
    /** Per token, the inputs of every head. */
    ghost var history: seq<seq<HeadInput>>

    ghost predicate Valid()
      reads this, state
    {
      && state.Length == heads * (size * size)
      && (forall inputs <- history :: |inputs| == heads)
      && HeadsHold(state[..], history, [], 0, heads, size)
    }

    constructor (heads: nat, size: nat)
      ensures Valid() && history == [] && fresh(state) && this.heads == heads && this.size == size
    {
      this.heads, this.size := heads, size;
      state := new real[heads * (size * size)](i => 0.0);
      history := [];
      new;
      ZeroHeads(state[..], heads, size);
    }

    method UpdateOne(h: nat, inputs: seq<HeadInput>) returns (output: seq<real>)
      requires h < heads == |inputs| && state.Length == heads * (size * size) && inputs[h].Sized(size)
      requires forall row <- history :: |row| == heads
      requires HeadsHold(state[..], history, inputs, h, heads, size)
      modifies state
      ensures HeadsHold(state[..], history, inputs, h + 1, heads, size)
      ensures HeadOutput(size, Recur(size, Column(history + [inputs], h, heads)), inputs[h], output)
    {
      RowFits(size * size, h, heads);
      ghost var was := state[..];
      output := UpdateHead(state, h * (size * size), size, inputs[h]);
      HeadsStep(was, state[..], history, inputs, h, heads, size, output);
    }

    /** One token: after it each head's block is the matrix recurrence over everything it was given. */
    method Update(inputs: seq<HeadInput>) returns (outputs: seq<seq<real>>)
      requires Valid() && |inputs| == heads && forall input <- inputs :: input.Sized(size)
      modifies this`history, state
      ensures Valid() && history == old(history) + [inputs]
      ensures |outputs| == heads && forall h: nat | h < heads ::
        HeadOutput(size, Recur(size, Column(history, h, heads)), inputs[h], outputs[h])
    {
      hide HeadsHold, HeadOutput, Recur, Column;
      outputs := [];
      HeadsUntouched(state[..], history, inputs, heads, size);
      for h := 0 to heads
        invariant history == old(history) && |outputs| == h
        invariant HeadsHold(state[..], history, inputs, h, heads, size)
        invariant forall g: nat | g < h ::
          HeadOutput(size, Recur(size, Column(history + [inputs], g, heads)), inputs[g], outputs[g])
      {
        var output := UpdateOne(h, inputs);
        outputs := outputs + [output];
      }
      HeadsDone(state[..], history, inputs, heads, size);
      history := history + [inputs];
    }

    /** The whole layer for one token: every value head's state moves on by its own inputs, and its output
        is read from it. */
    method GatedDeltaUpdate(input: GatedDeltaInput) returns (outputs: seq<seq<real>>)
      requires Valid() && input.Valid() && input.valueHeads == heads && input.size == size
      modifies this`history, state
      ensures Valid() && history == old(history) + [input.Heads()]
      ensures |outputs| == heads && forall h: nat | h < heads ::
        var newest := history[|history| - 1][h];
        input.IsHead(h, newest) && HeadOutput(size, Recur(size, Column(history, h, heads)), newest, outputs[h])
    {
      outputs := Update(input.Heads());
    }
  }
}
