/** The sliding-window ring of the Metal backend against the unbounded cache of the CPU backend.
 *
 *  A ring keeps `capacity` slots and writes position p to slot p % capacity.  `truncate` only
 *  moves the position back, so a slot may still belong to a position that was truncated away.
 */
module RingKv {
  import opened Wrappers
  import opened FlatRows

  datatype Op<+T> = Append(entry: T) | Truncate(to: nat)

  // ---------- The CPU cache: a list ----------

  function Full<T>(ops: seq<Op<T>>): seq<T> {
    if ops == [] then []
    else
      var before := Full(ops[..|ops| - 1]);
      match ops[|ops| - 1]
      case Append(entry) => before + [entry]
      case Truncate(to) => if to < |before| then before[..to] else before
  }

  // ---------- The ring ----------

  /** A slot's content, tagged with the position that wrote it. */
  datatype Slot<+T> = Slot(owner: nat, entry: T)

  datatype Ring<+T> = Ring(position: nat, slots: map<nat, Slot<T>>)

  function Min(a: nat, b: nat): nat { if a < b then a else b }

  function Max(a: nat, b: nat): nat { if a < b then b else a }

  function Step<T>(capacity: nat, ring: Ring<T>, op: Op<T>): Ring<T>
    requires capacity > 0
  {
    match op
    case Append(entry) =>
      Ring(ring.position + 1, ring.slots[ring.position % capacity := Slot(ring.position, entry)])
    case Truncate(to) => ring.(position := Min(ring.position, to))
  }

  function Run<T>(capacity: nat, ops: seq<Op<T>>): Ring<T>
    requires capacity > 0
  {
    if ops == [] then Ring(0, map[])
    else Step(capacity, Run(capacity, ops[..|ops| - 1]), ops[|ops| - 1])
  }

  /** The first position attention reads. */
  function WindowStart(capacity: nat, position: nat): nat {
    position - Min(position, capacity)
  }

  /** Position q's slot was last written by position q. */
  ghost predicate Owned<T>(capacity: nat, ring: Ring<T>, q: nat)
    requires capacity > 0
  {
    q % capacity in ring.slots && ring.slots[q % capacity].owner == q
  }

  /** Every position attention reads still owns its slot. */
  ghost predicate Faithful<T>(capacity: nat, ops: seq<Op<T>>)
    requires capacity > 0
  {
    var ring := Run(capacity, ops);
    forall q: nat | WindowStart(capacity, ring.position) <= q < ring.position :: Owned(capacity, ring, q)
  }

  // ---------- Exactly which positions own their slot ----------

  /** Positions at or above the floor own their slots, positions below it do not. */
  function Floor<T>(capacity: nat, ops: seq<Op<T>>): nat
    requires capacity > 0
  {
    if ops == [] then 0
    else
      var before := ops[..|ops| - 1];
      var position := Run(capacity, before).position;
      match ops[|ops| - 1]
      case Append(_) => Max(Floor(capacity, before), WindowStart(capacity, position + 1))
      case Truncate(to) => Min(Floor(capacity, before), Min(position, to))
  }

  lemma SameSlot(capacity: nat, low: nat, high: nat)
    requires capacity > 0 && low < high && low % capacity == high % capacity
    ensures low + capacity <= high
  {
    var a, b := low / capacity, high / capacity;
    assert low == capacity * a + low % capacity && high == capacity * b + high % capacity;
    assert capacity * a < capacity * b;
    if b < a + 1 { MulMonotone(capacity, b, a); }
    MulMonotone(capacity, a + 1, b);
  }

  lemma NotAWholeLap(capacity: nat, low: nat, high: nat)
    requires capacity > 0 && low % capacity != high % capacity
    ensures low + capacity != high
  {
    var laps := (low + capacity) / capacity - low / capacity - 1;
    assert capacity * laps == low % capacity - (low + capacity) % capacity;
    if laps >= 1 { MulMonotone(capacity, 1, laps); }
    if laps <= -1 { MulMonotone(capacity, 1, -laps); }
  }

  /** For every run at all: a cached position owns its slot exactly when it is not below the floor,
      and the entry it then finds is the one in the full cache. */
  lemma {:induction false} OwnedIffAboveFloor<T>(capacity: nat, ops: seq<Op<T>>)
    requires capacity > 0
    ensures var ring, floor := Run(capacity, ops), Floor(capacity, ops);
      && ring.position == |Full(ops)|
      && WindowStart(capacity, ring.position) <= floor <= ring.position
      && forall q: nat | q < ring.position ::
           && (Owned(capacity, ring, q) <==> floor <= q)
           && (Owned(capacity, ring, q) ==> ring.slots[q % capacity].entry == Full(ops)[q])
  {
    if ops != [] {
      var before, op := ops[..|ops| - 1], ops[|ops| - 1];
      OwnedIffAboveFloor(capacity, before);
      var prior, ring, floor := Run(capacity, before), Run(capacity, ops), Floor(capacity, ops);
      if op.Append? {
        forall q: nat | q < ring.position
          ensures Owned(capacity, ring, q) <==> floor <= q
          ensures Owned(capacity, ring, q) ==> ring.slots[q % capacity].entry == Full(ops)[q]
        {
          if q < prior.position {
            if q % capacity == prior.position % capacity {
              SameSlot(capacity, q, prior.position);
            } else {
              assert Owned(capacity, ring, q) <==> Owned(capacity, prior, q);
              NotAWholeLap(capacity, q, prior.position);
            }
          }
        }
      } else {
        forall q: nat | q < ring.position
          ensures Owned(capacity, ring, q) <==> floor <= q
          ensures Owned(capacity, ring, q) ==> ring.slots[q % capacity].entry == Full(ops)[q]
        {
          assert Owned(capacity, ring, q) <==> Owned(capacity, prior, q);
        }
      }
    }
  }

  /** Attention is faithful after a run exactly when the floor is at its window's start. */
  lemma FaithfulIffFloorAtWindow<T>(capacity: nat, ops: seq<Op<T>>)
    requires capacity > 0
    ensures Faithful(capacity, ops) <==> Floor(capacity, ops) == WindowStart(capacity, Run(capacity, ops).position)
  {
    OwnedIffAboveFloor(capacity, ops);
    var ring := Run(capacity, ops);
    var start := WindowStart(capacity, ring.position);
    if start < Floor(capacity, ops) {
      assert !Owned(capacity, ring, start);
    }
  }

  /** What the attention kernel reads, in order. */
  function Window<T>(capacity: nat, ring: Ring<T>, default: T): (r: seq<T>)
    requires capacity > 0
  {
    var start := WindowStart(capacity, ring.position);
    seq(ring.position - start, i requires 0 <= i < ring.position - start =>
      var slot := (start + i) % capacity;
      if slot in ring.slots then ring.slots[slot].entry else default)
  }

  /** The last min(|s|, n) elements. */
  function Last<T>(s: seq<T>, n: nat): (r: seq<T>)
    ensures |r| == Min(|s|, n)
  {
    s[|s| - Min(|s|, n)..]
  }

  /** A faithful ring shows exactly the last min(position, capacity) entries of the full cache. */
  lemma FaithfulWindow<T>(capacity: nat, ops: seq<Op<T>>, default: T)
    requires capacity > 0 && Faithful(capacity, ops)
    ensures Run(capacity, ops).position == |Full(ops)|
    ensures Window(capacity, Run(capacity, ops), default) == Last(Full(ops), capacity)
  {
    OwnedIffAboveFloor(capacity, ops);
    var ring := Run(capacity, ops);
    var start := WindowStart(capacity, ring.position);
    forall i: nat | i < ring.position - start
      ensures Window(capacity, ring, default)[i] == Full(ops)[start..][i]
    {
      assert Owned(capacity, ring, start + i);
    }
  }

  // ---------- The condition a caller can check before truncating ----------

  /** The highest position count since the cache was last emptied. */
  function High<T>(ops: seq<Op<T>>): nat {
    if ops == [] then 0
    else
      var before := ops[..|ops| - 1];
      match ops[|ops| - 1]
      case Append(_) => Max(High(before), |Full(before)| + 1)
      case Truncate(to) => if to == 0 then 0 else High(before)
  }

  /** Truncating to `to` is harmless: it does nothing, empties the cache, the ring never
      wrapped, or at most one position is dropped from the highest count. */
  predicate HarmlessTruncate(capacity: nat, position: nat, high: nat, to: nat) {
    to >= position || to == 0 || high <= capacity || to + 1 >= high
  }

  /** Every truncate since the cache was last emptied was harmless. */
  predicate Disciplined<T>(capacity: nat, ops: seq<Op<T>>) {
    if ops == [] then true
    else
      var before, op := ops[..|ops| - 1], ops[|ops| - 1];
      if op.Append? then Disciplined(capacity, before)
      else if op.to == 0 then true
      else Disciplined(capacity, before) && HarmlessTruncate(capacity, |Full(before)|, High(before), op.to)
  }

  lemma FloorBounds<T>(capacity: nat, ops: seq<Op<T>>)
    requires capacity > 0
    ensures Run(capacity, ops).position == |Full(ops)|
    ensures WindowStart(capacity, |Full(ops)|) <= Floor(capacity, ops) <= |Full(ops)|
  {
    OwnedIffAboveFloor(capacity, ops);
  }

  lemma {:induction false} DisciplinedFloor<T>(capacity: nat, ops: seq<Op<T>>)
    requires capacity > 0 && Disciplined(capacity, ops)
    ensures var position, high := |Full(ops)|, High(ops);
      && position <= high
      && Floor(capacity, ops) == WindowStart(capacity, high)
      && (position + 1 >= high || high <= capacity)
  {
    if ops != [] {
      var before, op := ops[..|ops| - 1], ops[|ops| - 1];
      FloorBounds(capacity, before);
      assert Floor(capacity, ops)
        == if op.Append? then Max(Floor(capacity, before), WindowStart(capacity, |Full(before)| + 1))
           else Min(Floor(capacity, before), Min(|Full(before)|, op.to));
      if op.Append? || op.to > 0 { DisciplinedFloor(capacity, before); }
    }
  }

  /** An empty cache got there by a truncate to 0, or never held anything. */
  lemma {:induction false} EmptyIsDisciplined<T>(capacity: nat, ops: seq<Op<T>>)
    requires Full(ops) == []
    ensures Disciplined(capacity, ops)
  {
    if ops != [] && ops[|ops| - 1].Truncate? && ops[|ops| - 1].to > 0 {
      EmptyIsDisciplined(capacity, ops[..|ops| - 1]);
    }
  }

  /** Attention issued right after an append sees what the CPU cache shows, over every disciplined run. */
  lemma DisciplinedAppendIsFaithful<T>(capacity: nat, ops: seq<Op<T>>, entry: T)
    requires capacity > 0 && Disciplined(capacity, ops)
    ensures Faithful(capacity, ops + [Append(entry)])
  {
    var longer := ops + [Append(entry)];
    assert longer[..|ops|] == ops;
    DisciplinedFloor(capacity, ops);
    FloorBounds(capacity, ops);
    FaithfulIffFloorAtWindow(capacity, longer);
  }

  /** After a disciplined run, a truncate keeps attention faithful from the next append on
      exactly when it is harmless; otherwise a visible slot belongs to another position. */
  lemma TruncateIsFaithfulIffHarmless<T>(capacity: nat, ops: seq<Op<T>>, to: nat, entry: T)
    requires capacity >= 2 && Disciplined(capacity, ops)
    ensures Faithful(capacity, ops + [Truncate(to), Append(entry)])
      <==> HarmlessTruncate(capacity, |Full(ops)|, High(ops), to)
  {
    var cut := ops + [Truncate(to)];
    var longer := ops + [Truncate(to), Append(entry)];
    assert cut[..|ops|] == ops && longer[..|cut|] == cut;
    DisciplinedFloor(capacity, ops);
    FloorBounds(capacity, ops);
    FloorBounds(capacity, cut);
    FaithfulIffFloorAtWindow(capacity, longer);
  }

  // ---------- Forward passes and session reuse on one layer ----------

  /** How one `forward_token` leaves one layer: the failure paths roll back to the old position. */
  datatype Forward<+T> = Done(entry: T) | FailedBeforeAppend | FailedAfterAppend(entry: T)

  function ForwardOps<T>(steps: seq<Forward<T>>): seq<Op<T>> {
    if steps == [] then []
    else
      var before := ForwardOps(steps[..|steps| - 1]);
      match steps[|steps| - 1]
      case Done(entry) => before + [Append(entry)]
      case FailedBeforeAppend => before + [Truncate(|Full(before)|)]
      case FailedAfterAppend(entry) => before + [Append(entry), Truncate(|Full(before)|)]
  }

  lemma Snoc<T>(capacity: nat, ops: seq<Op<T>>, op: Op<T>)
    requires capacity > 0
    ensures Run(capacity, ops + [op]) == Step(capacity, Run(capacity, ops), op)
    ensures Full(ops + [op]) == match op
                                case Append(entry) => Full(ops) + [entry]
                                case Truncate(to) => Full(ops)[..Min(to, |Full(ops)|)]
    ensures High(ops + [op]) == match op
                                case Append(_) => Max(High(ops), |Full(ops)| + 1)
                                case Truncate(to) => if to == 0 then 0 else High(ops)
    ensures Disciplined(capacity, ops + [op])
      == if op.Append? then Disciplined(capacity, ops)
         else op.to == 0 || (Disciplined(capacity, ops) && HarmlessTruncate(capacity, |Full(ops)|, High(ops), op.to))
  {
    assert (ops + [op])[..|ops|] == ops;
  }

  /** Taking one append back is harmless after every disciplined run, reused prefixes included. */
  lemma RollbackAfterAppend<T>(capacity: nat, ops: seq<Op<T>>, entry: T)
    requires capacity > 0 && Disciplined(capacity, ops)
    ensures var rolled := ops + [Append(entry)] + [Truncate(|Full(ops)|)];
      && Disciplined(capacity, rolled)
      && Full(rolled) == Full(ops)
      && (High(ops) <= |Full(ops)| + 1 ==> |Full(ops)| <= High(rolled) <= |Full(ops)| + 1)
  {
    var appended := ops + [Append(entry)];
    DisciplinedFloor(capacity, ops);
    Snoc(capacity, ops, Append(entry));
    Snoc(capacity, appended, Truncate(|Full(ops)|));
  }

  /** Forwards alone, failed ones included, never leave the ring more than one position behind. */
  lemma {:induction false} RollbackIsHarmless<T>(capacity: nat, steps: seq<Forward<T>>)
    requires capacity > 0
    ensures Disciplined(capacity, ForwardOps(steps))
    ensures |Full(ForwardOps(steps))| <= High(ForwardOps(steps)) <= |Full(ForwardOps(steps))| + 1
  {
    if steps != [] {
      RollbackIsHarmless(capacity, steps[..|steps| - 1]);
      var before := ForwardOps(steps[..|steps| - 1]);
      match steps[|steps| - 1]
      case Done(entry) =>
        Snoc(capacity, before, Append(entry));
      case FailedBeforeAppend =>
        Snoc(capacity, before, Truncate(|Full(before)|));
      case FailedAfterAppend(entry) =>
        RollbackAfterAppend(capacity, before, entry);
        assert ForwardOps(steps) == before + [Append(entry)] + [Truncate(|Full(before)|)];
    }
  }

  /** A session that reuses `reusable` cached tokens truncates to them and forwards the rest:
      attention then agrees with the CPU exactly when that truncate was harmless. */
  lemma ReuseIsFaithfulIffHarmless<T>(capacity: nat, steps: seq<Forward<T>>, reusable: nat, entry: T)
    requires capacity >= 2
    ensures var ops := ForwardOps(steps);
      Faithful(capacity, ops + [Truncate(reusable), Append(entry)])
      <==> HarmlessTruncate(capacity, |Full(ops)|, High(ops), reusable)
  {
    RollbackIsHarmless(capacity, steps);
    TruncateIsFaithfulIffHarmless(capacity, ForwardOps(steps), reusable, entry);
  }

  lemma AppendRuns<T>(capacity: nat, ops: seq<Op<T>>, entry: T)
    requires capacity > 0
    ensures var ring := Run(capacity, ops);
      Run(capacity, ops + [Append(entry)])
      == Ring(ring.position + 1, ring.slots[ring.position % capacity := Slot(ring.position, entry)])
    ensures Full(ops + [Append(entry)]) == Full(ops) + [entry]
  {
    Snoc(capacity, ops, Append(entry));
  }

  lemma FourTokens()
    ensures ForwardOps([Done(10), Done(11), Done(12), Done(13)]) == [Append(10), Append(11), Append(12), Append(13)]
  {
    var done := [Done(10), Done(11), Done(12), Done(13)];
    assert done[..3] == [Done(10), Done(11), Done(12)] && done[..3][..2] == [Done(10), Done(11)];
    assert done[..3][..2][..1] == [Done(10)];
    assert ForwardOps([Done(10)]) == [Append(10)];
    assert ForwardOps([Done(10), Done(11)]) == [Append(10), Append(11)];
    assert ForwardOps(done[..3]) == [Append(10), Append(11), Append(12)];
  }

  lemma TwoAppends()
    ensures Run(2, [Append(10), Append(11)]) == Ring(2, map[0 := Slot(0, 10), 1 := Slot(1, 11)])
    ensures Full([Append(10), Append(11)]) == [10, 11]
  {
    var none: seq<Op<int>> := [];
    assert Run(2, none) == Ring(0, map[]) && Full(none) == [];
    hide Run, Full;
    AppendRuns(2, none, 10);
    assert none + [Append(10)] == [Append(10)] && [] + [10] == [10];
    AppendRuns(2, [Append(10)], 11);
    assert [Append(10)] + [Append(11)] == [Append(10), Append(11)];
  }

  lemma FourAppends()
    ensures Run(2, [Append(10), Append(11), Append(12), Append(13)]) == Ring(4, map[0 := Slot(2, 12), 1 := Slot(3, 13)])
    ensures Full([Append(10), Append(11), Append(12), Append(13)]) == [10, 11, 12, 13]
  {
    TwoAppends();
    hide Run, Full;
    AppendRuns(2, [Append(10), Append(11)], 12);
    assert [Append(10), Append(11)] + [Append(12)] == [Append(10), Append(11), Append(12)];
    AppendRuns(2, [Append(10), Append(11), Append(12)], 13);
    assert [Append(10), Append(11), Append(12)] + [Append(13)] == [Append(10), Append(11), Append(12), Append(13)];
  }

  /** The smallest failure: four cached tokens, a window of two, one reused token.  Attention at
      position 1 reads slot 0, which still holds position 2. */
  lemma ReuseCanBeStale()
    ensures var ops := ForwardOps([Done(10), Done(11), Done(12), Done(13)]) + [Truncate(1), Append(21)];
      && Full(ops) == [10, 21]
      && Window(2, Run(2, ops), 0) == [12, 21]
  {
    var four := [Append(10), Append(11), Append(12), Append(13)];
    FourTokens();
    FourAppends();
    hide Run, Full, ForwardOps, High;
    Snoc(2, four, Truncate(1));
    Snoc(2, four + [Truncate(1)], Append(21));
    assert four + [Truncate(1), Append(21)] == four + [Truncate(1)] + [Append(21)];
  }

  // ---------- The two caches as the program holds them ----------

  datatype Kv<F> = Kv(key: seq<F>, value: seq<F>)

  datatype CacheError = Position(expected: nat, actual: nat) | Width | Context(limit: nat) | Empty

  ghost predicate ShowsAt<F>(keys: seq<F>, values: seq<F>, width: nat, s: nat, kv: Kv<F>) {
    && s * width + width <= |keys| && s * width + width <= |values|
    && kv == Kv(Row(keys, width, s), Row(values, width, s))
  }

  /** The flat buffers hold, row by row, what the ring's slots hold. */
  ghost predicate Shows<F>(keys: seq<F>, values: seq<F>, width: nat, capacity: nat, slots: map<nat, Slot<Kv<F>>>) {
    && |keys| == |values| == capacity * width
    && forall s <- slots :: s < capacity && ShowsAt(keys, values, width, s, slots[s].entry)
  }

  lemma RowWritten<F>(
    keys: seq<F>, values: seq<F>, newKeys: seq<F>, newValues: seq<F>, width: nat, capacity: nat, slot: nat, kv: Kv<F>,
    s: nat, entry: Kv<F>)
    requires |keys| == |values| == capacity * width && slot < capacity && |kv.key| == |kv.value| == width
    requires slot * width + width <= |keys| && s < capacity
    requires newKeys == keys[..slot * width] + kv.key + keys[slot * width + width..]
    requires newValues == values[..slot * width] + kv.value + values[slot * width + width..]
    requires if s == slot then entry == kv else ShowsAt(keys, values, width, s, entry)
    ensures ShowsAt(newKeys, newValues, width, s, entry)
  {
    RowFits(width, s, capacity);
    OtherRows(keys, newKeys, width, capacity, slot, kv.key, s);
    OtherRows(values, newValues, width, capacity, slot, kv.value, s);
    hide Row;
  }

  lemma ShowsWritten<F>(
    keys: seq<F>, values: seq<F>, newKeys: seq<F>, newValues: seq<F>, width: nat, capacity: nat,
    slots: map<nat, Slot<Kv<F>>>, slot: nat, owner: nat, kv: Kv<F>)
    requires Shows(keys, values, width, capacity, slots) && slot < capacity && |kv.key| == |kv.value| == width
    requires slot * width + width <= |keys|
    requires newKeys == keys[..slot * width] + kv.key + keys[slot * width + width..]
    requires newValues == values[..slot * width] + kv.value + values[slot * width + width..]
    ensures Shows(newKeys, newValues, width, capacity, slots[slot := Slot(owner, kv)])
  {
    var after := slots[slot := Slot(owner, kv)];
    hide ShowsAt;
    forall s <- after ensures s < capacity && ShowsAt(newKeys, newValues, width, s, after[s].entry) {
      if s != slot { assert s in slots; }
      RowWritten(keys, values, newKeys, newValues, width, capacity, slot, kv, s, after[s].entry);
    }
  }

  /** On values: the i-th position attention reads finds the i-th of the last entries. */
  lemma WindowShows<T>(capacity: nat, ops: seq<Op<T>>, i: nat)
    requires capacity > 0 && Faithful(capacity, ops) && i < Min(Run(capacity, ops).position, capacity)
    ensures var ring := Run(capacity, ops);
      var start := ring.position - Min(ring.position, capacity);
      && |Full(ops)| == ring.position && (start + i) % capacity in ring.slots
      && Full(ops)[start..][i] == ring.slots[(start + i) % capacity].entry
  {
    OwnedIffAboveFloor(capacity, ops);
    assert Owned(capacity, Run(capacity, ops),
      Run(capacity, ops).position - Min(Run(capacity, ops).position, capacity) + i);
  }

  function AppendCheck(position: nat, actual: nat, maxContext: nat, key: nat, value: nat, width: nat)
    : Result<(), CacheError> {
    if actual != position then Err(Position(position, actual))
    else if position >= maxContext then Err(Context(maxContext))
    else if key != width || value != width then Err(Width)
    else Ok(())
  }

  class MetalKvLayer<F(0)> {
    const keys: array<F>
    const values: array<F>
    const width: nat
    const capacity: nat
    const maxContext: nat
    var position: nat
    ghost var history: seq<Op<Kv<F>>>

    ghost predicate Shape() {
      && 0 < width && 0 < capacity <= maxContext && keys != values
      && keys.Length == values.Length == capacity * width
    }

    ghost predicate Valid()
      reads this, keys, values
    {
      && Shape()
      && position == Run(capacity, history).position <= maxContext
      && Shows(keys[..], values[..], width, capacity, Run(capacity, history).slots)
    }

    constructor (width: nat, maxContext: nat, slidingWindow: Option<nat>)
      requires width > 0 && maxContext > 0 && (slidingWindow.Some? ==> slidingWindow.value > 0)
      ensures Valid() && history == [] && fresh(keys) && fresh(values)
      ensures capacity == (if slidingWindow.Some? then Min(slidingWindow.value, maxContext) else maxContext)
      ensures this.width == width && this.maxContext == maxContext
    {
      var slots := if slidingWindow.Some? then Min(slidingWindow.value, maxContext) else maxContext;
      RowFits(width, 0, slots);
      this.width, this.maxContext, capacity := width, maxContext, slots;
      keys, values := new F[slots * width], new F[slots * width];
      position, history := 0, [];
    }

    method Append(position: nat, key: seq<F>, value: seq<F>) returns (r: Result<(), CacheError>)
      requires Valid()
      modifies this, keys, values
      ensures Valid()
      ensures r ==
        if position != old(this.position) then Err(Position(position, old(this.position)))
        else if maxContext <= position then Err(Context(maxContext))
        else if !(|key| == |value| == width) then Err(Width)
        else Ok(())
      ensures history == if r.Ok? then old(history) + [Op.Append(Kv(key, value))] else old(history)
      ensures r.Err? ==> keys[..] == old(keys[..]) && values[..] == old(values[..])
    {
      r := AppendCheck(position, this.position, maxContext, |key|, |value|, width);
      if r.Err? { return; }
      var slot := position % capacity;
      RowFits(width, slot, capacity);
      ghost var ring := Run(capacity, history);
      ghost var oldKeys, oldValues := keys[..], values[..];
      CopyRow(keys, slot * width, key);
      CopyRow(values, slot * width, value);
      this.position := this.position + 1;
      AppendRuns(capacity, history, Kv(key, value));
      history := history + [Op.Append(Kv(key, value))];
      ShowsWritten(oldKeys, oldValues, keys[..], values[..], width, capacity, ring.slots, slot, position,
        Kv(key, value));
    }

    method Truncate(position: nat)
      requires Valid()
      modifies this`position, this`history
      ensures Valid() && history == old(history) + [Op.Truncate(position)]
      ensures this.position == Min(old(this.position), position)
    {
      this.position := Min(this.position, position);
      history := history + [Op.Truncate(position)];
      assert history[..|history| - 1] == old(history);
    }

    /** One slot's row of each buffer. */
    function RowOf(slot: nat): Kv<F>
      requires Shape() && slot < capacity
      reads this, keys, values
    {
      RowFits(width, slot, capacity);
      Kv(keys[slot * width..slot * width + width], values[slot * width..slot * width + width])
    }

    /** The i-th slot attention reads holds the i-th of the last entries of the full cache. */
    lemma SlotShows(i: nat)
      requires Valid() && Faithful(capacity, history) && i < Min(position, capacity)
      ensures var visible, slot := Min(position, capacity), (position - Min(position, capacity) + i) % capacity;
        && |Full(history)| == position && |Last(Full(history), capacity)| == visible
        && Last(Full(history), capacity)[i] == RowOf(slot)
    {
      hide Faithful, Full, Run;
      var slot := (position - Min(position, capacity) + i) % capacity;
      RowFits(width, slot, capacity);
      WindowShows(capacity, history, i);
      assert ShowsAt(keys[..], values[..], width, slot, Run(capacity, history).slots[slot].entry);
    }

    /** The key/value rows the attention kernel reads, oldest first. */
    method Visible() returns (r: Result<seq<Kv<F>>, CacheError>)
      requires Valid()
      ensures position == 0 <==> r == Err(Empty)
      ensures r.Ok? ==> |r.value| == Min(position, capacity)
      ensures r.Ok? && Faithful(capacity, history) ==>
        r.value == Last(Full(history), capacity)
    {
      hide Faithful, Full, Run, Last;
      if position == 0 { return Err(Empty); }
      var visible := Min(position, capacity);
      var start := position - visible;
      var rows: seq<Kv<F>> := [];
      ghost var last := Last(Full(history), capacity);
      if Faithful(capacity, history) { SlotShows(0); }
      for i := 0 to visible
        invariant |rows| == i
        invariant Faithful(capacity, history) ==> |last| == visible && rows == last[..i]
      {
        if Faithful(capacity, history) { SlotShows(i); }
        rows := rows + [RowOf((start + i) % capacity)];
      }
      r := Ok(rows);
    }
  }

  ghost predicate RowHolds<F>(keys: seq<F>, values: seq<F>, width: nat, entries: seq<Kv<F>>, q: nat)
    requires |keys| == |values| == |entries| * width && q < |entries|
  {
    RowFits(width, q, |entries|);
    entries[q] == Kv(Row(keys, width, q), Row(values, width, q))
  }

  ghost predicate RowsHold<F>(keys: seq<F>, values: seq<F>, width: nat, entries: seq<Kv<F>>) {
    && |keys| == |values| == |entries| * width
    && forall q: nat | q < |entries| :: RowHolds(keys, values, width, entries, q)
  }

  lemma RowAppended<F>(keys: seq<F>, key: seq<F>, width: nat, count: nat, q: nat)
    requires |keys| == count * width && |key| == width && q <= count
    ensures |keys + key| == (count + 1) * width && q * width + width <= |keys + key|
    ensures q < count ==> q * width + width <= |keys| && Row(keys + key, width, q) == Row(keys, width, q)
    ensures q == count ==> Row(keys + key, width, q) == key
  {
    MulMonotone(width, count, count + 1);
    RowFits(width, q, count + 1);
    if q < count { RowFits(width, q, count); }
  }

  lemma RowsAppend<F>(keys: seq<F>, values: seq<F>, width: nat, entries: seq<Kv<F>>, kv: Kv<F>)
    requires RowsHold(keys, values, width, entries) && |kv.key| == |kv.value| == width
    ensures RowsHold(keys + kv.key, values + kv.value, width, entries + [kv])
  {
    hide Row;
    var longer, count := entries + [kv], |entries|;
    RowAppended(keys, kv.key, width, count, count);
    RowAppended(values, kv.value, width, count, count);
    forall q: nat | q < |longer| ensures RowHolds(keys + kv.key, values + kv.value, width, longer, q) {
      RowAppended(keys, kv.key, width, count, q);
      RowAppended(values, kv.value, width, count, q);
      if q < count { assert RowHolds(keys, values, width, entries, q); }
    }
  }

  lemma RowKept<F>(keys: seq<F>, width: nat, count: nat, length: nat, q: nat)
    requires |keys| == count * width && q < length <= count && length * width <= |keys|
    ensures q * width + width <= length * width && Row(keys[..length * width], width, q) == Row(keys, width, q)
  {
    RowFits(width, q, length);
  }

  lemma RowsTruncate<F>(keys: seq<F>, values: seq<F>, width: nat, entries: seq<Kv<F>>, length: nat)
    requires RowsHold(keys, values, width, entries) && length <= |entries|
    ensures length * width <= |keys|
    ensures RowsHold(keys[..length * width], values[..length * width], width, entries[..length])
  {
    hide Row;
    if length < |entries| { RowFits(width, length, |entries|); }
    var size := length * width;
    var k, v := keys[..size], values[..size];
    forall q: nat | q < length ensures RowHolds(k, v, width, entries[..length], q) {
      RowKept(keys, width, |entries|, length, q);
      RowKept(values, width, |entries|, length, q);
      assert RowHolds(keys, values, width, entries, q);
    }
  }

  /** The CPU backend's layer cache: growing flat vectors, truncated from the end. */
  class LayerKv<F(==)> {
    const width: nat
    var keys: seq<F>
    var values: seq<F>
    ghost var history: seq<Op<Kv<F>>>

    ghost predicate Valid()
      reads this
    {
      width > 0 && RowsHold(keys, values, width, Full(history))
    }

    constructor (width: nat)
      requires width > 0
      ensures Valid() && history == [] && this.width == width
    {
      this.width := width;
      keys, values, history := [], [], [];
    }

    method Append(position: nat, key: seq<F>, value: seq<F>) returns (r: Result<(), CacheError>)
      requires Valid()
      modifies this
      ensures Valid()
      ensures r.Ok? <==> position == |Full(old(history))| && |key| == |value| == width
      ensures history == if r.Ok? then old(history) + [Op.Append(Kv(key, value))] else old(history)
      ensures r.Err? ==> keys == old(keys) && values == old(values)
    {
      RowCount(|Full(history)|, width);
      var actual := |keys| / width;
      if actual != position { return Err(Position(position, actual)); }
      if |key| != width || |value| != width { return Err(Width); }
      RowsAppend(keys, values, width, Full(history), Kv(key, value));
      keys, values := keys + key, values + value;
      history := history + [Op.Append(Kv(key, value))];
      assert history[..|history| - 1] == old(history);
      r := Ok(());
    }

    method Truncate(length: nat)
      requires Valid()
      modifies this
      ensures Valid() && history == old(history) + [Op.Truncate(length)]
    {
      ghost var before := Full(history);
      ghost var count := |before|;
      RowsTruncate(keys, values, width, Full(history), Min(length, count));
      if count < length { MulMonotone(width, count, length); }
      assert Min(length * width, |keys|) == Min(length, count) * width;
      keys := keys[..Min(length * width, |keys|)];
      values := values[..Min(length * width, |values|)];
      history := history + [Op.Truncate(length)];
      assert history[..|history| - 1] == old(history);
      assert Full(history) == before[..Min(length, count)];
    }

    /** The rows `attend` reads: all of them, or the last `window`. */
    method Attended(window: Option<nat>) returns (r: Result<seq<Kv<F>>, CacheError>)
      requires Valid()
      ensures Full(history) == [] <==> r == Err(Empty)
      ensures r.Ok? ==>
        var length := |Full(history)|;
        r.value == Full(history)[if window.Some? then length - Min(length, window.value) else 0..]
    {
      RowCount(|Full(history)|, width);
      var length := |keys| / width;
      if length == 0 { return Err(Empty); }
      var start := if window.Some? then length - Min(length, window.value) else 0;
      var rows: seq<Kv<F>> := [];
      for position := start to length
        invariant rows == Full(history)[start..position]
      {
        RowFits(width, position, length);
        assert RowHolds(keys, values, width, Full(history), position);
        rows := rows + [Kv(keys[position * width..position * width + width],
                           values[position * width..position * width + width])];
      }
      r := Ok(rows);
    }
  }

  /** With the same history, a faithful ring shows the rows the CPU cache attends to, in the same
      order; the ring's capacity is the window clipped to the context. */
  lemma BackendsAttendAlike<F>(history: seq<Op<Kv<F>>>, window: Option<nat>, maxContext: nat)
    requires maxContext > 0 && (window.Some? ==> window.value > 0)
    requires |Full(history)| <= maxContext
    requires Faithful(if window.Some? then Min(window.value, maxContext) else maxContext, history)
    ensures var length := |Full(history)|;
      var capacity := if window.Some? then Min(window.value, maxContext) else maxContext;
      Window(capacity, Run(capacity, history), Kv([], []))
      == Full(history)[if window.Some? then length - Min(length, window.value) else 0..]
  {
    FaithfulWindow(if window.Some? then Min(window.value, maxContext) else maxContext, history, Kv([], []));
  }
}
