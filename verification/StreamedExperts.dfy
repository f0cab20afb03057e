/** The streamed expert cache: it reads from the model file straight into the slot it gives up, and
 *  relabels the slot only when both reads are done.
 */
module StreamedExperts {
  import opened Wrappers
  import opened Utf8
  import opened Lru
  import opened TensorLayout
  import opened GgufReader
  import opened GgufIndex

  datatype Layout = Layout(expertCount: nat, gateUpOffset: nat, gateUpBytes: nat, downOffset: nat, downBytes: nat)

  datatype Slot = Slot(tag: Tag, pinned: bool, gateUp: seq<byte>, down: seq<byte>)

  datatype Layer = Layer(slots: seq<Slot>, clock: nat)

  datatype Stats = Stats(hits: nat, misses: nat, evictions: nat, readCount: nat, bytesRead: nat)

  datatype CacheError = Cancelled | InvalidLayer | InvalidExpert | OffsetOverflow | Io

  /** What one read does if it fails, and what it leaves in the buffer then. */
  datatype Outcome = Outcome(fails: bool, left: seq<byte>)

  datatype Faults = Faults(cancelledBefore: bool, cancelledAfter: bool, gateUp: Outcome, down: Outcome)

  predicate InFile(data: seq<byte>, offset: nat, length: nat) { offset + length <= |data| }

  /** An in-place read: what the buffer holds afterwards, complete or not. */
  function After(data: seq<byte>, offset: nat, buffer: seq<byte>, outcome: Outcome): (r: seq<byte>)
    ensures |r| == |buffer|
  {
    if !outcome.fails && InFile(data, offset, |buffer|) then data[offset..offset + |buffer|]
    else if |outcome.left| == |buffer| then outcome.left
    else buffer
  }

  predicate Offsets(layout: Layout, expert: nat) {
    && ExpertOffset(layout.gateUpOffset, layout.gateUpBytes, expert).Some?
    && ExpertOffset(layout.downOffset, layout.downBytes, expert).Some?
  }

  /** The two stretches of the file that hold an expert, if they lie in the file. */
  function Stored(data: seq<byte>, layout: Layout, expert: nat): Option<(seq<byte>, seq<byte>)> {
    if !Offsets(layout, expert) then None
    else
      var gateUp := ExpertOffset(layout.gateUpOffset, layout.gateUpBytes, expert).value;
      var down := ExpertOffset(layout.downOffset, layout.downBytes, expert).value;
      if InFile(data, gateUp, layout.gateUpBytes) && InFile(data, down, layout.downBytes)
      then Some((data[gateUp..gateUp + layout.gateUpBytes], data[down..down + layout.downBytes]))
      else None
  }

  /** The layout of a layer whose experts are stacked in two tensors. */
  function LayoutOf(gateUp: Tensor, down: Tensor, experts: nat): Option<Layout> {
    match (BytesPerExpert(gateUp.raw.byteLength, experts), BytesPerExpert(down.raw.byteLength, experts))
    case (Some(gateUpBytes), Some(downBytes)) =>
      Some(Layout(experts, gateUp.absoluteOffset, gateUpBytes, down.absoluteOffset, downBytes))
    case _ => None
  }

  /** The bytes the CPU multiplies by for an expert of a rank-three tensor. */
  ghost predicate IsExpert(data: seq<byte>, tensor: Tensor, expert: nat, bytes: seq<byte>) {
    var slice := CpuExpertSlice(tensor.raw, expert);
    && tensor.End() <= |data| && slice.Some? && slice.value.start + slice.value.length <= tensor.raw.byteLength
    && bytes == TensorBytes(data, tensor)[slice.value.start..slice.value.start + slice.value.length]
  }

  lemma StoredPart(data: seq<byte>, index: Index, tensor: Tensor, expert: nat)
    requires Sound(index, tensor) && index.fileLength == |data| <= MAX_U64
    requires |tensor.raw.dimensions| == 3 && expert < tensor.raw.dimensions[2]
    ensures BytesPerExpert(tensor.raw.byteLength, tensor.raw.dimensions[2]).Some?
    ensures var length := BytesPerExpert(tensor.raw.byteLength, tensor.raw.dimensions[2]).value;
      var offset := ExpertOffset(tensor.absoluteOffset, length, expert);
      && offset.Some? && InFile(data, offset.value, length) && offset.value + length <= |data|
      && IsExpert(data, tensor, expert, data[offset.value..offset.value + length])
  {
    hide CpuExpertSlice;
    ExpertSlicesAgree(index, tensor, expert);
    SameExpertBytes(data, index, tensor, expert);
  }

  /** For every accepted index, what the cache stores as an expert is what the CPU multiplies by. */
  lemma StoredIsTheExpert(data: seq<byte>, index: Index, gateUp: Tensor, down: Tensor, expert: nat)
    requires Sound(index, gateUp) && Sound(index, down) && index.fileLength == |data| <= MAX_U64
    requires |gateUp.raw.dimensions| == |down.raw.dimensions| == 3
    requires expert < gateUp.raw.dimensions[2] == down.raw.dimensions[2]
    ensures var layout := LayoutOf(gateUp, down, gateUp.raw.dimensions[2]);
      && layout.Some? && Stored(data, layout.value, expert).Some?
      && var (gateUpBytes, downBytes) := Stored(data, layout.value, expert).value;
         IsExpert(data, gateUp, expert, gateUpBytes) && IsExpert(data, down, expert, downBytes)
  {
    hide IsExpert, Sound, BytesPerExpert, ExpertOffset;
    StoredPart(data, index, gateUp, expert);
    StoredPart(data, index, down, expert);
  }

  predicate Loads(data: seq<byte>, layout: Layout, expert: nat, faults: Faults) {
    Stored(data, layout, expert).Some? && !faults.gateUp.fails && !faults.down.fails
  }

  /** A slot after the reads for an expert were issued into its buffers. */
  function ReadInto(data: seq<byte>, layout: Layout, slot: Slot, expert: nat, faults: Faults): Slot
    requires Offsets(layout, expert)
  {
    slot.(
      gateUp := After(data, ExpertOffset(layout.gateUpOffset, layout.gateUpBytes, expert).value, slot.gateUp,
        faults.gateUp),
      down := After(data, ExpertOffset(layout.downOffset, layout.downBytes, expert).value, slot.down, faults.down))
  }

  function Tags(slots: seq<Slot>): (r: seq<Tag>)
    ensures |r| == |slots| && forall i: nat | i < |slots| :: r[i] == slots[i].tag
  {
    seq(|slots|, i requires 0 <= i < |slots| => slots[i].tag)
  }

  // ---------- One layer ----------

  /** An untorn slot holds exactly what the file stores for its expert. */
  ghost predicate SlotSound(data: seq<byte>, layout: Layout, slot: Slot, torn: bool) {
    && !slot.pinned && |slot.gateUp| == layout.gateUpBytes && |slot.down| == layout.downBytes
    && match slot.tag.expert
       case None => true
       case Some(e) => e < layout.expertCount && (!torn ==> Stored(data, layout, e) == Some((slot.gateUp, slot.down)))
  }

  ghost predicate LayerSound(data: seq<byte>, layout: Layout, layer: Layer, trace: seq<nat>, torn: seq<bool>,
      slots: nat) {
    && |layer.slots| == |torn| == slots
    && Realises(Tags(layer.slots), layer.clock, trace)
    && forall i: nat | i < |layer.slots| :: SlotSound(data, layout, layer.slots[i], torn[i])
  }

  /** A layer after one access that used slot v: a hit relabels it, a load overwrites it, and a failed
      load leaves its label and whatever the reads left. */
  function NextLayer(data: seq<byte>, layout: Layout, layer: Layer, v: nat, expert: nat, faults: Faults, hit: bool)
    : Layer
    requires v < |layer.slots|
  {
    var now, slot := Tag(Some(expert), layer.clock + 1), layer.slots[v];
    if hit then Layer(layer.slots[v := slot.(tag := now)], layer.clock + 1)
    else if !Offsets(layout, expert) then layer.(clock := layer.clock + 1)
    else
      var read := ReadInto(data, layout, slot, expert, faults);
      Layer(layer.slots[v := if Loads(data, layout, expert, faults) then read.(tag := now) else read], layer.clock + 1)
  }

  /** Which slots are torn after that access: a load heals its slot, a failed load tears it, and every
      other slot is left as it was. */
  function NextTorn(
    data: seq<byte>, layout: Layout, torn: seq<bool>, v: nat, expert: nat, faults: Faults, hit: bool): seq<bool>
    requires v < |torn|
  {
    if hit || !Offsets(layout, expert) then torn else torn[v := !Loads(data, layout, expert, faults)]
  }

  /** The slot an access uses: on a hit the expert's own, on a miss the least recently used. */
  predicate Uses(layer: Layer, v: nat, expert: nat, hit: bool) {
    && v < |layer.slots|
    && if hit then layer.slots[v].tag.expert == Some(expert)
       else forall i: nat | i < |layer.slots| :: Earlier(Tags(layer.slots), v, i)
  }

  /** The statistics after an access. */
  function Counted(stats: Stats, layout: Layout, hit: bool, full: bool, loads: bool): Stats {
    if hit then stats.(hits := stats.hits + 1)
    else
      var missed := stats.(misses := stats.misses + 1, evictions := stats.evictions + (if full then 1 else 0));
      if !loads then missed
      else missed.(
        readCount := missed.readCount + 2, bytesRead := missed.bytesRead + layout.gateUpBytes + layout.downBytes)
  }

  lemma TagsUpdate(slots: seq<Slot>, i: nat, slot: Slot)
    requires i < |slots|
    ensures Tags(slots[i := slot]) == Tags(slots)[i := slot.tag]
  {
  }

  /** The candidates for replacement are the unpinned slots, and the best of them is chosen. */
  method Victim(slots: seq<Slot>) returns (victim: Option<nat>)
    ensures victim.None? <==> forall i: nat | i < |slots| :: slots[i].pinned
    ensures victim.Some? ==> victim.value < |slots| && !slots[victim.value].pinned
    ensures victim.Some? ==> forall i: nat | i < |slots| && !slots[i].pinned :: Earlier(Tags(slots), victim.value, i)
  {
    victim := None;
    var tags := Tags(slots);
    for i := 0 to |slots|
      invariant victim.None? <==> forall j: nat | j < i :: slots[j].pinned
      invariant victim.Some? ==> victim.value < i && !slots[victim.value].pinned
      invariant victim.Some? ==> forall j: nat | j < i && !slots[j].pinned :: Earlier(tags, victim.value, j)
    {
      if !slots[i].pinned && (victim.None? || !Earlier(tags, victim.value, i)) {
        forall j: nat | j < i && !slots[j].pinned ensures Earlier(tags, i, j) {
          EarlierIsTransitive(tags, i, victim.value, j);
        }
        victim := Some(i);
      }
    }
  }

  lemma Hit(data: seq<byte>, layout: Layout, layer: Layer, trace: seq<nat>, torn: seq<bool>, slots: nat, e: nat, i: nat)
    requires LayerSound(data, layout, layer, trace, torn, slots)
    requires i < |layer.slots| && layer.slots[i].tag.expert == Some(e)
    ensures e in Resident(trace, slots)
    ensures LayerSound(data, layout,
      Layer(layer.slots[i := layer.slots[i].(tag := Tag(Some(e), layer.clock + 1))], layer.clock + 1),
      trace + [e], torn, slots)
  {
    HitRealises(Tags(layer.slots), layer.clock, trace, e, i);
    TagsUpdate(layer.slots, i, layer.slots[i].(tag := Tag(Some(e), layer.clock + 1)));
    assert SlotSound(data, layout, layer.slots[i], torn[i]);
  }

  lemma Loaded(
    data: seq<byte>, layout: Layout, layer: Layer, trace: seq<nat>, torn: seq<bool>, slots: nat, e: nat, victim: nat,
    faults: Faults)
    requires LayerSound(data, layout, layer, trace, torn, slots) && e < layout.expertCount
    requires forall i: nat | i < |layer.slots| :: layer.slots[i].tag.expert != Some(e)
    requires victim < |layer.slots| && forall i: nat | i < |layer.slots| :: Earlier(Tags(layer.slots), victim, i)
    requires Loads(data, layout, e, faults)
    ensures var slot := ReadInto(data, layout, layer.slots[victim], e, faults).(tag := Tag(Some(e), layer.clock + 1));
      && Stored(data, layout, e) == Some((slot.gateUp, slot.down))
      && LayerSound(data, layout, Layer(layer.slots[victim := slot], layer.clock + 1),
                    trace + [e], torn[victim := false], slots)
  {
    var slot := ReadInto(data, layout, layer.slots[victim], e, faults).(tag := Tag(Some(e), layer.clock + 1));
    MissRealises(Tags(layer.slots), layer.clock, trace, e, victim);
    TagsUpdate(layer.slots, victim, slot);
    assert SlotSound(data, layout, layer.slots[victim], torn[victim]);
    assert SlotSound(data, layout, slot, false);
  }

  /** A failed read keeps the labels and may tear the slot it was reading into. */
  lemma Torn(
    data: seq<byte>, layout: Layout, layer: Layer, trace: seq<nat>, torn: seq<bool>, slots: nat, victim: nat,
    expert: nat, faults: Faults)
    requires LayerSound(data, layout, layer, trace, torn, slots) && victim < |layer.slots| && Offsets(layout, expert)
    ensures LayerSound(data, layout,
      Layer(layer.slots[victim := ReadInto(data, layout, layer.slots[victim], expert, faults)], layer.clock + 1),
      trace, torn[victim := true], slots)
  {
    ClockMayAdvance(Tags(layer.slots), layer.clock, layer.clock + 1, trace);
    var slot := ReadInto(data, layout, layer.slots[victim], expert, faults);
    var after := layer.slots[victim := slot];
    TagsUpdate(layer.slots, victim, slot);
    assert Tags(after) == Tags(layer.slots);
    forall i: nat | i < |after| ensures SlotSound(data, layout, after[i], torn[victim := true][i]) {
      assert SlotSound(data, layout, layer.slots[i], torn[i]);
    }
  }

  /** Between accesses nothing is pinned. */
  lemma NothingPinned(data: seq<byte>, layout: Layout, layer: Layer, trace: seq<nat>, torn: seq<bool>, slots: nat)
    requires LayerSound(data, layout, layer, trace, torn, slots)
    ensures forall i: nat | i < |layer.slots| :: !layer.slots[i].pinned
  {
    forall i: nat | i < |layer.slots| ensures !layer.slots[i].pinned {
      assert SlotSound(data, layout, layer.slots[i], torn[i]);
    }
  }

  lemma Advanced(data: seq<byte>, layout: Layout, layer: Layer, trace: seq<nat>, torn: seq<bool>, slots: nat)
    requires LayerSound(data, layout, layer, trace, torn, slots)
    ensures LayerSound(data, layout, layer.(clock := layer.clock + 1), trace, torn, slots)
  {
    ClockMayAdvance(Tags(layer.slots), layer.clock, layer.clock + 1, trace);
  }

  // ---------- The cache ----------

  class ExpertCache {
    const data: seq<byte>
    const layouts: seq<Layout>
    const slotsPerLayer: nat
    var layers: seq<Layer>
    var stats: Stats
    /** Per layer, the experts of the acquires that succeeded. */
    ghost var traces: seq<seq<nat>>
    /** Per slot, whether a read into it failed after its last complete load. */
    ghost var torn: seq<seq<bool>>

    ghost predicate LayerValid(l: nat, layer: Layer, trace: seq<nat>, tears: seq<bool>)
      requires l < |layouts|
    {
      LayerSound(data, layouts[l], layer, trace, tears, slotsPerLayer)
    }

    ghost predicate Valid()
      reads this
    {
      && slotsPerLayer > 0 && |layouts| == |layers| == |traces| == |torn|
      && forall l: nat | l < |layers| :: LayerValid(l, layers[l], traces[l], torn[l])
    }

    constructor (data: seq<byte>, layouts: seq<Layout>, slotsPerLayer: nat)
      requires slotsPerLayer > 0
      ensures Valid() && stats == Stats(0, 0, 0, 0, 0)
      ensures this.data == data && this.layouts == layouts && this.slotsPerLayer == slotsPerLayer
      ensures traces == seq(|layouts|, l => []) && torn == seq(|layouts|, l => seq(slotsPerLayer, i => false))
    {
      var rows := seq(|layouts|, l requires 0 <= l < |layouts| => Layer(
        seq(slotsPerLayer,
          i => Slot(Tag(None, 0), false, seq(layouts[l].gateUpBytes, b => 0), seq(layouts[l].downBytes, b => 0))), 0));
      this.data, this.layouts, this.slotsPerLayer := data, layouts, slotsPerLayer;
      layers, stats := rows, Stats(0, 0, 0, 0, 0);
      traces, torn := seq(|layouts|, l => []), seq(|layouts|, l => seq(slotsPerLayer, i => false));
      forall l: nat | l < |rows| ensures Realises(Tags(rows[l].slots), 0, []) {
        EmptyRealises(Tags(rows[l].slots), 0);
      }
    }

    predicate InRange(layer: nat, expert: nat) {
      layer < |layouts| && expert < layouts[layer].expertCount
    }

    /** Replaces one layer and its ghost account. */
    method SetLayer(l: nat, layer: Layer, ghost trace: seq<nat>, ghost tears: seq<bool>)
      requires Valid() && l < |layers| && LayerValid(l, layer, trace, tears)
      modifies this`layers, this`traces, this`torn
      ensures Valid()
      ensures layers == old(layers)[l := layer] && traces == old(traces)[l := trace] && torn == old(torn)[l := tears]
    {
      layers, traces, torn := layers[l := layer], traces[l := trace], torn[l := tears];
    }

    /** The miss path. No slot is pinned between accesses, so there is always a victim. */
    method Miss(layer: nat, expert: nat, faults: Faults) returns (r: Result<nat, CacheError>, ghost v: nat)
      requires Valid() && InRange(layer, expert)
      requires forall i: nat | i < |layers[layer].slots| :: layers[layer].slots[i].tag.expert != Some(expert)
      modifies this
      ensures Valid() && expert !in Resident(old(traces)[layer], slotsPerLayer)
      ensures r.Ok? <==> Loads(data, layouts[layer], expert, faults)
      ensures r.Ok? ==> r.value == v
      ensures v < slotsPerLayer == |old(layers)[layer].slots| == |old(torn)[layer]|
      ensures Uses(old(layers)[layer], v, expert, false)
      ensures layers
        == old(layers)[layer := NextLayer(data, layouts[layer], old(layers)[layer], v, expert, faults, false)]
      ensures traces == if r.Ok? then old(traces)[layer := old(traces)[layer] + [expert]] else old(traces)
      ensures torn == old(torn)[layer := NextTorn(data, layouts[layer], old(torn)[layer], v, expert, faults, false)]
      ensures stats == Counted(old(stats), layouts[layer], false,
                               |Resident(old(traces)[layer], slotsPerLayer)| == slotsPerLayer, r.Ok?)
    {
      hide Resident, SlotSound, Realises, Offsets;
      ghost var trace, tears := traces[layer], torn[layer];
      var row, layout := layers[layer], layouts[layer];
      assert LayerValid(layer, row, trace, tears);
      stats := stats.(misses := stats.misses + 1);
      var victim := Victim(row.slots);
      NothingPinned(data, layout, row, trace, tears, slotsPerLayer);
      assert !row.slots[0].pinned;
      var index := victim.value;
      v := index;
      MissRealises(Tags(row.slots), row.clock, trace, expert, index);
      if row.slots[index].tag.expert.Some? { stats := stats.(evictions := stats.evictions + 1); }
      if !Offsets(layout, expert) {
        Advanced(data, layout, row, trace, tears, slotsPerLayer);
        SetLayer(layer, row.(clock := row.clock + 1), trace, tears);
        return Err(OffsetOverflow), v;
      }
      var slot := ReadInto(data, layout, row.slots[index], expert, faults);
      if faults.gateUp.fails || faults.down.fails || Stored(data, layout, expert).None? {
        Torn(data, layout, row, trace, tears, slotsPerLayer, index, expert, faults);
        SetLayer(layer, Layer(row.slots[index := slot], row.clock + 1), trace, tears[index := true]);
        return Err(Io), v;
      }
      Loaded(data, layout, row, trace, tears, slotsPerLayer, expert, index, faults);
      stats := stats.(readCount := stats.readCount + 2,
        bytesRead := stats.bytesRead + layout.gateUpBytes + layout.downBytes);
      SetLayer(layer, Layer(row.slots[index := slot.(tag := Tag(Some(expert), row.clock + 1))], row.clock + 1),
               trace + [expert], tears[index := false]);
      return Ok(index), v;
    }

    method Acquire(layer: nat, expert: nat, faults: Faults) returns (r: Result<nat, CacheError>, ghost v: nat)
      requires Valid()
      modifies this
      ensures Valid()
      ensures !InRange(layer, expert) ==> r.Err? && unchanged(this)
      ensures InRange(layer, expert) ==>
        var hit := expert in Resident(old(traces)[layer], slotsPerLayer);
        && (r.Ok? <==> hit || Loads(data, layouts[layer], expert, faults))
        && (r.Ok? ==> r.value == v)
        && v < slotsPerLayer == |old(layers)[layer].slots| == |old(torn)[layer]|
        && Uses(old(layers)[layer], v, expert, hit)
        && layers == old(layers)[layer := NextLayer(data, layouts[layer], old(layers)[layer], v, expert, faults, hit)]
        && (r.Ok? ==> layers[layer].slots[v].tag.expert == Some(expert))
        && traces == (if r.Ok? then old(traces)[layer := old(traces)[layer] + [expert]] else old(traces))
        && torn == old(torn)[layer := NextTorn(data, layouts[layer], old(torn)[layer], v, expert, faults, hit)]
        && stats == Counted(old(stats), layouts[layer], hit,
                            |Resident(old(traces)[layer], slotsPerLayer)| == slotsPerLayer, r.Ok?)
    {
      v := 0;
      if layer >= |layers| { return Err(InvalidLayer), v; }
      if expert >= layouts[layer].expertCount { return Err(InvalidExpert), v; }
      ghost var trace, tears := traces[layer], torn[layer];
      var row := layers[layer];
      assert LayerValid(layer, row, trace, tears);
      OccupiedIffResident(Tags(row.slots), row.clock, trace, expert);
      var found := FindSlot(Tags(row.slots), expert);
      if found.Some? {
        v := found.value;
        Hit(data, layouts[layer], row, trace, tears, slotsPerLayer, expert, found.value);
        var touched := row.slots[found.value].(tag := Tag(Some(expert), row.clock + 1));
        SetLayer(layer, Layer(row.slots[found.value := touched], row.clock + 1), trace + [expert], tears);
        stats := stats.(hits := stats.hits + 1);
        return Ok(found.value), v;
      }
      r, v := Miss(layer, expert, faults);
    }

    method SetPin(layer: nat, index: nat, pinned: bool)
      requires layer < |layers| && index < |layers[layer].slots|
      modifies this`layers
      ensures var row := old(layers)[layer];
        layers == old(layers)[layer := row.(slots := row.slots[index := row.slots[index].(pinned := pinned)])]
    {
      var row := layers[layer];
      layers := layers[layer := row.(slots := row.slots[index := row.slots[index].(pinned := pinned)])];
    }

    /** Runs the callback on a slot that is pinned meanwhile. */
    method UsePinned<T>(layer: nat, index: nat, use: (seq<byte>, seq<byte>) -> Result<T, CacheError>)
      returns (r: Result<T, CacheError>, ghost during: Slot)
      requires layer < |layers| && index < |layers[layer].slots| && !layers[layer].slots[index].pinned
      modifies this`layers
      ensures layers == old(layers) && during == layers[layer].slots[index].(pinned := true)
      ensures r == use(layers[layer].slots[index].gateUp, layers[layer].slots[index].down)
    {
      SetPin(layer, index, true);
      during := layers[layer].slots[index];
      r := use(layers[layer].slots[index].gateUp, layers[layer].slots[index].down);
      SetPin(layer, index, false);
      assert layers[layer].slots == old(layers)[layer].slots;
    }

    /** One access. The callback runs on a pinned slot that is labelled with the expert; unless a read
        into that slot has failed since it was loaded, it sees exactly the bytes the file stores. */
    method WithExpert<T>(layer: nat, expert: nat, faults: Faults, use: (seq<byte>, seq<byte>) -> Result<T, CacheError>)
      returns (r: Result<T, CacheError>, ghost v: nat, ghost during: Slot)
      requires Valid()
      modifies this
      ensures Valid()
      ensures !InRange(layer, expert) || faults.cancelledBefore ==> r.Err? && unchanged(this)
      ensures InRange(layer, expert) && !faults.cancelledBefore ==>
        var hit := expert in Resident(old(traces)[layer], slotsPerLayer);
        var ok := hit || Loads(data, layouts[layer], expert, faults);
        && v < slotsPerLayer == |old(layers)[layer].slots| == |old(torn)[layer]|
        && Uses(old(layers)[layer], v, expert, hit)
        && layers == old(layers)[layer := NextLayer(data, layouts[layer], old(layers)[layer], v, expert, faults, hit)]
        && traces == (if ok then old(traces)[layer := old(traces)[layer] + [expert]] else old(traces))
        && torn == old(torn)[layer := NextTorn(data, layouts[layer], old(torn)[layer], v, expert, faults, hit)]
        && stats == Counted(old(stats), layouts[layer], hit,
                            |Resident(old(traces)[layer], slotsPerLayer)| == slotsPerLayer, ok)
        && (!ok || faults.cancelledAfter ==> r.Err?)
        && (ok && !faults.cancelledAfter ==>
              r == use(during.gateUp, during.down) && during.tag.expert == Some(expert)
              && during == layers[layer].slots[v].(pinned := true))
        && (ok && !torn[layer][v] ==>
              Stored(data, layouts[layer], expert)
                == Some((layers[layer].slots[v].gateUp, layers[layer].slots[v].down)))
    {
      during := Slot(Tag(None, 0), false, [], []);
      if faults.cancelledBefore { return Err(Cancelled), 0, during; }
      var acquired;
      acquired, v := Acquire(layer, expert, faults);
      if acquired.Err? { return Err(acquired.error), v, during; }
      var index := acquired.value;
      assert LayerValid(layer, layers[layer], traces[layer], torn[layer]);
      assert SlotSound(data, layouts[layer], layers[layer].slots[index], torn[layer][index]);
      if faults.cancelledAfter { return Err(Cancelled), v, during; }
      r, during := UsePinned(layer, index, use);
    }
  }

  lemma OneSlot()
    ensures Resident([], 1) == [] && Resident([0], 1) == [0] && [] + [0] == [0]
  {
    assert [0][..0] == [] && Recent([0]) == Touch(Recent([]), 0);
  }

  /** The limit of the guarantee: after a failed read the old label still answers, with whatever the
      read left behind. Here the only slot holds expert 0, reading expert 1 into it fails, and the next
      access to expert 0 hits. */
  method TornSlotStillAnswers(data: seq<byte>, layout: Layout, left: seq<byte>)
    returns (served: Result<(seq<byte>, seq<byte>), CacheError>)
    requires layout.expertCount > 1 && |left| == layout.gateUpBytes
    requires Stored(data, layout, 0).Some? && Offsets(layout, 1)
    ensures served.Ok? && served.value.0 == left
  {
    hide Resident, Stored, Offsets;
    OneSlot();
    var fine := Outcome(false, []);
    var cache := new ExpertCache(data, [layout], 1);
    var view := (a, b) => Ok((a, b));
    var first, v, d := cache.WithExpert<(seq<byte>, seq<byte>)>(0, 0, Faults(false, false, fine, fine), view);
    assert cache.traces[0] == [0];
    var second, v', d' :=
      cache.WithExpert<(seq<byte>, seq<byte>)>(0, 1, Faults(false, false, Outcome(true, left), fine), view);
    assert cache.layers[0].slots[0].gateUp == left;
    var third, v'', d'' := cache.WithExpert<(seq<byte>, seq<byte>)>(0, 0, Faults(false, false, fine, fine), view);
    served := third;
  }
}
