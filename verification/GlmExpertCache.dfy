/** GLM's bounded expert cache: tensors are loaded into fresh memory, and only a complete load
 *  replaces a slot.
 */
module GlmExpertCache {
  import opened Wrappers
  import opened Utf8
  import opened Lru

  /** A stored tensor; `loadable` says whether its shape, dtype and scales pass the load's checks. */
  datatype Tensor = Tensor(bytes: seq<byte>, scales: Option<seq<int>>, loadable: bool)
  {
    function ResidentBytes(): nat {
      |bytes| + match scales case Some(s) => 4 * |s| case None => 0
    }

    function Reads(): nat { if scales.Some? then 2 else 1 }
  }

  datatype CachedExpert = CachedExpert(gate: Tensor, up: Tensor, down: Tensor)
  {
    function ResidentBytes(): nat {
      gate.ResidentBytes() + up.ResidentBytes() + down.ResidentBytes()
    }

    function Reads(): nat { gate.Reads() + up.Reads() + down.Reads() }
  }

  datatype ExpertTensors = ExpertTensors(gate: nat, up: nat, down: nat)

  datatype CacheSlot = CacheSlot(tag: Tag, value: Option<CachedExpert>)

  datatype Stats = Stats(hits: nat, misses: nat, evictions: nat, readCount: nat, bytesRead: nat, residentBytes: nat)

  /** The statistics after an access; `loaded` is what a miss loaded, if its load succeeded.  Resident
      bytes are the sum over the slots instead. */
  function Counted(stats: Stats, hit: bool, full: bool, loaded: Option<CachedExpert>): Stats {
    if hit then stats.(hits := stats.hits + 1)
    else
      var missed := stats.(misses := stats.misses + 1, evictions := stats.evictions + (if full then 1 else 0));
      match loaded
      case None => missed
      case Some(value) => missed.(
        readCount := missed.readCount + value.Reads(), bytesRead := missed.bytesRead + value.ResidentBytes())
  }

  datatype CacheError = Cancelled | InvalidExpert | TensorMissing | TensorRejected | Io

  /** What the world does during one access: I/O errors and cancellation at each point of choice. */
  datatype Faults = Faults(cancelledBefore: bool, gateIo: bool, upIo: bool, downIo: bool,
                           cancelledDuring: bool, cancelledAfter: bool)

  datatype Access = Access(layer: nat, expert: nat, faults: Faults)

  /** What an expert costs to read, counted while its tensors are read. */
  datatype LoadMetrics = LoadMetrics(count: nat, bytes: nat)

  /** One tensor, and its scales if it has some: F32 values of four bytes each. */
  method LoadTensor(source: seq<Tensor>, index: nat, io: bool)
    returns (r: Result<Tensor, CacheError>, metrics: LoadMetrics)
    ensures r.Ok? <==> index < |source| && source[index].loadable && !io
    ensures r.Ok? ==> r.value == source[index] && metrics == LoadMetrics(r.value.Reads(), r.value.ResidentBytes())
    ensures r.Err? ==>
      r.error == if index >= |source| then TensorMissing else if source[index].loadable then Io else TensorRejected
  {
    metrics := LoadMetrics(0, 0);
    if index >= |source| { return Err(TensorMissing), metrics; }
    var tensor := source[index];
    if !tensor.loadable { return Err(TensorRejected), metrics; }
    if io { return Err(Io), metrics; }
    metrics := LoadMetrics(1, |tensor.bytes|);
    if tensor.scales.Some? {
      metrics := LoadMetrics(metrics.count + 1, metrics.bytes + 4 * |tensor.scales.value|);
    }
    r := Ok(tensor);
  }

  function Tags(slots: seq<CacheSlot>): (r: seq<Tag>)
    ensures |r| == |slots|
  {
    seq(|slots|, i requires 0 <= i < |slots| => slots[i].tag)
  }

  // ---------- Sums over all slots ----------

  function Occupied(slot: CacheSlot): nat { if slot.tag.expert.Some? then 1 else 0 }

  function Bytes(slot: CacheSlot): nat { match slot.value case Some(v) => v.ResidentBytes() case None => 0 }

  function RowTotal(row: seq<CacheSlot>, weight: CacheSlot -> nat): nat {
    if row == [] then 0 else weight(row[0]) + RowTotal(row[1..], weight)
  }

  function Total(slots: seq<seq<CacheSlot>>, weight: CacheSlot -> nat): nat {
    if slots == [] then 0 else RowTotal(slots[0], weight) + Total(slots[1..], weight)
  }

  lemma {:induction false} RowTotalUpdate(row: seq<CacheSlot>, weight: CacheSlot -> nat, i: nat, slot: CacheSlot)
    requires i < |row|
    ensures RowTotal(row[i := slot], weight) + weight(row[i]) == RowTotal(row, weight) + weight(slot)
  {
    if i > 0 {
      assert row[i := slot][1..] == row[1..][i - 1 := slot];
      RowTotalUpdate(row[1..], weight, i - 1, slot);
    }
  }

  lemma {:induction false} TotalUpdate(slots: seq<seq<CacheSlot>>, weight: CacheSlot -> nat, l: nat, i: nat,
      slot: CacheSlot)
    requires l < |slots| && i < |slots[l]|
    ensures Total(slots[l := slots[l][i := slot]], weight) + weight(slots[l][i]) == Total(slots, weight) + weight(slot)
  {
    if l == 0 {
      RowTotalUpdate(slots[0], weight, i, slot);
    } else {
      assert slots[l := slots[l][i := slot]][1..] == slots[1..][l - 1 := slots[l][i := slot]];
      TotalUpdate(slots[1..], weight, l - 1, i, slot);
    }
  }

  lemma {:induction false} EmptyRow(row: seq<CacheSlot>, weight: CacheSlot -> nat)
    requires forall i | 0 <= i < |row| :: weight(row[i]) == 0
    ensures RowTotal(row, weight) == 0
  {
    if row != [] { EmptyRow(row[1..], weight); }
  }

  lemma {:induction false} EmptyTotal(slots: seq<seq<CacheSlot>>, weight: CacheSlot -> nat)
    requires forall l, i | 0 <= l < |slots| && 0 <= i < |slots[l]| :: weight(slots[l][i]) == 0
    ensures Total(slots, weight) == 0
  {
    if slots != [] {
      EmptyRow(slots[0], weight);
      EmptyTotal(slots[1..], weight);
    }
  }

  // ---------- The cache ----------

  class Glm52ExpertCache {
    const source: seq<Tensor>
    const experts: seq<Option<seq<ExpertTensors>>>
    const slotCount: nat
    var slots: seq<seq<CacheSlot>>
    var clock: nat
    var stats: Stats
    /** Per layer, the experts of the acquires that succeeded. */
    ghost var traces: seq<seq<nat>>
    /** Loads that failed while an empty slot was waiting for them. */
    ghost var failedFresh: nat

    predicate InRange(layer: nat, expert: nat) {
      layer < |experts| && experts[layer].Some? && expert < |experts[layer].value|
    }

    /** The three tensors stored for an expert, if all of them can be loaded at all. */
    function Stored(layer: nat, expert: nat): Option<CachedExpert>
      requires InRange(layer, expert)
    {
      var t := experts[layer].value[expert];
      if t.gate < |source| && t.up < |source| && t.down < |source|
        && source[t.gate].loadable && source[t.up].loadable && source[t.down].loadable
      then Some(CachedExpert(source[t.gate], source[t.up], source[t.down]))
      else None
    }

    predicate LoadSucceeds(layer: nat, expert: nat, faults: Faults)
      requires InRange(layer, expert)
    {
      Stored(layer, expert).Some? && !faults.gateIo && !faults.upIo && !faults.downIo && !faults.cancelledDuring
    }

    /** What a miss loads. */
    function Loaded(layer: nat, expert: nat, faults: Faults): Option<CachedExpert>
      requires InRange(layer, expert)
    {
      if LoadSucceeds(layer, expert, faults) then Stored(layer, expert) else None
    }

    ghost predicate SlotValid(layer: nat, slot: CacheSlot) {
      match slot.tag.expert
      case None => slot.value.None?
      case Some(e) => InRange(layer, e) && slot.value.Some? && slot.value == Stored(layer, e)
    }

    ghost predicate RowValid(l: nat, row: seq<CacheSlot>, clock: nat, trace: seq<nat>)
      requires l < |experts|
    {
      && |row| == (if experts[l].Some? then slotCount else 0)
      && Realises(Tags(row), clock, trace)
      && forall i | 0 <= i < |row| :: SlotValid(l, row[i])
    }

    ghost predicate Valid()
      reads this
    {
      && slotCount > 0
      && |experts| == |slots| == |traces|
      && (forall l: nat | l < |slots| :: RowValid(l, slots[l], clock, traces[l]))
      && stats.residentBytes == Total(slots, Bytes)
      && Total(slots, Occupied) + stats.evictions + failedFresh == stats.misses
    }

    constructor (source: seq<Tensor>, experts: seq<Option<seq<ExpertTensors>>>, slotCount: nat)
      requires slotCount > 0
      ensures Valid() && stats == Stats(0, 0, 0, 0, 0, 0) && failedFresh == 0
      ensures this.source == source && this.experts == experts && this.slotCount == slotCount
      ensures traces == seq(|experts|, l => [])
    {
      var empty := CacheSlot(Tag(None, 0), None);
      var rows := seq(|experts|, l requires 0 <= l < |experts| =>
        if experts[l].Some? then seq(slotCount, i => empty) else []);
      this.source, this.experts, this.slotCount := source, experts, slotCount;
      slots, clock, stats := rows, 0, Stats(0, 0, 0, 0, 0, 0);
      traces, failedFresh := seq(|experts|, l => []), 0;
      EmptyTotal(rows, Bytes);
      EmptyTotal(rows, Occupied);
      forall l: nat | l < |rows| ensures Realises(Tags(rows[l]), 0, []) {
        EmptyRealises(Tags(rows[l]), 0);
      }
    }

    /** The three reads into fresh memory; the first failure wins, cancellation comes last. */
    method LoadExpert(layer: nat, expert: nat, faults: Faults)
      returns (r: Result<CachedExpert, CacheError>, metrics: LoadMetrics)
      requires InRange(layer, expert)
      ensures r.Ok? <==> LoadSucceeds(layer, expert, faults)
      ensures r.Ok? ==> Some(r.value) == Stored(layer, expert)
      ensures r.Ok? ==> metrics == LoadMetrics(r.value.Reads(), r.value.ResidentBytes())
      ensures r == Err(Cancelled) ==> faults.cancelledDuring && Stored(layer, expert).Some?
      ensures r == Err(Io) ==> faults.gateIo || faults.upIo || faults.downIo
    {
      metrics := LoadMetrics(0, 0);
      var ids := experts[layer].value[expert];
      var gate, gateMetrics := LoadTensor(source, ids.gate, faults.gateIo);
      if gate.Err? { return Err(gate.error), metrics; }
      var up, upMetrics := LoadTensor(source, ids.up, faults.upIo);
      if up.Err? { return Err(up.error), metrics; }
      var down, downMetrics := LoadTensor(source, ids.down, faults.downIo);
      if down.Err? { return Err(down.error), metrics; }
      if faults.cancelledDuring { return Err(Cancelled), metrics; }
      metrics := LoadMetrics(gateMetrics.count + upMetrics.count + downMetrics.count,
                             gateMetrics.bytes + upMetrics.bytes + downMetrics.bytes);
      r := Ok(CachedExpert(gate.value, up.value, down.value));
    }

    lemma RowsLater()
      requires Valid()
      ensures forall l: nat | l < |slots| :: RowValid(l, slots[l], clock + 1, traces[l])
    {
      forall l: nat | l < |slots| ensures RowValid(l, slots[l], clock + 1, traces[l]) {
        ClockMayAdvance(Tags(slots[l]), clock, clock + 1, traces[l]);
      }
    }

    /** Stores one slot for an acquire that succeeded, at the clock value about to be current. */
    method WriteSlot(layer: nat, i: nat, slot: CacheSlot, ghost expert: nat)
      requires Valid() && layer < |slots| && i < |slots[layer]|
      requires RowValid(layer, slots[layer][i := slot], clock + 1, traces[layer] + [expert])
      modifies this`slots, this`traces
      ensures slots == old(slots)[layer := old(slots)[layer][i := slot]]
      ensures traces == old(traces)[layer := old(traces)[layer] + [expert]]
      ensures forall l: nat | l < |slots| :: RowValid(l, slots[l], clock + 1, traces[l])
      ensures Total(slots, Bytes) + Bytes(old(slots)[layer][i]) == Total(old(slots), Bytes) + Bytes(slot)
      ensures Total(slots, Occupied) + Occupied(old(slots)[layer][i]) == Total(old(slots), Occupied) + Occupied(slot)
      ensures Bytes(old(slots)[layer][i]) <= Total(old(slots), Bytes)
    {
      hide Realises, RowTotal, Total;
      RowsLater();
      TotalUpdate(slots, Bytes, layer, i, slot);
      TotalUpdate(slots, Bytes, layer, i, CacheSlot(Tag(None, 0), None));
      TotalUpdate(slots, Occupied, layer, i, slot);
      slots := slots[layer := slots[layer][i := slot]];
      traces := traces[layer := traces[layer] + [expert]];
    }

    lemma RowMiss(l: nat, row: seq<CacheSlot>, clock: nat, trace: seq<nat>, e: nat, victim: nat)
      requires l < |experts| && RowValid(l, row, clock, trace) && InRange(l, e)
      requires forall i: nat | i < |row| :: Tags(row)[i].expert != Some(e)
      requires victim < |row| && forall i: nat | i < |row| :: Earlier(Tags(row), victim, i)
      ensures row[victim].tag.expert.Some? <==> |Resident(trace, slotCount)| == slotCount
      ensures Stored(l, e).Some? ==>
        RowValid(l, row[victim := CacheSlot(Tag(Some(e), clock + 1), Stored(l, e))], clock + 1, trace + [e])
    {
      MissRealises(Tags(row), clock, trace, e, victim);
      var after := row[victim := CacheSlot(Tag(Some(e), clock + 1), Stored(l, e))];
      assert Tags(after) == Tags(row)[victim := Tag(Some(e), clock + 1)];
    }

    /** The miss path: count it, pick the victim, load, and only then replace the slot. */
    method Miss(layer: nat, expert: nat, faults: Faults) returns (r: Result<nat, CacheError>)
      requires Valid() && InRange(layer, expert)
      requires forall i: nat | i < |slots[layer]| :: Tags(slots[layer])[i].expert != Some(expert)
      modifies this
      ensures Valid()
      ensures r.Ok? <==> LoadSucceeds(layer, expert, faults)
      ensures r.Ok? ==> r.value < |slots[layer]| && slots[layer][r.value].value.Some?
                        && slots[layer][r.value].value == Stored(layer, expert)
      ensures r.Err? ==> slots == old(slots)
      ensures clock == old(clock) + 1
      ensures traces == if r.Ok? then old(traces)[layer := old(traces)[layer] + [expert]] else old(traces)
      ensures |slots| == |old(slots)| && forall l | 0 <= l < |slots| && l != layer :: slots[l] == old(slots)[l]
      ensures var full := |Resident(old(traces)[layer], slotCount)| == slotCount;
        && stats
          == Counted(old(stats), false, full, Loaded(layer, expert, faults)).(residentBytes := stats.residentBytes)
        && failedFresh == old(failedFresh) + (if r.Err? && !full then 1 else 0)
    {
      hide Realises, Total, RowTotal, Resident;
      ghost var trace := traces[layer];
      var row := slots[layer];
      var victim := ChooseVictim(Tags(row));
      RowMiss(layer, row, clock, trace, expert, victim);
      var loaded, metrics := LoadExpert(layer, expert, faults);
      var evicted := if row[victim].tag.expert.Some? then 1 else 0;
      if loaded.Err? {
        RowsLater();
        clock := clock + 1;
        stats := stats.(misses := stats.misses + 1, evictions := stats.evictions + evicted);
        failedFresh := failedFresh + 1 - evicted;
        return Err(loaded.error);
      }
      var value := loaded.value;
      WriteSlot(layer, victim, CacheSlot(Tag(Some(expert), clock + 1), Some(value)), expert);
      clock := clock + 1;
      stats := stats.(
        misses := stats.misses + 1,
        evictions := stats.evictions + evicted,
        readCount := stats.readCount + metrics.count,
        bytesRead := stats.bytesRead + metrics.bytes,
        residentBytes := stats.residentBytes - Bytes(row[victim]) + value.ResidentBytes());
      return Ok(victim);
    }

    lemma RowHit(l: nat, row: seq<CacheSlot>, clock: nat, trace: seq<nat>, e: nat, i: nat)
      requires l < |experts| && RowValid(l, row, clock, trace)
      requires i < |row| && row[i].tag.expert == Some(e)
      ensures RowValid(l, row[i := row[i].(tag := Tag(Some(e), clock + 1))], clock + 1, trace + [e])
    {
      HitRealises(Tags(row), clock, trace, e, i);
      assert Tags(row[i := row[i].(tag := Tag(Some(e), clock + 1))]) == Tags(row)[i := Tag(Some(e), clock + 1)];
    }

    method Acquire(layer: nat, expert: nat, faults: Faults) returns (r: Result<nat, CacheError>)
      requires Valid()
      modifies this
      ensures Valid()
      ensures !InRange(layer, expert) ==> r == Err(InvalidExpert) && unchanged(this)
      ensures InRange(layer, expert) ==>
        var resident := Resident(old(traces)[layer], slotCount);
        var hit := expert in resident;
        var full := |resident| == slotCount;
        && (r.Ok? <==> hit || LoadSucceeds(layer, expert, faults))
        && (r.Ok? ==> r.value < |slots[layer]| && slots[layer][r.value].value.Some?)
        && (r.Ok? ==> slots[layer][r.value].value == Stored(layer, expert))
        && (r.Err? ==> slots == old(slots)) && clock == old(clock) + 1
        && traces == (if r.Ok? then old(traces)[layer := old(traces)[layer] + [expert]] else old(traces))
        && stats == Counted(old(stats), hit, full, Loaded(layer, expert, faults)).(residentBytes := stats.residentBytes)
        && failedFresh == old(failedFresh) + (if r.Err? && !full then 1 else 0)
      ensures |slots| == |old(slots)| && forall l | 0 <= l < |slots| && l != layer :: slots[l] == old(slots)[l]
    {
      hide Realises, Total, RowTotal, Resident;
      if !InRange(layer, expert) { return Err(InvalidExpert); }
      ghost var trace := traces[layer];
      var row := slots[layer];
      OccupiedIffResident(Tags(row), clock, trace, expert);
      var found := FindSlot(Tags(row), expert);
      if found.Some? {
        RowHit(layer, row, clock, trace, expert, found.value);
        WriteSlot(layer, found.value, row[found.value].(tag := Tag(Some(expert), clock + 1)), expert);
        clock := clock + 1;
        stats := stats.(hits := stats.hits + 1);
        return Ok(found.value);
      }
      r := Miss(layer, expert, faults);
    }

    /** The callback's view of one access: it runs only on a fully loaded expert. */
    method WithExpert(layer: nat, expert: nat, faults: Faults) returns (r: Result<CachedExpert, CacheError>)
      requires Valid()
      modifies this
      ensures Valid()
      ensures r.Ok? ==> InRange(layer, expert) && Some(r.value) == Stored(layer, expert)
      ensures r.Ok? <==>
        && InRange(layer, expert) && !faults.cancelledBefore && !faults.cancelledAfter
        && (expert in Resident(old(traces)[layer], slotCount) || LoadSucceeds(layer, expert, faults))
      ensures !InRange(layer, expert) || faults.cancelledBefore ==> unchanged(this)
      ensures InRange(layer, expert) && !faults.cancelledBefore ==>
        var resident := Resident(old(traces)[layer], slotCount);
        var hit, full := expert in resident, |resident| == slotCount;
        var ok := hit || LoadSucceeds(layer, expert, faults);
        && traces == (if ok then old(traces)[layer := old(traces)[layer] + [expert]] else old(traces))
        && stats == Counted(old(stats), hit, full, Loaded(layer, expert, faults)).(residentBytes := stats.residentBytes)
        && failedFresh == old(failedFresh) + (if !ok && !full then 1 else 0)
        && (!ok ==> slots == old(slots))
      ensures |slots| == |old(slots)| && forall l | 0 <= l < |slots| && l != layer :: slots[l] == old(slots)[l]
    {
      if faults.cancelledBefore { return Err(Cancelled); }
      var slot := Acquire(layer, expert, faults);
      if slot.Err? { return Err(slot.error); }
      if faults.cancelledAfter { return Err(Cancelled); }
      r := Ok(slots[layer][slot.value].value.value);
    }

    /** The access gets as far as a slot: its expert is resident or loads. */
    ghost predicate Served(traces: seq<seq<nat>>, a: Access)
      requires |traces| == |experts|
    {
      && InRange(a.layer, a.expert) && !a.faults.cancelledBefore
      && (a.expert in Resident(traces[a.layer], slotCount) || LoadSucceeds(a.layer, a.expert, a.faults))
    }

    /** The traces after one access, from the traces before it. */
    ghost function TracesAfter(traces: seq<seq<nat>>, a: Access): (r: seq<seq<nat>>)
      requires |traces| == |experts|
      ensures |r| == |experts|
    {
      if Served(traces, a) then traces[a.layer := traces[a.layer] + [a.expert]] else traces
    }

    ghost function RunTraces(traces: seq<seq<nat>>, accesses: seq<Access>): (r: seq<seq<nat>>)
      requires |traces| == |experts|
      ensures |r| == |experts|
    {
      if accesses == [] then traces
      else TracesAfter(RunTraces(traces, accesses[..|accesses| - 1]), accesses[|accesses| - 1])
    }

    lemma ValidCounts()
      requires Valid()
      ensures |traces| == |experts|
    {
    }

    ghost predicate AnsweredRight(traces: seq<seq<nat>>, a: Access, r: Result<CachedExpert, CacheError>)
      requires |traces| == |experts|
    {
      && (r.Ok? <==> Served(traces, a) && !a.faults.cancelledAfter)
      && (r.Ok? ==> Some(r.value) == Stored(a.layer, a.expert))
    }

    /** The access would load its expert if it had to. */
    predicate Fine(a: Access) {
      InRange(a.layer, a.expert) ==> LoadSucceeds(a.layer, a.expert, a.faults)
    }

    method Serve(a: Access) returns (r: Result<CachedExpert, CacheError>)
      requires Valid()
      modifies this
      ensures Valid() && traces == TracesAfter(old(traces), a) && AnsweredRight(old(traces), a, r)
      ensures Fine(a) ==> failedFresh == old(failedFresh)
    {
      hide Valid, Resident, Stored;
      ValidCounts();
      r := WithExpert(a.layer, a.expert, a.faults);
    }

    lemma NothingRun(traces: seq<seq<nat>>)
      requires |traces| == |experts|
      ensures RunTraces(traces, []) == traces
    {
    }

    lemma RunSnoc(traces: seq<seq<nat>>, accesses: seq<Access>, i: nat)
      requires |traces| == |experts| && i < |accesses|
      ensures RunTraces(traces, accesses[..i + 1]) == TracesAfter(RunTraces(traces, accesses[..i]), accesses[i])
    {
      assert accesses[..i + 1][..i] == accesses[..i];
    }

    /** Any run of accesses: the traces are a function of the accesses and their faults alone, access i
        runs its callback exactly when the trace so far serves it and nothing cancels it, and then on
        exactly the tensors stored; without failed loads the slots account for every miss. */
    method Run(accesses: seq<Access>) returns (results: seq<Result<CachedExpert, CacheError>>)
      requires Valid()
      modifies this
      ensures Valid() && |results| == |accesses|
      ensures traces == RunTraces(old(traces), accesses)
      ensures forall i: nat | i < |accesses| ::
        AnsweredRight(RunTraces(old(traces), accesses[..i]), accesses[i], results[i])
      ensures (forall a <- accesses :: Fine(a)) ==> failedFresh == old(failedFresh)
    {
      hide *;
      ValidCounts();
      NothingRun(traces);
      results := [];
      for i := 0 to |accesses|
        invariant Valid() && |results| == i && traces == RunTraces(old(traces), accesses[..i])
        invariant forall j: nat | j < i :: AnsweredRight(RunTraces(old(traces), accesses[..j]), accesses[j], results[j])
        invariant (forall a <- accesses :: Fine(a)) ==> failedFresh == old(failedFresh)
      {
        RunSnoc(old(traces), accesses, i);
        assert accesses[i] in accesses;
        var r := Serve(accesses[i]);
        ValidCounts();
        results := results + [r];
      }
      assert accesses[..|accesses|] == accesses;
    }
  }
}
