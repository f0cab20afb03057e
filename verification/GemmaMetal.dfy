/** A Gemma session on the Metal backend: one ring per layer, truncated by moving positions only.  While
 *  every truncate since the rings were last emptied was harmless, it computes what the CPU session does.
 */
module GemmaMetal {
  import opened Wrappers
  import opened Generation
  import opened GemmaSession
  import R = RingKv

  type History = seq<R.Op<Kv>>

  predicate Allocatable(m: GemmaModel) {
    m.Valid() && m.maxContext > 0 && forall l: nat | l < |m.windows| && m.windows[l].Some? :: m.windows[l].value > 0
  }

  function Capacity(m: GemmaModel, l: nat): (capacity: nat)
    requires Allocatable(m) && l < |m.windows|
    ensures capacity > 0
  {
    match m.windows[l] case None => m.maxContext case Some(window) => R.Min(window, m.maxContext)
  }

  // ---------- One layer ----------

  /** What one layer does on the CPU: the next hidden vector and the longer list. */
  function LayerStep(m: GemmaModel, l: nat, hidden: Vector, position: nat, rows: seq<Kv>)
    : Result<(Vector, seq<Kv>), Error>
    requires l < |m.windows|
  {
    match m.project(l, hidden, position)
    case Err(code) => Err(Kernel(code))
    case Ok(kv) =>
      match m.mix(l, hidden, position, Attended(rows + [kv], m.windows[l]))
      case Err(code) => Err(Kernel(code))
      case Ok(next) => Ok((next, rows + [kv]))
  }

  lemma LayersStep(m: GemmaModel, l: nat, hidden: Vector, position: nat, caches: Caches)
    requires |caches| == |m.windows| && l < |m.windows|
    ensures Layers(m, l, hidden, position, caches)
         == match LayerStep(m, l, hidden, position, caches[l])
            case Err(e) => Err(e)
            case Ok((next, rows)) => Layers(m, l + 1, next, position, caches[l := rows])
  {
  }

  /** After a disciplined run attention reads exactly the rows it reads on the CPU. */
  lemma ReadsAsTheCpu(m: GemmaModel, l: nat, history: History, kv: Kv)
    requires Allocatable(m) && l < |m.windows| && R.Disciplined(Capacity(m, l), history)
    requires |R.Full(history)| < m.maxContext
    ensures R.Window(Capacity(m, l), R.Run(Capacity(m, l), history + [R.Append(kv)]), Kv([], []))
         == Attended(R.Full(history) + [kv], m.windows[l])
  {
    var capacity, longer := Capacity(m, l), history + [R.Append(kv)];
    R.DisciplinedAppendIsFaithful(capacity, history, kv);
    R.FaithfulWindow(capacity, longer, Kv([], []));
    R.Snoc(capacity, history, R.Append(kv));
  }

  // ---------- All layers ----------

  function Fulls(histories: seq<History>): Caches {
    seq(|histories|, l requires 0 <= l < |histories| => R.Full(histories[l]))
  }

  ghost predicate MatchingAt(m: GemmaModel, rings: seq<R.Ring<Kv>>, histories: seq<History>, l: nat, position: nat)
    requires Allocatable(m) && l < |m.windows| == |rings| == |histories|
  {
    && rings[l] == R.Run(Capacity(m, l), histories[l]) && |R.Full(histories[l])| == position
    && R.High(histories[l]) <= m.maxContext
  }

  /** Every ring is what its history makes it, and every list has `position` entries. */
  ghost predicate Matching(m: GemmaModel, rings: seq<R.Ring<Kv>>, histories: seq<History>, position: nat)
    requires Allocatable(m)
  {
    && |rings| == |histories| == |m.windows|
    && forall l: nat | l < |m.windows| :: MatchingAt(m, rings, histories, l, position)
  }

  ghost predicate AllDisciplined(m: GemmaModel, histories: seq<History>)
    requires Allocatable(m) && |histories| == |m.windows|
  {
    forall l: nat | l < |m.windows| :: R.Disciplined(Capacity(m, l), histories[l])
  }

  /** A truncate to `to` is harmless for every layer's ring. */
  ghost predicate AllHarmless(m: GemmaModel, histories: seq<History>, to: nat)
    requires Allocatable(m) && |histories| == |m.windows|
  {
    forall l: nat | l < |m.windows| ::
      R.HarmlessTruncate(Capacity(m, l), |R.Full(histories[l])|, R.High(histories[l]), to)
  }

  function Truncated(histories: seq<History>, to: nat): seq<History> {
    seq(|histories|, l requires 0 <= l < |histories| => histories[l] + [R.Truncate(to)])
  }

  /** The history of a layer during one forward: as before, or one entry longer. */
  ghost predicate MayGrow(before: History, after: History) {
    after == before || (|after| == |before| + 1 && after[..|before|] == before && after[|before|].Append?)
  }

  /** Rolling back restores the list, and leaves a disciplined history so and any other not. */
  lemma RolledBack(capacity: nat, before: History, after: History)
    requires capacity > 0 && MayGrow(before, after)
    ensures var rolled := after + [R.Truncate(|R.Full(before)|)];
      && R.Full(rolled) == R.Full(before) && R.High(rolled) <= R.High(after)
      && R.Disciplined(capacity, rolled) == R.Disciplined(capacity, before)
      && R.Run(capacity, rolled)
        == R.Run(capacity, after).(position := R.Min(R.Run(capacity, after).position, |R.Full(before)|))
  {
    var position := |R.Full(before)|;
    R.Snoc(capacity, after, R.Truncate(position));
    if position == 0 { R.EmptyIsDisciplined(capacity, before); }
    if after != before {
      var op := after[|before|];
      assert after == before + [op];
      R.Snoc(capacity, before, op);
      assert R.Full(after)[..position] == R.Full(before);
      if R.Disciplined(capacity, before) { R.RollbackAfterAppend(capacity, before, op.entry); }
    } else {
      assert R.Full(before)[..position] == R.Full(before);
    }
  }

  lemma AppendedTo(m: GemmaModel, rings: seq<R.Ring<Kv>>, histories: seq<History>, l: nat, kv: Kv)
    requires Allocatable(m) && l < |m.windows| == |rings| == |histories|
    requires rings[l] == R.Run(Capacity(m, l), histories[l])
    ensures var op := R.Append(kv);
      && R.Step(Capacity(m, l), rings[l], op) == R.Run(Capacity(m, l), histories[l] + [op])
      && R.Full(histories[l] + [op]) == R.Full(histories[l]) + [kv]
      && R.High(histories[l] + [op]) == R.Max(R.High(histories[l]), |R.Full(histories[l])| + 1)
      && R.Disciplined(Capacity(m, l), histories[l] + [op]) == R.Disciplined(Capacity(m, l), histories[l])
      && MayGrow(histories[l], histories[l] + [op])
  {
    R.Snoc(Capacity(m, l), histories[l], R.Append(kv));
  }

  ghost predicate RaggedAt(m: GemmaModel, before: seq<History>, rings: seq<R.Ring<Kv>>, histories: seq<History>, l: nat)
    requires Allocatable(m) && l < |m.windows| == |rings| == |histories| == |before|
  {
    && rings[l] == R.Run(Capacity(m, l), histories[l]) && MayGrow(before[l], histories[l])
    && R.High(histories[l]) <= R.Max(R.High(before[l]), |R.Full(before[l])| + 1)
    && R.Disciplined(Capacity(m, l), histories[l]) == R.Disciplined(Capacity(m, l), before[l])
  }

  /** During a forward: every ring is what its history makes it, no history lost anything. */
  ghost predicate Ragged(m: GemmaModel, before: seq<History>, rings: seq<R.Ring<Kv>>, histories: seq<History>)
    requires Allocatable(m)
  {
    && |rings| == |histories| == |before| == |m.windows|
    && forall l: nat | l < |m.windows| :: RaggedAt(m, before, rings, histories, l)
  }

  ghost predicate GrownAt(m: GemmaModel, before: seq<History>, histories: seq<History>, l: nat, k: nat, position: nat)
    requires k < |m.windows| == |histories| == |before|
  {
    if k < l then |R.Full(histories[k])| == position + 1
    else histories[k] == before[k] && |R.Full(histories[k])| == position
  }

  /** The layers below `l` hold one entry more, the others are untouched. */
  ghost predicate GrownBelow(m: GemmaModel, before: seq<History>, histories: seq<History>, l: nat, position: nat) {
    && |histories| == |before| == |m.windows|
    && forall k: nat | k < |m.windows| :: GrownAt(m, before, histories, l, k, position)
  }

  lemma StartsRagged(m: GemmaModel, rings: seq<R.Ring<Kv>>, histories: seq<History>, position: nat)
    requires Allocatable(m) && Matching(m, rings, histories, position)
    ensures Ragged(m, histories, rings, histories) && GrownBelow(m, histories, histories, 0, position)
  {
    forall l: nat | l < |m.windows|
      ensures RaggedAt(m, histories, rings, histories, l) && GrownAt(m, histories, histories, 0, l, position)
    {
      assert MatchingAt(m, rings, histories, l, position);
    }
  }

  lemma LayerIsNext(
    m: GemmaModel, ringsBefore: seq<R.Ring<Kv>>, start: seq<History>, rings: seq<R.Ring<Kv>>, histories: seq<History>,
    l: nat, position: nat)
    requires Allocatable(m) && l < |m.windows| && Matching(m, ringsBefore, start, position)
    requires Ragged(m, start, rings, histories) && GrownBelow(m, start, histories, l, position)
    ensures MatchingAt(m, rings, histories, l, position) && histories[l] == start[l]
  {
    assert RaggedAt(m, start, rings, histories, l) && GrownAt(m, start, histories, l, l, position);
    assert MatchingAt(m, ringsBefore, start, l, position);
  }

  lemma RowRan(m: GemmaModel, before: seq<History>, rings: seq<R.Ring<Kv>>, histories: seq<History>, l: nat)
    requires Allocatable(m) && l < |m.windows| == |rings| == |histories| == |before|
    requires rings[l] == R.Run(Capacity(m, l), histories[l]) && MayGrow(before[l], histories[l])
    requires R.High(histories[l]) <= R.Max(R.High(before[l]), |R.Full(before[l])| + 1)
    requires R.Disciplined(Capacity(m, l), histories[l]) == R.Disciplined(Capacity(m, l), before[l])
    ensures RaggedAt(m, before, rings, histories, l)
  {
  }

  lemma AllGrown(
    m: GemmaModel, ringsBefore: seq<R.Ring<Kv>>, start: seq<History>, rings: seq<R.Ring<Kv>>, histories: seq<History>,
    position: nat)
    requires Allocatable(m) && Matching(m, ringsBefore, start, position) && position < m.maxContext
    requires Ragged(m, start, rings, histories) && GrownBelow(m, start, histories, |m.windows|, position)
    ensures Matching(m, rings, histories, position + 1)
  {
    var longer := position + 1;
    forall l: nat | l < |m.windows| ensures MatchingAt(m, rings, histories, l, longer) {
      assert RaggedAt(m, start, rings, histories, l) && GrownAt(m, start, histories, |m.windows|, l, position);
      assert MatchingAt(m, ringsBefore, start, l, position);
    }
  }

  /** One more layer has run. */
  lemma LayerDone(
    m: GemmaModel, start: seq<History>, ringsBefore: seq<R.Ring<Kv>>, before: seq<History>,
    rings: seq<R.Ring<Kv>>, histories: seq<History>, l: nat, position: nat)
    requires Allocatable(m) && |rings| == |histories| == |m.windows| && l < |m.windows|
    requires Ragged(m, start, ringsBefore, before) && GrownBelow(m, start, before, l, position)
    requires forall k: nat | k < |m.windows| && k != l :: histories[k] == before[k] && rings[k] == ringsBefore[k]
    requires RaggedAt(m, before, rings, histories, l)
    ensures Ragged(m, start, rings, histories)
    ensures |R.Full(histories[l])| == position + 1 ==> GrownBelow(m, start, histories, l + 1, position)
  {
    assert GrownAt(m, start, before, l, l, position);
    forall k: nat | k < |m.windows| ensures RaggedAt(m, start, rings, histories, k) {
      assert RaggedAt(m, start, ringsBefore, before, k);
      if k != l { assert histories[k] == before[k]; }
    }
    if |R.Full(histories[l])| == position + 1 {
      var next := l + 1;
      forall k: nat | k < |m.windows| ensures GrownAt(m, start, histories, next, k, position) {
        assert GrownAt(m, start, before, l, k, position);
        if k != l { assert histories[k] == before[k]; }
      }
    }
  }

  lemma AlignedPosition(m: GemmaModel, rings: seq<R.Ring<Kv>>, histories: seq<History>, position: nat)
    requires Allocatable(m) && Matching(m, rings, histories, position)
    ensures |rings| == |histories| == |m.windows| && Position(Fulls(histories)) == position
  {
    assert MatchingAt(m, rings, histories, 0, position);
  }

  lemma StillDisciplined(m: GemmaModel, start: seq<History>, rings: seq<R.Ring<Kv>>, histories: seq<History>)
    requires Allocatable(m) && Ragged(m, start, rings, histories)
    ensures |histories| == |start| == |m.windows| && AllDisciplined(m, histories) == AllDisciplined(m, start)
  {
    forall l: nat | l < |m.windows|
      ensures R.Disciplined(Capacity(m, l), histories[l]) == R.Disciplined(Capacity(m, l), start[l])
    {
      assert RaggedAt(m, start, rings, histories, l);
    }
  }

  lemma RaggedRings(m: GemmaModel, start: seq<History>, rings: seq<R.Ring<Kv>>, histories: seq<History>)
    requires Allocatable(m) && Ragged(m, start, rings, histories)
    ensures |rings| == |histories| == |m.windows|
    ensures forall l: nat | l < |m.windows| :: rings[l] == R.Run(Capacity(m, l), histories[l])
  {
    forall l: nat | l < |m.windows| ensures rings[l] == R.Run(Capacity(m, l), histories[l]) {
      assert RaggedAt(m, start, rings, histories, l);
    }
  }

  lemma AllMatch(m: GemmaModel, rings: seq<R.Ring<Kv>>, histories: seq<History>, position: nat)
    requires Allocatable(m) && |rings| == |histories| == |m.windows|
    requires forall l: nat | l < |m.windows| :: rings[l] == R.Run(Capacity(m, l), histories[l])
    requires forall l: nat | l < |m.windows| ::
      |R.Full(histories[l])| == position && R.High(histories[l]) <= m.maxContext
    ensures Matching(m, rings, histories, position)
  {
  }

  /** Rolling every layer back restores all lists, and soundness exactly as it was. */
  lemma RolledBackAll(
    m: GemmaModel, ringsBefore: seq<R.Ring<Kv>>, start: seq<History>, rings: seq<R.Ring<Kv>>, histories: seq<History>,
    position: nat)
    requires Allocatable(m) && Matching(m, ringsBefore, start, position) && position < m.maxContext
    requires Ragged(m, start, rings, histories)
    ensures |histories| == |start| == |m.windows|
    ensures var rolled := Truncated(histories, position);
      && Fulls(rolled) == Fulls(start) && AllDisciplined(m, rolled) == AllDisciplined(m, start)
      && forall l: nat | l < |m.windows| :: |R.Full(rolled[l])| == position && R.High(rolled[l]) <= m.maxContext
  {
    var rolled := Truncated(histories, position);
    forall l: nat | l < |m.windows|
      ensures R.Full(rolled[l]) == R.Full(start[l]) && |R.Full(rolled[l])| == position
        && R.High(rolled[l]) <= m.maxContext
      ensures R.Disciplined(Capacity(m, l), rolled[l]) == R.Disciplined(Capacity(m, l), start[l])
    {
      assert RaggedAt(m, start, rings, histories, l) && MatchingAt(m, ringsBefore, start, l, position);
      RolledBack(Capacity(m, l), start[l], histories[l]);
    }
  }

  lemma MatchingRings(m: GemmaModel, rings: seq<R.Ring<Kv>>, histories: seq<History>, position: nat)
    requires Allocatable(m) && Matching(m, rings, histories, position)
    ensures |rings| == |histories| == |m.windows|
    ensures forall l: nat | l < |m.windows| :: rings[l] == R.Run(Capacity(m, l), histories[l])
  {
    forall l: nat | l < |m.windows| ensures rings[l] == R.Run(Capacity(m, l), histories[l]) {
      assert MatchingAt(m, rings, histories, l, position);
    }
  }

  lemma DisciplinedAfterCut(m: GemmaModel, histories: seq<History>, length: nat)
    requires Allocatable(m) && |histories| == |m.windows|
    ensures |Truncated(histories, length)| == |m.windows|
    ensures AllDisciplined(m, Truncated(histories, length))
      == (length == 0 || (AllDisciplined(m, histories) && AllHarmless(m, histories, length)))
  {
    forall l: nat | l < |m.windows| { R.Snoc(Capacity(m, l), histories[l], R.Truncate(length)); }
    if AllDisciplined(m, Truncated(histories, length)) && length > 0 {
      forall l: nat | l < |m.windows|
        ensures R.Disciplined(Capacity(m, l), histories[l])
        ensures R.HarmlessTruncate(Capacity(m, l), |R.Full(histories[l])|, R.High(histories[l]), length)
      {
        assert R.Disciplined(Capacity(m, l), Truncated(histories, length)[l]);
      }
    }
  }

  lemma CutLists(m: GemmaModel, rings: seq<R.Ring<Kv>>, histories: seq<History>, position: nat, length: nat)
    requires Allocatable(m) && Matching(m, rings, histories, position) && length <= position
    ensures |histories| == |m.windows| && Fulls(Truncated(histories, length)) == CutAll(Fulls(histories), length)
    ensures forall l: nat | l < |m.windows| ::
      |R.Full(Truncated(histories, length)[l])| == length && R.High(Truncated(histories, length)[l]) <= m.maxContext
  {
    hide R.Full, R.Disciplined, R.High;
    var cut := Truncated(histories, length);
    forall l: nat | l < |m.windows|
      ensures |R.Full(cut[l])| == length && R.Full(cut[l]) == Cut(Fulls(histories)[l], length)
      ensures R.High(cut[l]) <= m.maxContext
    {
      assert MatchingAt(m, rings, histories, l, position);
      R.Snoc(Capacity(m, l), histories[l], R.Truncate(length));
    }
    assert Fulls(cut) == CutAll(Fulls(histories), length);
  }

  lemma CutToNothing(m: GemmaModel, caches: Caches)
    requires |caches| == |m.windows|
    ensures CutAll(caches, 0) == NewCaches(m) && Replay(m, []) == Ok(NewCaches(m))
  {
  }

  /** Truncating to a prefix: the lists are those of the prefix, and what becomes of soundness. */
  lemma CutBack(m: GemmaModel, rings: seq<R.Ring<Kv>>, histories: seq<History>, tokens: seq<Token>, length: nat)
    requires Allocatable(m) && Matching(m, rings, histories, |tokens|) && length <= |tokens|
    ensures var cut := Truncated(histories, length);
      && |cut| == |histories| == |m.windows|
      && (forall l: nat | l < |m.windows| :: |R.Full(cut[l])| == length && R.High(cut[l]) <= m.maxContext)
      && AllDisciplined(m, cut) == (length == 0 || (AllDisciplined(m, histories) && AllHarmless(m, histories, length)))
      && (Replay(m, tokens) == Ok(Fulls(histories)) || length == 0 ==> Replay(m, tokens[..length]) == Ok(Fulls(cut)))
  {
    hide AllDisciplined, AllHarmless, Truncated;
    CutLists(m, rings, histories, |tokens|, length);
    DisciplinedAfterCut(m, histories, length);
    if length == 0 {
      CutToNothing(m, Fulls(histories));
      assert tokens[..0] == [];
    } else if Replay(m, tokens) == Ok(Fulls(histories)) {
      TruncateReplay(m, tokens, length);
    }
  }

  /** No window is shorter than the context, so no ring ever overwrites anything. */
  predicate NeverWraps(m: GemmaModel)
    requires Allocatable(m)
  {
    forall l: nat | l < |m.windows| :: Capacity(m, l) == m.maxContext
  }

  lemma NeverWrapsIsHarmless(m: GemmaModel, rings: seq<R.Ring<Kv>>, histories: seq<History>, position: nat, to: nat)
    requires Allocatable(m) && NeverWraps(m) && Matching(m, rings, histories, position)
    ensures |histories| == |m.windows| && AllHarmless(m, histories, to)
  {
    forall l: nat | l < |m.windows|
      ensures R.HarmlessTruncate(Capacity(m, l), |R.Full(histories[l])|, R.High(histories[l]), to)
    {
      assert MatchingAt(m, rings, histories, l, position);
    }
  }

  lemma EmptyIsSound(m: GemmaModel, rings: seq<R.Ring<Kv>>, histories: seq<History>)
    requires Allocatable(m) && Matching(m, rings, histories, 0)
    ensures |histories| == |m.windows| && AllDisciplined(m, histories)
  {
    forall l: nat | l < |m.windows| ensures R.Disciplined(Capacity(m, l), histories[l]) {
      assert MatchingAt(m, rings, histories, l, 0);
      R.EmptyIsDisciplined(Capacity(m, l), histories[l]);
    }
  }

  lemma RefusedIsFresh(m: GemmaModel, prompt: seq<Token>, maximum: nat, sampler: Sampler)
    ensures var refused := Admission(prompt, maximum, m.maxContext);
      refused.Some? ==> Fresh(m, prompt, maximum, sampler) == Err(refused.value)
  {
  }

  lemma ForwardProduces(m: GemmaModel, caches: Caches, token: Token, produceLogits: bool)
    requires |caches| == |m.windows|
    ensures Forward(m, caches, token, produceLogits).Ok? ==>
      (Forward(m, caches, token, produceLogits).value.1.Some? <==> produceLogits)
  {
  }

  // ---------- The session ----------

  class Gemma4MetalSession {
    var rings: seq<R.Ring<Kv>>
    var tokens: seq<Token>
    var logits: Option<Vector>
    /** Everything that was done to each ring. */
    ghost var histories: seq<History>

    ghost predicate Aligned(m: GemmaModel)
      reads this
    {
      Allocatable(m) && Matching(m, rings, histories, |tokens|)
    }

    /** Every truncate since the rings were last emptied was harmless. */
    ghost predicate Sound(m: GemmaModel)
      requires Aligned(m)
      reads this
    {
      AllDisciplined(m, histories)
    }

    ghost predicate Valid(m: GemmaModel)
      reads this
    {
      && Aligned(m)
      && (Sound(m) ==>
            && Replay(m, tokens) == Ok(Fulls(histories))
            && (logits.Some? ==> tokens != [] && LogitsOf(m, tokens) == Ok(logits.value)))
    }

    constructor (m: GemmaModel)
      requires Allocatable(m)
      ensures Valid(m) && Sound(m) && tokens == [] && logits.None?
    {
      rings := seq(|m.windows|, l => R.Ring(0, map[]));
      histories := seq(|m.windows|, l => []);
      tokens, logits := [], None;
      new;
      assert Fulls(histories) == NewCaches(m);
    }

    /** One layer: the row is appended to its ring, then attention reads the ring. */
    method RunLayer(m: GemmaModel, l: nat, hidden: Vector, position: nat, world: Interruptions)
      returns (r: Result<Vector, Error>)
      requires Allocatable(m) && |rings| == |histories| == |m.windows| && l < |m.windows|
      requires MatchingAt(m, rings, histories, l, position) && position < m.maxContext
      modifies this`rings, this`histories, world
      ensures |rings| == |histories| == |m.windows|
      ensures MayGrow(old(histories)[l], histories[l])
      ensures forall k: nat | k < |m.windows| && k != l ::
        rings[k] == old(rings)[k] && histories[k] == old(histories)[k]
      ensures rings[l] == R.Run(Capacity(m, l), histories[l])
      ensures R.High(histories[l]) <= R.Max(R.High(old(histories)[l]), |R.Full(old(histories)[l])| + 1)
      ensures R.Disciplined(Capacity(m, l), histories[l]) == R.Disciplined(Capacity(m, l), old(histories)[l])
      ensures r.Ok? ==> |R.Full(histories[l])| == position + 1
      ensures R.Disciplined(Capacity(m, l), old(histories)[l]) ==>
        var spec := LayerStep(m, l, hidden, position, R.Full(old(histories)[l]));
        && (r.Ok? ==> spec == Ok((r.value, R.Full(histories[l]))))
        && (r.Err? && world.Quiet(old(world.ticks), world.ticks) ==> spec == Err(r.error))
      ensures world.ticks >= old(world.ticks) && (r.Ok? ==> world.Met() == old(world.Met()))
      ensures r.Ok? ==> world.ticks == old(world.ticks) + 2
    {
      var interrupted := world.Check();
      if interrupted.Some? { return Err(interrupted.value); }
      var kv := m.project(l, hidden, position);
      if kv.Err? { return Err(Kernel(kv.error)); }
      AppendedTo(m, rings, histories, l, kv.value);
      if R.Disciplined(Capacity(m, l), histories[l]) { ReadsAsTheCpu(m, l, histories[l], kv.value); }
      var ring := R.Step(Capacity(m, l), rings[l], R.Append(kv.value));
      rings, histories := rings[l := ring], histories[l := histories[l] + [R.Append(kv.value)]];
      interrupted := world.Check();
      if interrupted.Some? { return Err(interrupted.value); }
      var next := m.mix(l, hidden, position, R.Window(Capacity(m, l), ring, Kv([], [])));
      if next.Err? { return Err(Kernel(next.error)); }
      r := Ok(next.value);
    }

    /** Every layer in turn; a failure leaves the layers already passed one entry longer. */
    method RunLayers(m: GemmaModel, hidden0: Vector, position: nat, world: Interruptions)
      returns (r: Result<Vector, Error>)
      requires Allocatable(m) && Matching(m, rings, histories, position) && position < m.maxContext
      modifies this`rings, this`histories, world
      ensures Ragged(m, old(histories), rings, histories)
      ensures r.Ok? ==> Matching(m, rings, histories, position + 1)
      ensures AllDisciplined(m, old(histories)) ==>
        var spec := Layers(m, 0, hidden0, position, Fulls(old(histories)));
        && (r.Ok? ==> spec == Ok((r.value, Fulls(histories))))
        && (r.Err? && world.Quiet(old(world.ticks), world.ticks) ==> spec == Err(r.error))
      ensures world.ticks >= old(world.ticks) && (r.Ok? ==> world.Met() == old(world.Met()))
      ensures r.Ok? ==> world.ticks == old(world.ticks) + 2 * |m.windows|
    {
      hide LayerStep, RaggedAt, GrownAt;
      StartsRagged(m, rings, histories, position);
      var hidden := hidden0;
      for l := 0 to |m.windows|
        invariant Ragged(m, old(histories), rings, histories) && GrownBelow(m, old(histories), histories, l, position)
        invariant AllDisciplined(m, old(histories)) ==>
          Layers(m, l, hidden, position, Fulls(histories)) == Layers(m, 0, hidden0, position, Fulls(old(histories)))
        invariant world.ticks >= old(world.ticks) && world.Met() == old(world.Met())
        invariant world.ticks == old(world.ticks) + 2 * l
      {
        ghost var before, ringsBefore := histories, rings;
        LayerIsNext(m, old(rings), old(histories), rings, histories, l, position);
        LayersStep(m, l, hidden, position, Fulls(histories));
        var next := RunLayer(m, l, hidden, position, world);
        RowRan(m, before, rings, histories, l);
        LayerDone(m, old(histories), ringsBefore, before, rings, histories, l, position);
        if next.Err? { return Err(next.error); }
        assert Fulls(histories) == Fulls(before)[l := R.Full(histories[l])];
        hidden := next.value;
      }
      AllGrown(m, old(rings), old(histories), rings, histories, position);
      r := Ok(hidden);
    }

    method RunForward(m: GemmaModel, token: Token, produceLogits: bool, world: Interruptions)
      returns (r: Result<Option<Vector>, Error>)
      requires Aligned(m) && token < m.vocabulary && |tokens| < m.maxContext
      modifies this`rings, this`histories, world
      ensures Ragged(m, old(histories), rings, histories)
      ensures r.Ok? ==> Matching(m, rings, histories, |tokens| + 1)
      ensures AllDisciplined(m, old(histories)) ==>
        var spec := Forward(m, Fulls(old(histories)), token, produceLogits);
        && (r.Ok? ==> spec == Ok((Fulls(histories), r.value)))
        && (r.Err? && world.Quiet(old(world.ticks), world.ticks) ==> spec == Err(r.error))
      ensures world.ticks >= old(world.ticks) && (r.Ok? ==> world.Met() == old(world.Met()))
      ensures r.Ok? ==> world.ticks == old(world.ticks) + 2 * |m.windows| + if produceLogits then 1 else 0
    {
      hide AllDisciplined, MatchingAt, RaggedAt;
      AlignedPosition(m, rings, histories, |tokens|);
      StartsRagged(m, rings, histories, |tokens|);
      var hidden := m.embed(token);
      if hidden.Err? { return Err(Kernel(hidden.error)); }
      var last := RunLayers(m, hidden.value, |tokens|, world);
      if last.Err? { return Err(last.error); }
      if !produceLogits { return Ok(None); }
      var interrupted := world.Check();
      if interrupted.Some? { return Err(interrupted.value); }
      var logits := m.output(last.value);
      if logits.Err? { return Err(Kernel(logits.error)); }
      r := Ok(Some(logits.value));
    }

    /** Moves every ring's position back, nothing else. */
    method TruncateRings(m: GemmaModel, to: nat)
      requires Allocatable(m) && |rings| == |histories| == |m.windows|
      requires forall l: nat | l < |m.windows| :: rings[l] == R.Run(Capacity(m, l), histories[l])
      modifies this`rings, this`histories
      ensures histories == Truncated(old(histories), to) && |rings| == |histories|
      ensures forall l: nat | l < |m.windows| :: rings[l] == R.Run(Capacity(m, l), histories[l])
    {
      for l := 0 to |rings|
        invariant |rings| == |histories| == |m.windows|
        invariant forall k: nat | k < |m.windows| :: rings[k] == R.Run(Capacity(m, k), histories[k])
        invariant forall k: nat | k < |m.windows| ::
          histories[k] == if k < l then old(histories)[k] + [R.Truncate(to)] else old(histories)[k]
      {
        R.Snoc(Capacity(m, l), histories[l], R.Truncate(to));
        rings := rings[l := rings[l].(position := R.Min(rings[l].position, to))];
        histories := histories[l := histories[l] + [R.Truncate(to)]];
      }
    }

    /** Feeds one token.  A failure leaves every list as it was, and the rings as sound as they were. */
    method ForwardToken(m: GemmaModel, token: Token, produceLogits: bool, world: Interruptions)
      returns (r: Result<Option<Vector>, Error>)
      requires Aligned(m)
      modifies this`rings, this`histories, world
      ensures Allocatable(m) && Matching(m, rings, histories, if r.Ok? then |tokens| + 1 else |tokens|)
      ensures AllDisciplined(m, histories) == AllDisciplined(m, old(histories))
      ensures r.Err? ==> Fulls(histories) == Fulls(old(histories))
      ensures AllDisciplined(m, old(histories)) ==>
        var spec := Forward(m, Fulls(old(histories)), token, produceLogits);
        && (r.Ok? ==> spec == Ok((Fulls(histories), r.value)))
        && (r.Err? && world.Quiet(old(world.ticks), world.ticks) ==> spec == Err(r.error))
      ensures world.ticks >= old(world.ticks) && (r.Ok? ==> world.Met() == old(world.Met()))
      ensures r.Ok? ==> world.ticks == old(world.ticks) + 2 * |m.windows| + if produceLogits then 1 else 0
    {
      hide AllDisciplined, RaggedAt, Ragged, Matching, MatchingAt;
      AlignedPosition(m, rings, histories, |tokens|);
      if token >= m.vocabulary { return Err(InvalidToken); }
      if |tokens| >= m.maxContext { return Err(ContextLimit); }
      r := RunForward(m, token, produceLogits, world);
      StillDisciplined(m, old(histories), rings, histories);
      if r.Err? {
        RolledBackAll(m, old(rings), old(histories), rings, histories, |tokens|);
        RaggedRings(m, old(histories), rings, histories);
        TruncateRings(m, |tokens|);
        AllMatch(m, rings, histories, |tokens|);
      }
    }

    /** Moves back to a prefix.  The rings stay sound exactly when that is harmless or empties them. */
    method ResetTo(m: GemmaModel, length: nat, stable: Option<Vector>)
      requires Valid(m) && length <= |tokens|
      requires stable.Some? ==> length > 0 && (Sound(m) ==> LogitsOf(m, tokens[..length]) == Ok(stable.value))
      modifies this
      ensures Valid(m) && tokens == old(tokens)[..length] && logits == stable
      ensures Sound(m) == (length == 0 || (old(Sound(m)) && AllHarmless(m, old(histories), length)))
      ensures NeverWraps(m) && old(Sound(m)) ==> Sound(m)
    {
      hide AllDisciplined, AllHarmless, Matching, MatchingAt, LogitsOf, Replay, Truncated, NeverWraps;
      AlignedPosition(m, rings, histories, |tokens|);
      MatchingRings(m, rings, histories, |tokens|);
      CutBack(m, rings, histories, tokens, length);
      if NeverWraps(m) { NeverWrapsIsHarmless(m, rings, histories, |tokens|, length); }
      TruncateRings(m, length);
      tokens := tokens[..length];
      logits := stable;
      AllMatch(m, rings, histories, length);
    }

    /** Feeds one token and records it. */
    method Feed(m: GemmaModel, token: Token, produceLogits: bool, world: Interruptions)
      returns (r: Result<Option<Vector>, Error>)
      requires Valid(m)
      modifies this, world
      ensures Valid(m) && Sound(m) == old(Sound(m))
      ensures r.Ok? ==> tokens == old(tokens) + [token] && logits == r.value
      ensures r.Ok? && old(Sound(m)) ==> (logits.Some? <==> produceLogits)
      ensures r.Err? ==> tokens == old(tokens) && logits == old(logits)
      ensures old(Sound(m)) ==>
        var spec := Forward(m, Fulls(old(histories)), token, produceLogits);
        && (r.Ok? ==> spec == Ok((Fulls(histories), logits)))
        && (r.Err? && world.Quiet(old(world.ticks), world.ticks) ==> spec == Err(r.error))
      ensures world.ticks >= old(world.ticks) && (r.Ok? ==> world.Met() == old(world.Met()))
    {
      hide AllDisciplined, Matching, Replay, LogitsOf;
      AlignedPosition(m, rings, histories, |tokens|);
      r := ForwardToken(m, token, produceLogits, world);
      if r.Ok? {
        if AllDisciplined(m, old(histories)) {
          ForwardProduces(m, Fulls(old(histories)), token, produceLogits);
          ReplaySnoc(m, tokens, token, produceLogits);
        }
        tokens := tokens + [token];
        logits := r.value;
      }
    }

    /** Feeds the part of the prompt that is not cached yet. */
    method RunPrefill(m: GemmaModel, prompt: seq<Token>, world: Interruptions) returns (r: Result<Vector, Error>)
      requires Valid(m) && tokens < prompt
      modifies this, world
      ensures Valid(m) && Sound(m) == old(Sound(m)) && old(tokens) <= tokens <= prompt
      ensures r.Ok? ==> tokens == prompt
      ensures old(Sound(m)) ==>
        && (r.Ok? ==> logits.Some? && Prefill(m, NewCaches(m), prompt) == Ok((Fulls(histories), r.value)))
        && (r.Err? && world.Quiet(old(world.ticks), world.ticks) ==> Prefill(m, NewCaches(m), prompt) == Err(r.error))
      ensures world.ticks >= old(world.ticks) && (r.Ok? ==> world.Met() == old(world.Met()))
    {
      hide Matching, AllDisciplined, Replay, LogitsOf, Forward, Prefill;
      var i := |tokens|;
      r := Err(MissingLogits);
      while i < |prompt|
        invariant old(|tokens|) <= i <= |prompt|
        invariant Valid(m) && Sound(m) == old(Sound(m)) && tokens == prompt[..i]
        invariant Sound(m) && i == |prompt| ==> logits.Some? && r == Ok(logits.value)
        invariant world.ticks >= old(world.ticks) && world.Met() == old(world.Met())
      {
        var token := prompt[i];
        AlignedPosition(m, rings, histories, |tokens|);
        if Sound(m) { PrefillStops(m, prompt, i); }
        var interrupted := world.Check();
        if interrupted.Some? { return Err(interrupted.value); }
        var fed := Feed(m, token, i + 1 == |prompt|, world);
        if fed.Err? { return Err(fed.error); }
        if fed.value.Some? { r := Ok(fed.value.value); }
        i := i + 1;
        assert prompt[..i] == prompt[..i - 1] + [token];
      }
      assert prompt[..i] == prompt;
      if Sound(m) { PrefillIsReplay(m, prompt); }
    }

    /** The generation loop after prefill. */
    method Decode(m: GemmaModel, first: Vector, sampler0: Sampler, maximum: nat, world: Interruptions)
      returns (r: Result<Reply, Error>, emitted: seq<Token>)
      requires Valid(m)
      modifies this, world
      ensures Valid(m) && Sound(m) == old(Sound(m)) && old(tokens) <= tokens
      ensures old(Sound(m)) && old(logits).Some? ==> logits.Some?
      ensures r.Ok? ==> Grown(old(tokens), r.value.tokenIds, maximum, tokens)
      ensures old(Sound(m)) ==>
        var spec := Continue(m, Fulls(old(histories)), first, sampler0, [], maximum);
        && (r.Ok? ==> r == spec && emitted == r.value.tokenIds)
        && (world.Quiet(old(world.ticks), world.ticks) ==> r == spec)
      ensures world.ticks >= old(world.ticks) && (r.Ok? ==> world.Met() == old(world.Met()))
    {
      hide Matching, AllDisciplined, Forward, Replay, LogitsOf, Choose, Grown;
      AlignedPosition(m, rings, histories, |tokens|);
      StartsGrown(tokens, maximum);
      var sampler, current := sampler0, first;
      emitted := [];
      while |emitted| < maximum
        invariant Valid(m) && Sound(m) == old(Sound(m)) && Grown(old(tokens), emitted, maximum, tokens)
        invariant |histories| == |m.windows|
        invariant old(Sound(m)) && old(logits).Some? ==> logits.Some?
        invariant old(Sound(m)) ==>
          Continue(m, Fulls(histories), current, sampler, emitted, maximum)
          == Continue(m, Fulls(old(histories)), first, sampler0, [], maximum)
        invariant world.ticks >= old(world.ticks) && world.Met() == old(world.Met())
        decreases maximum - |emitted|
      {
        var interrupted := world.Check();
        if interrupted.Some? { return Err(interrupted.value), emitted; }
        var (sampler', choice) := Choose(m, current, sampler);
        if choice.Err? { return Err(choice.error), emitted; }
        if choice.value.Halt? { return ReplyWith(m, emitted, true), emitted; }
        GrownSnoc(old(tokens), emitted, maximum, tokens, choice.value.token);
        emitted := emitted + [choice.value.token];
        if |emitted| < maximum {
          var fed := Feed(m, choice.value.token, true, world);
          if fed.Err? { return Err(fed.error), emitted; }
          AlignedPosition(m, rings, histories, |tokens|);
          current := if fed.value.Some? then fed.value.value else [];
        }
        sampler := sampler';
      }
      r := ReplyWith(m, emitted, false);
    }

    method Answer(m: GemmaModel, prompt: seq<Token>, maximum: nat, sampler: Sampler, world: Interruptions)
      returns (r: Result<Reply, Error>, emitted: seq<Token>)
      requires Valid(m) && tokens <= prompt && Admission(prompt, maximum, m.maxContext).None?
      modifies this, world
      ensures Valid(m) && Sound(m) == old(Sound(m)) && old(tokens) <= tokens
      ensures r.Ok? ==> Grown(prompt, r.value.tokenIds, maximum, tokens)
      ensures old(Sound(m)) && r.Ok? ==>
        r == Fresh(m, prompt, maximum, sampler) && emitted == r.value.tokenIds && logits.Some?
      ensures if old(tokens) == prompt && old(logits).None? then r == Err(MissingLogits)
              else old(Sound(m)) && world.Quiet(old(world.ticks), world.ticks) ==>
                r == Fresh(m, prompt, maximum, sampler)
      ensures world.ticks >= old(world.ticks) && (r.Ok? ==> world.Met() == old(world.Met()))
    {
      hide Matching, AllDisciplined, Replay, LogitsOf, Continue, Prefill;
      AlignedPosition(m, rings, histories, |tokens|);
      emitted := [];
      var first: Result<Vector, Error>;
      if |tokens| == |prompt| {
        if logits.None? { return Err(MissingLogits), emitted; }
        first := Ok(logits.value);
        assert tokens == prompt;
        if Sound(m) { PrefillIsReplay(m, prompt); }
      } else {
        first := RunPrefill(m, prompt, world);
        if first.Err? { return Err(first.error), emitted; }
      }
      r, emitted := Decode(m, first.value, sampler, maximum, world);
    }

    /** Moving back to what the prompt reuses empties the rings, or finds them sound and is harmless. */
    ghost predicate ReuseIsSound(m: GemmaModel, prompt: seq<Token>)
      requires Valid(m)
      reads this
    {
      var reused := |CommonPrefix(tokens, prompt)|;
      reused == 0 || (Sound(m) && AllHarmless(m, histories, reused))
    }

    /** Reuses the cached prefix, answers, and on any failure goes back to that prefix.  As long as moving
        back is harmless for every ring, or empties them, the answer is that of a new session. */
    method Generate(m: GemmaModel, prompt: seq<Token>, maximum: nat, sampler: Sampler, world: Interruptions)
      returns (r: Result<Reply, Error>, emitted: seq<Token>)
      requires Valid(m)
      modifies this, world
      ensures Valid(m) && world.ticks >= old(world.ticks)
      ensures Admission(prompt, maximum, m.maxContext).Some? ==>
        r == Fresh(m, prompt, maximum, sampler) && unchanged(this)
      ensures Admission(prompt, maximum, m.maxContext).None? && r.Ok? ==>
        && Grown(prompt, r.value.tokenIds, maximum, tokens)
        && Sound(m) == old(ReuseIsSound(m, prompt))
        && (Sound(m) ==> r == Fresh(m, prompt, maximum, sampler) && emitted == r.value.tokenIds)
      ensures Admission(prompt, maximum, m.maxContext).None? && r.Err? ==>
        tokens == CommonPrefix(old(tokens), prompt) && (Sound(m) ==> old(ReuseIsSound(m, prompt)))
      ensures NeverWraps(m) && old(Sound(m)) ==> Sound(m)
      ensures Admission(prompt, maximum, m.maxContext).None? && Stuck(old(tokens), old(logits), prompt) ==>
        r == Err(MissingLogits)
      ensures old(ReuseIsSound(m, prompt) && !Stuck(tokens, logits, prompt)) ==>
        world.Quiet(old(world.ticks), world.ticks) ==> r == Fresh(m, prompt, maximum, sampler)
    {
      hide AllDisciplined, AllHarmless, Matching, LogitsOf, Replay, Continue, Prefill, Grown, Fresh, NeverWraps;
      emitted := [];
      var refused := Admission(prompt, maximum, m.maxContext);
      if refused.Some? {
        RefusedIsFresh(m, prompt, maximum, sampler);
        return Err(refused.value), emitted;
      }
      AlignedPosition(m, rings, histories, |tokens|);
      if tokens == [] { EmptyIsSound(m, rings, histories); }
      var reusable := CommonPrefixLength(tokens, prompt);
      var stable := if reusable == |tokens| then logits else None;
      CommonPrefixIsUnique(tokens, prompt, tokens[..reusable]);
      assert tokens[..|tokens|] == tokens;
      ResetTo(m, reusable, stable);
      ghost var kept := tokens;
      r, emitted := Answer(m, prompt, maximum, sampler, world);
      if r.Err? {
        assert tokens[..reusable] == kept;
        ResetTo(m, reusable, stable);
      }
    }
  }
}
