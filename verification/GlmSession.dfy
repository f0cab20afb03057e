/** A GLM session: in-place forward passes with rollback, prefix reuse and generation, proved to be
 *  a function of the tokens it was fed and to answer as a fresh session would.
 */
module GlmSession {
  import opened Wrappers
  import opened Utf8
  import opened Utf8Stream
  import opened Generation
  import opened GlmForward
  import TopK

  // ---------- The fresh answer ----------

  function Prefill(m: GlmModel, state: State, tokens: seq<Token>): Result<(State, Vector), Error>
    requires |state.layers| == |m.kinds| && tokens != []
    decreases |tokens|
  {
    match Forward(m, state, tokens[0])
    case Err(e) => Err(e)
    case Ok((next, logits)) =>
      LayersKeepCount(m, state, tokens[0]);
      if |tokens| == 1 then Ok((next, logits)) else Prefill(m, next, tokens[1..])
  }

  /** Masks, samples and checks the next token. */
  function Choose(m: GlmModel, logits: Vector, sampler: Sampler): (r: (Sampler, Result<Choice, Error>))
    ensures r.1.Ok? && r.1.value.Next? ==> m.tokenBytes(r.1.value.token) == Some(r.1.value.bytes)
  {
    match m.mask(logits)
    case Err(code) => (sampler, Err(Kernel(code)))
    case Ok(masked) => Pick(sampler, masked, |masked|, m.stops, m.tokenBytes)
  }

  /** The generation loop, from a state, its logits and what was generated so far. */
  function Continue(m: GlmModel, state: State, logits: Vector, sampler: Sampler, generated: seq<Token>, maximum: nat)
    : Result<Reply, Error>
    requires |state.layers| == |m.kinds|
    decreases maximum - |generated|
  {
    if |generated| >= maximum then Finish(m.tokenBytes, generated, false)
    else
      var (sampler', choice) := Choose(m, logits, sampler);
      match choice
      case Err(e) => Err(e)
      case Ok(Stop) => Finish(m.tokenBytes, generated, true)
      case Ok(Next(next, _)) =>
        if |generated| + 1 < maximum then
          match Forward(m, state, next)
          case Err(e) => Err(e)
          case Ok((state', logits')) =>
            LayersKeepCount(m, state, next);
            Continue(m, state', logits', sampler', generated + [next], maximum)
        else Finish(m.tokenBytes, generated + [next], false)
  }

  lemma {:induction false} PrefillCount(m: GlmModel, state: State, tokens: seq<Token>)
    requires |state.layers| == |m.kinds| && tokens != [] && Prefill(m, state, tokens).Ok?
    ensures |Prefill(m, state, tokens).value.0.layers| == |m.kinds|
    decreases |tokens|
  {
    LayersKeepCount(m, state, tokens[0]);
    if |tokens| > 1 { PrefillCount(m, Forward(m, state, tokens[0]).value.0, tokens[1..]); }
  }

  /** The answer of a new session that nothing interrupts. */
  function Fresh(m: GlmModel, prompt: seq<Token>, maximum: nat, sampler: Sampler): Result<Reply, Error> {
    match Admission(prompt, maximum, m.maxContext)
    case Some(e) => Err(e)
    case None =>
      match Prefill(m, NewState(m), prompt)
      case Err(e) => Err(e)
      case Ok((state, logits)) => PrefillCount(m, NewState(m), prompt); Continue(m, state, logits, sampler, [], maximum)
  }

  /** Prefilling the rest of a prompt from the state of its prefix is prefilling the prompt. */
  lemma {:induction false} PrefillFromPrefix(m: GlmModel, prompt: seq<Token>, n: nat)
    requires n < |prompt| && Replay(m, prompt[..n]).Ok?
    ensures Prefill(m, NewState(m), prompt) == Prefill(m, Replay(m, prompt[..n]).value, prompt[n..])
    decreases n
  {
    if n == 0 {
      assert prompt[0..] == prompt;
    } else {
      var shorter := prompt[..n - 1];
      assert prompt[..n][..n - 1] == shorter;
      PrefillFromPrefix(m, prompt, n - 1);
      assert prompt[n - 1..][1..] == prompt[n..];
    }
  }

  /** Where a token of the prompt fails, the whole prefill fails the same way. */
  lemma PrefillStops(m: GlmModel, prompt: seq<Token>, n: nat)
    requires n < |prompt| && Replay(m, prompt[..n]).Ok? && |Replay(m, prompt[..n]).value.layers| == |m.kinds|
    ensures Forward(m, Replay(m, prompt[..n]).value, prompt[n]).Err? ==>
      Prefill(m, NewState(m), prompt) == Err(Forward(m, Replay(m, prompt[..n]).value, prompt[n]).error)
  {
    PrefillFromPrefix(m, prompt, n);
    assert prompt[n..][0] == prompt[n];
  }

  /** Prefilling everything leaves the replayed state and the last token's logits. */
  lemma PrefillIsReplay(m: GlmModel, prompt: seq<Token>)
    requires prompt != [] && Replay(m, prompt).Ok?
    ensures LogitsOf(m, prompt).Ok?
    ensures Prefill(m, NewState(m), prompt) == Ok((Replay(m, prompt).value, LogitsOf(m, prompt).value))
  {
    PrefillFromPrefix(m, prompt, |prompt| - 1);
    assert prompt[|prompt| - 1..] == [prompt[|prompt| - 1]];
  }

  lemma ReplaySnoc(m: GlmModel, tokens: seq<Token>, token: Token)
    requires Replay(m, tokens).Ok?
    ensures Replay(m, tokens + [token]) == match Forward(m, Replay(m, tokens).value, token)
                                           case Err(e) => Err(e)
                                           case Ok((state, _)) => Ok(state)
    ensures LogitsOf(m, tokens + [token]) == match Forward(m, Replay(m, tokens).value, token)
                                             case Err(e) => Err(e)
                                             case Ok((_, logits)) => Ok(logits)
  {
    assert (tokens + [token])[..|tokens|] == tokens;
  }

  // ---------- What the answer is ----------

  /** The selector sees masked logits, and only tokens with bytes can be shown. */
  function LawOf(m: GlmModel): Law {
    Law(m.maxContext, tokens => if tokens == [] then Err(EmptyPrompt) else LogitsOf(m, tokens),
        logits => match m.mask(logits) case Err(code) => Err(Kernel(code)) case Ok(masked) => Ok(masked),
        masked => |masked|, m.stops, (t: Token) => m.tokenBytes(t).Some?, tokens => TextOf(m.tokenBytes, tokens))
  }

  lemma LawText(m: GlmModel, tokens: seq<Token>)
    ensures LawOf(m).text(tokens) == TextOf(m.tokenBytes, tokens)
    ensures forall t :: LawOf(m).shows(t) == m.tokenBytes(t).Some?
  {
  }

  /** The replay of a sequence fails where one of its tokens does. */
  lemma {:induction false} ReplayStops(m: GlmModel, tokens: seq<Token>) returns (n: nat)
    requires Replay(m, tokens).Err?
    ensures n < |tokens| && Replay(m, tokens[..n]).Ok?
    ensures Forward(m, Replay(m, tokens[..n]).value, tokens[n]) == Err(Replay(m, tokens).error)
    decreases |tokens|
  {
    var shorter := tokens[..|tokens| - 1];
    if Replay(m, shorter).Err? {
      n := ReplayStops(m, shorter);
      assert shorter[..n] == tokens[..n];
    } else {
      n := |shorter|;
    }
  }

  lemma LogitsFail(m: GlmModel, tokens: seq<Token>)
    requires tokens != [] && Replay(m, tokens[..|tokens| - 1]).Err?
    ensures LogitsOf(m, tokens) == Err(Replay(m, tokens[..|tokens| - 1]).error)
  {
  }

  /** Prefilling a new session gives the prompt's logits, or fails as they do. */
  lemma PrefillIsLogits(m: GlmModel, prompt: seq<Token>)
    requires prompt != []
    ensures LogitsOf(m, prompt).Ok? ==>
      Replay(m, prompt).Ok?
      && Prefill(m, NewState(m), prompt) == Ok((Replay(m, prompt).value, LogitsOf(m, prompt).value))
    ensures LogitsOf(m, prompt).Err? ==> Prefill(m, NewState(m), prompt) == Err(LogitsOf(m, prompt).error)
  {
    hide Forward, Replay, LogitsOf, Prefill;
    var last := |prompt| - 1;
    if Replay(m, prompt[..last]).Err? {
      LogitsFail(m, prompt);
      var n := ReplayStops(m, prompt[..last]);
      assert prompt[..last][..n] == prompt[..n];
      PrefillStops(m, prompt, n);
    } else {
      PrefillStops(m, prompt, last);
      assert prompt[..last] + [prompt[last]] == prompt;
      ReplaySnoc(m, prompt[..last], prompt[last]);
      if LogitsOf(m, prompt).Ok? { PrefillIsReplay(m, prompt); }
    }
  }

  /** One round of the loop: it ends here, or draws one token more. */
  lemma OneDraw(m: GlmModel, prompt: seq<Token>, sampler: Sampler, states: seq<nat>, ids: seq<Token>, maximum: nat)
    requires prompt != [] && DrawnInTurn(LawOf(m), prompt, sampler, states, ids) && |ids| < maximum
    requires LogitsOf(m, prompt + ids).Ok?
    ensures var now := Sampler(states[|ids|], sampler.pick);
      var (next, choice) := Choose(m, LogitsOf(m, prompt + ids).value, now);
      && next.pick == sampler.pick
      && match choice
         case Err(e) => Ends(LawOf(m), prompt, maximum, sampler.pick, states[|ids|], ids, Err(e))
         case Ok(Stop) =>
           Ends(LawOf(m), prompt, maximum, sampler.pick, states[|ids|], ids, Finish(m.tokenBytes, ids, true))
         case Ok(Next(token, _)) => DrawnInTurn(LawOf(m), prompt, sampler, states + [next.state], ids + [token])
  {
    hide Finish, LogitsOf, TextOf;
    var (next, choice) := Choose(m, LogitsOf(m, prompt + ids).value, Sampler(states[|ids|], sampler.pick));
    LawText(m, ids);
    DrawnShows(LawOf(m), prompt, sampler, states, ids, m.tokenBytes, true);
    if choice.Ok? && choice.value.Next? {
      assert (ids + [choice.value.token])[..|ids|] == ids;
      DrawnSnoc(LawOf(m), prompt, sampler, states, ids, choice.value.token, next.state);
    }
  }

  lemma EndsFull(m: GlmModel, prompt: seq<Token>, sampler: Sampler, states: seq<nat>, ids: seq<Token>, maximum: nat)
    requires prompt != [] && DrawnInTurn(LawOf(m), prompt, sampler, states, ids) && |ids| == maximum
    requires ids == [] ==> LogitsOf(m, prompt).Ok?
    ensures Answers(LawOf(m), prompt, maximum, sampler, states, ids, Finish(m.tokenBytes, ids, false))
  {
    hide Finish, LogitsOf, TextOf;
    LawText(m, ids);
    assert prompt + [] == prompt;
    DrawnShows(LawOf(m), prompt, sampler, states, ids, m.tokenBytes, false);
  }

  lemma EndsByFailure(m: GlmModel, prompt: seq<Token>, sampler: Sampler, state: nat, ids: seq<Token>, maximum: nat)
    requires prompt != [] && LogitsOf(m, prompt + ids).Err? && |ids| < maximum
    ensures Ends(LawOf(m), prompt, maximum, sampler.pick, state, ids, Err(LogitsOf(m, prompt + ids).error))
  {
  }

  /** From drawn tokens on, the loop answers by the law. */
  lemma {:induction false} ContinueAnswers(m: GlmModel, prompt: seq<Token>, sampler: Sampler, states: seq<nat>,
      ids: seq<Token>, maximum: nat, state: State)
    returns (states': seq<nat>, ids': seq<Token>)
    requires prompt != [] && |ids| <= maximum && (ids == [] || |ids| < maximum)
    requires DrawnInTurn(LawOf(m), prompt, sampler, states, ids)
    requires |state.layers| == |m.kinds| && Replay(m, prompt + ids) == Ok(state) && LogitsOf(m, prompt + ids).Ok?
    ensures Answers(LawOf(m), prompt, maximum, sampler, states', ids',
                    Continue(m, state, LogitsOf(m, prompt + ids).value, Sampler(states[|ids|], sampler.pick), ids,
                             maximum))
    decreases maximum - |ids|
  {
    hide Forward, Replay, LogitsOf, DrawnAt, Choose, Finish, LawOf;
    states', ids' := states, ids;
    assert prompt + [] == prompt;
    if |ids| < maximum {
      OneDraw(m, prompt, sampler, states, ids, maximum);
      var (next, choice) := Choose(m, LogitsOf(m, prompt + ids).value, Sampler(states[|ids|], sampler.pick));
      if choice.Ok? && choice.value.Next? {
        var token := choice.value.token;
        states', ids' := states + [next.state], ids + [token];
        if |ids'| < maximum {
          assert prompt + ids' == prompt + ids + [token];
          ReplaySnoc(m, prompt + ids, token);
          if Forward(m, state, token).Ok? {
            LayersKeepCount(m, state, token);
            states', ids' := ContinueAnswers(m, prompt, sampler, states', ids', maximum,
                                             Forward(m, state, token).value.0);
          } else {
            EndsByFailure(m, prompt, sampler, states'[|ids'|], ids', maximum);
          }
        } else {
          EndsFull(m, prompt, sampler, states', ids', maximum);
        }
      }
    } else {
      EndsFull(m, prompt, sampler, states, ids, maximum);
    }
  }

  /** A new session's answer is the one the law of a reply allows: the tokens are drawn one by one, each
      from the masked logits of everything before it. */
  lemma FreshIsTheAnswer(m: GlmModel, prompt: seq<Token>, maximum: nat, sampler: Sampler, r: Result<Reply, Error>)
    ensures Fresh(m, prompt, maximum, sampler) == r <==> IsAnswer(LawOf(m), prompt, maximum, sampler, r)
  {
    var law, answer := LawOf(m), Fresh(m, prompt, maximum, sampler);
    if Admission(prompt, maximum, m.maxContext).None? {
      NothingDrawn(law, prompt, sampler);
      PrefillIsLogits(m, prompt);
      assert prompt + [] == prompt;
      if LogitsOf(m, prompt).Ok? {
        var state := Replay(m, prompt).value;
        var states, ids := ContinueAnswers(m, prompt, sampler, [sampler.state], [], maximum, state);
      } else {
        assert Answers(law, prompt, maximum, sampler, [sampler.state], [], answer);
      }
    }
    assert IsAnswer(law, prompt, maximum, sampler, answer);
    if IsAnswer(law, prompt, maximum, sampler, r) { AnswerIsUnique(law, prompt, maximum, sampler, r, answer); }
  }

  /** Everything a session holds between requests. */
  datatype Held = Held(state: State, tokens: seq<Token>, logits: Option<Vector>)

  ghost predicate HeldValid(m: GlmModel, held: Held) {
    && m.Valid()
    && Replay(m, held.tokens) == Ok(held.state)
    && (held.logits.Some? ==> held.tokens != [] && LogitsOf(m, held.tokens) == Ok(held.logits.value))
  }

  // ---------- The session ----------

  /** What a session's state goes through: forwarding a token, or cutting back to a length. */
  datatype Op = Extend(token: Token) | CutTo(length: nat)

  /** The tokens a state holds after some operations, given which forwards succeeded. */
  function FedAfter(fed: seq<Token>, ops: seq<Op>, done: seq<bool>): seq<Token>
    requires |done| == |ops|
  {
    if ops == [] then fed
    else
      var last := |ops| - 1;
      var before := FedAfter(fed, ops[..last], done[..last]);
      match ops[last]
      case Extend(token) => if done[last] then before + [token] else before
      case CutTo(length) => Cut(before, length)
  }

  lemma AttentionGrowsIfOk(m: GlmModel, l: nat, hidden: Vector, position: nat, cache: LayerCache, entering: Selection)
    requires l < |m.kinds| && LayerShape(m, l, cache, position) && Fits(entering, position + 1)
    ensures Attention(m, l, hidden, position, cache, entering).Ok? ==>
      var (_, grown, selection) := Attention(m, l, hidden, position, cache, entering).value;
      && LayerShape(m, l, grown, position + 1)
      && CutLayer(grown, position) == cache
      && Fits(selection, position + 1)
  {
    if Attention(m, l, hidden, position, cache, entering).Ok? {
      AttentionGrows(m, l, hidden, position, cache, entering);
    }
  }

  lemma BeyondEnd(m: GlmModel, state: State, n: nat, length: nat)
    requires Shape(m, state, n) && n <= length
    ensures Truncate(state, length) == state
  {
  }

  /** How many times a layer's attention may be interrupted: at its start, for the index key and every
      key scored, and before attending. */
  function AttentionPoints(m: GlmModel, l: nat, position: nat): nat
    requires l < |m.kinds|
  {
    2 + if m.Indexed(l) then 1 + (if position < m.topk then 0 else position + 1) else 0
  }

  function LayerPoints(m: GlmModel, l: nat, position: nat): nat
    requires l <= |m.kinds|
  {
    if l == 0 then 0 else LayerPoints(m, l - 1, position) + AttentionPoints(m, l - 1, position) + 2
  }

  class Glm52CpuSession {
    var layers: seq<LayerCache>
    var dsaSelection: Selection
    var dsaHistory: seq<Selection>
    var tokens: seq<Token>
    var logits: Option<Vector>
    /** Every token forwarded and not truncated away; `tokens` may lag behind it. */
    ghost var fed: seq<Token>

    function StateNow(): State
      reads this
    {
      State(layers, dsaSelection, dsaHistory)
    }

    /** The state is that of the tokens fed, whatever is recorded of them. */
    ghost predicate StateValid(m: GlmModel)
      reads this
    {
      m.Valid() && Replay(m, fed) == Ok(StateNow()) && tokens <= fed
    }

    ghost predicate Valid(m: GlmModel)
      reads this
    {
      && StateValid(m)
      && (logits.Some? ==> tokens != [] && LogitsOf(m, tokens) == Ok(logits.value))
    }

    constructor (m: GlmModel)
      requires m.Valid()
      ensures Valid(m) && fed == [] && tokens == [] && logits.None?
    {
      layers := seq(|m.kinds|, l => LayerCache([], [], []));
      dsaSelection, dsaHistory, tokens, logits, fed := None, [], [], None, [];
    }

    function Holds(): Held
      reads this
    {
      Held(StateNow(), tokens, logits)
    }

    /** A session taken up again from what it held. */
    constructor Resume(m: GlmModel, held: Held)
      requires HeldValid(m, held)
      ensures Valid(m) && fed == tokens && Holds() == held
    {
      layers, dsaSelection, dsaHistory := held.state.layers, held.state.selection, held.state.history;
      tokens, logits, fed := held.tokens, held.logits, held.tokens;
    }

    method Truncate(m: GlmModel, length: nat)
      requires StateValid(m)
      modifies this`layers, this`dsaHistory, this`dsaSelection, this`tokens, this`fed
      ensures StateValid(m)
      ensures StateNow() == GlmForward.Truncate(old(StateNow()), length)
      ensures fed == Cut(old(fed), length) && tokens == Cut(old(tokens), length)
    {
      ReplayShape(m, fed);
      var n := if length < |fed| then length else |fed|;
      TruncateReplay(m, fed, n);
      TruncateWhole(m, StateNow(), |fed|);
      if |fed| <= length { BeyondEnd(m, StateNow(), |fed|, length); }
      assert fed[..|fed|] == fed;
      layers := CutLayers(layers, length);
      dsaHistory := Cut(dsaHistory, length);
      dsaSelection := LastSelection(dsaHistory);
      tokens := Cut(tokens, length);
      fed := Cut(fed, length);
    }

    /** Scores every cached key, then keeps the best; cancellation is checked at each key. */
    method SelectPositions(m: GlmModel, l: nat, hidden: Vector, position: nat, keys: seq<Vector>, world: Interruptions)
      returns (r: Result<Selection, Error>)
      modifies world
      ensures r.Ok? ==> r.value == IndexSelection(m, l, hidden, position, keys)
      ensures r.Err? ==> !world.Quiet(old(world.ticks), world.ticks)
      ensures r.Ok? ==> world.ticks == old(world.ticks) + if position < m.topk then 0 else |keys|
      ensures world.ticks >= old(world.ticks) && (r.Ok? ==> world.Met() == old(world.Met()))
    {
      if position < m.topk { return Ok(None); }
      var scores: seq<int> := [];
      for i := 0 to |keys|
        invariant scores == IndexScores(m, l, hidden, position, keys)[..i]
        invariant world.ticks == old(world.ticks) + i && world.Met() == old(world.Met())
      {
        var interrupted := world.Check();
        if interrupted.Some? { return Err(interrupted.value); }
        scores := scores + [m.indexScore(l, hidden, position, keys[i])];
      }
      assert scores == IndexScores(m, l, hidden, position, keys);
      r := Ok(Some(TopK.Select(scores, m.topk)));
    }

    /** One layer's attention, in place: rows are pushed first, so a failure leaves them behind. */
    method RunAttention(m: GlmModel, l: nat, hidden: Vector, position: nat, world: Interruptions)
      returns (r: Result<Vector, Error>)
      requires |layers| == |m.kinds| && l < |m.kinds| && LayerShape(m, l, layers[l], position)
      requires Fits(dsaSelection, position + 1)
      modifies this`layers, this`dsaSelection, world
      ensures |layers| == |old(layers)| && forall k | 0 <= k < |layers| && k != l :: layers[k] == old(layers)[k]
      ensures var spec := Attention(m, l, hidden, position, old(layers)[l], old(dsaSelection));
        && (r.Ok? ==> spec == Ok((r.value, layers[l], dsaSelection)))
        && (r.Err? ==> CutLayer(layers[l], position) == old(layers)[l])
        && (r.Err? && world.Quiet(old(world.ticks), world.ticks) ==> spec == Err(r.error))
      ensures r.Ok? ==> exists rows :: ReadsSelected(layers[l], dsaSelection, position, rows)
                                       && m.attend(l, hidden, position, rows) == Ok(r.value)
      ensures world.ticks >= old(world.ticks) && (r.Ok? ==> world.Met() == old(world.Met()))
      ensures r.Ok? ==> world.ticks == old(world.ticks) + AttentionPoints(m, l, position)
    {
      hide ReadsSelected;
      AttendsToSelected(m, l, hidden, position, layers[l], dsaSelection);
      var interrupted := world.Check();
      if interrupted.Some? { return Err(interrupted.value); }
      var projected := m.project(l, hidden, position);
      if projected.Err? { return Err(Kernel(projected.error)); }
      var cache := layers[l];
      cache := cache.(latent := cache.latent + [projected.value.0], rope := cache.rope + [projected.value.1]);
      layers := layers[l := cache];
      if m.Indexed(l) {
        interrupted := world.Check();
        if interrupted.Some? { return Err(interrupted.value); }
        var key := m.indexKey(l, hidden, position);
        if key.Err? { return Err(Kernel(key.error)); }
        cache := cache.(indexKeys := cache.indexKeys + [key.value]);
        layers := layers[l := cache];
        var chosen := SelectPositions(m, l, hidden, position, cache.indexKeys, world);
        if chosen.Err? { return Err(chosen.error); }
        dsaSelection := chosen.value;
      } else if m.kinds[l].Full? {
        dsaSelection := None;
      } else if m.dsaEnabled && position + 1 > m.topk {
        if dsaSelection.None? { return Err(MissingDsaSelection(l)); }
      }
      interrupted := world.Check();
      if interrupted.Some? { return Err(interrupted.value); }
      var attended := m.attend(l, hidden, position, Rows(cache, Positions(dsaSelection, position)));
      if attended.Err? { return Err(Kernel(attended.error)); }
      r := Ok(attended.value);
    }

    method RunLayer(m: GlmModel, l: nat, hidden: Vector, position: nat, world: Interruptions)
      returns (r: Result<Vector, Error>)
      requires |layers| == |m.kinds| && l < |m.kinds| && LayerShape(m, l, layers[l], position)
      requires Fits(dsaSelection, position + 1)
      modifies this`layers, this`dsaSelection, world
      ensures |layers| == |old(layers)| && forall k | 0 <= k < |layers| && k != l :: layers[k] == old(layers)[k]
      ensures var spec := Attention(m, l, hidden, position, old(layers)[l], old(dsaSelection));
        && (r.Ok? ==> spec.Ok? && spec.value.1 == layers[l] && spec.value.2 == dsaSelection
                      && m.feedForward(l, spec.value.0) == Ok(r.value))
        && (r.Err? ==> CutLayer(layers[l], position) == old(layers)[l])
        && (r.Err? && world.Quiet(old(world.ticks), world.ticks) ==>
              if spec.Err? then spec.error == r.error
              else m.feedForward(l, spec.value.0).Err? && r.error == Kernel(m.feedForward(l, spec.value.0).error))
      ensures world.ticks >= old(world.ticks) && (r.Ok? ==> world.Met() == old(world.Met()))
      ensures r.Ok? ==> world.ticks == old(world.ticks) + AttentionPoints(m, l, position) + 2
    {
      AttentionGrowsIfOk(m, l, hidden, position, layers[l], dsaSelection);
      var interrupted := world.Check();
      if interrupted.Some? { return Err(interrupted.value); }
      var attended := RunAttention(m, l, hidden, position, world);
      if attended.Err? { return Err(attended.error); }
      interrupted := world.Check();
      if interrupted.Some? { return Err(interrupted.value); }
      var next := m.feedForward(l, attended.value);
      if next.Err? { return Err(Kernel(next.error)); }
      r := Ok(next.value);
    }

    /** Every layer in turn.  A failure leaves some layers one row longer and the selection changed. */
    method RunLayers(m: GlmModel, hidden0: Vector, position: nat, world: Interruptions)
      returns (r: Result<Vector, Error>)
      requires Growing(m, 0, layers, layers, position) && Fits(dsaSelection, position + 1)
      modifies this`layers, this`dsaSelection, world
      ensures |layers| == |old(layers)|
      ensures forall k: nat | k < |layers| :: CutLayer(layers[k], position) == old(layers)[k]
      ensures var spec := Layers(m, 0, hidden0, position, old(layers), old(dsaSelection));
        && (r.Ok? ==> spec == Ok((r.value, layers, dsaSelection)))
        && (r.Err? && world.Quiet(old(world.ticks), world.ticks) ==> spec == Err(r.error))
      ensures world.ticks >= old(world.ticks) && (r.Ok? ==> world.Met() == old(world.Met()))
      ensures r.Ok? ==> world.ticks == old(world.ticks) + LayerPoints(m, |m.kinds|, position)
    {
      hide Attention, AttentionPoints, LayerShape;
      var hidden := hidden0;
      for l := 0 to |m.kinds|
        invariant Growing(m, l, old(layers), layers, position) && Fits(dsaSelection, position + 1)
        invariant Layers(m, l, hidden, position, layers, dsaSelection)
               == Layers(m, 0, hidden0, position, old(layers), old(dsaSelection))
        invariant world.ticks >= old(world.ticks) && world.Met() == old(world.Met())
        invariant world.ticks == old(world.ticks) + LayerPoints(m, l, position)
      {
        AttentionGrowsIfOk(m, l, hidden, position, layers[l], dsaSelection);
        ghost var before := layers;
        var next := RunLayer(m, l, hidden, position, world);
        if next.Err? { return Err(next.error); }
        assert layers == before[l := layers[l]];
        hidden := next.value;
      }
      r := Ok(hidden);
    }

    method RunForward(m: GlmModel, token: Token, position: nat, world: Interruptions) returns (r: Result<Vector, Error>)
      requires StateValid(m) && position == Position(StateNow())
      requires token < m.vocabulary && position < m.maxContext
      modifies this`layers, this`dsaSelection, this`dsaHistory, world
      ensures r.Ok? ==> Forward(m, old(StateNow()), token) == Ok((StateNow(), r.value))
      ensures r.Err? ==> CutLayers(layers, position) == old(layers) && dsaHistory == old(dsaHistory)
      ensures r.Err? && world.Quiet(old(world.ticks), world.ticks) ==>
        Forward(m, old(StateNow()), token) == Err(r.error)
      ensures world.ticks >= old(world.ticks) && (r.Ok? ==> world.Met() == old(world.Met()))
      ensures r.Ok? ==> world.ticks == old(world.ticks) + LayerPoints(m, |m.kinds|, position) + 2
    {
      hide Replay, LogitsOf;
      ReplayShape(m, fed);
      assert LayerShape(m, 0, layers[0], |fed|);
      TruncateWhole(m, StateNow(), |fed|);
      assert CutLayers(layers, position) == layers;
      assert forall k | 0 <= k < |layers| :: CutLayers(layers, position)[k] == layers[k];
      var interrupted := world.Check();
      if interrupted.Some? { return Err(interrupted.value); }
      var hidden := m.embed(token);
      if hidden.Err? { return Err(Kernel(hidden.error)); }
      var last := RunLayers(m, hidden.value, position, world);
      if last.Err? { return Err(last.error); }
      interrupted := world.Check();
      if interrupted.Some? { return Err(interrupted.value); }
      var logits := m.output(last.value);
      if logits.Err? { return Err(Kernel(logits.error)); }
      dsaHistory := dsaHistory + [dsaSelection];
      r := Ok(logits.value);
    }

    /** Feeds one token.  A failure at any point is exactly a no-op on the session. */
    method ForwardToken(m: GlmModel, token: Token, world: Interruptions) returns (r: Result<Vector, Error>)
      requires StateValid(m)
      modifies this`layers, this`dsaSelection, this`dsaHistory, this`fed, world
      ensures StateValid(m)
      ensures r.Ok? ==> fed == old(fed) + [token] && LogitsOf(m, fed) == Ok(r.value)
      ensures r.Ok? ==> Forward(m, old(StateNow()), token) == Ok((StateNow(), r.value))
      ensures r.Err? ==> StateNow() == old(StateNow()) && fed == old(fed)
      ensures r.Err? && world.Quiet(old(world.ticks), world.ticks) ==>
        Forward(m, old(StateNow()), token) == Err(r.error)
      ensures world.ticks >= old(world.ticks) && (r.Ok? ==> world.Met() == old(world.Met()))
    {
      hide Replay, LogitsOf;
      if token >= m.vocabulary { return Err(InvalidToken); }
      var position := if layers == [] then 0 else |layers[0].latent|;
      if position >= m.maxContext { return Err(ContextLimit); }
      ReplayShape(m, fed);
      assert LayerShape(m, 0, layers[0], |fed|);
      ReplaySnoc(m, fed, token);
      var previous := dsaSelection;
      r := RunForward(m, token, position, world);
      if r.Err? {
        layers := CutLayers(layers, position);
        dsaSelection := previous;
        dsaHistory := Cut(dsaHistory, position);
      } else {
        fed := fed + [token];
      }
    }

    /** Any mix of forwards, however each is interrupted, and truncates: the state is that of a new
        session fed the tokens that remain. */
    method Run(m: GlmModel, ops: seq<Op>, world: Interruptions) returns (done: seq<bool>)
      requires StateValid(m)
      modifies this, world
      ensures StateValid(m) && |done| == |ops| && fed == FedAfter(old(fed), ops, done)
      ensures Replay(m, fed) == Ok(StateNow())
    {
      hide Replay, LogitsOf;
      done := [];
      for i := 0 to |ops|
        invariant StateValid(m) && |done| == i && fed == FedAfter(old(fed), ops[..i], done)
      {
        ghost var before := done;
        match ops[i] {
          case Extend(token) =>
            var r := ForwardToken(m, token, world);
            done := done + [r.Ok?];
          case CutTo(length) =>
            Truncate(m, length);
            done := done + [true];
        }
        assert ops[..i + 1][..i] == ops[..i] && done[..i] == before;
      }
      assert ops[..|ops|] == ops;
    }

    /** Feeds one token and records it with its logits. */
    method Feed(m: GlmModel, token: Token, world: Interruptions) returns (r: Result<Vector, Error>)
      requires Valid(m) && tokens == fed
      modifies this, world
      ensures Valid(m) && tokens == fed
      ensures r.Ok? ==> tokens == old(tokens) + [token] && logits == Some(r.value) && LogitsOf(m, tokens) == r
      ensures r.Ok? ==> Forward(m, old(StateNow()), token) == Ok((StateNow(), r.value))
      ensures r.Err? ==> tokens == old(tokens) && logits == old(logits)
      ensures r.Err? && world.Quiet(old(world.ticks), world.ticks) ==>
        Forward(m, old(StateNow()), token) == Err(r.error)
      ensures world.ticks >= old(world.ticks) && (r.Ok? ==> world.Met() == old(world.Met()))
    {
      r := ForwardToken(m, token, world);
      if r.Ok? {
        tokens := tokens + [token];
        logits := Some(r.value);
      }
    }

    /** The generation loop after prefill. */
    method Decode(m: GlmModel, first: Vector, sampler0: Sampler, maximum: nat, world: Interruptions)
      returns (r: Result<Reply, Error>, pieces: seq<string>)
      requires Valid(m) && tokens == fed
      modifies this, world
      ensures world.ticks >= old(world.ticks) && (r.Ok? ==> world.Met() == old(world.Met()))
      ensures Valid(m) && tokens == fed && old(tokens) <= tokens && (old(logits).Some? ==> logits.Some?)
      ensures r.Ok? ==> Grown(old(tokens), r.value.tokenIds, maximum, tokens)
      ensures var spec := Continue(m, old(StateNow()), first, sampler0, [], maximum);
        && (r.Ok? ==> r == spec && Joined(pieces) == r.value.text)
        && (world.Quiet(old(world.ticks), world.ticks) ==> r == spec)
    {
      hide Forward, Replay, LogitsOf, Streaming, Choose, Lossy, TextBytes, Finish, Grown, Stuck;
      StartsStreaming(m.tokenBytes);
      StartsGrown(tokens, maximum);
      var generated: seq<Token> := [];
      var sampler, current := sampler0, first;
      var pending: seq<byte> := [];
      var stopped := false;
      pieces := [];
      ghost var bytes: seq<byte> := [];
      while |generated| < maximum
        invariant Valid(m) && tokens == fed && Grown(old(tokens), generated, maximum, tokens)
        invariant old(logits).Some? ==> logits.Some?
        invariant Continue(m, StateNow(), current, sampler, generated, maximum)
               == Continue(m, old(StateNow()), first, sampler0, [], maximum)
        invariant TextBytes(m.tokenBytes, generated) == Some(bytes) && Streaming(bytes, Joined(pieces), pending)
        invariant world.ticks >= old(world.ticks) && world.Met() == old(world.Met())
        decreases maximum - |generated|
      {
        var interrupted := world.Check();
        if interrupted.Some? { return Err(interrupted.value), pieces; }
        var (sampler', choice) := Choose(m, current, sampler);
        if choice.Err? { return Err(choice.error), pieces; }
        if choice.value.Stop? {
          stopped := true;
          break;
        }
        var next, chunk := choice.value.token, choice.value.bytes;
        pieces, pending := EmitReady(pieces, pending, chunk, bytes);
        TextBytesSnoc(m.tokenBytes, generated, next);
        GrownSnoc(old(tokens), generated, maximum, tokens, next);
        bytes := bytes + chunk;
        generated := generated + [next];
        if |generated| < maximum {
          var answer := Feed(m, next, world);
          if answer.Err? { return Err(answer.error), pieces; }
          current := answer.value;
        }
        sampler := sampler';
      }
      pieces := EmitRest(pieces, pending, bytes);
      FinishShows(m.tokenBytes, generated, stopped);
      r := Finish(m.tokenBytes, generated, stopped);
    }

    /** Feeds the part of the prompt that is not cached yet. */
    method RunPrefill(m: GlmModel, prompt: seq<Token>, world: Interruptions) returns (r: Result<Vector, Error>)
      requires Valid(m) && tokens == fed && tokens < prompt
      modifies this, world
      ensures Valid(m) && tokens == fed && old(tokens) <= tokens <= prompt
      ensures r.Ok? ==> tokens == prompt && logits.Some?
      ensures r.Ok? ==> Prefill(m, NewState(m), prompt) == Ok((StateNow(), r.value))
      ensures r.Err? && world.Quiet(old(world.ticks), world.ticks) ==> Prefill(m, NewState(m), prompt) == Err(r.error)
      ensures world.ticks >= old(world.ticks) && (r.Ok? ==> world.Met() == old(world.Met()))
    {
      hide Replay, LogitsOf, Forward, Prefill;
      r := Err(MissingLogits);
      var i := |tokens|;
      while i < |prompt|
        invariant old(|tokens|) <= i <= |prompt|
        invariant Valid(m) && tokens == fed == prompt[..i]
        invariant i > old(|tokens|) ==> r.Ok? && logits.Some? && LogitsOf(m, prompt[..i]) == r
        invariant world.ticks >= old(world.ticks) && world.Met() == old(world.Met())
      {
        var token := prompt[i];
        PrefillStops(m, prompt, i);
        var interrupted := world.Check();
        if interrupted.Some? { return Err(interrupted.value); }
        r := Feed(m, token, world);
        if r.Err? { return; }
        i := i + 1;
        assert prompt[..i] == prompt[..i - 1] + [token];
      }
      assert prompt[..i] == prompt;
      PrefillIsReplay(m, prompt);
    }

    method ResetTo(m: GlmModel, length: nat, stable: Option<Vector>)
      requires Valid(m) && length <= |tokens|
      requires stable.Some? ==> length > 0 && LogitsOf(m, tokens[..length]) == Ok(stable.value)
      modifies this
      ensures Valid(m) && tokens == fed == old(tokens)[..length] && logits == stable
    {
      Truncate(m, length);
      logits := stable;
      assert tokens == old(tokens)[..length];
    }

    method Answer(m: GlmModel, prompt: seq<Token>, maximum: nat, sampler: Sampler, world: Interruptions)
      returns (r: Result<Reply, Error>, pieces: seq<string>)
      requires Valid(m) && tokens == fed && tokens <= prompt
      requires Admission(prompt, maximum, m.maxContext).None?
      modifies this, world
      ensures world.ticks >= old(world.ticks) && (r.Ok? ==> world.Met() == old(world.Met()))
      ensures Valid(m) && tokens == fed && old(tokens) <= tokens
      ensures r.Ok? ==> Grown(prompt, r.value.tokenIds, maximum, tokens) && logits.Some?
      ensures r.Ok? ==> r == Fresh(m, prompt, maximum, sampler) && Joined(pieces) == r.value.text
      ensures if old(tokens) == prompt && old(logits).None? then r == Err(MissingLogits)
              else world.Quiet(old(world.ticks), world.ticks) ==> r == Fresh(m, prompt, maximum, sampler)
    {
      pieces := [];
      var first: Result<Vector, Error>;
      if |tokens| == |prompt| {
        if logits.None? { return Err(MissingLogits), pieces; }
        first := Ok(logits.value);
        assert tokens == prompt;
        PrefillIsReplay(m, prompt);
      } else {
        first := RunPrefill(m, prompt, world);
        if first.Err? { return Err(first.error), pieces; }
      }
      r, pieces := Decode(m, first.value, sampler, maximum, world);
    }

    /** Reuses the cached prefix, answers, and on any failure goes back to that prefix. */
    method Generate(m: GlmModel, prompt: seq<Token>, maximum: nat, sampler: Sampler, world: Interruptions)
      returns (r: Result<Reply, Error>, pieces: seq<string>)
      requires Valid(m)
      modifies this, world
      ensures world.ticks >= old(world.ticks) && (r.Ok? ==> world.Met() == old(world.Met()))
      ensures Valid(m)
      ensures r.Ok? ==> r == Fresh(m, prompt, maximum, sampler) && Joined(pieces) == r.value.text
      ensures world.Quiet(old(world.ticks), world.ticks) && !Stuck(old(tokens), old(logits), prompt)
        ==> r == Fresh(m, prompt, maximum, sampler)
      ensures Admission(prompt, maximum, m.maxContext).Some? ==> r == Fresh(m, prompt, maximum, sampler)
      ensures Admission(prompt, maximum, m.maxContext).None? && Stuck(old(tokens), old(logits), prompt)
        ==> r == Err(MissingLogits) && Stuck(tokens, logits, prompt)
      ensures Admission(prompt, maximum, m.maxContext).Some? ==> unchanged(this)
      ensures r.Err? && Admission(prompt, maximum, m.maxContext).None? ==>
        Reused(old(tokens), prompt, tokens) && logits == (if tokens == old(tokens) then old(logits) else None)
      ensures r.Ok? ==> Grown(prompt, r.value.tokenIds, maximum, tokens) && logits.Some?
      ensures old(tokens == fed) ==> tokens == fed && HeldValid(m, Holds())
    {
      pieces := [];
      var refused := Admission(prompt, maximum, m.maxContext);
      if refused.Some? { return Err(refused.value), pieces; }
      var reusable := CommonPrefixLength(tokens, prompt);
      var stable := if reusable == |tokens| then logits else None;
      assert reusable == |tokens| ==> tokens[..reusable] == tokens;
      ResetTo(m, reusable, stable);
      ghost var kept := tokens;
      r, pieces := Answer(m, prompt, maximum, sampler, world);
      if r.Err? {
        assert tokens[..reusable] == kept;
        ResetTo(m, reusable, stable);
      }
    }
  }

  // ---------- The refusal ----------

  /** A session that answered a prompt refuses every shorter beginning of it, whatever interrupts it. */
  method ShorterPromptIsRefused(
    m: GlmModel, prompt: seq<Token>, shorter: seq<Token>, maximum: nat, sampler: Sampler, world: Interruptions)
    returns (first: Result<Reply, Error>, second: Result<Reply, Error>)
    requires m.Valid() && [] < shorter < prompt
    modifies world
    ensures first.Ok? ==> second == Err(MissingLogits)
    ensures world.Quiet(old(world.ticks), world.ticks) ==> first == Fresh(m, prompt, maximum, sampler)
  {
    var session := new Glm52CpuSession(m);
    var pieces;
    first, pieces := session.Generate(m, prompt, maximum, sampler, world);
    second, pieces := session.Generate(m, shorter, maximum, sampler, world);
  }

  /** One full layer without the sidecar, two tokens, kernels that never fail, a stop token at once. */
  function Tiny(): GlmModel {
    GlmModel([Full], false, 1, 2, 8, token => Ok([]), (l, hidden, position) => Ok(([], [])),
             (l, hidden, position) => Ok([]), (l, hidden, position, key) => 0, (l, hidden, position, rows) => Ok([]),
             (l, hidden) => Ok([]), hidden => Ok([0.0]), logits => Ok(logits), token => true, token => Some([]))
  }

  function First(): Sampler {
    Sampler(0, (state, logits) => (state, Ok(0)))
  }

  function TinyState(rows: nat): State {
    State([LayerCache(seq(rows, i => []), seq(rows, i => []), [])], None, seq(rows, i => None))
  }

  lemma TinyForward(rows: nat, token: Token)
    requires rows < 8 && token < 2
    ensures Forward(Tiny(), TinyState(rows), token) == Ok((TinyState(rows + 1), [0.0]))
  {
    var m, before, after := Tiny(), TinyState(rows), TinyState(rows + 1);
    assert after.layers[0].latent == before.layers[0].latent + [[]];
    assert after.layers[0].rope == before.layers[0].rope + [[]];
    assert after.history == before.history + [None];
    assert Attention(m, 0, [], rows, before.layers[0], None) == Ok(([], after.layers[0], None));
    assert before.layers[0 := after.layers[0]] == after.layers;
    assert Layers(m, 1, [], rows, after.layers, None) == Ok(([], after.layers, None));
  }

  lemma TinyAnswers(prompt: seq<Token>)
    requires prompt == [0] || prompt == [0, 1]
    ensures Fresh(Tiny(), prompt, 1, First()) == Ok(Reply([], "", true))
  {
    hide Forward;
    var m := Tiny();
    assert NewState(m).layers[0] == LayerCache([], [], []) == TinyState(0).layers[0];
    assert NewState(m).layers == TinyState(0).layers && TinyState(0).history == [];
    assert NewState(m) == TinyState(0);
    TinyForward(0, 0);
    if prompt == [0, 1] {
      TinyForward(1, 1);
      assert prompt[1..] == [1];
      assert Prefill(m, TinyState(1), [1]) == Ok((TinyState(2), [0.0]));
    }
    assert Lossy([]) == "";
  }

  /** So the refusal is real: a new session answers [0], one that just answered [0, 1] does not. */
  method AnsweredThenRefused() returns (answer: Result<Reply, Error>, refusal: Result<Reply, Error>)
    ensures answer == Fresh(Tiny(), [0], 1, First()) && answer.Ok? && refusal == Err(MissingLogits)
  {
    hide Fresh;
    var world := new Interruptions(tick => None);
    TinyAnswers([0, 1]);
    TinyAnswers([0]);
    var longer, pieces;
    longer, refusal := ShorterPromptIsRefused(Tiny(), [0, 1], [0], 1, First(), world);
    var session := new Glm52CpuSession(Tiny());
    answer, pieces := session.Generate(Tiny(), [0], 1, First(), world);
  }
}
