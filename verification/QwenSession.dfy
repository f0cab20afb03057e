/** Qwen sessions: hybrid recurrent and full attention state that cannot be truncated, so a session
 *  either extends its prompt exactly or is cleared and rebuilt.
 */
module QwenSession {
  import opened Wrappers
  import opened Utf8
  import opened Utf8Stream
  import opened Generation

  datatype Kv = Kv(key: Vector, value: Vector)

  datatype LayerState =
    | Recurrent(convolution: Vector, delta: Vector)
    | Full(rows: seq<Kv>)

  function Zeros(n: nat): Vector { seq(n, i => 0.0) }

  function Cleared(layer: LayerState): LayerState {
    match layer
    case Recurrent(convolution, delta) => Recurrent(Zeros(|convolution|), Zeros(|delta|))
    case Full(_) => Full([])
  }

  ghost predicate IsZero(v: Vector) {
    forall i: nat | i < |v| :: v[i] == 0.0
  }

  ghost predicate IsNew(layer: LayerState) {
    match layer
    case Recurrent(convolution, delta) => IsZero(convolution) && IsZero(delta)
    case Full(rows) => rows == []
  }

  /** Kernels are deterministic functions that may fail.  `recur` yields the new buffer contents and
      the raw output; `finishRecurrent` and `attend` turn it into the next hidden vector. */
  datatype QwenModel = QwenModel(
    initial: seq<LayerState>,
    vocabulary: nat, maxContext: nat,
    embed: Token -> Result<Vector, nat>,
    recur: (nat, Vector, Vector, Vector) -> Result<(Vector, Vector, Vector), nat>,
    finishRecurrent: (nat, Vector, Vector) -> Result<Vector, nat>,
    project: (nat, Vector, nat) -> Result<Kv, nat>,
    attend: (nat, Vector, nat, seq<Kv>) -> Result<Vector, nat>,
    output: Vector -> Result<Vector, nat>,
    stops: Token -> bool,
    tokenBytes: Token -> Option<seq<byte>>)
  {
    /** New layers hold zeros or nothing. */
    ghost predicate Valid() {
      forall l | 0 <= l < |initial| :: IsNew(initial[l])
    }
  }

  /** Writing into an existing buffer: its length never changes. */
  function InPlace(buffer: Vector, written: Vector): (r: Vector)
    ensures |r| == |buffer|
    ensures |written| <= |buffer| ==> r == written + buffer[|written|..]
  {
    seq(|buffer|, i requires 0 <= i < |buffer| => if i < |written| then written[i] else buffer[i])
  }

  // ---------- Forward as a fold ----------

  function Layer(m: QwenModel, l: nat, hidden: Vector, position: nat, layer: LayerState)
    : Result<(Vector, LayerState), Error> {
    match layer
    case Recurrent(convolution, delta) =>
      (match m.recur(l, hidden, convolution, delta)
       case Err(code) => Err(Kernel(code))
       case Ok((convolution', delta', raw)) =>
         match m.finishRecurrent(l, hidden, raw)
         case Err(code) => Err(Kernel(code))
         case Ok(next) => Ok((next, Recurrent(InPlace(convolution, convolution'), InPlace(delta, delta')))))
    case Full(rows) =>
      if |rows| != position then Err(CachePosition)
      else
        match m.project(l, hidden, position)
        case Err(code) => Err(Kernel(code))
        case Ok(kv) =>
          match m.attend(l, hidden, position, rows + [kv])
          case Err(code) => Err(Kernel(code))
          case Ok(next) => Ok((next, Full(rows + [kv])))
  }

  function Layers(m: QwenModel, l: nat, hidden: Vector, position: nat, layers: seq<LayerState>)
    : Result<(Vector, seq<LayerState>), Error>
    decreases |layers| - l
  {
    if l >= |layers| then Ok((hidden, layers))
    else
      match Layer(m, l, hidden, position, layers[l])
      case Err(e) => Err(e)
      case Ok((next, grown)) => Layers(m, l + 1, next, position, layers[l := grown])
  }

  datatype State = State(layers: seq<LayerState>, position: nat)

  function NewState(m: QwenModel): State { State(m.initial, 0) }

  function Forward(m: QwenModel, state: State, token: Token, produceLogits: bool)
    : Result<(State, Option<Vector>), Error> {
    if token >= m.vocabulary then Err(InvalidToken)
    else if state.position >= m.maxContext then Err(ContextLimit)
    else
      match m.embed(token)
      case Err(code) => Err(Kernel(code))
      case Ok(hidden) =>
        match Layers(m, 0, hidden, state.position, state.layers)
        case Err(e) => Err(e)
        case Ok((last, layers)) =>
          if !produceLogits then Ok((State(layers, state.position + 1), None))
          else
            match m.output(last)
            case Err(code) => Err(Kernel(code))
            case Ok(logits) => Ok((State(layers, state.position + 1), Some(logits)))
  }

  function Replay(m: QwenModel, tokens: seq<Token>): Result<State, Error>
    decreases |tokens|
  {
    if tokens == [] then Ok(NewState(m))
    else
      match Replay(m, tokens[..|tokens| - 1])
      case Err(e) => Err(e)
      case Ok(before) =>
        match Forward(m, before, tokens[|tokens| - 1], false)
        case Err(e) => Err(e)
        case Ok((state, _)) => Ok(state)
  }

  function LogitsOf(m: QwenModel, tokens: seq<Token>): Result<Vector, Error>
    requires tokens != []
  {
    match Replay(m, tokens[..|tokens| - 1])
    case Err(e) => Err(e)
    case Ok(before) =>
      match Forward(m, before, tokens[|tokens| - 1], true)
      case Err(e) => Err(e)
      case Ok((_, logits)) => Ok(logits.value)
  }

  // ---------- Clearing ----------

  predicate SameKind(a: LayerState, b: LayerState) {
    match (a, b)
    case (Recurrent(_, _), Recurrent(_, _)) => |a.convolution| == |b.convolution| && |a.delta| == |b.delta|
    case (Full(_), Full(_)) => true
    case _ => false
  }

  /** Layers of the right kinds and buffer sizes, whatever they hold. */
  ghost predicate SameKinds(m: QwenModel, layers: seq<LayerState>) {
    |layers| == |m.initial| && forall l | 0 <= l < |layers| :: SameKind(layers[l], m.initial[l])
  }

  function ClearedAll(layers: seq<LayerState>): seq<LayerState> {
    seq(|layers|, l requires 0 <= l < |layers| => Cleared(layers[l]))
  }

  lemma ClearedIsNew(m: QwenModel, layers: seq<LayerState>)
    requires m.Valid() && SameKinds(m, layers)
    ensures ClearedAll(layers) == m.initial
  {
    forall l | 0 <= l < |layers| ensures Cleared(layers[l]) == m.initial[l] {
      assert SameKind(layers[l], m.initial[l]) && IsNew(m.initial[l]);
    }
  }

  lemma {:induction false} LayersKeepKinds(m: QwenModel, l: nat, hidden: Vector, position: nat, layers: seq<LayerState>)
    requires SameKinds(m, layers) && Layers(m, l, hidden, position, layers).Ok?
    ensures SameKinds(m, Layers(m, l, hidden, position, layers).value.1)
    decreases |layers| - l
  {
    if l < |layers| {
      var (next, grown) := Layer(m, l, hidden, position, layers[l]).value;
      assert SameKind(grown, layers[l]);
      LayersKeepKinds(m, l + 1, next, position, layers[l := grown]);
    }
  }

  lemma {:induction false} ReplayKeepsKinds(m: QwenModel, tokens: seq<Token>)
    requires Replay(m, tokens).Ok?
    ensures SameKinds(m, Replay(m, tokens).value.layers) && Replay(m, tokens).value.position == |tokens|
    decreases |tokens|
  {
    if tokens != [] {
      ReplayKeepsKinds(m, tokens[..|tokens| - 1]);
      var before := Replay(m, tokens[..|tokens| - 1]).value;
      LayersKeepKinds(m, 0, m.embed(tokens[|tokens| - 1]).value, before.position, before.layers);
    }
  }

  // ---------- The fresh answer ----------

  function Prefill(m: QwenModel, state: State, tokens: seq<Token>): Result<(State, Vector), Error>
    requires tokens != []
    decreases |tokens|
  {
    match Forward(m, state, tokens[0], |tokens| == 1)
    case Err(e) => Err(e)
    case Ok((next, logits)) =>
      if |tokens| == 1 then Ok((next, logits.value)) else Prefill(m, next, tokens[1..])
  }

  /** Samples and checks the next token; here the vocabulary size is the bound. */
  function Choose(m: QwenModel, logits: Vector, sampler: Sampler): (r: (Sampler, Result<Choice, Error>))
    ensures r.1.Ok? && r.1.value.Next? ==> m.tokenBytes(r.1.value.token) == Some(r.1.value.bytes)
  {
    Pick(sampler, logits, m.vocabulary, m.stops, m.tokenBytes)
  }

  function Continue(m: QwenModel, state: State, logits: Vector, sampler: Sampler, generated: seq<Token>, maximum: nat)
    : Result<Reply, Error>
    decreases maximum - |generated|
  {
    if |generated| >= maximum then Finish(m.tokenBytes, generated, false)
    else
      var (sampler', choice) := Choose(m, logits, sampler);
      match choice
      case Err(e) => Err(e)
      case Ok(Stop) => Finish(m.tokenBytes, generated, true)
      case Ok(Next(next, _)) =>
        if |generated| + 1 < maximum then
          match Forward(m, state, next, true)
          case Err(e) => Err(e)
          case Ok((state', logits')) => Continue(m, state', logits'.value, sampler', generated + [next], maximum)
        else Finish(m.tokenBytes, generated + [next], false)
  }

  function Fresh(m: QwenModel, prompt: seq<Token>, maximum: nat, sampler: Sampler): Result<Reply, Error> {
    match Admission(prompt, maximum, m.maxContext)
    case Some(e) => Err(e)
    case None =>
      match Prefill(m, NewState(m), prompt)
      case Err(e) => Err(e)
      case Ok((state, logits)) => Continue(m, state, logits, sampler, [], maximum)
  }

  lemma {:induction false} PrefillFromPrefix(m: QwenModel, prompt: seq<Token>, n: nat)
    requires n < |prompt| && Replay(m, prompt[..n]).Ok?
    ensures Prefill(m, NewState(m), prompt) == Prefill(m, Replay(m, prompt[..n]).value, prompt[n..])
    decreases n
  {
    if n == 0 {
      assert prompt[0..] == prompt;
    } else {
      assert prompt[..n][..n - 1] == prompt[..n - 1];
      PrefillFromPrefix(m, prompt, n - 1);
      assert prompt[n - 1..][1..] == prompt[n..];
    }
  }

  /** Where a token of the prompt fails, the whole prefill fails the same way. */
  lemma PrefillStops(m: QwenModel, prompt: seq<Token>, n: nat)
    requires n < |prompt| && Replay(m, prompt[..n]).Ok?
    ensures var step := Forward(m, Replay(m, prompt[..n]).value, prompt[n], n + 1 == |prompt|);
      step.Err? ==> Prefill(m, NewState(m), prompt) == Err(step.error)
  {
    PrefillFromPrefix(m, prompt, n);
    assert prompt[n..][0] == prompt[n];
  }

  lemma PrefillIsReplay(m: QwenModel, prompt: seq<Token>)
    requires prompt != [] && Replay(m, prompt).Ok? && LogitsOf(m, prompt).Ok?
    ensures Prefill(m, NewState(m), prompt) == Ok((Replay(m, prompt).value, LogitsOf(m, prompt).value))
  {
    PrefillFromPrefix(m, prompt, |prompt| - 1);
    assert prompt[|prompt| - 1..] == [prompt[|prompt| - 1]];
  }

  // ---------- What the answer is ----------

  /** The selector sees the logits as they are; the vocabulary size is its bound. */
  function LawOf(m: QwenModel): Law {
    Law(m.maxContext, tokens => if tokens == [] then Err(EmptyPrompt) else LogitsOf(m, tokens), logits => Ok(logits),
        logits => m.vocabulary, m.stops, (t: Token) => m.tokenBytes(t).Some?, tokens => TextOf(m.tokenBytes, tokens))
  }

  lemma LawText(m: QwenModel, tokens: seq<Token>)
    ensures LawOf(m).text(tokens) == TextOf(m.tokenBytes, tokens)
    ensures forall t :: LawOf(m).shows(t) == m.tokenBytes(t).Some?
  {
  }

  /** The replay of a sequence fails where one of its tokens does. */
  lemma {:induction false} ReplayStops(m: QwenModel, tokens: seq<Token>) returns (n: nat)
    requires Replay(m, tokens).Err?
    ensures n < |tokens| && Replay(m, tokens[..n]).Ok?
    ensures Forward(m, Replay(m, tokens[..n]).value, tokens[n], false) == Err(Replay(m, tokens).error)
    decreases |tokens|
  {
    var shorter := tokens[..|tokens| - 1];
    if Replay(m, shorter).Err? {
      n := ReplayStops(m, shorter);
      assert shorter[..n] == tokens[..n];
    } else {
      n := |shorter|;
    }
  }

  lemma LogitsFail(m: QwenModel, tokens: seq<Token>)
    requires tokens != [] && Replay(m, tokens[..|tokens| - 1]).Err?
    ensures LogitsOf(m, tokens) == Err(Replay(m, tokens[..|tokens| - 1]).error)
  {
  }

  lemma ForwardOrStop(m: QwenModel, tokens: seq<Token>, token: Token)
    requires Replay(m, tokens).Ok?
    ensures var step := Forward(m, Replay(m, tokens).value, token, true);
      if step.Err? then LogitsOf(m, tokens + [token]) == Err(step.error)
      else step.value.1.Some? && LogitsOf(m, tokens + [token]) == Ok(step.value.1.value)
           && Replay(m, tokens + [token]) == Ok(step.value.0)
  {
    assert (tokens + [token])[..|tokens|] == tokens;
  }

  /** Prefilling a new session gives the prompt's logits, or fails as they do. */
  lemma PrefillIsLogits(m: QwenModel, prompt: seq<Token>)
    requires prompt != []
    ensures LogitsOf(m, prompt).Ok? ==>
      Replay(m, prompt).Ok?
      && Prefill(m, NewState(m), prompt) == Ok((Replay(m, prompt).value, LogitsOf(m, prompt).value))
    ensures LogitsOf(m, prompt).Err? ==> Prefill(m, NewState(m), prompt) == Err(LogitsOf(m, prompt).error)
  {
    hide Forward, Replay, LogitsOf, Prefill;
    var last := |prompt| - 1;
    if Replay(m, prompt[..last]).Err? {
      LogitsFail(m, prompt);
      var n := ReplayStops(m, prompt[..last]);
      assert prompt[..last][..n] == prompt[..n];
      PrefillStops(m, prompt, n);
    } else {
      PrefillStops(m, prompt, last);
      assert prompt[..last] + [prompt[last]] == prompt;
      ForwardOrStop(m, prompt[..last], prompt[last]);
      if LogitsOf(m, prompt).Ok? { PrefillIsReplay(m, prompt); }
    }
  }

  /** One round of the loop: it ends here, or draws one token more. */
  lemma OneDraw(m: QwenModel, prompt: seq<Token>, sampler: Sampler, states: seq<nat>, ids: seq<Token>, maximum: nat)
    requires prompt != [] && DrawnInTurn(LawOf(m), prompt, sampler, states, ids) && |ids| < maximum
    requires LogitsOf(m, prompt + ids).Ok?
    ensures var now := Sampler(states[|ids|], sampler.pick);
      var (next, choice) := Choose(m, LogitsOf(m, prompt + ids).value, now);
      && next.pick == sampler.pick
      && match choice
         case Err(e) => Ends(LawOf(m), prompt, maximum, sampler.pick, states[|ids|], ids, Err(e))
         case Ok(Stop) =>
           Ends(LawOf(m), prompt, maximum, sampler.pick, states[|ids|], ids, Finish(m.tokenBytes, ids, true))
         case Ok(Next(token, _)) => DrawnInTurn(LawOf(m), prompt, sampler, states + [next.state], ids + [token])
  {
    hide Finish, LogitsOf, TextOf;
    var (next, choice) := Choose(m, LogitsOf(m, prompt + ids).value, Sampler(states[|ids|], sampler.pick));
    LawText(m, ids);
    DrawnShows(LawOf(m), prompt, sampler, states, ids, m.tokenBytes, true);
    if choice.Ok? && choice.value.Next? {
      assert (ids + [choice.value.token])[..|ids|] == ids;
      DrawnSnoc(LawOf(m), prompt, sampler, states, ids, choice.value.token, next.state);
    }
  }

  lemma EndsFull(m: QwenModel, prompt: seq<Token>, sampler: Sampler, states: seq<nat>, ids: seq<Token>, maximum: nat)
    requires prompt != [] && DrawnInTurn(LawOf(m), prompt, sampler, states, ids) && |ids| == maximum
    requires ids == [] ==> LogitsOf(m, prompt).Ok?
    ensures Answers(LawOf(m), prompt, maximum, sampler, states, ids, Finish(m.tokenBytes, ids, false))
  {
    hide Finish, LogitsOf, TextOf;
    LawText(m, ids);
    assert prompt + [] == prompt;
    DrawnShows(LawOf(m), prompt, sampler, states, ids, m.tokenBytes, false);
  }

  lemma EndsByFailure(m: QwenModel, prompt: seq<Token>, sampler: Sampler, state: nat, ids: seq<Token>, maximum: nat)
    requires prompt != [] && LogitsOf(m, prompt + ids).Err? && |ids| < maximum
    ensures Ends(LawOf(m), prompt, maximum, sampler.pick, state, ids, Err(LogitsOf(m, prompt + ids).error))
  {
  }

  /** From drawn tokens on, the loop answers by the law. */
  lemma {:induction false} ContinueAnswers(m: QwenModel, prompt: seq<Token>, sampler: Sampler, states: seq<nat>,
      ids: seq<Token>, maximum: nat, state: State)
    returns (states': seq<nat>, ids': seq<Token>)
    requires prompt != [] && |ids| <= maximum && (ids == [] || |ids| < maximum)
    requires DrawnInTurn(LawOf(m), prompt, sampler, states, ids)
    requires Replay(m, prompt + ids) == Ok(state) && LogitsOf(m, prompt + ids).Ok?
    ensures Answers(LawOf(m), prompt, maximum, sampler, states', ids',
                    Continue(m, state, LogitsOf(m, prompt + ids).value, Sampler(states[|ids|], sampler.pick), ids,
                             maximum))
    decreases maximum - |ids|
  {
    hide Forward, Replay, LogitsOf, DrawnAt, Choose, Finish, LawOf;
    states', ids' := states, ids;
    assert prompt + [] == prompt;
    if |ids| < maximum {
      OneDraw(m, prompt, sampler, states, ids, maximum);
      var (next, choice) := Choose(m, LogitsOf(m, prompt + ids).value, Sampler(states[|ids|], sampler.pick));
      if choice.Ok? && choice.value.Next? {
        var token := choice.value.token;
        states', ids' := states + [next.state], ids + [token];
        if |ids'| < maximum {
          assert prompt + ids' == prompt + ids + [token];
          ForwardOrStop(m, prompt + ids, token);
          if Forward(m, state, token, true).Ok? {
            states', ids' := ContinueAnswers(m, prompt, sampler, states', ids', maximum,
                                             Forward(m, state, token, true).value.0);
          } else {
            EndsByFailure(m, prompt, sampler, states'[|ids'|], ids', maximum);
          }
        } else {
          EndsFull(m, prompt, sampler, states', ids', maximum);
        }
      }
    } else {
      EndsFull(m, prompt, sampler, states, ids, maximum);
    }
  }

  /** A new session's answer is the one the law of a reply allows: the tokens are drawn one by one, each
      from the logits of everything before it. */
  lemma FreshIsTheAnswer(m: QwenModel, prompt: seq<Token>, maximum: nat, sampler: Sampler, r: Result<Reply, Error>)
    ensures Fresh(m, prompt, maximum, sampler) == r <==> IsAnswer(LawOf(m), prompt, maximum, sampler, r)
  {
    var law, answer := LawOf(m), Fresh(m, prompt, maximum, sampler);
    if Admission(prompt, maximum, m.maxContext).None? {
      NothingDrawn(law, prompt, sampler);
      PrefillIsLogits(m, prompt);
      assert prompt + [] == prompt;
      if LogitsOf(m, prompt).Ok? {
        var state := Replay(m, prompt).value;
        var states, ids := ContinueAnswers(m, prompt, sampler, [sampler.state], [], maximum, state);
      } else {
        assert Answers(law, prompt, maximum, sampler, [sampler.state], [], answer);
      }
    }
    assert IsAnswer(law, prompt, maximum, sampler, answer);
    if IsAnswer(law, prompt, maximum, sampler, r) { AnswerIsUnique(law, prompt, maximum, sampler, r, answer); }
  }

  /** Everything a session holds between requests; then the logits of the cached tokens are held too. */
  datatype Held = Held(state: State, tokens: seq<Token>, logits: Option<Vector>)

  ghost predicate HeldValid(m: QwenModel, held: Held) {
    && m.Valid()
    && Replay(m, held.tokens) == Ok(held.state)
    && (held.logits.Some? ==> held.tokens != [] && LogitsOf(m, held.tokens) == Ok(held.logits.value))
    && (held.tokens != [] ==> held.logits.Some?)
  }

  // ---------- The session ----------

  class Qwen35CpuSession {
    var layers: seq<LayerState>
    var position: nat
    var tokens: seq<Token>
    var logits: Option<Vector>

    function StateNow(): State
      reads this
    {
      State(layers, position)
    }

    ghost predicate Valid(m: QwenModel)
      reads this
    {
      && m.Valid()
      && Replay(m, tokens) == Ok(StateNow())
      && (logits.Some? ==> tokens != [] && LogitsOf(m, tokens) == Ok(logits.value))
    }

    /** Between requests the logits of the cached tokens are always held. */
    ghost predicate Settled(m: QwenModel)
      reads this
    {
      Valid(m) && (tokens != [] ==> logits.Some?)
    }

    constructor (m: QwenModel)
      requires m.Valid()
      ensures Settled(m) && tokens == []
    {
      layers, position, tokens, logits := m.initial, 0, [], None;
    }

    function Holds(): Held
      reads this
    {
      Held(StateNow(), tokens, logits)
    }

    /** A session taken up again from what it held. */
    constructor Resume(m: QwenModel, held: Held)
      requires HeldValid(m, held)
      ensures Settled(m) && Holds() == held
    {
      layers, position, tokens, logits := held.state.layers, held.state.position, held.tokens, held.logits;
    }

    /** Works from any state a failed forward can leave behind. */
    method Clear(m: QwenModel)
      requires m.Valid() && SameKinds(m, layers)
      modifies this
      ensures Settled(m) && tokens == [] && logits.None? && StateNow() == NewState(m)
    {
      ClearedIsNew(m, layers);
      layers := ClearedAll(layers);
      position, tokens, logits := 0, [], None;
    }

    /** One layer, in place: buffers are overwritten or extended before the part that may still fail. */
    method RunLayer(m: QwenModel, l: nat, hidden: Vector, world: Interruptions) returns (r: Result<Vector, Error>)
      requires SameKinds(m, layers) && l < |layers|
      modifies this`layers, world
      ensures SameKinds(m, layers) && |layers| == |old(layers)|
      ensures forall k | 0 <= k < |layers| && k != l :: layers[k] == old(layers)[k]
      ensures var spec := Layer(m, l, hidden, position, old(layers)[l]);
        && (r.Ok? ==> spec == Ok((r.value, layers[l])))
        && (r.Err? && world.Quiet(old(world.ticks), world.ticks) ==> spec == Err(r.error))
      ensures world.ticks >= old(world.ticks) && (r.Ok? ==> world.Met() == old(world.Met()))
      ensures r.Ok? ==> world.ticks == old(world.ticks) + 2
    {
      var interrupted := world.Check();
      if interrupted.Some? { return Err(interrupted.value); }
      match layers[l]
      case Recurrent(convolution, delta) =>
        var recurred := m.recur(l, hidden, convolution, delta);
        if recurred.Err? { return Err(Kernel(recurred.error)); }
        layers := layers[l := Recurrent(InPlace(convolution, recurred.value.0), InPlace(delta, recurred.value.1))];
        interrupted := world.Check();
        if interrupted.Some? { return Err(interrupted.value); }
        var next := m.finishRecurrent(l, hidden, recurred.value.2);
        if next.Err? { return Err(Kernel(next.error)); }
        r := Ok(next.value);
      case Full(rows) =>
        if |rows| != position { return Err(CachePosition); }
        var kv := m.project(l, hidden, position);
        if kv.Err? { return Err(Kernel(kv.error)); }
        layers := layers[l := Full(rows + [kv.value])];
        interrupted := world.Check();
        if interrupted.Some? { return Err(interrupted.value); }
        var next := m.attend(l, hidden, position, rows + [kv.value]);
        if next.Err? { return Err(Kernel(next.error)); }
        r := Ok(next.value);
    }

    /** Feeds one token.  Unlike the other families, a failure may leave any mixture of old and new buffers. */
    method ForwardToken(m: QwenModel, token: Token, produceLogits: bool, world: Interruptions)
      returns (r: Result<Option<Vector>, Error>)
      requires SameKinds(m, layers)
      modifies this`layers, this`position, world
      ensures SameKinds(m, layers)
      ensures r.Ok? ==> Forward(m, old(StateNow()), token, produceLogits) == Ok((StateNow(), r.value))
      ensures r.Err? && world.Quiet(old(world.ticks), world.ticks) ==>
        Forward(m, old(StateNow()), token, produceLogits) == Err(r.error)
      ensures world.ticks >= old(world.ticks) && (r.Ok? ==> world.Met() == old(world.Met()))
      ensures r.Ok? ==> world.ticks == old(world.ticks) + 2 * |old(layers)| + if produceLogits then 1 else 0
    {
      hide Replay, LogitsOf;
      if token >= m.vocabulary { return Err(InvalidToken); }
      if position >= m.maxContext { return Err(ContextLimit); }
      var embedded := m.embed(token);
      if embedded.Err? { return Err(Kernel(embedded.error)); }
      var hidden := embedded.value;
      for l := 0 to |layers|
        invariant SameKinds(m, layers) && |layers| == |old(layers)| && position == old(position)
        invariant Layers(m, l, hidden, position, layers) == Layers(m, 0, embedded.value, position, old(layers))
        invariant world.ticks >= old(world.ticks) && world.Met() == old(world.Met())
        invariant world.ticks == old(world.ticks) + 2 * l
      {
        ghost var before := layers;
        var next := RunLayer(m, l, hidden, world);
        if next.Err? { return Err(next.error); }
        assert layers == before[l := layers[l]];
        hidden := next.value;
      }
      position := position + 1;
      if !produceLogits { return Ok(None); }
      var interrupted := world.Check();
      if interrupted.Some? { return Err(interrupted.value); }
      var logits := m.output(hidden);
      if logits.Err? { return Err(Kernel(logits.error)); }
      r := Ok(Some(logits.value));
    }

    method Feed(m: QwenModel, token: Token, produceLogits: bool, world: Interruptions)
      returns (r: Result<Option<Vector>, Error>)
      requires Valid(m)
      modifies this, world
      ensures SameKinds(m, layers) && (r.Ok? ==> Valid(m))
      ensures r.Ok? ==> tokens == old(tokens) + [token] && logits == r.value && (logits.Some? <==> produceLogits)
      ensures r.Ok? ==> Forward(m, old(StateNow()), token, produceLogits) == Ok((StateNow(), logits))
      ensures r.Err? && world.Quiet(old(world.ticks), world.ticks) ==>
        Forward(m, old(StateNow()), token, produceLogits) == Err(r.error)
      ensures world.ticks >= old(world.ticks) && (r.Ok? ==> world.Met() == old(world.Met()))
    {
      ReplayKeepsKinds(m, tokens);
      r := ForwardToken(m, token, produceLogits, world);
      if r.Ok? {
        tokens := tokens + [token];
        logits := r.value;
      }
    }

    method RunPrefill(m: QwenModel, prompt: seq<Token>, world: Interruptions) returns (r: Result<Vector, Error>)
      requires Valid(m) && tokens < prompt
      modifies this, world
      ensures SameKinds(m, layers)
      ensures r.Ok? ==>
        Settled(m) && tokens == prompt && logits.Some? && Prefill(m, NewState(m), prompt) == Ok((StateNow(), r.value))
      ensures r.Err? && world.Quiet(old(world.ticks), world.ticks) ==> Prefill(m, NewState(m), prompt) == Err(r.error)
      ensures world.ticks >= old(world.ticks) && (r.Ok? ==> world.Met() == old(world.Met()))
    {
      hide Replay, LogitsOf, Forward, Prefill;
      var i := |tokens|;
      r := Err(MissingLogits);
      while i < |prompt|
        invariant old(|tokens|) <= i <= |prompt|
        invariant Valid(m) && tokens == prompt[..i]
        invariant i == |prompt| ==> logits.Some? && r == Ok(logits.value)
        invariant world.ticks >= old(world.ticks) && world.Met() == old(world.Met())
      {
        var token := prompt[i];
        PrefillStops(m, prompt, i);
        ReplayKeepsKinds(m, tokens);
        var interrupted := world.Check();
        if interrupted.Some? { return Err(interrupted.value); }
        var fed := Feed(m, token, i + 1 == |prompt|, world);
        if fed.Err? { return Err(fed.error); }
        if fed.value.Some? { r := Ok(fed.value.value); }
        i := i + 1;
        assert prompt[..i] == prompt[..i - 1] + [token];
      }
      assert prompt[..i] == prompt;
      ReplayKeepsKinds(m, tokens);
      PrefillIsReplay(m, prompt);
    }

    method Decode(m: QwenModel, first: Vector, sampler0: Sampler, maximum: nat, world: Interruptions)
      returns (r: Result<Reply, Error>, pieces: seq<string>)
      requires Settled(m)
      modifies this, world
      ensures world.ticks >= old(world.ticks) && (r.Ok? ==> world.Met() == old(world.Met()))
      ensures SameKinds(m, layers) && (old(logits).Some? && r.Ok? ==> logits.Some?)
      ensures r.Ok? ==> Settled(m) && Grown(old(tokens), r.value.tokenIds, maximum, tokens)
      ensures var spec := Continue(m, old(StateNow()), first, sampler0, [], maximum);
        && (r.Ok? ==> r == spec && Joined(pieces) == r.value.text)
        && (world.Quiet(old(world.ticks), world.ticks) ==> r == spec)
    {
      hide Forward, Replay, LogitsOf, Streaming, Choose, Lossy, TextBytes, Finish, Grown;
      StartsStreaming(m.tokenBytes);
      StartsGrown(tokens, maximum);
      var generated: seq<Token> := [];
      var sampler, current := sampler0, first;
      var pending: seq<byte> := [];
      var stopped := false;
      pieces := [];
      ghost var bytes: seq<byte> := [];
      while |generated| < maximum
        invariant Settled(m) && Grown(old(tokens), generated, maximum, tokens)
        invariant old(logits).Some? ==> logits.Some?
        invariant Continue(m, StateNow(), current, sampler, generated, maximum)
               == Continue(m, old(StateNow()), first, sampler0, [], maximum)
        invariant TextBytes(m.tokenBytes, generated) == Some(bytes) && Streaming(bytes, Joined(pieces), pending)
        invariant world.ticks >= old(world.ticks) && world.Met() == old(world.Met())
        decreases maximum - |generated|
      {
        ReplayKeepsKinds(m, tokens);
        var interrupted := world.Check();
        if interrupted.Some? { return Err(interrupted.value), pieces; }
        var (sampler', choice) := Choose(m, current, sampler);
        if choice.Err? { return Err(choice.error), pieces; }
        if choice.value.Stop? {
          stopped := true;
          break;
        }
        var next, chunk := choice.value.token, choice.value.bytes;
        pieces, pending := EmitReady(pieces, pending, chunk, bytes);
        TextBytesSnoc(m.tokenBytes, generated, next);
        GrownSnoc(old(tokens), generated, maximum, tokens, next);
        bytes := bytes + chunk;
        generated := generated + [next];
        if |generated| < maximum {
          var fed := Feed(m, next, true, world);
          if fed.Err? { return Err(fed.error), pieces; }
          current := fed.value.value;
        }
        sampler := sampler';
      }
      ReplayKeepsKinds(m, tokens);
      pieces := EmitRest(pieces, pending, bytes);
      FinishShows(m.tokenBytes, generated, stopped);
      r := Finish(m.tokenBytes, generated, stopped);
    }

    method Answer(m: QwenModel, prompt: seq<Token>, maximum: nat, sampler: Sampler, world: Interruptions)
      returns (r: Result<Reply, Error>, pieces: seq<string>)
      requires Settled(m) && tokens <= prompt && Admission(prompt, maximum, m.maxContext).None?
      modifies this, world
      ensures world.ticks >= old(world.ticks) && (r.Ok? ==> world.Met() == old(world.Met()))
      ensures SameKinds(m, layers)
      ensures r.Ok? ==> Settled(m) && Grown(prompt, r.value.tokenIds, maximum, tokens) && logits.Some?
      ensures r.Ok? ==> r == Fresh(m, prompt, maximum, sampler) && Joined(pieces) == r.value.text
      ensures world.Quiet(old(world.ticks), world.ticks) ==> r == Fresh(m, prompt, maximum, sampler)
    {
      pieces := [];
      var first: Result<Vector, Error>;
      ReplayKeepsKinds(m, tokens);
      if |tokens| == |prompt| {
        assert tokens == prompt;
        if logits.None? { return Err(MissingLogits), pieces; }
        first := Ok(logits.value);
        PrefillIsReplay(m, prompt);
      } else {
        first := RunPrefill(m, prompt, world);
        if first.Err? { return Err(first.error), pieces; }
      }
      r, pieces := Decode(m, first.value, sampler, maximum, world);
    }

    /** Extends the cached prompt exactly or rebuilds from nothing; any failure clears the session.
        Unless it is interrupted, it always gives the fresh answer. */
    method Generate(m: QwenModel, prompt: seq<Token>, maximum: nat, sampler: Sampler, world: Interruptions)
      returns (r: Result<Reply, Error>, pieces: seq<string>)
      requires Settled(m)
      modifies this, world
      ensures world.ticks >= old(world.ticks) && (r.Ok? ==> world.Met() == old(world.Met()))
      ensures Settled(m)
      ensures r.Ok? ==> r == Fresh(m, prompt, maximum, sampler) && Joined(pieces) == r.value.text
      ensures world.Quiet(old(world.ticks), world.ticks) ==> r == Fresh(m, prompt, maximum, sampler)
      ensures r.Err? && Admission(prompt, maximum, m.maxContext).None? ==> tokens == [] && StateNow() == NewState(m)
      ensures r.Ok? ==> Grown(prompt, r.value.tokenIds, maximum, tokens) && logits.Some?
    {
      pieces := [];
      var refused := Admission(prompt, maximum, m.maxContext);
      if refused.Some? { return Err(refused.value), pieces; }
      var common := CommonPrefixLength(tokens, prompt);
      ReplayKeepsKinds(m, tokens);
      if common != |tokens| { Clear(m); }
      assert tokens <= prompt;
      r, pieces := Answer(m, prompt, maximum, sampler, world);
      if r.Err? { Clear(m); }
    }
  }
}
