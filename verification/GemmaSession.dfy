/** Gemma CPU sessions against stateless generation. */
module GemmaSession {
  import opened Wrappers
  import opened Generation

  datatype Kv = Kv(key: Vector, value: Vector)

  /** Kernels are deterministic functions that may fail; `window` is the sliding window of a layer. */
  datatype GemmaModel = GemmaModel(
    windows: seq<Option<nat>>,
    vocabulary: nat, maxContext: nat,
    embed: Token -> Result<Vector, nat>,
    project: (nat, Vector, nat) -> Result<Kv, nat>,
    mix: (nat, Vector, nat, seq<Kv>) -> Result<Vector, nat>,
    output: Vector -> Result<Vector, nat>,
    stops: Token -> bool,
    text: seq<Token> -> string)
  {
    predicate Valid() { windows != [] }
  }

  type Caches = seq<seq<Kv>>

  // ---------- Forward as a fold ----------

  /** The rows a layer attends to: all of them, or the last `window`. */
  function Attended(rows: seq<Kv>, window: Option<nat>): seq<Kv> {
    match window
    case None => rows
    case Some(w) => if w < |rows| then rows[|rows| - w..] else rows
  }

  function Layers(m: GemmaModel, l: nat, hidden: Vector, position: nat, caches: Caches): Result<(Vector, Caches), Error>
    requires |caches| == |m.windows|
    decreases |m.windows| - l
  {
    if l >= |m.windows| then Ok((hidden, caches))
    else
      match m.project(l, hidden, position)
      case Err(code) => Err(Kernel(code))
      case Ok(kv) =>
        var grown := caches[l] + [kv];
        match m.mix(l, hidden, position, Attended(grown, m.windows[l]))
        case Err(code) => Err(Kernel(code))
        case Ok(next) => Layers(m, l + 1, next, position, caches[l := grown])
  }

  function Position(caches: Caches): nat {
    if caches == [] then 0 else |caches[0]|
  }

  /** Only the token whose logits are wanted pays for the output stage. */
  function Forward(m: GemmaModel, caches: Caches, token: Token, produceLogits: bool)
    : Result<(Caches, Option<Vector>), Error>
    requires |caches| == |m.windows|
  {
    var position := Position(caches);
    if token >= m.vocabulary then Err(InvalidToken)
    else if position >= m.maxContext then Err(ContextLimit)
    else
      match m.embed(token)
      case Err(code) => Err(Kernel(code))
      case Ok(hidden) =>
        match Layers(m, 0, hidden, position, caches)
        case Err(e) => Err(e)
        case Ok((last, grown)) =>
          if !produceLogits then Ok((grown, None))
          else
            match m.output(last)
            case Err(code) => Err(Kernel(code))
            case Ok(logits) => Ok((grown, Some(logits)))
  }

  function NewCaches(m: GemmaModel): Caches {
    seq(|m.windows|, l => [])
  }

  lemma {:induction false} LayersCount(m: GemmaModel, l: nat, hidden: Vector, position: nat, caches: Caches)
    requires |caches| == |m.windows| && Layers(m, l, hidden, position, caches).Ok?
    ensures |Layers(m, l, hidden, position, caches).value.1| == |m.windows|
    decreases |m.windows| - l
  {
    if l < |m.windows| {
      var grown := caches[l] + [m.project(l, hidden, position).value];
      LayersCount(m, l + 1, m.mix(l, hidden, position, Attended(grown, m.windows[l])).value, position,
        caches[l := grown]);
    }
  }

  lemma ForwardCount(m: GemmaModel, caches: Caches, token: Token, produceLogits: bool)
    requires |caches| == |m.windows| && Forward(m, caches, token, produceLogits).Ok?
    ensures |Forward(m, caches, token, produceLogits).value.0| == |m.windows|
  {
    LayersCount(m, 0, m.embed(token).value, Position(caches), caches);
  }

  /** The caches after `tokens`; no logits are asked for on the way. */
  function Replay(m: GemmaModel, tokens: seq<Token>): (r: Result<Caches, Error>)
    ensures r.Ok? ==> |r.value| == |m.windows|
    decreases |tokens|
  {
    if tokens == [] then Ok(NewCaches(m))
    else
      match Replay(m, tokens[..|tokens| - 1])
      case Err(e) => Err(e)
      case Ok(before) =>
        match Forward(m, before, tokens[|tokens| - 1], false)
        case Err(e) => Err(e)
        case Ok((caches, _)) => ForwardCount(m, before, tokens[|tokens| - 1], false); Ok(caches)
  }

  function LogitsOf(m: GemmaModel, tokens: seq<Token>): Result<Vector, Error>
    requires tokens != []
  {
    match Replay(m, tokens[..|tokens| - 1])
    case Err(e) => Err(e)
    case Ok(before) =>
      match Forward(m, before, tokens[|tokens| - 1], true)
      case Err(e) => Err(e)
      case Ok((_, logits)) => Ok(logits.value)
  }

  // ---------- Truncation and causality ----------

  function CutAll(caches: Caches, n: nat): Caches {
    seq(|caches|, l requires 0 <= l < |caches| => Cut(caches[l], n))
  }

  ghost predicate Shape(m: GemmaModel, caches: Caches, n: nat) {
    |caches| == |m.windows| && forall l | 0 <= l < |caches| :: |caches[l]| == n
  }

  /** After some layers of one pass: those hold one row more, the rest are untouched. */
  ghost predicate Growing(m: GemmaModel, l: nat, before: Caches, caches: Caches, position: nat) {
    && |before| == |caches| == |m.windows|
    && forall k: nat | k < |m.windows| ::
         |caches[k]| == (if k < l then position + 1 else position) && Cut(caches[k], position) == before[k]
  }

  lemma {:induction false} LayersGrow(m: GemmaModel, l: nat, hidden: Vector, position: nat, before: Caches,
      caches: Caches)
    requires l <= |m.windows| && Growing(m, l, before, caches, position)
    requires Layers(m, l, hidden, position, caches).Ok?
    ensures Growing(m, |m.windows|, before, Layers(m, l, hidden, position, caches).value.1, position)
    decreases |m.windows| - l
  {
    if l < |m.windows| {
      var grown := caches[l] + [m.project(l, hidden, position).value];
      LayersGrow(m, l + 1, m.mix(l, hidden, position, Attended(grown, m.windows[l])).value, position, before,
        caches[l := grown]);
    }
  }

  /** A forwarded token only appends, and asking for logits does not change what is appended. */
  lemma ForwardAppends(m: GemmaModel, caches: Caches, token: Token, produceLogits: bool)
    requires m.Valid() && Shape(m, caches, Position(caches)) && Forward(m, caches, token, produceLogits).Ok?
    ensures var grown := Forward(m, caches, token, produceLogits).value.0;
      && Shape(m, grown, Position(caches) + 1)
      && CutAll(grown, Position(caches)) == caches
      && Forward(m, caches, token, false) == Ok((grown, None))
  {
    LayersGrow(m, 0, m.embed(token).value, Position(caches), caches, caches);
    var grown := Forward(m, caches, token, produceLogits).value.0;
    assert CutAll(grown, Position(caches)) == caches;
  }

  lemma {:induction false} ReplayShape(m: GemmaModel, tokens: seq<Token>)
    requires m.Valid() && Replay(m, tokens).Ok?
    ensures Shape(m, Replay(m, tokens).value, |tokens|)
    decreases |tokens|
  {
    if tokens != [] {
      ReplayShape(m, tokens[..|tokens| - 1]);
      ForwardAppends(m, Replay(m, tokens[..|tokens| - 1]).value, tokens[|tokens| - 1], false);
    }
  }

  /** Causality: the rows of the first n tokens depend on those tokens alone. */
  lemma {:induction false} TruncateReplay(m: GemmaModel, tokens: seq<Token>, n: nat)
    requires m.Valid() && Replay(m, tokens).Ok? && n <= |tokens|
    ensures Replay(m, tokens[..n]) == Ok(CutAll(Replay(m, tokens).value, n))
    decreases |tokens|
  {
    ReplayShape(m, tokens);
    var caches := Replay(m, tokens).value;
    if n == |tokens| {
      assert tokens[..n] == tokens;
      assert CutAll(caches, n) == caches;
    } else {
      var shorter := tokens[..|tokens| - 1];
      ReplayShape(m, shorter);
      ForwardAppends(m, Replay(m, shorter).value, tokens[|tokens| - 1], false);
      TruncateReplay(m, shorter, n);
      assert shorter[..n] == tokens[..n];
      var twice := CutAll(CutAll(caches, |shorter|), n);
      forall l | 0 <= l < |caches| ensures twice[l] == CutAll(caches, n)[l] {
        assert caches[l][..|shorter|][..n] == caches[l][..n];
      }
      assert twice == CutAll(caches, n);
    }
  }

  // ---------- The stateless answer ----------

  function Prefill(m: GemmaModel, caches: Caches, tokens: seq<Token>): Result<(Caches, Vector), Error>
    requires |caches| == |m.windows| && tokens != []
    decreases |tokens|
  {
    match Forward(m, caches, tokens[0], |tokens| == 1)
    case Err(e) => Err(e)
    case Ok((next, logits)) =>
      ForwardCount(m, caches, tokens[0], |tokens| == 1);
      if |tokens| == 1 then Ok((next, logits.value)) else Prefill(m, next, tokens[1..])
  }

  /** Here the text is made from the whole reply, so a drawn token carries no bytes. */
  datatype Draw = Halt | Drawn(token: Token)

  function Choose(m: GemmaModel, logits: Vector, sampler: Sampler): (Sampler, Result<Draw, Error>) {
    var (sampler', choice) := sampler.Select(logits);
    match choice
    case Err(e) => (sampler', Err(e))
    case Ok(next) =>
      if next >= |logits| then (sampler', Err(InvalidToken))
      else if m.stops(next) then (sampler', Ok(Halt))
      else (sampler', Ok(Drawn(next)))
  }

  function ReplyWith(m: GemmaModel, generated: seq<Token>, stopped: bool): Result<Reply, Error> {
    Ok(Reply(generated, m.text(generated), stopped))
  }

  function Continue(m: GemmaModel, caches: Caches, logits: Vector, sampler: Sampler, generated: seq<Token>,
      maximum: nat)
    : Result<Reply, Error>
    requires |caches| == |m.windows|
    decreases maximum - |generated|
  {
    if |generated| >= maximum then ReplyWith(m, generated, false)
    else
      var (sampler', choice) := Choose(m, logits, sampler);
      match choice
      case Err(e) => Err(e)
      case Ok(Halt) => ReplyWith(m, generated, true)
      case Ok(Drawn(next)) =>
        if |generated| + 1 < maximum then
          match Forward(m, caches, next, true)
          case Err(e) => Err(e)
          case Ok((caches', logits')) =>
            ForwardCount(m, caches, next, true);
            Continue(m, caches', logits'.value, sampler', generated + [next], maximum)
        else ReplyWith(m, generated + [next], false)
  }

  lemma {:induction false} PrefillCount(m: GemmaModel, caches: Caches, tokens: seq<Token>)
    requires |caches| == |m.windows| && tokens != [] && Prefill(m, caches, tokens).Ok?
    ensures |Prefill(m, caches, tokens).value.0| == |m.windows|
    decreases |tokens|
  {
    ForwardCount(m, caches, tokens[0], |tokens| == 1);
    if |tokens| > 1 { PrefillCount(m, Forward(m, caches, tokens[0], false).value.0, tokens[1..]); }
  }

  function Fresh(m: GemmaModel, prompt: seq<Token>, maximum: nat, sampler: Sampler): Result<Reply, Error> {
    match Admission(prompt, maximum, m.maxContext)
    case Some(e) => Err(e)
    case None =>
      match Prefill(m, NewCaches(m), prompt)
      case Err(e) => Err(e)
      case Ok((caches, logits)) =>
        PrefillCount(m, NewCaches(m), prompt);
        Continue(m, caches, logits, sampler, [], maximum)
  }

  lemma {:induction false} PrefillFromPrefix(m: GemmaModel, prompt: seq<Token>, n: nat)
    requires n < |prompt| && Replay(m, prompt[..n]).Ok?
    ensures Prefill(m, NewCaches(m), prompt) == Prefill(m, Replay(m, prompt[..n]).value, prompt[n..])
    decreases n
  {
    if n == 0 {
      assert prompt[0..] == prompt;
    } else {
      assert prompt[..n][..n - 1] == prompt[..n - 1];
      PrefillFromPrefix(m, prompt, n - 1);
      assert prompt[n - 1..][1..] == prompt[n..];
    }
  }

  /** Where a token of the prompt fails, the whole prefill fails the same way. */
  lemma PrefillStops(m: GemmaModel, prompt: seq<Token>, n: nat)
    requires n < |prompt| && Replay(m, prompt[..n]).Ok? && |Replay(m, prompt[..n]).value| == |m.windows|
    ensures var step := Forward(m, Replay(m, prompt[..n]).value, prompt[n], n + 1 == |prompt|);
      step.Err? ==> Prefill(m, NewCaches(m), prompt) == Err(step.error)
  {
    PrefillFromPrefix(m, prompt, n);
    assert prompt[n..][0] == prompt[n];
  }

  lemma PrefillIsReplay(m: GemmaModel, prompt: seq<Token>)
    requires m.Valid() && prompt != [] && Replay(m, prompt).Ok? && LogitsOf(m, prompt).Ok?
    ensures Prefill(m, NewCaches(m), prompt) == Ok((Replay(m, prompt).value, LogitsOf(m, prompt).value))
  {
    PrefillFromPrefix(m, prompt, |prompt| - 1);
    assert prompt[|prompt| - 1..] == [prompt[|prompt| - 1]];
    var before := Replay(m, prompt[..|prompt| - 1]).value;
    ReplayShape(m, prompt[..|prompt| - 1]);
    ForwardAppends(m, before, prompt[|prompt| - 1], true);
  }

  lemma ReplaySnoc(m: GemmaModel, tokens: seq<Token>, token: Token, produceLogits: bool)
    requires m.Valid() && Replay(m, tokens).Ok? && Forward(m, Replay(m, tokens).value, token, produceLogits).Ok?
    ensures Replay(m, tokens + [token]) == Ok(Forward(m, Replay(m, tokens).value, token, produceLogits).value.0)
    ensures produceLogits ==> var logits := Forward(m, Replay(m, tokens).value, token, true).value.1;
      logits.Some? && LogitsOf(m, tokens + [token]) == Ok(logits.value)
  {
    assert (tokens + [token])[..|tokens|] == tokens;
    ReplayShape(m, tokens);
    ForwardAppends(m, Replay(m, tokens).value, token, produceLogits);
  }

  // ---------- What the answer is ----------

  /** The selector sees the logits as they are, and the text is made from the whole reply. */
  function LawOf(m: GemmaModel): Law {
    Law(m.maxContext, tokens => if tokens == [] then Err(EmptyPrompt) else LogitsOf(m, tokens), logits => Ok(logits),
        logits => |logits|, m.stops, token => true, m.text)
  }

  /** The replay of a sequence fails where one of its tokens does. */
  lemma {:induction false} ReplayStops(m: GemmaModel, tokens: seq<Token>) returns (n: nat)
    requires Replay(m, tokens).Err?
    ensures n < |tokens| && Replay(m, tokens[..n]).Ok?
    ensures Forward(m, Replay(m, tokens[..n]).value, tokens[n], false) == Err(Replay(m, tokens).error)
    decreases |tokens|
  {
    var shorter := tokens[..|tokens| - 1];
    if Replay(m, shorter).Err? {
      n := ReplayStops(m, shorter);
      assert shorter[..n] == tokens[..n];
    } else {
      n := |shorter|;
    }
  }

  lemma ForwardOrStop(m: GemmaModel, tokens: seq<Token>, token: Token)
    requires m.Valid() && Replay(m, tokens).Ok?
    ensures var step := Forward(m, Replay(m, tokens).value, token, true);
      if step.Err? then LogitsOf(m, tokens + [token]) == Err(step.error)
      else step.value.1.Some? && LogitsOf(m, tokens + [token]) == Ok(step.value.1.value)
           && Replay(m, tokens + [token]) == Ok(step.value.0)
  {
    assert (tokens + [token])[..|tokens|] == tokens;
    if Forward(m, Replay(m, tokens).value, token, true).Ok? { ReplaySnoc(m, tokens, token, true); }
  }

  lemma LogitsFail(m: GemmaModel, tokens: seq<Token>)
    requires tokens != [] && Replay(m, tokens[..|tokens| - 1]).Err?
    ensures LogitsOf(m, tokens) == Err(Replay(m, tokens[..|tokens| - 1]).error)
  {
  }

  /** Prefilling a new session gives the prompt's logits, or fails as they do. */
  lemma PrefillIsLogits(m: GemmaModel, prompt: seq<Token>)
    requires m.Valid() && prompt != []
    ensures LogitsOf(m, prompt).Ok? ==>
      Replay(m, prompt).Ok?
      && Prefill(m, NewCaches(m), prompt) == Ok((Replay(m, prompt).value, LogitsOf(m, prompt).value))
    ensures LogitsOf(m, prompt).Err? ==> Prefill(m, NewCaches(m), prompt) == Err(LogitsOf(m, prompt).error)
  {
    hide Forward, Replay, LogitsOf, Prefill;
    var last := |prompt| - 1;
    if Replay(m, prompt[..last]).Err? {
      LogitsFail(m, prompt);
      var n := ReplayStops(m, prompt[..last]);
      assert prompt[..last][..n] == prompt[..n];
      PrefillStops(m, prompt, n);
    } else {
      PrefillStops(m, prompt, last);
      assert prompt[..last] + [prompt[last]] == prompt;
      ForwardOrStop(m, prompt[..last], prompt[last]);
      if LogitsOf(m, prompt).Ok? { PrefillIsReplay(m, prompt); }
    }
  }

  /** One round of the loop: it ends here, or draws one token more. */
  lemma OneDraw(m: GemmaModel, prompt: seq<Token>, sampler: Sampler, states: seq<nat>, ids: seq<Token>, maximum: nat)
    requires prompt != [] && DrawnInTurn(LawOf(m), prompt, sampler, states, ids) && |ids| < maximum
    requires LogitsOf(m, prompt + ids).Ok?
    ensures var now := Sampler(states[|ids|], sampler.pick);
      var (next, choice) := Choose(m, LogitsOf(m, prompt + ids).value, now);
      && next.pick == sampler.pick
      && match choice
         case Err(e) => Ends(LawOf(m), prompt, maximum, sampler.pick, states[|ids|], ids, Err(e))
         case Ok(Halt) => Ends(LawOf(m), prompt, maximum, sampler.pick, states[|ids|], ids, ReplyWith(m, ids, true))
         case Ok(Drawn(token)) => DrawnInTurn(LawOf(m), prompt, sampler, states + [next.state], ids + [token])
  {
    var (next, choice) := Choose(m, LogitsOf(m, prompt + ids).value, Sampler(states[|ids|], sampler.pick));
    if choice.Ok? && choice.value.Drawn? {
      assert (ids + [choice.value.token])[..|ids|] == ids;
      DrawnSnoc(LawOf(m), prompt, sampler, states, ids, choice.value.token, next.state);
    }
  }

  /** From drawn tokens on, the loop answers by the law. */
  lemma {:induction false} ContinueAnswers(m: GemmaModel, prompt: seq<Token>, sampler: Sampler, states: seq<nat>,
      ids: seq<Token>, maximum: nat, caches: Caches)
    returns (states': seq<nat>, ids': seq<Token>)
    requires m.Valid() && prompt != [] && |ids| <= maximum && (ids == [] || |ids| < maximum)
    requires DrawnInTurn(LawOf(m), prompt, sampler, states, ids)
    requires |caches| == |m.windows| && Replay(m, prompt + ids) == Ok(caches) && LogitsOf(m, prompt + ids).Ok?
    ensures Answers(LawOf(m), prompt, maximum, sampler, states', ids',
                    Continue(m, caches, LogitsOf(m, prompt + ids).value, Sampler(states[|ids|], sampler.pick), ids,
                             maximum))
    decreases maximum - |ids|
  {
    hide Forward, Replay, LogitsOf, DrawnAt, Choose;
    states', ids' := states, ids;
    if |ids| < maximum {
      OneDraw(m, prompt, sampler, states, ids, maximum);
      var (next, choice) := Choose(m, LogitsOf(m, prompt + ids).value, Sampler(states[|ids|], sampler.pick));
      if choice.Ok? && choice.value.Drawn? {
        var token := choice.value.token;
        states', ids' := states + [next.state], ids + [token];
        if |ids'| < maximum {
          assert prompt + ids' == prompt + ids + [token];
          ForwardOrStop(m, prompt + ids, token);
          if Forward(m, caches, token, true).Ok? {
            ForwardCount(m, caches, token, true);
            states', ids' := ContinueAnswers(m, prompt, sampler, states', ids', maximum,
                                             Forward(m, caches, token, true).value.0);
          }
        }
      }
    }
  }

  /** A new session's answer is the one the law of a reply allows: the tokens are drawn one by one, each
      from the logits of everything before it. */
  lemma FreshIsTheAnswer(m: GemmaModel, prompt: seq<Token>, maximum: nat, sampler: Sampler, r: Result<Reply, Error>)
    requires m.Valid()
    ensures Fresh(m, prompt, maximum, sampler) == r <==> IsAnswer(LawOf(m), prompt, maximum, sampler, r)
  {
    var law, answer := LawOf(m), Fresh(m, prompt, maximum, sampler);
    if Admission(prompt, maximum, m.maxContext).None? {
      NothingDrawn(law, prompt, sampler);
      PrefillIsLogits(m, prompt);
      assert prompt + [] == prompt;
      if LogitsOf(m, prompt).Ok? {
        var caches := Replay(m, prompt).value;
        var states, ids := ContinueAnswers(m, prompt, sampler, [sampler.state], [], maximum, caches);
      } else {
        assert Answers(law, prompt, maximum, sampler, [sampler.state], [], answer);
      }
    }
    assert IsAnswer(law, prompt, maximum, sampler, answer);
    if IsAnswer(law, prompt, maximum, sampler, r) { AnswerIsUnique(law, prompt, maximum, sampler, r, answer); }
  }

  // ---------- The cache object ----------

  class KvCache {
    var layers: Caches

    constructor (m: GemmaModel)
      ensures layers == NewCaches(m)
    {
      layers := seq(|m.windows|, l => []);
    }

    constructor Resume(layers: Caches)
      ensures this.layers == layers
    {
      this.layers := layers;
    }

    /** The common length of all layers, or an error when they disagree. */
    method CheckedPosition() returns (r: Result<nat, Error>)
      ensures r.Ok? <==> forall l | 0 <= l < |layers| :: |layers[l]| == Position(layers)
      ensures r == if r.Ok? then Ok(Position(layers)) else Err(CachePosition)
    {
      var position := Position(layers);
      for l := 0 to |layers|
        invariant forall k | 0 <= k < l :: |layers[k]| == position
      {
        if |layers[l]| != position { return Err(CachePosition); }
      }
      r := Ok(position);
    }

    method Truncate(length: nat)
      modifies this
      ensures layers == CutAll(old(layers), length)
    {
      layers := CutAll(layers, length);
    }

    /** Every layer in turn; a failure leaves the layers already passed one row longer. */
    method RunLayers(m: GemmaModel, hidden0: Vector, position: nat, world: Interruptions)
      returns (r: Result<Vector, Error>)
      requires Shape(m, layers, position)
      modifies this, world
      ensures |layers| == |old(layers)|
      ensures forall k: nat | k < |layers| :: Cut(layers[k], position) == old(layers)[k]
      ensures var spec := Layers(m, 0, hidden0, position, old(layers));
        && (r.Ok? ==> spec == Ok((r.value, layers)))
        && (r.Err? && world.Quiet(old(world.ticks), world.ticks) ==> spec == Err(r.error))
      ensures world.ticks >= old(world.ticks) && (r.Ok? ==> world.Met() == old(world.Met()))
      ensures r.Ok? ==> world.ticks == old(world.ticks) + 2 * |m.windows|
    {
      var hidden := hidden0;
      for l := 0 to |m.windows|
        invariant Growing(m, l, old(layers), layers, position)
        invariant Layers(m, l, hidden, position, layers) == Layers(m, 0, hidden0, position, old(layers))
        invariant world.ticks >= old(world.ticks) && world.Met() == old(world.Met())
        invariant world.ticks == old(world.ticks) + 2 * l
      {
        var interrupted := world.Check();
        if interrupted.Some? { return Err(interrupted.value); }
        var kv := m.project(l, hidden, position);
        if kv.Err? { return Err(Kernel(kv.error)); }
        layers := layers[l := layers[l] + [kv.value]];
        interrupted := world.Check();
        if interrupted.Some? { return Err(interrupted.value); }
        var next := m.mix(l, hidden, position, Attended(layers[l], m.windows[l]));
        if next.Err? { return Err(Kernel(next.error)); }
        hidden := next.value;
      }
      r := Ok(hidden);
    }

    method RunForward(m: GemmaModel, token: Token, position: nat, produceLogits: bool, world: Interruptions)
      returns (r: Result<Option<Vector>, Error>)
      requires m.Valid() && Shape(m, layers, position) && token < m.vocabulary && position < m.maxContext
      modifies this, world
      ensures r.Ok? ==> Forward(m, old(layers), token, produceLogits) == Ok((layers, r.value))
      ensures |layers| == |old(layers)|
      ensures r.Err? ==> forall k: nat | k < |layers| :: Cut(layers[k], position) == old(layers)[k]
      ensures r.Err? && world.Quiet(old(world.ticks), world.ticks) ==>
        Forward(m, old(layers), token, produceLogits) == Err(r.error)
      ensures world.ticks >= old(world.ticks) && (r.Ok? ==> world.Met() == old(world.Met()))
      ensures r.Ok? ==> world.ticks == old(world.ticks) + 2 * |m.windows| + if produceLogits then 1 else 0
    {
      var hidden := m.embed(token);
      if hidden.Err? { return Err(Kernel(hidden.error)); }
      var last := RunLayers(m, hidden.value, position, world);
      if last.Err? { return Err(last.error); }
      if !produceLogits { return Ok(None); }
      var interrupted := world.Check();
      if interrupted.Some? { return Err(interrupted.value); }
      var logits := m.output(last.value);
      if logits.Err? { return Err(Kernel(logits.error)); }
      r := Ok(Some(logits.value));
    }

    /** Feeds one token; any failure leaves the cache as it was. */
    method ForwardToken(m: GemmaModel, token: Token, position: nat, produceLogits: bool, world: Interruptions)
      returns (r: Result<Option<Vector>, Error>)
      requires m.Valid() && Shape(m, layers, position)
      modifies this, world
      ensures r.Ok? ==> Forward(m, old(layers), token, produceLogits) == Ok((layers, r.value))
      ensures r.Err? ==> layers == old(layers)
      ensures r.Err? && world.Quiet(old(world.ticks), world.ticks) ==>
        Forward(m, old(layers), token, produceLogits) == Err(r.error)
      ensures world.ticks >= old(world.ticks) && (r.Ok? ==> world.Met() == old(world.Met()))
      ensures r.Ok? ==> world.ticks == old(world.ticks) + 2 * |m.windows| + if produceLogits then 1 else 0
    {
      if token >= m.vocabulary { return Err(InvalidToken); }
      if position >= m.maxContext { return Err(ContextLimit); }
      var actual := CheckedPosition();
      if actual != Ok(position) { return Err(CachePosition); }
      r := RunForward(m, token, position, produceLogits, world);
      if r.Err? {
        Truncate(position);
        assert layers == old(layers);
      }
    }
  }

  /** Everything a session holds between requests. */
  datatype Held = Held(caches: Caches, tokens: seq<Token>, logits: Option<Vector>)

  ghost predicate HeldValid(m: GemmaModel, held: Held) {
    && m.Valid()
    && Replay(m, held.tokens) == Ok(held.caches)
    && (held.logits.Some? ==> held.tokens != [] && LogitsOf(m, held.tokens) == Ok(held.logits.value))
  }

  // ---------- The session ----------

  class Gemma4CpuSession {
    const cache: KvCache
    var tokens: seq<Token>
    var logits: Option<Vector>

    function Holds(): Held
      reads this, cache
    {
      Held(cache.layers, tokens, logits)
    }

    ghost predicate Valid(m: GemmaModel)
      reads this, cache
    {
      && m.Valid()
      && Replay(m, tokens) == Ok(cache.layers)
      && (logits.Some? ==> tokens != [] && LogitsOf(m, tokens) == Ok(logits.value))
    }

    /** A session taken up again from what it held. */
    constructor Resume(m: GemmaModel, held: Held)
      requires HeldValid(m, held)
      ensures Valid(m) && fresh(cache) && Holds() == held
    {
      cache := new KvCache.Resume(held.caches);
      tokens, logits := held.tokens, held.logits;
    }

    constructor (m: GemmaModel)
      requires m.Valid()
      ensures Valid(m) && fresh(cache) && tokens == [] && logits.None?
    {
      cache := new KvCache(m);
      tokens, logits := [], None;
    }

    method ResetTo(m: GemmaModel, length: nat, stable: Option<Vector>)
      requires Valid(m) && length <= |tokens|
      requires stable.Some? ==> length > 0 && LogitsOf(m, tokens[..length]) == Ok(stable.value)
      modifies this, cache
      ensures Valid(m) && tokens == old(tokens)[..length] && logits == stable
    {
      TruncateReplay(m, tokens, length);
      cache.Truncate(length);
      tokens := Cut(tokens, length);
      logits := stable;
      assert tokens == old(tokens)[..length];
    }

    /** Feeds one token and records it. */
    method Feed(m: GemmaModel, token: Token, produceLogits: bool, world: Interruptions)
      returns (r: Result<Option<Vector>, Error>)
      requires Valid(m)
      modifies this, cache, world
      ensures Valid(m)
      ensures r.Ok? ==> tokens == old(tokens) + [token] && logits == r.value && (logits.Some? <==> produceLogits)
      ensures r.Ok? ==> Forward(m, old(cache.layers), token, produceLogits) == Ok((cache.layers, logits))
      ensures r.Err? ==> tokens == old(tokens) && logits == old(logits)
      ensures r.Err? && world.Quiet(old(world.ticks), world.ticks) ==>
        Forward(m, old(cache.layers), token, produceLogits) == Err(r.error)
      ensures world.ticks >= old(world.ticks) && (r.Ok? ==> world.Met() == old(world.Met()))
    {
      ReplayShape(m, tokens);
      r := cache.ForwardToken(m, token, |tokens|, produceLogits, world);
      if r.Ok? {
        ReplaySnoc(m, tokens, token, produceLogits);
        tokens := tokens + [token];
        logits := r.value;
      }
    }

    method RunPrefill(m: GemmaModel, prompt: seq<Token>, world: Interruptions) returns (r: Result<Vector, Error>)
      requires Valid(m) && tokens < prompt
      modifies this, cache, world
      ensures Valid(m) && old(tokens) <= tokens <= prompt
      ensures r.Ok? ==> tokens == prompt && logits.Some?
      ensures r.Ok? ==> Prefill(m, NewCaches(m), prompt) == Ok((cache.layers, r.value))
      ensures r.Err? && world.Quiet(old(world.ticks), world.ticks) ==> Prefill(m, NewCaches(m), prompt) == Err(r.error)
      ensures world.ticks >= old(world.ticks) && (r.Ok? ==> world.Met() == old(world.Met()))
    {
      hide Replay, LogitsOf, Forward, Prefill;
      var i := |tokens|;
      r := Err(MissingLogits);
      while i < |prompt|
        invariant old(|tokens|) <= i <= |prompt|
        invariant Valid(m) && tokens == prompt[..i]
        invariant i == |prompt| ==> logits.Some? && r == Ok(logits.value)
        invariant world.ticks >= old(world.ticks) && world.Met() == old(world.Met())
      {
        var token := prompt[i];
        PrefillStops(m, prompt, i);
        var interrupted := world.Check();
        if interrupted.Some? { return Err(interrupted.value); }
        var fed := Feed(m, token, i + 1 == |prompt|, world);
        if fed.Err? { return Err(fed.error); }
        if fed.value.Some? { r := Ok(fed.value.value); }
        i := i + 1;
        assert prompt[..i] == prompt[..i - 1] + [token];
      }
      assert prompt[..i] == prompt;
      PrefillIsReplay(m, prompt);
    }

    method Decode(m: GemmaModel, first: Vector, sampler0: Sampler, maximum: nat, world: Interruptions)
      returns (r: Result<Reply, Error>, emitted: seq<Token>)
      requires Valid(m)
      modifies this, cache, world
      ensures world.ticks >= old(world.ticks) && (r.Ok? ==> world.Met() == old(world.Met()))
      ensures Valid(m) && old(tokens) <= tokens && (old(logits).Some? ==> logits.Some?)
      ensures r.Ok? ==> Grown(old(tokens), r.value.tokenIds, maximum, tokens)
      ensures var spec := Continue(m, old(cache.layers), first, sampler0, [], maximum);
        && (r.Ok? ==> r == spec && emitted == r.value.tokenIds)
        && (world.Quiet(old(world.ticks), world.ticks) ==> r == spec)
    {
      hide Forward, Replay, LogitsOf, Choose, Grown;
      StartsGrown(tokens, maximum);
      var sampler, current := sampler0, first;
      emitted := [];
      while |emitted| < maximum
        invariant Valid(m) && Grown(old(tokens), emitted, maximum, tokens)
        invariant old(logits).Some? ==> logits.Some?
        invariant Continue(m, cache.layers, current, sampler, emitted, maximum)
               == Continue(m, old(cache.layers), first, sampler0, [], maximum)
        invariant world.ticks >= old(world.ticks) && world.Met() == old(world.Met())
        decreases maximum - |emitted|
      {
        var interrupted := world.Check();
        if interrupted.Some? { return Err(interrupted.value), emitted; }
        var (sampler', choice) := Choose(m, current, sampler);
        if choice.Err? { return Err(choice.error), emitted; }
        if choice.value.Halt? { return ReplyWith(m, emitted, true), emitted; }
        GrownSnoc(old(tokens), emitted, maximum, tokens, choice.value.token);
        emitted := emitted + [choice.value.token];
        if |emitted| < maximum {
          var fed := Feed(m, choice.value.token, true, world);
          if fed.Err? { return Err(fed.error), emitted; }
          current := fed.value.value;
        }
        sampler := sampler';
      }
      r := ReplyWith(m, emitted, false);
    }

    method Answer(m: GemmaModel, prompt: seq<Token>, maximum: nat, sampler: Sampler, world: Interruptions)
      returns (r: Result<Reply, Error>, emitted: seq<Token>)
      requires Valid(m) && tokens <= prompt && Admission(prompt, maximum, m.maxContext).None?
      modifies this, cache, world
      ensures world.ticks >= old(world.ticks) && (r.Ok? ==> world.Met() == old(world.Met()))
      ensures Valid(m) && old(tokens) <= tokens
      ensures r.Ok? ==> Grown(prompt, r.value.tokenIds, maximum, tokens) && logits.Some?
      ensures r.Ok? ==> r == Fresh(m, prompt, maximum, sampler) && emitted == r.value.tokenIds
      ensures if old(tokens) == prompt && old(logits).None? then r == Err(MissingLogits)
              else world.Quiet(old(world.ticks), world.ticks) ==> r == Fresh(m, prompt, maximum, sampler)
    {
      emitted := [];
      var first: Result<Vector, Error>;
      if |tokens| == |prompt| {
        if logits.None? { return Err(MissingLogits), emitted; }
        first := Ok(logits.value);
        assert tokens == prompt;
        PrefillIsReplay(m, prompt);
      } else {
        first := RunPrefill(m, prompt, world);
        if first.Err? { return Err(first.error), emitted; }
      }
      r, emitted := Decode(m, first.value, sampler, maximum, world);
    }

    /** Reuses the cached prefix, answers, and on any failure goes back to that prefix. */
    method Generate(m: GemmaModel, prompt: seq<Token>, maximum: nat, sampler: Sampler, world: Interruptions)
      returns (r: Result<Reply, Error>, emitted: seq<Token>)
      requires Valid(m)
      modifies this, cache, world
      ensures world.ticks >= old(world.ticks) && (r.Ok? ==> world.Met() == old(world.Met()))
      ensures Valid(m)
      ensures r.Ok? ==> r == Fresh(m, prompt, maximum, sampler) && emitted == r.value.tokenIds
      ensures world.Quiet(old(world.ticks), world.ticks) && !Stuck(old(tokens), old(logits), prompt)
        ==> r == Fresh(m, prompt, maximum, sampler)
      ensures Admission(prompt, maximum, m.maxContext).Some? ==> r == Fresh(m, prompt, maximum, sampler)
      ensures Admission(prompt, maximum, m.maxContext).None? && Stuck(old(tokens), old(logits), prompt)
        ==> r == Err(MissingLogits) && Stuck(tokens, logits, prompt)
      ensures Admission(prompt, maximum, m.maxContext).Some? ==> unchanged(this) && unchanged(cache)
      ensures r.Err? && Admission(prompt, maximum, m.maxContext).None? ==>
        Reused(old(tokens), prompt, tokens) && logits == (if tokens == old(tokens) then old(logits) else None)
      ensures r.Ok? ==> Grown(prompt, r.value.tokenIds, maximum, tokens) && logits.Some?
    {
      emitted := [];
      var refused := Admission(prompt, maximum, m.maxContext);
      if refused.Some? { return Err(refused.value), emitted; }
      var reusable := CommonPrefixLength(tokens, prompt);
      var stable := if reusable == |tokens| then logits else None;
      assert reusable == |tokens| ==> tokens[..reusable] == tokens;
      ResetTo(m, reusable, stable);
      ghost var kept := tokens;
      r, emitted := Answer(m, prompt, maximum, sampler, world);
      if r.Err? {
        assert tokens[..reusable] == kept;
        ResetTo(m, reusable, stable);
      }
    }
  }

  // ---------- Stateless generation ----------

  method StatelessPrefill(m: GemmaModel, cache: KvCache, prompt: seq<Token>, world: Interruptions)
    returns (r: Result<Vector, Error>)
    requires m.Valid() && prompt != [] && cache.layers == NewCaches(m)
    modifies cache, world
    ensures r.Ok? ==> Prefill(m, NewCaches(m), prompt) == Ok((cache.layers, r.value))
    ensures r.Ok? ==> Replay(m, prompt) == Ok(cache.layers)
    ensures r.Err? && world.Quiet(old(world.ticks), world.ticks) ==> Prefill(m, NewCaches(m), prompt) == Err(r.error)
    ensures world.ticks >= old(world.ticks) && (r.Ok? ==> world.Met() == old(world.Met()))
  {
    r := Err(MissingLogits);
    for i := 0 to |prompt|
      invariant Replay(m, prompt[..i]) == Ok(cache.layers)
      invariant i == |prompt| ==> LogitsOf(m, prompt) == r && r.Ok?
      invariant world.ticks >= old(world.ticks) && world.Met() == old(world.Met())
    {
      ghost var before := cache.layers;
      PrefillStops(m, prompt, i);
      ReplayShape(m, prompt[..i]);
      var interrupted := world.Check();
      if interrupted.Some? { return Err(interrupted.value); }
      var logits := cache.ForwardToken(m, prompt[i], i, i + 1 == |prompt|, world);
      if logits.Err? { return Err(logits.error); }
      ReplaySnoc(m, prompt[..i], prompt[i], i + 1 == |prompt|);
      assert prompt[..i + 1] == prompt[..i] + [prompt[i]];
      if i + 1 == |prompt| {
        assert prompt[..i + 1] == prompt;
        r := Ok(logits.value.value);
      }
    }
    assert prompt[..|prompt|] == prompt;
    PrefillIsReplay(m, prompt);
  }

  method GenerateStateless(m: GemmaModel, prompt: seq<Token>, maximum: nat, sampler0: Sampler, world: Interruptions)
    returns (r: Result<Reply, Error>)
    requires m.Valid()
    modifies world
    ensures r.Ok? ==> r == Fresh(m, prompt, maximum, sampler0)
    ensures world.Quiet(old(world.ticks), world.ticks) ==> r == Fresh(m, prompt, maximum, sampler0)
    ensures world.ticks >= old(world.ticks) && (r.Ok? ==> world.Met() == old(world.Met()))
  {
    var refused := Admission(prompt, maximum, m.maxContext);
    if refused.Some? { return Err(refused.value); }
    var cache := new KvCache(m);
    var first := StatelessPrefill(m, cache, prompt, world);
    if first.Err? { return Err(first.error); }
    var sampler, current := sampler0, first.value;
    var generated: seq<Token> := [];
    ghost var fed := prompt;
    while |generated| < maximum
      invariant fresh(cache) && Replay(m, fed) == Ok(cache.layers)
      invariant |fed| == |prompt| + |generated| || |generated| == maximum
      invariant Continue(m, cache.layers, current, sampler, generated, maximum) == Fresh(m, prompt, maximum, sampler0)
      invariant world.ticks >= old(world.ticks) && world.Met() == old(world.Met())
      decreases maximum - |generated|
    {
      var interrupted := world.Check();
      if interrupted.Some? { return Err(interrupted.value); }
      var (sampler', choice) := Choose(m, current, sampler);
      if choice.Err? { return Err(choice.error); }
      if choice.value.Halt? { return ReplyWith(m, generated, true); }
      var next := choice.value.token;
      generated := generated + [next];
      if |generated| < maximum {
        ReplayShape(m, fed);
        var logits := cache.ForwardToken(m, next, |prompt| + |generated| - 1, true, world);
        if logits.Err? { return Err(logits.error); }
        ReplaySnoc(m, fed, next, true);
        fed := fed + [next];
        current := logits.value.value;
      }
      sampler := sampler';
    }
    r := ReplyWith(m, generated, false);
  }

  // ---------- The refusal ----------

  /** A session that answered a prompt refuses every shorter beginning of it, whatever interrupts it. */
  method ShorterPromptIsRefused(
    m: GemmaModel, prompt: seq<Token>, shorter: seq<Token>, maximum: nat, sampler: Sampler, world: Interruptions)
    returns (first: Result<Reply, Error>, second: Result<Reply, Error>)
    requires m.Valid() && [] < shorter < prompt
    modifies world
    ensures first.Ok? ==> second == Err(MissingLogits)
    ensures world.Quiet(old(world.ticks), world.ticks) ==> first == Fresh(m, prompt, maximum, sampler)
  {
    var session := new Gemma4CpuSession(m);
    var emitted;
    first, emitted := session.Generate(m, prompt, maximum, sampler, world);
    second, emitted := session.Generate(m, shorter, maximum, sampler, world);
  }

  /** One layer, two tokens, kernels that never fail, and a stop token drawn at once. */
  function Tiny(): GemmaModel {
    GemmaModel([None], 2, 8, token => Ok([]), (l, hidden, position) => Ok(Kv([], [])),
               (l, hidden, position, rows) => Ok([]), hidden => Ok([0.0]), token => true, tokens => "")
  }

  function First(): Sampler {
    Sampler(0, (state, logits) => (state, Ok(0)))
  }

  lemma TinyForward(caches: Caches, token: Token, produceLogits: bool)
    requires |caches| == 1 && |caches[0]| < 8 && token < 2
    ensures Forward(Tiny(), caches, token, produceLogits)
         == Ok(([caches[0] + [Kv([], [])]], if produceLogits then Some([0.0]) else None))
  {
    var m, grown := Tiny(), [caches[0] + [Kv([], [])]];
    assert caches[0 := grown[0]] == grown;
    assert Layers(m, 1, [], Position(caches), grown) == Ok(([], grown));
  }

  lemma TinyAnswers(prompt: seq<Token>)
    requires prompt == [0] || prompt == [0, 1]
    ensures Fresh(Tiny(), prompt, 1, First()) == Ok(Reply([], "", true))
  {
    hide Forward;
    var m, none, one := Tiny(), NewCaches(Tiny()), [[Kv([], [])]];
    assert none == [[]] && [] + [Kv([], [])] == one[0];
    TinyForward(none, 0, |prompt| == 1);
    if prompt == [0, 1] {
      TinyForward(one, 1, true);
      assert prompt[1..] == [1];
      assert Prefill(m, one, [1]).Ok?;
    }
  }

  /** So the refusal is real: a new session answers [0], one that just answered [0, 1] does not. */
  method AnsweredThenRefused() returns (answer: Result<Reply, Error>, refusal: Result<Reply, Error>)
    ensures answer == Fresh(Tiny(), [0], 1, First()) && answer.Ok? && refusal == Err(MissingLogits)
  {
    hide Fresh;
    var world := new Interruptions(tick => None);
    TinyAnswers([0, 1]);
    TinyAnswers([0]);
    var longer;
    longer, refusal := ShorterPromptIsRefused(Tiny(), [0, 1], [0], 1, First(), world);
    answer := GenerateStateless(Tiny(), [0], 1, First(), world);
  }
}
