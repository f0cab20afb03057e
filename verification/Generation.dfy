/** What the three model families share: errors, replies, sampling, and the world's interruptions. */
module Generation {
  import opened Wrappers
  import opened Utf8
  import opened Utf8Stream

  type Token = nat

  /** Activations, cache rows and logits: f32 vectors that only the numeric kernels look into. */
  type Vector = seq<real>

  datatype Error =
    | EmptyPrompt
    | ContextLimit
    | InvalidToken
    | CachePosition
    | MissingLogits
    | MissingDsaSelection(layer: nat)
    | Undecodable
    | SamplerFailed
    | Kernel(code: nat)
    | Cancelled
    | Io

  datatype Reply = Reply(tokenIds: seq<Token>, text: string, stopped: bool)

  /** A selector with its own random state; picking is deterministic in that state and the logits. */
  datatype Sampler = Sampler(state: nat, pick: (nat, Vector) -> (nat, Result<Token, Error>))
  {
    function Select(logits: Vector): (Sampler, Result<Token, Error>) {
      var (next, choice) := pick(state, logits);
      (Sampler(next, pick), choice)
    }
  }

  /** Every point where a request can be cancelled or a read can fail, in the order they are met.
      The schedule is arbitrary, so a claim for all schedules covers every interleaving. */
  class Interruptions {
    const schedule: nat -> Option<Error>
    var ticks: nat

    constructor (schedule: nat -> Option<Error>)
      ensures this.schedule == schedule && ticks == 0
    {
      this.schedule := schedule;
      ticks := 0;
    }

    /** Nothing interrupts the points met from one moment to another. */
    ghost predicate Quiet(from: nat, to: nat) {
      forall t: nat | from <= t < to :: schedule(t).None?
    }

    ghost function MetBefore(end: nat): nat {
      if end == 0 then 0 else MetBefore(end - 1) + if schedule(end - 1).Some? then 1 else 0
    }

    /** How many interruptions have been met so far. */
    ghost function Met(): nat
      reads this
    {
      MetBefore(ticks)
    }

    lemma {:induction false} MetIsQuiet(from: nat, to: nat)
      requires from <= to
      ensures MetBefore(from) <= MetBefore(to) && (MetBefore(from) == MetBefore(to) <==> Quiet(from, to))
    {
      if from < to { MetIsQuiet(from, to - 1); }
    }

    method Check() returns (r: Option<Error>)
      modifies this
      ensures r == schedule(old(ticks)) && ticks == old(ticks) + 1
      ensures Met() == old(Met()) + if r.Some? then 1 else 0
    {
      r := schedule(ticks);
      ticks := ticks + 1;
    }
  }

  /** The prompt and budget checks made before any session is touched. */
  function Admission(prompt: seq<Token>, maximumNewTokens: nat, maxContext: nat): Option<Error> {
    if prompt == [] then Some(EmptyPrompt)
    else if |prompt| + maximumNewTokens > maxContext then Some(ContextLimit)
    else None
  }

  /** The bytes of a generated text, if every token has bytes. */
  function TextBytes(tokenBytes: Token -> Option<seq<byte>>, tokens: seq<Token>): Option<seq<byte>> {
    if tokens == [] then Some([])
    else
      match (TextBytes(tokenBytes, tokens[..|tokens| - 1]), tokenBytes(tokens[|tokens| - 1]))
      case (Some(before), Some(last)) => Some(before + last)
      case _ => None
  }

  lemma StartsStreaming(tokenBytes: Token -> Option<seq<byte>>)
    ensures Streaming([], "", []) && TextBytes(tokenBytes, []) == Some([])
  {
  }

  lemma TextBytesSnoc(tokenBytes: Token -> Option<seq<byte>>, tokens: seq<Token>, next: Token)
    requires TextBytes(tokenBytes, tokens).Some? && tokenBytes(next).Some?
    ensures TextBytes(tokenBytes, tokens + [next]) == Some(TextBytes(tokenBytes, tokens).value + tokenBytes(next).value)
  {
    assert (tokens + [next])[..|tokens|] == tokens;
  }

  function Finish(tokenBytes: Token -> Option<seq<byte>>, generated: seq<Token>, stopped: bool)
    : (r: Result<Reply, Error>)
    ensures r.Ok? ==> r.value.tokenIds == generated
  {
    match TextBytes(tokenBytes, generated)
    case None => Err(Undecodable)
    case Some(bytes) => Ok(Reply(generated, Lossy(bytes), stopped))
  }

  lemma FinishShows(tokenBytes: Token -> Option<seq<byte>>, generated: seq<Token>, stopped: bool)
    requires TextBytes(tokenBytes, generated).Some?
    ensures Finish(tokenBytes, generated, stopped)
      == Ok(Reply(generated, Lossy(TextBytes(tokenBytes, generated).value), stopped))
  {
  }

  /** What each token shows. */
  function Chunks(tokenBytes: Token -> Option<seq<byte>>, tokens: seq<Token>): seq<seq<byte>>
    requires forall i: nat | i < |tokens| :: tokenBytes(tokens[i]).Some?
  {
    seq(|tokens|, i requires 0 <= i < |tokens| => tokenBytes(tokens[i]).value)
  }

  lemma {:induction false} BytesAreFlat(tokenBytes: Token -> Option<seq<byte>>, tokens: seq<Token>)
    requires forall i: nat | i < |tokens| :: tokenBytes(tokens[i]).Some?
    ensures TextBytes(tokenBytes, tokens) == Some(Flatten(Chunks(tokenBytes, tokens)))
  {
    if tokens != [] {
      var shorter := tokens[..|tokens| - 1];
      BytesAreFlat(tokenBytes, shorter);
      assert Chunks(tokenBytes, tokens)[..|shorter|] == Chunks(tokenBytes, shorter);
    }
  }

  /** The text of a reply whose tokens can all be shown: their bytes in a row, decoded. */
  function TextOf(tokenBytes: Token -> Option<seq<byte>>, tokens: seq<Token>): string {
    if forall i: nat | i < |tokens| :: tokenBytes(tokens[i]).Some? then Lossy(Flatten(Chunks(tokenBytes, tokens)))
    else ""
  }

  lemma FinishIsText(tokenBytes: Token -> Option<seq<byte>>, tokens: seq<Token>, stopped: bool)
    requires forall i: nat | i < |tokens| :: tokenBytes(tokens[i]).Some?
    ensures Finish(tokenBytes, tokens, stopped) == Ok(Reply(tokens, TextOf(tokenBytes, tokens), stopped))
  {
    BytesAreFlat(tokenBytes, tokens);
  }

  datatype Choice = Stop | Next(token: Token, bytes: seq<byte>)

  /** Samples the next token and checks it: below the bound, no stop token, and with bytes to show. */
  function Pick(
    sampler: Sampler, logits: Vector, bound: nat, stops: Token -> bool, tokenBytes: Token -> Option<seq<byte>>)
    : (r: (Sampler, Result<Choice, Error>))
    ensures r.1.Ok? && r.1.value.Next? ==> tokenBytes(r.1.value.token) == Some(r.1.value.bytes)
  {
    var (sampler', choice) := sampler.Select(logits);
    match choice
    case Err(e) => (sampler', Err(e))
    case Ok(next) =>
      if next >= bound then (sampler', Err(InvalidToken))
      else if stops(next) then (sampler', Ok(Stop))
      else
        match tokenBytes(next)
        case None => (sampler', Err(Undecodable))
        case Some(bytes) => (sampler', Ok(Next(next, bytes)))
  }

  // ---------- The law of a reply ----------

  /** What decides a reply: the logits after a token sequence, what the selector is shown of them, how
      many tokens it may name, which tokens stop, which have something to show, and a reply's text. */
  datatype Law = Law(
    maxContext: nat,
    logits: seq<Token> -> Result<Vector, Error>,
    mask: Vector -> Result<Vector, Error>,
    bound: Vector -> nat,
    stops: Token -> bool,
    shows: Token -> bool,
    text: seq<Token> -> string)

  type Selector = (nat, Vector) -> (nat, Result<Token, Error>)

  /** The i-th token is what the selector picks from the logits of everything before it; it is within the
      bound, no stop token, and can be shown. */
  ghost predicate DrawnAt(law: Law, prompt: seq<Token>, pick: Selector, states: seq<nat>, ids: seq<Token>, i: nat)
    requires i < |ids| && |states| == |ids| + 1
  {
    var logits := law.logits(prompt + ids[..i]);
    && logits.Ok? && law.mask(logits.value).Ok?
    && var shown := law.mask(logits.value).value;
       && pick(states[i], shown) == (states[i + 1], Ok(ids[i]))
       && ids[i] < law.bound(shown) && !law.stops(ids[i]) && law.shows(ids[i])
  }

  ghost predicate DrawnInTurn(law: Law, prompt: seq<Token>, sampler: Sampler, states: seq<nat>, ids: seq<Token>) {
    && |states| == |ids| + 1 && states[0] == sampler.state
    && forall i: nat | i < |ids| :: DrawnAt(law, prompt, sampler.pick, states, ids, i)
  }

  /** How drawing ends after `ids`: the budget is used up, a stop token is picked, or something fails. */
  ghost predicate Ends(
    law: Law, prompt: seq<Token>, maximum: nat, pick: Selector, state: nat, ids: seq<Token>, r: Result<Reply, Error>)
  {
    var logits := law.logits(prompt + ids);
    if logits.Err? && (ids == [] || |ids| < maximum) then r == Err(logits.error)
    else if |ids| == maximum then r == Ok(Reply(ids, law.text(ids), false))
    else if logits.Err? || law.mask(logits.value).Err? then logits.Ok? && r == Err(law.mask(logits.value).error)
    else
      var shown := law.mask(logits.value).value;
      var (_, picked) := pick(state, shown);
      if picked.Err? then r == Err(picked.error)
      else if picked.value >= law.bound(shown) then r == Err(InvalidToken)
      else if law.stops(picked.value) then r == Ok(Reply(ids, law.text(ids), true))
      else !law.shows(picked.value) && r == Err(Undecodable)
  }

  /** The tokens of an answer are drawn one by one, at most `maximum` of them, until drawing ends. */
  ghost predicate Answers(
    law: Law, prompt: seq<Token>, maximum: nat, sampler: Sampler, states: seq<nat>, ids: seq<Token>,
    r: Result<Reply, Error>)
  {
    && |ids| <= maximum && DrawnInTurn(law, prompt, sampler, states, ids)
    && Ends(law, prompt, maximum, sampler.pick, states[|ids|], ids, r)
  }

  /** `r` is the answer to a prompt that fits the context with the tokens asked for, or its refusal. */
  ghost predicate IsAnswer(law: Law, prompt: seq<Token>, maximum: nat, sampler: Sampler, r: Result<Reply, Error>) {
    if prompt == [] then r == Err(EmptyPrompt)
    else if |prompt| + maximum > law.maxContext then r == Err(ContextLimit)
    else exists states: seq<nat>, ids: seq<Token> :: Answers(law, prompt, maximum, sampler, states, ids, r)
  }

  lemma NothingDrawn(law: Law, prompt: seq<Token>, sampler: Sampler)
    ensures DrawnInTurn(law, prompt, sampler, [sampler.state], [])
  {
  }

  lemma DrawnSnoc(law: Law, prompt: seq<Token>, sampler: Sampler, states: seq<nat>, ids: seq<Token>, next: Token,
      state: nat)
    requires DrawnInTurn(law, prompt, sampler, states, ids)
    requires DrawnAt(law, prompt, sampler.pick, states + [state], ids + [next], |ids|)
    ensures DrawnInTurn(law, prompt, sampler, states + [state], ids + [next])
  {
    forall i: nat | i < |ids| + 1 ensures DrawnAt(law, prompt, sampler.pick, states + [state], ids + [next], i) {
      if i < |ids| {
        assert DrawnAt(law, prompt, sampler.pick, states, ids, i);
        assert (ids + [next])[..i] == ids[..i];
      }
    }
  }

  lemma DrawnShows(law: Law, prompt: seq<Token>, sampler: Sampler, states: seq<nat>, ids: seq<Token>,
      tokenBytes: Token -> Option<seq<byte>>, stopped: bool)
    requires DrawnInTurn(law, prompt, sampler, states, ids) && forall t :: law.shows(t) == tokenBytes(t).Some?
    ensures Finish(tokenBytes, ids, stopped) == Ok(Reply(ids, TextOf(tokenBytes, ids), stopped))
  {
    hide Finish, TextOf;
    forall i: nat | i < |ids| ensures tokenBytes(ids[i]).Some? {
      assert DrawnAt(law, prompt, sampler.pick, states, ids, i);
    }
    FinishIsText(tokenBytes, ids, stopped);
  }

  /** Two ways of drawing agree as far as both go. */
  lemma {:induction false} DrawsAgree(law: Law, prompt: seq<Token>, sampler: Sampler, states: seq<nat>, ids: seq<Token>,
      states': seq<nat>, ids': seq<Token>, n: nat)
    requires DrawnInTurn(law, prompt, sampler, states, ids) && DrawnInTurn(law, prompt, sampler, states', ids')
    requires n <= |ids| && n <= |ids'|
    ensures ids[..n] == ids'[..n] && states[n] == states'[n]
  {
    if n > 0 {
      DrawsAgree(law, prompt, sampler, states, ids, states', ids', n - 1);
      assert DrawnAt(law, prompt, sampler.pick, states, ids, n - 1);
      assert DrawnAt(law, prompt, sampler.pick, states', ids', n - 1);
    }
  }

  /** Drawing does not go on after it has ended. */
  lemma EndsIsLast(law: Law, prompt: seq<Token>, maximum: nat, pick: Selector, states: seq<nat>, ids: seq<Token>,
      n: nat, r: Result<Reply, Error>)
    requires n < |ids| <= maximum && |states| == |ids| + 1 && DrawnAt(law, prompt, pick, states, ids, n)
    ensures !Ends(law, prompt, maximum, pick, states[n], ids[..n], r)
  {
  }

  lemma EndsOnce(law: Law, prompt: seq<Token>, maximum: nat, pick: Selector, state: nat, ids: seq<Token>,
      r: Result<Reply, Error>, r': Result<Reply, Error>)
    requires Ends(law, prompt, maximum, pick, state, ids, r) && Ends(law, prompt, maximum, pick, state, ids, r')
    ensures r == r'
  {
  }

  lemma AnswersTwice(law: Law, prompt: seq<Token>, maximum: nat, sampler: Sampler, states: seq<nat>, ids: seq<Token>,
      states': seq<nat>, ids': seq<Token>, r: Result<Reply, Error>, r': Result<Reply, Error>)
    requires Answers(law, prompt, maximum, sampler, states, ids, r)
    requires Answers(law, prompt, maximum, sampler, states', ids', r')
    requires |ids| <= |ids'|
    ensures r == r'
  {
    hide DrawnAt, Ends;
    DrawsAgree(law, prompt, sampler, states, ids, states', ids', |ids|);
    assert ids[..|ids|] == ids && ids'[..|ids'|] == ids';
    if |ids| < |ids'| {
      EndsIsLast(law, prompt, maximum, sampler.pick, states', ids', |ids|, r);
    } else {
      EndsOnce(law, prompt, maximum, sampler.pick, states[|ids|], ids, r, r');
    }
  }

  /** There is at most one answer. */
  lemma AnswerIsUnique(law: Law, prompt: seq<Token>, maximum: nat, sampler: Sampler, r: Result<Reply, Error>,
      r': Result<Reply, Error>)
    requires IsAnswer(law, prompt, maximum, sampler, r) && IsAnswer(law, prompt, maximum, sampler, r')
    ensures r == r'
  {
    hide Answers;
    if prompt != [] && |prompt| + maximum <= law.maxContext {
      var states, ids :| Answers(law, prompt, maximum, sampler, states, ids, r);
      var states', ids' :| Answers(law, prompt, maximum, sampler, states', ids', r');
      if |ids| <= |ids'| {
        AnswersTwice(law, prompt, maximum, sampler, states, ids, states', ids', r, r');
      } else {
        AnswersTwice(law, prompt, maximum, sampler, states', ids', states, ids, r', r);
      }
    }
  }

  // ---------- What a session keeps ----------

  /** The generated tokens a session feeds back: all but the one that fills the budget. */
  function FedBack(generated: seq<Token>, maximum: nat): (r: seq<Token>)
    ensures r <= generated
  {
    if generated != [] && |generated| == maximum then generated[..maximum - 1] else generated
  }

  /** A session that held `before` when generation started holds `now`. */
  predicate Grown(before: seq<Token>, generated: seq<Token>, maximum: nat, now: seq<Token>): (r: bool)
    ensures r ==> before <= now
  {
    now == before + FedBack(generated, maximum)
  }

  lemma StartsGrown(before: seq<Token>, maximum: nat)
    ensures Grown(before, [], maximum, before)
  {
    assert before + [] == before;
  }

  lemma GrownSnoc(before: seq<Token>, generated: seq<Token>, maximum: nat, now: seq<Token>, next: Token)
    requires Grown(before, generated, maximum, now) && |generated| < maximum
    ensures Grown(before, generated + [next], maximum, if |generated| + 1 < maximum then now + [next] else now)
  {
    assert before + generated + [next] == before + (generated + [next]);
  }

  function Cut<T>(s: seq<T>, n: nat): seq<T> {
    if n < |s| then s[..n] else s
  }

  /** The one case in which a session that can truncate cannot answer although a fresh one can: the
      whole prompt is cached, but not together with its logits. */
  predicate Stuck(tokens: seq<Token>, logits: Option<Vector>, prompt: seq<Token>) {
    prompt <= tokens && !(prompt == tokens && logits.Some?)
  }

  /** `after` is the longest common prefix of what was cached and the prompt. */
  predicate Reused(before: seq<Token>, prompt: seq<Token>, after: seq<Token>) {
    && after <= before && after <= prompt
    && (|after| < |before| && |after| < |prompt| ==> before[|after|] != prompt[|after|])
  }

  /** The longest common prefix. */
  function CommonPrefix(left: seq<Token>, right: seq<Token>): (r: seq<Token>)
    ensures Reused(left, right, r)
  {
    if left == [] || right == [] || left[0] != right[0] then [] else [left[0]] + CommonPrefix(left[1..], right[1..])
  }

  lemma {:induction false} CommonPrefixIsUnique(left: seq<Token>, right: seq<Token>, r: seq<Token>)
    requires Reused(left, right, r)
    ensures r == CommonPrefix(left, right)
  {
    if r != [] { CommonPrefixIsUnique(left[1..], right[1..], r[1..]); }
  }

  method CommonPrefixLength(left: seq<Token>, right: seq<Token>) returns (n: nat)
    ensures n <= |left| && n <= |right| && left[..n] == right[..n]
    ensures n < |left| && n < |right| ==> left[n] != right[n]
  {
    n := 0;
    while n < |left| && n < |right| && left[n] == right[n]
      invariant n <= |left| && n <= |right| && left[..n] == right[..n]
    {
      n := n + 1;
    }
  }
}
