/** The model worker over the CPU sessions: it serves a queue of jobs in order, keeps a bounded set of
 *  resident sessions with least-recently-used eviction, and answers each job over an event channel.
 */
module Worker {
  import opened Wrappers
  import opened Generation
  import Glm = GlmSession
  import GlmF = GlmForward
  import Gemma = GemmaSession
  import Qwen = QwenSession
  import opened Utf8Stream

  // ---------- The loaded architecture: one of three ----------

  datatype Model = GemmaModel(gemma: Gemma.GemmaModel) | GlmModel(glm: GlmF.GlmModel) | QwenModel(qwen: Qwen.QwenModel)
  {
    ghost predicate Valid() {
      match this
      case GemmaModel(m) => m.Valid()
      case GlmModel(m) => m.Valid()
      case QwenModel(m) => m.Valid()
    }

    /** The uninterrupted answer of a session that has served nothing else. */
    function Fresh(prompt: seq<Token>, maximum: nat, sampler: Sampler): Result<Reply, Error> {
      match this
      case GemmaModel(m) => Gemma.Fresh(m, prompt, maximum, sampler)
      case GlmModel(m) => Glm.Fresh(m, prompt, maximum, sampler)
      case QwenModel(m) => Qwen.Fresh(m, prompt, maximum, sampler)
    }
  }

  /** What a resident session holds.  The worker owns its sessions outright, so they are values here
      and become an object while a job runs. */
  datatype Session = GemmaHeld(gemma: Gemma.Held) | GlmHeld(glm: Glm.Held) | QwenHeld(qwen: Qwen.Held)

  ghost predicate SessionValid(model: Model, s: Session) {
    match (model, s)
    case (GemmaModel(m), GemmaHeld(held)) => Gemma.HeldValid(m, held)
    case (GlmModel(m), GlmHeld(held)) => Glm.HeldValid(m, held)
    case (QwenModel(m), QwenHeld(held)) => Qwen.HeldValid(m, held)
    case _ => false
  }

  function HeldTokens(s: Session): seq<Token> {
    match s
    case GemmaHeld(held) => held.tokens
    case GlmHeld(held) => held.tokens
    case QwenHeld(held) => held.tokens
  }

  /** The session holds the whole prompt but not its logits, and cannot rebuild: the one thing that
      keeps an uninterrupted session from its answer. Qwen clears and rebuilds instead. */
  predicate CannotAnswer(s: Session, prompt: seq<Token>) {
    prompt != [] &&
    match s
    case GemmaHeld(held) => Stuck(held.tokens, held.logits, prompt)
    case GlmHeld(held) => Stuck(held.tokens, held.logits, prompt)
    case QwenHeld(held) => false
  }

  method NewSession(model: Model) returns (s: Session)
    requires model.Valid()
    ensures SessionValid(model, s) && HeldTokens(s) == []
  {
    if model.GemmaModel? {
      var o := new Gemma.Gemma4CpuSession(model.gemma);
      s := GemmaHeld(o.Holds());
    } else if model.GlmModel? {
      var o := new Glm.Glm52CpuSession(model.glm);
      s := GlmHeld(o.Holds());
    } else {
      var o := new Qwen.Qwen35CpuSession(model.qwen);
      s := QwenHeld(o.Holds());
    }
  }

  /** One chat request.  The messages are rendered and tokenized by the architecture. */
  datatype Job = Job(sessionId: Option<string>, messages: seq<string>, maximum: nat, sampling: Result<Sampler, Error>)

  datatype Engine = Engine(model: Model, tokenize: seq<string> -> Result<seq<Token>, Error>)

  datatype Event = TokenText(text: string) | Complete(reply: Reply) | Failed(error: Error, cancelled: bool)

  function Admitted(engine: Engine, job: Job): Result<(seq<Token>, Sampler), Error> {
    if !(1 <= job.maximum <= 4096) || job.sampling.Err? then Err(SamplerFailed)
    else
      match engine.tokenize(job.messages)
      case Err(e) => Err(e)
      case Ok(tokens) => Ok((tokens, job.sampling.value))
  }

  /** What the job's answer is when it runs alone in a new session that nothing interrupts. */
  function Alone(engine: Engine, job: Job): Result<Reply, Error> {
    match Admitted(engine, job)
    case Err(e) => Err(e)
    case Ok((tokens, sampler)) => engine.model.Fresh(tokens, job.maximum, sampler)
  }

  function LawOf(model: Model): Law {
    match model
    case GemmaModel(m) => Gemma.LawOf(m)
    case GlmModel(m) => Glm.LawOf(m)
    case QwenModel(m) => Qwen.LawOf(m)
  }

  /** A job's answer alone, without the sessions: a budget of 1 to 4096 tokens, a selector, a prompt that can be
      rendered, and then what the law of a reply allows. */
  lemma AloneIsTheAnswer(engine: Engine, job: Job, r: Result<Reply, Error>)
    requires engine.model.Valid()
    ensures Alone(engine, job) == r <==>
      if job.maximum == 0 || job.maximum > 4096 || job.sampling.Err? then r == Err(SamplerFailed)
      else if engine.tokenize(job.messages).Err? then r == Err(engine.tokenize(job.messages).error)
      else IsAnswer(LawOf(engine.model), engine.tokenize(job.messages).value, job.maximum, job.sampling.value, r)
  {
    hide IsAnswer;
    if Admitted(engine, job).Ok? {
      var (tokens, sampler) := Admitted(engine, job).value;
      match engine.model
      case GemmaModel(m) => Gemma.FreshIsTheAnswer(m, tokens, job.maximum, sampler, r);
      case GlmModel(m) => Glm.FreshIsTheAnswer(m, tokens, job.maximum, sampler, r);
      case QwenModel(m) => Qwen.FreshIsTheAnswer(m, tokens, job.maximum, sampler, r);
    }
  }

  function TextsOf(m: Gemma.GemmaModel, tokens: seq<Token>): seq<string> {
    seq(|tokens|, i requires 0 <= i < |tokens| => m.text([tokens[i]]))
  }

  /** How the streamed texts relate to the finished reply. */
  ghost predicate Streamed(model: Model, pieces: seq<string>, reply: Reply) {
    match model
    case GemmaModel(m) =>
      && |pieces| == |reply.tokenIds|
      && forall i: nat | i < |pieces| :: pieces[i] == m.text([reply.tokenIds[i]])
    case _ => Joined(pieces) == reply.text
  }

  method GenerateSession(model: Model, s: Session, prompt: seq<Token>, maximum: nat, sampler: Sampler,
      world: Interruptions)
    returns (r: Result<Reply, Error>, pieces: seq<string>, after: Session)
    requires SessionValid(model, s)
    modifies world
    ensures SessionValid(model, after)
    ensures r.Ok? ==> r == model.Fresh(prompt, maximum, sampler) && Streamed(model, pieces, r.value)
    ensures !CannotAnswer(s, prompt) && world.Quiet(old(world.ticks), world.ticks) ==>
      r == model.Fresh(prompt, maximum, sampler)
    ensures CannotAnswer(s, prompt) ==> r.Err?
    ensures world.ticks >= old(world.ticks) && (r.Ok? ==> world.Met() == old(world.Met()))
  {
    if model.GemmaModel? {
      var o := new Gemma.Gemma4CpuSession.Resume(model.gemma, s.gemma);
      var emitted;
      r, emitted := o.Generate(model.gemma, prompt, maximum, sampler, world);
      pieces, after := TextsOf(model.gemma, emitted), GemmaHeld(o.Holds());
    } else if model.GlmModel? {
      var o := new Glm.Glm52CpuSession.Resume(model.glm, s.glm);
      r, pieces := o.Generate(model.glm, prompt, maximum, sampler, world);
      after := GlmHeld(o.Holds());
    } else {
      var o := new Qwen.Qwen35CpuSession.Resume(model.qwen, s.qwen);
      r, pieces := o.Generate(model.qwen, prompt, maximum, sampler, world);
      after := QwenHeld(o.Holds());
    }
  }

  // ---------- Resident sessions ----------

  datatype Resident = Resident(state: Session, lastUsed: nat)

  ghost predicate AllValid(model: Model, sessions: map<string, Resident>) {
    forall id <- sessions :: SessionValid(model, sessions[id].state)
  }

  /** Lexicographic order of session names, to break ties between equal clock values. */
  predicate Before(a: string, b: string) {
    if b == [] then false
    else if a == [] then true
    else a[0] < b[0] || (a[0] == b[0] && Before(a[1..], b[1..]))
  }

  predicate Older(sessions: map<string, Resident>, a: string, b: string)
    requires a in sessions && b in sessions
  {
    sessions[a].lastUsed < sessions[b].lastUsed
    || (sessions[a].lastUsed == sessions[b].lastUsed && (a == b || Before(a, b)))
  }

  lemma {:induction false} BeforeIsTotal(a: string, b: string)
    ensures a == b || Before(a, b) || Before(b, a)
    ensures !(Before(a, b) && Before(b, a)) && !Before(a, a)
  {
    if a != [] {
      BeforeIsTotal(a[1..], a[1..]);
      if b != [] && a[0] == b[0] {
        BeforeIsTotal(a[1..], b[1..]);
        if a[1..] == b[1..] { assert a == [a[0]] + a[1..] && b == [b[0]] + b[1..]; }
      }
    }
  }

  lemma {:induction false} BeforeIsTransitive(a: string, b: string, c: string)
    requires Before(a, b) && Before(b, c)
    ensures Before(a, c)
  {
    if a != [] && a[0] == b[0] == c[0] { BeforeIsTransitive(a[1..], b[1..], c[1..]); }
  }

  lemma OlderOf(sessions: map<string, Resident>, a: string, b: string, c: string)
    requires a in sessions && b in sessions && c in sessions
    ensures Older(sessions, a, b) || Older(sessions, b, a)
    ensures Older(sessions, a, b) && Older(sessions, b, c) ==> Older(sessions, a, c)
  {
    BeforeIsTotal(a, b);
    if Before(a, b) && Before(b, c) { BeforeIsTransitive(a, b, c); }
  }

  /** Names are compared at their first difference; a beginning comes before what it begins. */
  lemma {:induction false} BeforeMeans(a: string, b: string)
    ensures Before(a, b) <==>
      || (|a| < |b| && b[..|a|] == a)
      || exists i: nat :: i < |a| && i < |b| && a[..i] == b[..i] && a[i] < b[i]
  {
    if a != [] && b != [] {
      if a[0] == b[0] {
        var c, d := a[1..], b[1..];
        BeforeMeans(c, d);
        assert a == [a[0]] + c && b == [b[0]] + d;
        assert |a| < |b| ==> (b[..|a|] == a <==> d[..|c|] == c) by {
          if |a| < |b| { assert b[..|a|] == [b[0]] + d[..|c|]; }
        }
        forall i: nat | i < |a| && i < |b| && a[..i] == b[..i] && a[i] < b[i]
          ensures i > 0 && c[..i - 1] == d[..i - 1] && c[i - 1] < d[i - 1]
        {
          assert c[..i - 1] == a[..i][1..] && d[..i - 1] == b[..i][1..];
        }
        forall i: nat | i < |c| && i < |d| && c[..i] == d[..i] && c[i] < d[i]
          ensures a[..i + 1] == b[..i + 1] && a[i + 1] < b[i + 1]
        {
          assert a[..i + 1] == [a[0]] + c[..i] && b[..i + 1] == [b[0]] + d[..i];
        }
      } else {
        assert a[..0] == b[..0];
      }
    }
  }

  method OldestSession(sessions: map<string, Resident>) returns (oldest: string)
    requires sessions != map[]
    ensures oldest in sessions
    ensures forall id <- sessions | id != oldest ::
      sessions[oldest].lastUsed < sessions[id].lastUsed
      || (sessions[oldest].lastUsed == sessions[id].lastUsed && Before(oldest, id))
  {
    oldest :| oldest in sessions;
    var seen, rest := {oldest}, sessions.Keys - {oldest};
    while rest != {}
      invariant seen + rest == sessions.Keys && oldest in sessions
      invariant forall id <- seen :: Older(sessions, oldest, id)
      decreases |rest|
    {
      var id :| id in rest;
      OlderOf(sessions, oldest, id, id);
      if !Older(sessions, oldest, id) {
        forall other <- seen ensures Older(sessions, id, other) { OlderOf(sessions, id, oldest, other); }
        oldest := id;
      }
      seen, rest := seen + {id}, rest - {id};
    }
  }

  function Texts(events: seq<Event>): seq<string> {
    if events == [] || !events[0].TokenText? then [] else [events[0].text] + Texts(events[1..])
  }

  /** Token texts, then exactly one final event; a completion is the answer of the job alone. */
  ghost predicate Answered(engine: Engine, job: Job, events: seq<Event>) {
    && events != []
    && (forall i | 0 <= i < |events| - 1 :: events[i].TokenText?)
    && match events[|events| - 1]
       case TokenText(_) => false
       case Failed(error, cancelled) => cancelled == (error == Cancelled)
       case Complete(reply) =>
         && Alone(engine, job) == Ok(reply)
         && Streamed(engine.model, Texts(events), reply)
  }

  function AsEvents(pieces: seq<string>, final: Event): seq<Event> {
    seq(|pieces|, i requires 0 <= i < |pieces| => TokenText(pieces[i])) + [final]
  }

  lemma {:induction false} TextsOfEvents(pieces: seq<string>, final: Event)
    requires !final.TokenText?
    ensures Texts(AsEvents(pieces, final)) == pieces
  {
    if pieces != [] {
      assert AsEvents(pieces, final)[1..] == AsEvents(pieces[1..], final);
      TextsOfEvents(pieces[1..], final);
    }
  }

  /** The events sent for a finished generation. */
  method Respond(engine: Engine, job: Job, r: Result<Reply, Error>, pieces: seq<string>) returns (events: seq<Event>)
    requires r.Ok? ==> r == Alone(engine, job) && Streamed(engine.model, pieces, r.value)
    ensures Answered(engine, job, events)
    ensures events[|events| - 1] == if r.Ok? then Complete(r.value) else Failed(r.error, r.error == Cancelled)
  {
    var final := if r.Ok? then Complete(r.value) else Failed(r.error, r.error == Cancelled);
    events := AsEvents(pieces, final);
    TextsOfEvents(pieces, final);
  }

  /** The job's prompt finds its session in the state that cannot answer it. */
  predicate Refuses(engine: Engine, s: Session, job: Job) {
    Admitted(engine, job).Ok? && CannotAnswer(s, Admitted(engine, job).value.0)
  }

  /** Runs one job in one session. */
  method Serve(engine: Engine, s: Session, job: Job, world: Interruptions)
    returns (r: Result<Reply, Error>, pieces: seq<string>, after: Session)
    requires SessionValid(engine.model, s)
    modifies world
    ensures SessionValid(engine.model, after)
    ensures r.Ok? ==> r == Alone(engine, job) && Streamed(engine.model, pieces, r.value)
    ensures !Refuses(engine, s, job) && world.Quiet(old(world.ticks), world.ticks) ==> r == Alone(engine, job)
    ensures Refuses(engine, s, job) ==> r.Err?
    ensures world.ticks >= old(world.ticks) && (r.Ok? ==> world.Met() == old(world.Met()))
  {
    var admitted := Admitted(engine, job);
    if admitted.Err? { return Err(admitted.error), [], s; }
    r, pieces, after := GenerateSession(engine.model, s, admitted.value.0, job.maximum, admitted.value.1, world);
  }

  ghost predicate EvictedOldest(sessions: map<string, Resident>, kept: map<string, Resident>, oldest: string) {
    oldest in sessions && kept == sessions - {oldest} && forall other <- sessions :: Older(sessions, oldest, other)
  }

  /** Only a full set loses a session, and it loses the one used longest ago. */
  ghost predicate RoomMade(sessions: map<string, Resident>, kept: map<string, Resident>, maximumSessions: nat) {
    if |sessions| < maximumSessions then kept == sessions
    else exists oldest <- sessions :: EvictedOldest(sessions, kept, oldest)
  }

  method MakeRoom(sessions: map<string, Resident>, maximumSessions: nat) returns (kept: map<string, Resident>)
    requires 0 < maximumSessions && |sessions| <= maximumSessions
    ensures RoomMade(sessions, kept, maximumSessions) && |kept| < maximumSessions
    ensures kept.Keys <= sessions.Keys && forall id <- kept :: kept[id] == sessions[id]
  {
    kept := sessions;
    if |sessions| >= maximumSessions {
      var oldest := OldestSession(sessions);
      kept := sessions - {oldest};
      assert EvictedOldest(sessions, kept, oldest);
      assert kept.Keys == sessions.Keys - {oldest};
      assert |kept.Keys| == |sessions.Keys| - 1;
    }
  }

  /** A job touches no resident session but its own. */
  ghost predicate OthersKept(sessions: map<string, Resident>, after: map<string, Resident>, id: string) {
    forall other <- after :: other == id || (other in sessions && after[other] == sessions[other])
  }

  ghost predicate SessionServed(
    sessions: map<string, Resident>, after: map<string, Resident>, id: string, clock: nat, maximumSessions: nat)
  {
    && OthersKept(sessions, after, id)
    && (id in sessions ==> after.Keys == sessions.Keys)
    && (id !in sessions ==> RoomMade(sessions, after - {id}, maximumSessions))
    && (id in after ==> after[id].lastUsed == clock)
  }

  /** What one job does to the resident sessions: nothing if it names none or was cancelled before it
      started; otherwise its own session is the one used last, and only a new session of a full set
      costs another one its place. */
  ghost predicate SessionsAfter(
    sessions: map<string, Resident>, after: map<string, Resident>, job: Job, clock: nat, clock': nat,
    maximumSessions: nat)
  {
    if job.sessionId.None? || clock' == clock then after == sessions && clock' == clock
    else clock' == clock + 1 && SessionServed(sessions, after, job.sessionId.value, clock', maximumSessions)
  }

  lemma KeptIsValid(model: Model, sessions: map<string, Resident>, kept: map<string, Resident>, id: string)
    requires AllValid(model, sessions) && id !in sessions
    requires kept.Keys <= sessions.Keys && forall id <- kept :: kept[id] == sessions[id]
    ensures AllValid(model, kept) && id !in kept && kept - {id} == kept
  {
    hide SessionValid;
    assert id !in kept.Keys;
  }

  lemma InsertValid(model: Model, kept: map<string, Resident>, id: string, resident: Resident)
    requires AllValid(model, kept) && id !in kept && SessionValid(model, resident.state)
    ensures AllValid(model, kept[id := resident])
    ensures |kept[id := resident]| == |kept| + 1 && kept[id := resident] - {id} == kept
  {
    hide SessionValid;
    var after := kept[id := resident];
    assert after.Keys == kept.Keys + {id} && after - {id} == kept;
    assert |after.Keys| == |kept.Keys| + 1;
  }

  /** Creates the session a job names, unless it is resident already. */
  method FindOrCreate(engine: Engine, sessions: map<string, Resident>, id: string, clock: nat, maximumSessions: nat,
      world: Interruptions)
    returns (after: map<string, Resident>, failed: Option<Error>)
    requires engine.model.Valid() && 0 < maximumSessions && |sessions| <= maximumSessions
    requires AllValid(engine.model, sessions)
    modifies world
    ensures AllValid(engine.model, after) && |after| <= maximumSessions
    ensures failed.None? <==> id in after
    ensures id in sessions ==> after == sessions && failed.None?
    ensures id !in sessions ==> RoomMade(sessions, after - {id}, maximumSessions)
    ensures id !in sessions && id in after ==> HeldTokens(after[id].state) == []
    ensures OthersKept(sessions, after, id)
    ensures failed.Some? ==> !world.Quiet(old(world.ticks), world.ticks)
    ensures world.ticks >= old(world.ticks) && (failed.None? ==> world.Met() == old(world.Met()))
  {
    hide SessionValid, RoomMade, AllValid;
    if id in sessions { return sessions, None; }
    var kept := MakeRoom(sessions, maximumSessions);
    KeptIsValid(engine.model, sessions, kept, id);
    failed := world.Check();
    if failed.Some? { return kept, failed; }
    var state := NewSession(engine.model);
    after := kept[id := Resident(state, clock)];
    InsertValid(engine.model, kept, id, Resident(state, clock));
  }

  lemma ReplaceValid(model: Model, sessions: map<string, Resident>, id: string, resident: Resident)
    requires AllValid(model, sessions) && id in sessions && SessionValid(model, resident.state)
    ensures AllValid(model, sessions[id := resident]) && |sessions[id := resident]| == |sessions|
  {
    hide SessionValid;
    assert sessions[id := resident].Keys == sessions.Keys;
  }

  lemma ReplaceKeeps(sessions: map<string, Resident>, after: map<string, Resident>, id: string, resident: Resident)
    requires id in after && OthersKept(sessions, after, id)
    ensures OthersKept(sessions, after[id := resident], id)
    ensures after[id := resident] - {id} == after - {id} && after[id := resident].Keys == after.Keys
  {
  }

  lemma ResidentIsValid(model: Model, sessions: map<string, Resident>, id: string)
    requires AllValid(model, sessions) && id in sessions
    ensures SessionValid(model, sessions[id].state)
  {
  }

  /** Only a session that is already resident can refuse. */
  predicate RefusesNamed(engine: Engine, sessions: map<string, Resident>, id: string, job: Job) {
    id in sessions && Refuses(engine, sessions[id].state, job)
  }

  lemma EmptyNeverRefuses(engine: Engine, s: Session, job: Job)
    requires HeldTokens(s) == []
    ensures !Refuses(engine, s, job)
  {
  }

  lemma NothingIsValid(model: Model)
    ensures AllValid(model, map[])
  {
  }

  /** Serves a job in the session it names. */
  method ServeNamed(
    engine: Engine, sessions: map<string, Resident>, id: string, clock: nat, job: Job, maximumSessions: nat,
    world: Interruptions)
    returns (r: Result<Reply, Error>, pieces: seq<string>, after: map<string, Resident>)
    requires engine.model.Valid() && 0 < maximumSessions && |sessions| <= maximumSessions
    requires AllValid(engine.model, sessions)
    modifies world
    ensures AllValid(engine.model, after) && |after| <= maximumSessions
    ensures SessionServed(sessions, after, id, clock, maximumSessions)
    ensures r.Ok? ==> r == Alone(engine, job) && Streamed(engine.model, pieces, r.value)
    ensures !RefusesNamed(engine, sessions, id, job) && world.Quiet(old(world.ticks), world.ticks) ==>
      r == Alone(engine, job)
    ensures RefusesNamed(engine, sessions, id, job) ==> r.Err?
    ensures world.ticks >= old(world.ticks) && (r.Ok? ==> world.Met() == old(world.Met()))
  {
    hide SessionValid, Streamed, Alone, RoomMade, AllValid, Refuses, HeldTokens;
    var failed;
    after, failed := FindOrCreate(engine, sessions, id, clock, maximumSessions, world);
    if failed.Some? { return Err(failed.value), [], after; }
    var state;
    ResidentIsValid(engine.model, after, id);
    if id !in sessions { EmptyNeverRefuses(engine, after[id].state, job); }
    r, pieces, state := Serve(engine, after[id].state, job, world);
    ReplaceValid(engine.model, after, id, Resident(state, clock));
    ReplaceKeeps(sessions, after, id, Resident(state, clock));
    after := after[id := Resident(state, clock)];
  }

  // ---------- One job, then all jobs ----------

  predicate Refused(engine: Engine, sessions: map<string, Resident>, job: Job) {
    job.sessionId.Some? && RefusesNamed(engine, sessions, job.sessionId.value, job)
  }

  /** The job ends as it would alone. */
  predicate Completed(engine: Engine, job: Job, events: seq<Event>) {
    Alone(engine, job).Ok? ==> events != [] && events[|events| - 1] == Complete(Alone(engine, job).value)
  }

  /** Qwen rebuilds what it cannot reuse, and a job without a session gets a new one. */
  predicate NeverRefused(engine: Engine, job: Job) {
    engine.model.QwenModel? || job.sessionId.None?
  }

  lemma NotRefused(engine: Engine, sessions: map<string, Resident>, job: Job)
    requires NeverRefused(engine, job) && AllValid(engine.model, sessions)
    ensures !Refused(engine, sessions, job)
  {
    if job.sessionId.Some? && job.sessionId.value in sessions {
      ResidentIsValid(engine.model, sessions, job.sessionId.value);
    }
  }

  /** Everything the worker does for one job, up to its final event. */
  method HandleJob(engine: Engine, sessions: map<string, Resident>, clock: nat, job: Job, maximumSessions: nat,
      world: Interruptions)
    returns (after: map<string, Resident>, clock': nat, events: seq<Event>)
    requires engine.model.Valid() && 0 < maximumSessions && |sessions| <= maximumSessions
    requires AllValid(engine.model, sessions)
    modifies world
    ensures AllValid(engine.model, after) && |after| <= maximumSessions
    ensures SessionsAfter(sessions, after, job, clock, clock', maximumSessions)
    ensures Answered(engine, job, events)
    ensures Refused(engine, sessions, job) ==> events[|events| - 1].Failed?
    ensures !Refused(engine, sessions, job) && world.Quiet(old(world.ticks), world.ticks) ==>
      Completed(engine, job, events)
    ensures world.ticks >= old(world.ticks)
    ensures events[|events| - 1].Complete? ==> world.Quiet(old(world.ticks), world.ticks)
  {
    hide SessionValid, Answered, Streamed, Alone, AllValid, SessionServed, RefusesNamed, Refuses, HeldTokens;
    after, clock' := sessions, clock;
    var interrupted := world.Check();
    if interrupted.Some? {
      events := Respond(engine, job, Err(Cancelled), []);
      return;
    }
    var r: Result<Reply, Error>;
    var pieces: seq<string> := [];
    if job.sessionId.Some? {
      clock' := clock + 1;
      r, pieces, after := ServeNamed(engine, sessions, job.sessionId.value, clock', job, maximumSessions, world);
    } else {
      var failed := world.Check();
      if failed.Some? {
        r := Err(failed.value);
      } else {
        var s := NewSession(engine.model);
        EmptyNeverRefuses(engine, s, job);
        r, pieces, s := Serve(engine, s, job, world);
      }
    }
    events := Respond(engine, job, r, pieces);
    world.MetIsQuiet(old(world.ticks), world.ticks);
  }

  /** The resident sessions and the clock when a job starts, and the moment it does. */
  datatype Moment = Moment(sessions: map<string, Resident>, clock: nat, tick: nat)

  /** What one job owes: its answer; completion, if nothing interrupts it and its session does not
      refuse it, and failure if anything does; and what it does to the resident sessions. */
  ghost predicate Handled(
    engine: Engine, job: Job, events: seq<Event>, before: Moment, after: Moment, maximumSessions: nat,
    world: Interruptions)
  {
    && Answered(engine, job, events)
    && (Refused(engine, before.sessions, job) ==> events[|events| - 1].Failed?)
    && (!Refused(engine, before.sessions, job) && world.Quiet(before.tick, after.tick) ==>
      Completed(engine, job, events))
    && (events[|events| - 1].Complete? ==> world.Quiet(before.tick, after.tick))
    && SessionsAfter(before.sessions, after.sessions, job, before.clock, after.clock, maximumSessions)
  }

  /** The worker loop: jobs are answered in the order they arrive, whatever came before them. */
  method RunModelWorker(engine: Engine, jobs: seq<Job>, maximumSessions: nat, world: Interruptions)
    returns (log: seq<seq<Event>>, ghost moments: seq<Moment>)
    requires engine.model.Valid() && 0 < maximumSessions
    modifies world
    ensures |log| == |jobs| && |moments| == |jobs| + 1 && moments[0] == Moment(map[], 0, old(world.ticks))
    ensures forall i: nat | i < |jobs| ::
      Handled(engine, jobs[i], log[i], moments[i], moments[i + 1], maximumSessions, world)
    ensures forall i: nat | i < |jobs| && NeverRefused(engine, jobs[i]) ::
      !Refused(engine, moments[i].sessions, jobs[i])
  {
    hide SessionValid, Answered, SessionsAfter, Completed, Refused, AllValid, NeverRefused;
    var sessions: map<string, Resident> := map[];
    var clock := 0;
    log, moments := [], [Moment(map[], 0, world.ticks)];
    NothingIsValid(engine.model);
    for i := 0 to |jobs|
      invariant |sessions| <= maximumSessions && AllValid(engine.model, sessions)
      invariant |log| == i && |moments| == i + 1 && moments[0] == Moment(map[], 0, old(world.ticks))
      invariant moments[i] == Moment(sessions, clock, world.ticks)
      invariant forall j: nat | j < i ::
        Handled(engine, jobs[j], log[j], moments[j], moments[j + 1], maximumSessions, world)
      invariant forall j: nat | j < i && NeverRefused(engine, jobs[j]) :: !Refused(engine, moments[j].sessions, jobs[j])
    {
      if NeverRefused(engine, jobs[i]) { NotRefused(engine, sessions, jobs[i]); }
      var events;
      sessions, clock, events := HandleJob(engine, sessions, clock, jobs[i], maximumSessions, world);
      log, moments := log + [events], moments + [Moment(sessions, clock, world.ticks)];
    }
  }
}
