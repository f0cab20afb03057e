/** The service and its worker threads as a state machine: every interleaving of submissions,
 *  loading, token events, reads by receivers, cancellation, dropped receivers and shutdown is a run
 *  of `Step`.
 */
module WorkerProtocol {
  import opened Wrappers

  type JobId = nat
  type Path = nat

  datatype Limits = Limits(requestQueue: nat, maximumLoadedModels: nat, tokenBuffer: nat)
  {
    predicate Valid() { 1 <= requestQueue <= 1024 && 1 <= maximumLoadedModels <= 16 && 1 <= tokenBuffer <= 4096 }
  }

  datatype Status = Loading | Ready | Busy | Failed | Stopped

  datatype Event = Token | Complete | Error

  /** What a job's channel has carried so far, and how much of it the receiver has taken; the rest sits
      in the buffer. */
  datatype Answer = Answer(job: JobId, delivered: seq<Event>, taken: nat)
  {
    predicate Fits(buffer: nat) { taken <= |delivered| <= taken + buffer }
  }

  datatype Worker = Worker(
    status: Status,
    accepted: seq<JobId>,
    queue: seq<JobId>,
    current: Option<Answer>,
    answered: seq<Answer>)

  datatype Service = Service(
    workers: map<Path, Worker>,
    nextJob: JobId, receiverGone: set<JobId>,
    cancelled: set<JobId>,
    sendersAlive: bool, refusals: nat)

  datatype Action =
    | Submit(path: Path)
    | LoadOk(path: Path)
    | LoadFail(path: Path)
    | Take(path: Path)
    | EmitToken(path: Path)
    | Finish(path: Path, ok: bool)
    | Receive(path: Path)
    | Cancel(job: JobId)
    | DropReceiver(job: JobId)
    | Shutdown
    | Stop(path: Path)

  function Init(): Service {
    Service(map[], 0, {}, {}, true, 0)
  }

  /** A blocking send waits while the channel is full; a channel without a receiver never blocks. */
  predicate CanSend(limits: Limits, s: Service, answer: Answer) {
    answer.job in s.receiverGone || |answer.delivered| < answer.taken + limits.tokenBuffer
  }

  /** A send reaches the channel unless the receiver is gone. */
  function Send(s: Service, answer: Answer, event: Event): Answer {
    if answer.job in s.receiverGone then answer else answer.(delivered := answer.delivered + [event])
  }

  /** The cached worker for a path, spawned on demand within the model limit. */
  function WorkerFor(limits: Limits, s: Service, path: Path): Option<Worker> {
    if path in s.workers then Some(s.workers[path])
    else if |s.workers| >= limits.maximumLoadedModels then None
    else Some(Worker(Loading, [], [], None, []))
  }

  /** The worker is busy with a job whose channel takes another event. */
  predicate MaySend(limits: Limits, s: Service, path: Path) {
    path in s.workers && s.workers[path].current.Some? && CanSend(limits, s, s.workers[path].current.value)
  }

  /** One atomic step; an action that is not enabled changes nothing. */
  function Step(limits: Limits, s: Service, a: Action): Service {
    match a
    case Submit(path) =>
      if !s.sendersAlive then s
      else
        (match WorkerFor(limits, s, path)
         case None => s.(refusals := s.refusals + 1)
         case Some(w) =>
           if w.status.Stopped? || |w.queue| >= limits.requestQueue
           then s.(workers := s.workers[path := w], refusals := s.refusals + 1)
           else
             var longer := w.(accepted := w.accepted + [s.nextJob], queue := w.queue + [s.nextJob]);
             s.(workers := s.workers[path := longer], nextJob := s.nextJob + 1))
    case LoadOk(path) =>
      if path in s.workers && s.workers[path].status.Loading?
      then s.(workers := s.workers[path := s.workers[path].(status := Ready)]) else s
    case LoadFail(path) =>
      if path in s.workers && s.workers[path].status.Loading?
      then s.(workers := s.workers[path := s.workers[path].(status := Failed)]) else s
    case Take(path) =>
      if path !in s.workers || s.workers[path].queue == [] then s
      else
        var w := s.workers[path];
        var job, rest := w.queue[0], w.queue[1..];
        if w.status.Failed? then
          var refused := Send(s, Answer(job, [], 0), Error);
          s.(workers := s.workers[path := w.(queue := rest, answered := w.answered + [refused])])
        else if !w.status.Ready? then s
        else if job in s.cancelled then
          var refused := Send(s, Answer(job, [], 0), Error);
          s.(workers := s.workers[path := w.(queue := rest, answered := w.answered + [refused])])
        else s.(workers := s.workers[path := w.(status := Busy, queue := rest, current := Some(Answer(job, [], 0)))])
    case EmitToken(path) =>
      if MaySend(limits, s, path) then
        var w := s.workers[path];
        var answer := w.current.value;
        s.(workers := s.workers[path := w.(current := Some(Send(s, answer, Token)))],
           cancelled := if answer.job in s.receiverGone then s.cancelled + {answer.job} else s.cancelled)
      else s
    case Finish(path, ok) =>
      if MaySend(limits, s, path) then
        var w := s.workers[path];
        s.(workers := s.workers[path := w.(
             status := Ready, current := None,
             answered := w.answered + [Send(s, w.current.value, if ok then Complete else Error)])])
      else s
    case Receive(path) =>
      if path in s.workers && s.workers[path].current.Some?
         && s.workers[path].current.value.taken < |s.workers[path].current.value.delivered|
      then
        var w := s.workers[path];
        var answer := w.current.value;
        s.(workers := s.workers[path := w.(current := Some(answer.(taken := answer.taken + 1)))])
      else s
    case Cancel(job) => s.(cancelled := s.cancelled + {job})
    case DropReceiver(job) => s.(cancelled := s.cancelled + {job}, receiverGone := s.receiverGone + {job})
    case Shutdown => s.(sendersAlive := false)
    case Stop(path) =>
      if path in s.workers && !s.sendersAlive && s.workers[path].queue == []
        && s.workers[path].status in {Ready, Failed}
      then s.(workers := s.workers[path := s.workers[path].(status := Stopped)]) else s
  }

  function Run(limits: Limits, actions: seq<Action>): Service {
    if actions == [] then Init()
    else Step(limits, Run(limits, actions[..|actions| - 1]), actions[|actions| - 1])
  }

  // ---------- The invariant ----------

  function Jobs(answers: seq<Answer>): seq<JobId> {
    seq(|answers|, i requires 0 <= i < |answers| => answers[i].job)
  }

  function InProgress(w: Worker): seq<JobId> {
    match w.current case None => [] case Some(answer) => [answer.job]
  }

  predicate OnlyTokens(events: seq<Event>) {
    forall e <- events :: e == Token
  }

  /** Tokens, then exactly one final event. */
  predicate Whole(events: seq<Event>) {
    events != [] && OnlyTokens(events[..|events| - 1]) && events[|events| - 1] != Token
  }

  /** A receiver that went away may have seen only a prefix. */
  predicate Proper(answer: Answer, gone: set<JobId>) {
    Whole(answer.delivered) || (answer.job in gone && OnlyTokens(answer.delivered))
  }

  ghost predicate WorkerInv(limits: Limits, w: Worker, gone: set<JobId>, sendersAlive: bool) {
    && w.accepted == Jobs(w.answered) + InProgress(w) + w.queue
    && |w.queue| <= limits.requestQueue
    && (w.status.Busy? <==> w.current.Some?)
    && (w.current.Some? ==> OnlyTokens(w.current.value.delivered))
    && (forall answer <- w.answered :: Proper(answer, gone) && answer.Fits(limits.tokenBuffer))
    && (w.current.Some? ==> w.current.value.Fits(limits.tokenBuffer))
    && (w.status.Stopped? ==> w.queue == [] && !sendersAlive)
    && (w.status.Loading? ==> w.answered == [])
  }

  ghost predicate Inv(limits: Limits, s: Service) {
    && |s.workers| <= limits.maximumLoadedModels
    && forall path <- s.workers :: WorkerInv(limits, s.workers[path], s.receiverGone, s.sendersAlive)
  }

  lemma SendTokens(s: Service, answer: Answer, event: Event)
    requires OnlyTokens(answer.delivered)
    ensures event == Token ==> OnlyTokens(Send(s, answer, event).delivered)
    ensures event != Token ==> Proper(Send(s, answer, event), s.receiverGone)
    ensures Send(s, answer, event).job == answer.job
  {
    if event != Token && answer.job !in s.receiverGone {
      var events := answer.delivered + [event];
      assert events[..|events| - 1] == answer.delivered;
    }
  }

  /** Answering a job moves it from the front of what is outstanding to the end of what is answered. */
  lemma AnswerOne(limits: Limits, w: Worker, after: Worker, answer: Answer, gone: set<JobId>, sendersAlive: bool)
    requires WorkerInv(limits, w, gone, sendersAlive) && Proper(answer, gone) && answer.Fits(limits.tokenBuffer)
    requires after.answered == w.answered + [answer] && after.accepted == w.accepted && after.current.None?
    requires InProgress(w) + w.queue == [answer.job] + after.queue
    requires after.status in {Ready, Failed}
    ensures WorkerInv(limits, after, gone, sendersAlive)
  {
    assert Jobs(after.answered) == Jobs(w.answered) + [answer.job];
    assert w.accepted == Jobs(w.answered) + (InProgress(w) + w.queue);
    assert |InProgress(w)| + |w.queue| == 1 + |after.queue|;
  }

  lemma Replaced(limits: Limits, s: Service, path: Path, w: Worker)
    requires Inv(limits, s) && path in s.workers && WorkerInv(limits, w, s.receiverGone, s.sendersAlive)
    ensures Inv(limits, s.(workers := s.workers[path := w]))
    ensures s.workers[path] == w ==> s.workers[path := w] == s.workers
  {
    assert s.workers[path := w].Keys == s.workers.Keys;
    assert |s.workers[path := w]| == |s.workers|;
  }

  lemma InvAt(limits: Limits, s: Service, path: Path)
    requires Inv(limits, s) && path in s.workers
    ensures WorkerInv(limits, s.workers[path], s.receiverGone, s.sendersAlive)
  {
  }

  lemma FirstSendFits(limits: Limits, s: Service, job: JobId, event: Event)
    requires limits.Valid()
    ensures Send(s, Answer(job, [], 0), event).Fits(limits.tokenBuffer)
  {
  }

  lemma NoTokens()
    ensures OnlyTokens([])
  {
  }

  lemma RefusedKeepsInv(limits: Limits, s: Service, w: Worker)
    requires limits.Valid() && WorkerInv(limits, w, s.receiverGone, s.sendersAlive)
    requires w.queue != [] && w.status in {Ready, Failed}
    ensures var refused := Send(s, Answer(w.queue[0], [], 0), Error);
      WorkerInv(limits, w.(queue := w.queue[1..], answered := w.answered + [refused]), s.receiverGone, s.sendersAlive)
  {
    hide Jobs, Proper, OnlyTokens, Send;
    var job := w.queue[0];
    var refused := Send(s, Answer(job, [], 0), Error);
    assert w.queue == [job] + w.queue[1..];
    NoTokens();
    SendTokens(s, Answer(job, [], 0), Error);
    FirstSendFits(limits, s, job, Error);
    AnswerOne(limits, w, w.(queue := w.queue[1..], answered := w.answered + [refused]), refused, s.receiverGone,
              s.sendersAlive);
  }

  lemma BegunKeepsInv(limits: Limits, s: Service, w: Worker)
    requires limits.Valid() && WorkerInv(limits, w, s.receiverGone, s.sendersAlive)
    requires w.queue != [] && w.status.Ready?
    ensures WorkerInv(limits, w.(status := Busy, queue := w.queue[1..], current := Some(Answer(w.queue[0], [], 0))),
                      s.receiverGone, s.sendersAlive)
  {
    hide Jobs, Proper, OnlyTokens;
    NoTokens();
    var after := w.(status := Busy, queue := w.queue[1..], current := Some(Answer(w.queue[0], [], 0)));
    assert w.queue == [w.queue[0]] + w.queue[1..];
    assert after.accepted == Jobs(after.answered) + InProgress(after) + after.queue;
  }

  lemma TakeKeepsInv(limits: Limits, s: Service, path: Path)
    requires limits.Valid() && Inv(limits, s) && path in s.workers
    ensures Inv(limits, Step(limits, s, Take(path)))
  {
    hide Inv, WorkerInv, Send, WorkerFor;
    var w := s.workers[path];
    InvAt(limits, s, path);
    if w.queue != [] && w.status in {Ready, Failed} {
      RefusedKeepsInv(limits, s, w);
      if w.status.Ready? { BegunKeepsInv(limits, s, w); }
    }
    Replaced(limits, s, path, Step(limits, s, Take(path)).workers[path]);
  }

  lemma FinishKeepsInv(limits: Limits, s: Service, path: Path, ok: bool)
    requires Inv(limits, s) && MaySend(limits, s, path)
    ensures Inv(limits, Step(limits, s, Finish(path, ok)))
  {
    var w := s.workers[path];
    var after := Step(limits, s, Finish(path, ok)).workers[path];
    var event := if ok then Complete else Error;
    assert WorkerInv(limits, w, s.receiverGone, s.sendersAlive);
    SendTokens(s, w.current.value, event);
    AnswerOne(limits, w, after, Send(s, w.current.value, event), s.receiverGone, s.sendersAlive);
    Replaced(limits, s, path, after);
  }

  lemma EmitKeepsInv(limits: Limits, s: Service, path: Path)
    requires Inv(limits, s) && MaySend(limits, s, path)
    ensures Inv(limits, Step(limits, s, EmitToken(path)))
  {
    var w := s.workers[path];
    var after := w.(current := Some(Send(s, w.current.value, Token)));
    assert WorkerInv(limits, w, s.receiverGone, s.sendersAlive);
    SendTokens(s, w.current.value, Token);
    Replaced(limits, s, path, after);
  }

  lemma SubmitKeepsInv(limits: Limits, s: Service, path: Path)
    requires limits.Valid() && Inv(limits, s) && s.sendersAlive && WorkerFor(limits, s, path).Some?
    ensures Inv(limits, Step(limits, s, Submit(path)))
  {
  }

  lemma GoneKeepsInv(limits: Limits, s: Service, gone: set<JobId>, sendersAlive: bool)
    requires Inv(limits, s) && s.receiverGone <= gone && (sendersAlive ==> s.sendersAlive)
    ensures forall path <- s.workers :: WorkerInv(limits, s.workers[path], gone, sendersAlive)
  {
  }

  lemma StepKeepsInv(limits: Limits, s: Service, a: Action)
    requires limits.Valid() && Inv(limits, s)
    ensures Inv(limits, Step(limits, s, a))
  {
    hide Jobs, Proper, OnlyTokens;
    match a
    case Submit(path) => if s.sendersAlive && WorkerFor(limits, s, path).Some? { SubmitKeepsInv(limits, s, path); }
    case LoadOk(path) => if path in s.workers { Replaced(limits, s, path, Step(limits, s, a).workers[path]); }
    case LoadFail(path) => if path in s.workers { Replaced(limits, s, path, Step(limits, s, a).workers[path]); }
    case Take(path) => if path in s.workers { TakeKeepsInv(limits, s, path); }
    case EmitToken(path) => if MaySend(limits, s, path) { EmitKeepsInv(limits, s, path); }
    case Finish(path, ok) => if MaySend(limits, s, path) { FinishKeepsInv(limits, s, path, ok); }
    case Receive(path) => if path in s.workers { Replaced(limits, s, path, Step(limits, s, a).workers[path]); }
    case Cancel(_) =>
    case DropReceiver(job) => GoneKeepsInv(limits, s, s.receiverGone + {job}, s.sendersAlive);
    case Shutdown => GoneKeepsInv(limits, s, s.receiverGone, false);
    case Stop(path) => if path in s.workers { Replaced(limits, s, path, Step(limits, s, a).workers[path]); }
  }

  /** Over every interleaving: answers come in submission order, each is tokens followed by exactly
      one final event unless its receiver is gone, and queues and loaded models stay within limits. */
  lemma {:induction false} EveryRun(limits: Limits, actions: seq<Action>)
    requires limits.Valid()
    ensures Inv(limits, Run(limits, actions))
    ensures forall path <- Run(limits, actions).workers ::
      Jobs(Run(limits, actions).workers[path].answered) <= Run(limits, actions).workers[path].accepted
  {
    if actions != [] {
      EveryRun(limits, actions[..|actions| - 1]);
      StepKeepsInv(limits, Run(limits, actions[..|actions| - 1]), actions[|actions| - 1]);
    }
  }

  /** Action `a` in state `s` makes the worker give its k-th answer: the job in progress is finished, or
      the first job of the queue is refused because the model failed to load or the job was cancelled. */
  predicate Answers(s: Service, a: Action, path: Path, k: nat, answer: Answer) {
    && path in s.workers && |s.workers[path].answered| == k
    && var w := s.workers[path];
       match a
       case Finish(p, ok) =>
         && p == path && w.current.Some? && answer.job == w.current.value.job
         && answer.delivered == w.current.value.delivered
              + if answer.job in s.receiverGone then [] else [if ok then Complete else Error]
       case Take(p) =>
         && p == path && w.queue != [] && answer.job == w.queue[0]
         && (w.status.Failed? || (w.status.Ready? && answer.job in s.cancelled))
         && answer.delivered == if answer.job in s.receiverGone then [] else [Error]
       case _ => false
  }

  /** Answers are never taken back, and a step gives at most one. */
  lemma StepAnswers(limits: Limits, s: Service, a: Action, path: Path)
    requires path in Step(limits, s, a).workers
    ensures var before, after := if path in s.workers then s.workers[path].answered else [],
              Step(limits, s, a).workers[path].answered;
      after == before
      || (|after| == |before| + 1 && after[..|before|] == before && Answers(s, a, path, |before|, after[|before|]))
  {
  }

  /** Over every run, each answer was given by one action: a job that was finished well by a completion,
      one that failed, was cancelled or met a failed model by an error. */
  lemma {:induction false} EveryAnswer(limits: Limits, actions: seq<Action>, path: Path, k: nat) returns (i: nat)
    requires path in Run(limits, actions).workers && k < |Run(limits, actions).workers[path].answered|
    ensures i < |actions|
    ensures Answers(Run(limits, actions[..i]), actions[i], path, k, Run(limits, actions).workers[path].answered[k])
  {
    hide Step, Answers;
    var last := |actions| - 1;
    var before := Run(limits, actions[..last]);
    StepAnswers(limits, before, actions[last], path);
    if path in before.workers && k < |before.workers[path].answered| {
      i := EveryAnswer(limits, actions[..last], path, k);
      assert actions[..last][..i] == actions[..i];
    } else {
      i := last;
    }
  }

  /** A worker that has stopped has answered every job it ever accepted. */
  lemma StoppedMeansDrained(limits: Limits, actions: seq<Action>, path: Path)
    requires limits.Valid() && path in Run(limits, actions).workers
    requires Run(limits, actions).workers[path].status.Stopped?
    ensures var w := Run(limits, actions).workers[path];
      && Jobs(w.answered) == w.accepted
      && forall i | 0 <= i < |w.answered| ::
           w.answered[i].job in Run(limits, actions).receiverGone || Whole(w.answered[i].delivered)
  {
    EveryRun(limits, actions);
    var w := Run(limits, actions).workers[path];
    assert WorkerInv(limits, w, Run(limits, actions).receiverGone, Run(limits, actions).sendersAlive);
    assert Jobs(w.answered) + InProgress(w) + w.queue == Jobs(w.answered);
    forall i | 0 <= i < |w.answered|
      ensures w.answered[i].job in Run(limits, actions).receiverGone || Whole(w.answered[i].delivered)
    {
      assert w.answered[i] in w.answered;
    }
  }

  // ---------- Submissions ----------

  /** A worker's jobs have growing numbers below the next one. */
  ghost predicate Growing(jobs: seq<JobId>, next: JobId) {
    && (forall i: nat | i < |jobs| :: jobs[i] < next)
    && forall i: nat, j: nat | i < j < |jobs| :: jobs[i] < jobs[j]
  }

  ghost predicate NoneShared(jobs: seq<JobId>, others: seq<JobId>) {
    forall job <- jobs :: job !in others
  }

  /** Jobs are numbered in the order of submission, over all workers. */
  ghost predicate Numbered(s: Service) {
    && (forall path <- s.workers :: Growing(s.workers[path].accepted, s.nextJob))
    && forall path <- s.workers, other <- s.workers | path != other ::
         NoneShared(s.workers[path].accepted, s.workers[other].accepted)
  }

  /** What one step does to the accepted jobs of a worker: only a submission adds one, with the next number. */
  lemma StepAccepts(limits: Limits, s: Service, a: Action, path: Path)
    requires path in Step(limits, s, a).workers
    ensures var before, after := if path in s.workers then s.workers[path].accepted else [],
              Step(limits, s, a).workers[path].accepted;
      after == before
      || (a == Submit(path) && after == before + [s.nextJob] && Step(limits, s, a).nextJob == s.nextJob + 1)
    ensures s.nextJob <= Step(limits, s, a).nextJob && s.workers.Keys <= Step(limits, s, a).workers.Keys
  {
  }

  /** A submission is accepted exactly when there is, or may be, a worker that is not stopped with room in its
      queue. */
  lemma SubmitAccepts(limits: Limits, s: Service, path: Path)
    requires s.sendersAlive
    ensures var after := Step(limits, s, Submit(path));
      var accepts :=
        if path in s.workers
        then !s.workers[path].status.Stopped? && |s.workers[path].queue| < limits.requestQueue
        else |s.workers| < limits.maximumLoadedModels && 0 < limits.requestQueue;
      && after.nextJob == s.nextJob + (if accepts then 1 else 0)
      && after.refusals == s.refusals + (if accepts then 0 else 1)
      && (accepts ==> path in after.workers && after.workers[path].accepted
                      == (if path in s.workers then s.workers[path].accepted else []) + [s.nextJob])
  {
  }

  lemma NothingGrows(next: JobId)
    ensures Growing([], next)
  {
  }

  lemma NothingShared(jobs: seq<JobId>)
    ensures NoneShared(jobs, []) && NoneShared([], jobs)
  {
  }

  lemma GrowsByOne(jobs: seq<JobId>, next: JobId, later: JobId)
    requires Growing(jobs, next) && next <= later
    ensures Growing(jobs, later) && (next < later ==> Growing(jobs + [next], later))
  {
  }

  /** The next number is nobody's yet. */
  lemma NextIsNew(jobs: seq<JobId>, others: seq<JobId>, next: JobId)
    requires NoneShared(jobs, others) && NoneShared(others, jobs) && Growing(jobs, next) && Growing(others, next)
    ensures NoneShared(jobs + [next], others) && NoneShared(others, jobs + [next])
  {
  }

  function AcceptedBy(s: Service, path: Path): seq<JobId> {
    if path in s.workers then s.workers[path].accepted else []
  }

  lemma StepNumbers(limits: Limits, s: Service, a: Action)
    requires Numbered(s)
    ensures Numbered(Step(limits, s, a))
  {
    hide Step, Growing, NoneShared;
    var after := Step(limits, s, a);
    forall path <- after.workers ensures Growing(after.workers[path].accepted, after.nextJob) {
      StepAccepts(limits, s, a, path);
      assert Growing(AcceptedBy(s, path), s.nextJob) by { NothingGrows(s.nextJob); }
      GrowsByOne(AcceptedBy(s, path), s.nextJob, after.nextJob);
    }
    forall path <- after.workers, other <- after.workers | path != other
      ensures NoneShared(after.workers[path].accepted, after.workers[other].accepted)
    {
      StepAccepts(limits, s, a, path);
      StepAccepts(limits, s, a, other);
      NothingGrows(s.nextJob);
      NothingShared(AcceptedBy(s, path));
      NothingShared(AcceptedBy(s, other));
      NextIsNew(AcceptedBy(s, path), AcceptedBy(s, other), s.nextJob);
      NextIsNew(AcceptedBy(s, other), AcceptedBy(s, path), s.nextJob);
    }
  }

  /** A job whose receiver is gone is cancelled, and neither is ever taken back. */
  lemma GoneAreCancelled(limits: Limits, s: Service, a: Action)
    requires s.receiverGone <= s.cancelled
    ensures Step(limits, s, a).receiverGone <= Step(limits, s, a).cancelled
    ensures s.cancelled <= Step(limits, s, a).cancelled && s.receiverGone <= Step(limits, s, a).receiverGone
  {
  }

  lemma StepCounts(limits: Limits, s: Service, a: Action)
    ensures Step(limits, s, a).sendersAlive <==> s.sendersAlive && a != Shutdown
    ensures Step(limits, s, a).nextJob + Step(limits, s, a).refusals
         == s.nextJob + s.refusals + if a.Submit? && s.sendersAlive then 1 else 0
  {
  }

  /** Submissions made before shutdown. */
  function Submissions(actions: seq<Action>): nat {
    if actions == [] then 0
    else
      var before := actions[..|actions| - 1];
      Submissions(before) + if actions[|actions| - 1].Submit? && Shutdown !in before then 1 else 0
  }

  lemma NothingIsNumbered()
    ensures Numbered(Init())
  {
  }

  /** Over every run no two accepted jobs share a number, every submission made before shutdown was either
      accepted or refused, and a job whose receiver is gone is cancelled. */
  lemma {:induction false} EverySubmission(limits: Limits, actions: seq<Action>)
    ensures Numbered(Run(limits, actions)) && Run(limits, actions).receiverGone <= Run(limits, actions).cancelled
    ensures Run(limits, actions).sendersAlive <==> Shutdown !in actions
    ensures Run(limits, actions).nextJob + Run(limits, actions).refusals == Submissions(actions)
  {
    hide Numbered, Step;
    if actions == [] {
      NothingIsNumbered();
    } else {
      var before, last := actions[..|actions| - 1], actions[|actions| - 1];
      EverySubmission(limits, before);
      StepNumbers(limits, Run(limits, before), last);
      GoneAreCancelled(limits, Run(limits, before), last);
      StepCounts(limits, Run(limits, before), last);
      assert actions == before + [last];
    }
  }

  lemma BusyIffCurrent(limits: Limits, s: Service, path: Path)
    requires Inv(limits, s) && path in s.workers
    ensures s.workers[path].status.Busy? <==> s.workers[path].current.Some?
  {
    assert WorkerInv(limits, s.workers[path], s.receiverGone, s.sendersAlive);
  }

  /** A worker's current job: begun only from the front of its queue, when it is ready and the job is not
      cancelled; from then on only tokens are added to its answer, one by each send to a receiver that is
      there. */
  lemma StepRuns(limits: Limits, s: Service, a: Action, path: Path)
    requires Inv(limits, s) && path in s.workers && path in Step(limits, s, a).workers
    requires Step(limits, s, a).workers[path].current.Some?
    ensures var w, now := s.workers[path], Step(limits, s, a).workers[path].current.value;
      if w.current.None? then
        && a == Take(path) && w.status.Ready? && w.queue != [] && now == Answer(w.queue[0], [], 0)
        && now.job !in s.cancelled
      else
        && now.job == w.current.value.job
        && now.taken == w.current.value.taken
             + (if a == Receive(path) && w.current.value.taken < |w.current.value.delivered| then 1 else 0)
        && now.delivered == w.current.value.delivered
             + if a == EmitToken(path) && CanSend(limits, s, w.current.value) && now.job !in s.receiverGone
               then [Token] else []
  {
    hide WorkerInv;
    BusyIffCurrent(limits, s, path);
  }

  /** A job that was cancelled, or whose receiver went away, stays cancelled; so it is never begun. */
  lemma {:induction false} CancelledStays(limits: Limits, actions: seq<Action>, i: nat, job: JobId)
    requires i < |actions| && (actions[i] == Cancel(job) || actions[i] == DropReceiver(job))
    ensures job in Run(limits, actions).cancelled
  {
    var before, last := actions[..|actions| - 1], actions[|actions| - 1];
    EverySubmission(limits, before);
    GoneAreCancelled(limits, Run(limits, before), last);
    if i < |before| { CancelledStays(limits, before, i, job); }
  }

  /** The life of a worker: loading ends in ready or failed, ready and busy alternate, and only a worker with an
      empty queue stops, after shutdown. */
  lemma StepStatus(limits: Limits, s: Service, a: Action, path: Path)
    requires Inv(limits, s) && path in s.workers && path in Step(limits, s, a).workers
    ensures var was, now := s.workers[path].status, Step(limits, s, a).workers[path].status;
      && (was.Loading? ==> now == if a == LoadOk(path) then Ready else if a == LoadFail(path) then Failed else Loading)
      && (was.Failed? ==> now.Failed? || now.Stopped?) && (was.Stopped? ==> now.Stopped?)
      && (was.Busy? ==> now.Busy? || (now.Ready? && a.Finish?))
      && (was.Ready? ==> now.Ready? || now.Stopped? || (now.Busy? && a == Take(path)))
      && (now.Stopped? && !was.Stopped? <==>
            a == Stop(path) && (was.Ready? || was.Failed?) && s.workers[path].queue == [] && !s.sendersAlive)
  {
    hide WorkerInv;
    BusyIffCurrent(limits, s, path);
  }

  // ---------- Draining ----------

  /** What a worker still owes. */
  function Owed(w: Worker): nat {
    2 * |w.queue| + |InProgress(w)| + (if w.status.Stopped? then 0 else 1)
  }

  /** After shutdown nothing that happens adds to what a worker owes, and no worker appears. */
  lemma OwedNeverGrows(limits: Limits, s: Service, a: Action, path: Path)
    requires Inv(limits, s) && !s.sendersAlive
    ensures !Step(limits, s, a).sendersAlive && Step(limits, s, a).workers.Keys == s.workers.Keys
    ensures path in s.workers ==> Owed(Step(limits, s, a).workers[path]) <= Owed(s.workers[path])
  {
    hide Inv, WorkerInv, WorkerFor;
    if path in s.workers { BusyIffCurrent(limits, s, path); }
  }

  function RunFrom(limits: Limits, s: Service, actions: seq<Action>): Service
    decreases |actions|
  {
    if actions == [] then s else RunFrom(limits, Step(limits, s, actions[0]), actions[1..])
  }

  /** What draining takes: the worker's own moves, and a receiver that reads when its channel is full. */
  predicate Draining(actions: seq<Action>, path: Path) {
    forall a <- actions :: a == Take(path) || a == Finish(path, true) || a == Stop(path) || a == Receive(path)
  }

  /** The worker's next move. */
  function Move(w: Worker, path: Path): Action {
    if w.current.Some? then Finish(path, true) else if w.queue != [] then Take(path) else Stop(path)
  }

  lemma MoveOwesLess(limits: Limits, s: Service, path: Path)
    requires Inv(limits, s) && !s.sendersAlive && path in s.workers
    requires !s.workers[path].status.Loading? && !s.workers[path].status.Stopped?
    requires s.workers[path].current.Some? ==> MaySend(limits, s, path)
    ensures var after := Step(limits, s, Move(s.workers[path], path));
      && !after.sendersAlive && path in after.workers && !after.workers[path].status.Loading?
      && Owed(after.workers[path]) < Owed(s.workers[path])
  {
    hide Inv, WorkerInv, WorkerFor;
    BusyIffCurrent(limits, s, path);
  }

  lemma ReadMakesRoom(limits: Limits, s: Service, path: Path)
    requires limits.Valid() && Inv(limits, s) && path in s.workers && s.workers[path].current.Some?
      && !MaySend(limits, s, path)
    ensures var read := Step(limits, s, Receive(path));
      && MaySend(limits, read, path) && read.sendersAlive == s.sendersAlive
      && Owed(read.workers[path]) == Owed(s.workers[path]) && read.workers[path].status == s.workers[path].status
  {
    assert WorkerInv(limits, s.workers[path], s.receiverGone, s.sendersAlive);
  }

  lemma ReadKeepsWorkers(limits: Limits, s: Service, path: Path)
    requires path in s.workers
    ensures path in Step(limits, s, Receive(path)).workers
  {
  }

  lemma {:induction false} RunFromConcat(limits: Limits, s: Service, first: seq<Action>, rest: seq<Action>)
    ensures RunFrom(limits, s, first + rest) == RunFrom(limits, RunFrom(limits, s, first), rest)
    decreases |first|
  {
    if first == [] {
      assert first + rest == rest;
    } else {
      assert (first + rest)[1..] == first[1..] + rest;
      RunFromConcat(limits, Step(limits, s, first[0]), first[1..], rest);
    }
  }

  /** After shutdown a worker that has loaded, or failed to, owes less after its next move; only a full
      channel makes it wait, and then one read is enough. */
  lemma DrainMakesProgress(limits: Limits, s: Service, path: Path) returns (actions: seq<Action>)
    requires limits.Valid() && Inv(limits, s) && !s.sendersAlive && path in s.workers
    requires !s.workers[path].status.Loading? && !s.workers[path].status.Stopped?
    ensures Draining(actions, path) && (Receive(path) in actions ==> !MaySend(limits, s, path))
    ensures var after := RunFrom(limits, s, actions);
      && Inv(limits, after) && !after.sendersAlive && path in after.workers
      && !after.workers[path].status.Loading? && Owed(after.workers[path]) < Owed(s.workers[path])
  {
    hide Inv, Step, Owed, MaySend;
    var start, before := s, [];
    if s.workers[path].current.Some? && !MaySend(limits, s, path) {
      StepKeepsInv(limits, s, Receive(path));
      ReadMakesRoom(limits, s, path);
      ReadKeepsWorkers(limits, s, path);
      start, before := Step(limits, s, Receive(path)), [Receive(path)];
    }
    var a := Move(start.workers[path], path);
    StepKeepsInv(limits, start, a);
    MoveOwesLess(limits, start, path);
    actions := before + [a];
    RunFromConcat(limits, s, before, [a]);
    assert RunFrom(limits, start, [a]) == Step(limits, start, a);
  }

  /** So after shutdown every such worker can be drained until it has stopped. */
  lemma {:induction false} DrainReachesStopped(limits: Limits, s: Service, path: Path) returns (actions: seq<Action>)
    requires limits.Valid() && Inv(limits, s) && !s.sendersAlive && path in s.workers
      && !s.workers[path].status.Loading?
    ensures Draining(actions, path)
    ensures path in RunFrom(limits, s, actions).workers && RunFrom(limits, s, actions).workers[path].status.Stopped?
    decreases Owed(s.workers[path])
  {
    actions := [];
    if !s.workers[path].status.Stopped? {
      var first := DrainMakesProgress(limits, s, path);
      var rest := DrainReachesStopped(limits, RunFrom(limits, s, first), path);
      RunFromConcat(limits, s, first, rest);
      actions := first + rest;
    }
  }
}
