/** The message dispatcher: one goroutine that hands messages to one worker per tenant, each with
    its own bounded queue, as a step system. */
module Dispatcher {
  import opened Characters

  datatype Message = Message(topic: string, payload: nat)

  const QUEUE_CAPACITY: nat := 10

  function Capitals(s: string): string {
    if s == "" then "" else [Upper(s[0])] + Capitals(s[1..])
  }

  /** The parts between slashes. */
  function Split(s: string): (parts: seq<string>)
    ensures |parts| > 0
  {
    if s == "" then [""]
    else
      var rest := Split(s[1..]);
      if s[0] == '/' then [""] + rest else [[s[0]] + rest[0]] + rest[1..]
  }

  /** The third part of a topic of at least four, in capitals. */
  function Tenant(topic: string): string {
    var parts := Split(topic);
    if |parts| > 3 then Capitals(parts[2]) else ""
  }

  /** The part up to the first slash. */
  lemma {:induction false} SplitFirst(part: string, rest: string)
    requires '/' !in part
    ensures Split(part + "/" + rest) == [part] + Split(rest)
  {
    var s := part + "/" + rest;
    if part == "" {
      assert s == "/" + rest && s[1..] == rest;
    } else {
      SplitFirst(part[1..], rest);
      assert s[1..] == part[1..] + "/" + rest;
      assert [part[0]] + part[1..] == part;
    }
  }

  lemma {:induction false} PartsBySlashes(s: string)
    ensures |Split(s)| == multiset(s)['/'] + 1
  {
    if s != "" {
      PartsBySlashes(s[1..]);
      assert s == [s[0]] + s[1..];
    }
  }

  lemma {:induction false} CapitalLetters(s: string)
    ensures |Capitals(s)| == |s|
    ensures forall i | 0 <= i < |s| ::
      Capitals(s)[i] == if 'a' <= s[i] <= 'z' then (s[i] as int - 32) as char else s[i]
  {
    if s != "" {
      CapitalLetters(s[1..]);
    }
  }

  /** The worker of a message is named by the third part of its topic, letter by letter in capitals, whatever
      the other parts are. */
  lemma TenantIsThirdPart(a: string, b: string, t: string, rest: string)
    requires '/' !in a && '/' !in b && '/' !in t
    ensures var name := Tenant(a + "/" + b + "/" + t + "/" + rest);
      && |name| == |t|
      && forall i | 0 <= i < |t| :: name[i] == if 'a' <= t[i] <= 'z' then (t[i] as int - 32) as char else t[i]
  {
    var topic := a + "/" + b + "/" + t + "/" + rest;
    SplitFirst(t, rest);
    SplitFirst(b, t + "/" + rest);
    SplitFirst(a, b + "/" + (t + "/" + rest));
    assert topic == a + "/" + (b + "/" + (t + "/" + rest));
    assert Split(topic) == [a, b, t] + Split(rest);
    CapitalLetters(t);
  }

  /** A topic with fewer than three slashes names the worker without a name. */
  lemma ShortTopicHasNoTenant(topic: string)
    requires multiset(topic)['/'] < 3
    ensures Tenant(topic) == ""
  {
    PartsBySlashes(topic);
  }

  /** The messages of one tenant, in order. */
  function Of(msgs: seq<Message>, tenant: string): seq<Message> {
    if msgs == [] then []
    else
      var m := msgs[|msgs| - 1];
      Of(msgs[..|msgs| - 1], tenant) + (if Tenant(m.topic) == tenant then [m] else [])
  }

  lemma OfAppends(msgs: seq<Message>, m: Message, tenant: string)
    ensures Of(msgs + [m], tenant) == Of(msgs, tenant) + if Tenant(m.topic) == tenant then [m] else []
  {
    assert (msgs + [m])[..|msgs|] == msgs;
  }

  lemma {:induction false} OfIsOwn(msgs: seq<Message>, tenant: string)
    ensures forall m | m in Of(msgs, tenant) :: Tenant(m.topic) == tenant
  {
    if msgs != [] {
      OfIsOwn(msgs[..|msgs| - 1], tenant);
    }
  }

  // ---- The step system ------------------------------------------------------------------

  /** A worker goroutine. It joins the wait group only when it starts to run. */
  datatype Phase = Spawned | Running | Stopped

  /** In hand is the message under execution, if any. Open says that its databases may be open. */
  datatype Worker =
    Worker(phase: Phase, queue: seq<Message>, inHand: seq<Message>, executed: seq<Message>, open: bool)

  /** The dispatcher goroutine: waiting, with a message received, or about to queue it. */
  datatype Loop = Waiting | Received(job: Message) | Queueing(job: Message) | Exited

  /** Close: not called, quit closed, workers cancelled, returned. */
  datatype Closing = NotClosed | QuitClosed | Cancelled | Returned

  /** Accepted and spawned are histories: the messages received and the workers started. */
  datatype State = State(
    loop: Loop,
    workers: map<string, Worker>,
    closing: Closing,
    accepted: seq<Message>,
    spawned: seq<string>)

  datatype Step =
    | Receive(job: Message)
    | GetWorker
    | Enqueue
    | Exit
    | StartWorker(tenant: string)
    | Take(tenant: string)
    | Execute(tenant: string)
    | IdleTimer(tenant: string)
    | StopWorker(tenant: string)
    | CloseQuit
    | Cancel
    | ReturnFromClose

  const START: State := State(Waiting, map[], NotClosed, [], [])

  const NEW_WORKER: Worker := Worker(Spawned, [], [], [], false)

  predicate Has(s: State, tenant: string, phase: Phase) {
    tenant in s.workers && s.workers[tenant].phase == phase
  }

  /** The workers in the wait group. */
  predicate NobodyRuns(s: State) {
    forall t | t in s.workers :: s.workers[t].phase != Running
  }

  /** When a step can happen. A worker whose hand is empty sits in its select, where a ready timer
      or cancellation competes with the queue. */
  predicate Enabled(s: State, step: Step) {
    match step
    case Receive(_) => s.loop.Waiting?
    case GetWorker => s.loop.Received?
    case Enqueue =>
      && s.loop.Queueing? && Tenant(s.loop.job.topic) in s.workers
      && |s.workers[Tenant(s.loop.job.topic)].queue| < QUEUE_CAPACITY
    case Exit => s.loop.Waiting? && !s.closing.NotClosed?
    case StartWorker(t) => Has(s, t, Spawned)
    case Take(t) => Has(s, t, Running) && s.workers[t].inHand == [] && s.workers[t].queue != []
    case Execute(t) => Has(s, t, Running) && s.workers[t].inHand != []
    case IdleTimer(t) => Has(s, t, Running) && s.workers[t].inHand == []
    case StopWorker(t) =>
      Has(s, t, Running) && s.workers[t].inHand == [] && (s.closing.Cancelled? || s.closing.Returned?)
    case CloseQuit => s.closing.NotClosed?
    case Cancel => s.closing.QuitClosed?
    case ReturnFromClose => s.closing.Cancelled? && NobodyRuns(s)
  }

  function WithWorker(s: State, tenant: string, w: Worker): State {
    s.(workers := s.workers[tenant := w])
  }

  function Apply(s: State, step: Step): State
    requires Enabled(s, step)
  {
    match step
    case Receive(job) => s.(loop := Received(job), accepted := s.accepted + [job])
    case GetWorker =>
      var t := Tenant(s.loop.job.topic);
      var next := s.(loop := Queueing(s.loop.job));
      if t in s.workers then next
      else WithWorker(next, t, NEW_WORKER).(spawned := s.spawned + [t])
    case Enqueue =>
      var t := Tenant(s.loop.job.topic);
      var w := s.workers[t];
      WithWorker(s, t, w.(queue := w.queue + [s.loop.job])).(loop := Waiting)
    case Exit => s.(loop := Exited)
    case StartWorker(t) => WithWorker(s, t, s.workers[t].(phase := Running))
    case Take(t) =>
      var w := s.workers[t];
      WithWorker(s, t, w.(queue := w.queue[1..], inHand := [w.queue[0]]))
    case Execute(t) =>
      var w := s.workers[t];
      WithWorker(s, t, w.(inHand := [], executed := w.executed + w.inHand, open := true))
    case IdleTimer(t) => WithWorker(s, t, s.workers[t].(open := false))
    case StopWorker(t) => WithWorker(s, t, s.workers[t].(phase := Stopped, open := false))
    case CloseQuit => s.(closing := QuitClosed)
    case Cancel => s.(closing := Cancelled)
    case ReturnFromClose => s.(closing := Returned)
  }

  ghost predicate StepAt(states: seq<State>, steps: seq<Step>, k: nat) {
    k < |steps| && k + 1 < |states| && Enabled(states[k], steps[k]) && states[k + 1] == Apply(states[k], steps[k])
  }

  ghost predicate Run(states: seq<State>, steps: seq<Step>) {
    |states| == |steps| + 1 && forall k | 0 <= k < |steps| :: StepAt(states, steps, k)
  }

  // ---- What every step keeps ------------------------------------------------------------

  /** The message the dispatcher holds, when it is for this tenant. */
  function Held(loop: Loop, tenant: string): seq<Message> {
    if (loop.Received? || loop.Queueing?) && Tenant(loop.job.topic) == tenant then [loop.job] else []
  }

  function Executed(s: State, tenant: string): seq<Message> {
    if tenant in s.workers then s.workers[tenant].executed else []
  }

  /** What a tenant's worker has and had: executed, under execution, queued. */
  function Given(s: State, tenant: string): seq<Message> {
    if tenant in s.workers then
      var w := s.workers[tenant];
      w.executed + w.inHand + w.queue
    else []
  }

  ghost predicate Distinct(ts: seq<string>) {
    forall i, j | 0 <= i < j < |ts| :: ts[i] != ts[j]
  }

  ghost predicate WorkerOk(s: State, t: string)
    requires t in s.workers
  {
    var w := s.workers[t];
    && |w.queue| <= QUEUE_CAPACITY && |w.inHand| <= 1
    && (w.phase.Spawned? ==> w.inHand == [] && w.executed == [] && !w.open)
    && (w.phase.Spawned? ==> w.queue != [] || (s.loop.Queueing? && Tenant(s.loop.job.topic) == t))
    && (w.phase.Stopped? ==> w.inHand == [] && !w.open)
  }

  /** A tenant's messages are where they were accepted to, in order. */
  ghost predicate InOrder(s: State, t: string) {
    Given(s, t) + Held(s.loop, t) == Of(s.accepted, t)
  }

  ghost predicate Invariant(s: State) {
    && Distinct(s.spawned) && (forall t :: t in s.spawned <==> t in s.workers)
    && (s.loop.Queueing? ==> Tenant(s.loop.job.topic) in s.workers)
    && (forall t | t in s.workers :: WorkerOk(s, t))
    && (s.loop.Exited? ==> !s.closing.NotClosed?)
    && (forall t :: InOrder(s, t))
  }

  lemma ReceiveKeepsOrder(s: State, job: Message, t: string)
    requires s.loop.Waiting? && InOrder(s, t)
    ensures InOrder(Apply(s, Receive(job)), t)
  {
    OfAppends(s.accepted, job, t);
    assert Given(s, t) + Held(s.loop, t) == Given(s, t);
  }

  lemma GetWorkerKeepsOrder(s: State, t: string)
    requires s.loop.Received? && InOrder(s, t)
    ensures InOrder(Apply(s, GetWorker), t)
  {
    assert Held(Apply(s, GetWorker).loop, t) == Held(s.loop, t);
  }

  lemma EnqueueKeepsOrder(s: State, t: string)
    requires Enabled(s, Enqueue) && InOrder(s, t)
    ensures InOrder(Apply(s, Enqueue), t)
  {
    var job := s.loop.job;
    if Tenant(job.topic) == t {
      var w := s.workers[t];
      assert w.executed + w.inHand + (w.queue + [job]) + [] == w.executed + w.inHand + w.queue + [job];
    }
  }

  lemma TakeKeepsOrder(s: State, o: string, t: string)
    requires Enabled(s, Take(o)) && InOrder(s, t)
    ensures InOrder(Apply(s, Take(o)), t)
  {
    var w := s.workers[o];
    assert w.queue == [w.queue[0]] + w.queue[1..];
    assert w.executed + [w.queue[0]] + w.queue[1..] == w.executed + [] + w.queue;
  }

  lemma ExecuteKeepsOrder(s: State, o: string, t: string)
    requires Enabled(s, Execute(o)) && InOrder(s, t)
    ensures InOrder(Apply(s, Execute(o)), t)
  {
    var w := s.workers[o];
    assert (w.executed + w.inHand) + [] + w.queue == w.executed + w.inHand + w.queue;
  }

  lemma StepKeepsOrder(s: State, step: Step, t: string)
    requires Enabled(s, step) && InOrder(s, t)
    ensures InOrder(Apply(s, step), t)
  {
    match step
    case Receive(job) => ReceiveKeepsOrder(s, job, t);
    case GetWorker => GetWorkerKeepsOrder(s, t);
    case Enqueue => EnqueueKeepsOrder(s, t);
    case Take(o) => TakeKeepsOrder(s, o, t);
    case Execute(o) => ExecuteKeepsOrder(s, o, t);
    case _ => assert Given(Apply(s, step), t) == Given(s, t);
  }

  lemma StepKeepsWorkers(s: State, step: Step)
    requires Invariant(s) && Enabled(s, step)
    ensures var s' := Apply(s, step);
      && Distinct(s'.spawned) && (forall t :: t in s'.spawned <==> t in s'.workers)
      && (s'.loop.Queueing? ==> Tenant(s'.loop.job.topic) in s'.workers)
      && (s'.loop.Exited? ==> !s'.closing.NotClosed?)
  {
  }

  lemma StepKeepsWorker(s: State, step: Step, t: string)
    requires Invariant(s) && Enabled(s, step) && t in Apply(s, step).workers
    ensures WorkerOk(Apply(s, step), t)
  {
    if t in s.workers {
      assert WorkerOk(s, t);
    }
  }

  lemma StepKeeps(s: State, step: Step)
    requires Invariant(s) && Enabled(s, step)
    ensures Invariant(Apply(s, step))
  {
    var s' := Apply(s, step);
    StepKeepsWorkers(s, step);
    forall t | t in s'.workers ensures WorkerOk(s', t) {
      StepKeepsWorker(s, step, t);
    }
    forall t ensures InOrder(s', t) {
      assert InOrder(s, t);
      StepKeepsOrder(s, step, t);
    }
  }

  lemma {:induction false} RunKeeps(states: seq<State>, steps: seq<Step>, k: nat)
    requires Run(states, steps) && Invariant(states[0]) && k < |states|
    ensures Invariant(states[k])
  {
    if k > 0 {
      RunKeeps(states, steps, k - 1);
      assert StepAt(states, steps, k - 1);
      StepKeeps(states[k - 1], steps[k - 1]);
    }
  }

  /** The last of the worker's steps that opens or closes its databases was an execution. */
  ghost predicate UsedLast(steps: seq<Step>, k: nat, t: string)
    requires k <= |steps|
  {
    exists j :: 0 <= j < k && steps[j] == Execute(t) && KeptOpen(steps, j + 1, k, t)
  }

  ghost predicate KeptOpen(steps: seq<Step>, j: nat, k: nat, t: string)
    requires k <= |steps|
  {
    forall l | j <= l < k :: steps[l] != IdleTimer(t) && steps[l] != StopWorker(t)
  }

  lemma UsedNext(steps: seq<Step>, k: nat, t: string)
    requires k < |steps|
    ensures UsedLast(steps, k + 1, t) <==>
      steps[k] == Execute(t) || (UsedLast(steps, k, t) && steps[k] != IdleTimer(t) && steps[k] != StopWorker(t))
  {
    if j :| 0 <= j < k + 1 && steps[j] == Execute(t) && KeptOpen(steps, j + 1, k + 1, t) {
      assert KeptOpen(steps, j + 1, k, t);
    }
    if steps[k] == Execute(t) {
      assert KeptOpen(steps, k + 1, k + 1, t);
    } else if j :| 0 <= j < k && steps[j] == Execute(t) && KeptOpen(steps, j + 1, k, t) {
      assert KeptOpen(steps, j + 1, k + 1, t) <==> steps[k] != IdleTimer(t) && steps[k] != StopWorker(t);
    }
  }

  /** In every state of every run the databases of a tenant are open exactly when its worker has executed a
      message and was neither idle for long nor stopped since. */
  lemma {:induction false} OpenExactly(states: seq<State>, steps: seq<Step>, k: nat, t: string)
    requires Run(states, steps) && states[0] == START && k < |states|
    ensures (t in states[k].workers && states[k].workers[t].open) <==> UsedLast(steps, k, t)
  {
    if k > 0 {
      OpenExactly(states, steps, k - 1, t);
      UsedNext(steps, k - 1, t);
      assert StepAt(states, steps, k - 1);
      RunKeeps(states, steps, k - 1);
    }
  }

  /** In every state of every run, before and after a shutdown: no tenant has had two workers, no
      queue is longer than its capacity, and a tenant's executed, running and queued messages,
      with the one the dispatcher holds for it, are its accepted messages in order. So the executed
      ones are always a prefix of the accepted ones, and a worker only sees its own tenant. */
  lemma DispatcherIsSafe(states: seq<State>, steps: seq<Step>, k: nat, t: string)
    requires Run(states, steps) && states[0] == START && k < |states|
    ensures Distinct(states[k].spawned) && (t in states[k].spawned <==> t in states[k].workers)
    ensures t in states[k].workers ==> |states[k].workers[t].queue| <= 10
    ensures Given(states[k], t) + Held(states[k].loop, t) == Of(states[k].accepted, t)
    ensures Executed(states[k], t) <= Of(states[k].accepted, t)
    ensures forall m | m in Given(states[k], t) :: Tenant(m.topic) == t
  {
    RunKeeps(states, steps, k);
    assert InOrder(states[k], t);
    OfIsOwn(states[k].accepted, t);
    if t in states[k].workers {
      assert WorkerOk(states[k], t);
    }
    forall m | m in Given(states[k], t) ensures Tenant(m.topic) == t {
      assert m in Given(states[k], t) + Held(states[k].loop, t);
    }
  }

  lemma StepKeepsExecuted(s: State, step: Step, t: string)
    requires Enabled(s, step)
    ensures Executed(s, t) <= Executed(Apply(s, step), t)
  {
  }

  lemma RunStepKeepsExecuted(states: seq<State>, steps: seq<Step>, k: nat, t: string)
    requires Run(states, steps) && k < |steps|
    ensures Executed(states[k], t) <= Executed(states[k + 1], t)
  {
    assert StepAt(states, steps, k);
    StepKeepsExecuted(states[k], steps[k], t);
  }

  /** A finished execution is never taken back. */
  lemma {:induction false} ExecutedGrows(states: seq<State>, steps: seq<Step>, i: nat, j: nat, t: string)
    requires Run(states, steps) && i <= j < |states|
    ensures Executed(states[i], t) <= Executed(states[j], t)
    decreases j
  {
    if i < j {
      ExecutedGrows(states, steps, i, j - 1, t);
      RunStepKeepsExecuted(states, steps, j - 1, t);
    }
  }

  // ---- What Close guarantees ------------------------------------------------------------

  /** Close has returned and the dispatcher goroutine is gone. */
  ghost predicate ShutDown(s: State) {
    s.closing.Returned? && s.loop.Exited? && NobodyRuns(s)
  }

  /** Some run from here executes another message. */
  ghost predicate WillExecute(s: State) {
    exists states, steps, t: string :: Executes(s, states, steps, t)
  }

  ghost predicate Executes(s: State, states: seq<State>, steps: seq<Step>, t: string) {
    Run(states, steps) && states[0] == s && Executed(states[|steps|], t) != Executed(s, t)
  }

  /** What happens after a step happens from the state before it as well. */
  lemma WillExecuteBefore(s: State, step: Step)
    requires Enabled(s, step) && WillExecute(Apply(s, step))
    ensures WillExecute(s)
  {
    var next := Apply(s, step);
    var states, steps, t: string :| Executes(next, states, steps, t);
    RunBefore(s, step, states, steps);
    StepKeepsExecuted(s, step, t);
    ExecutedGrows(states, steps, 0, |steps|, t);
    assert Executes(s, [s] + states, [step] + steps, t);
  }

  lemma RunBefore(s: State, step: Step, states: seq<State>, steps: seq<Step>)
    requires Run(states, steps) && Enabled(s, step) && states[0] == Apply(s, step)
    ensures Run([s] + states, [step] + steps)
    ensures ([s] + states)[|[step] + steps|] == states[|steps|]
  {
    var states', steps' := [s] + states, [step] + steps;
    forall k | 0 <= k < |steps'| ensures StepAt(states', steps', k) {
      if k > 0 {
        assert StepAt(states, steps, k - 1);
        assert states'[k] == states[k - 1] && states'[k + 1] == states[k] && steps'[k] == steps[k - 1];
      }
    }
  }

  lemma HandExecutes(s: State, t: string)
    requires Enabled(s, Execute(t))
    ensures WillExecute(s)
  {
    var states, steps := [s, Apply(s, Execute(t))], [Execute(t)];
    assert StepAt(states, steps, 0);
    assert Executed(states[1], t) == Executed(s, t) + s.workers[t].inHand;
    assert Executes(s, states, steps, t);
  }

  lemma QueueExecutes(s: State, t: string)
    requires Enabled(s, Take(t))
    ensures WillExecute(s)
  {
    HandExecutes(Apply(s, Take(t)), t);
    WillExecuteBefore(s, Take(t));
  }

  lemma FilledExecutes(s: State, t: string)
    requires Invariant(s) && Has(s, t, Spawned) && s.workers[t].queue != []
    ensures WillExecute(s)
  {
    assert WorkerOk(s, t);
    QueueExecutes(Apply(s, StartWorker(t)), t);
    WillExecuteBefore(s, StartWorker(t));
  }

  /** A worker that was spawned has a message, or the dispatcher is about to queue one. */
  lemma SpawnedExecutes(s: State, t: string)
    requires Invariant(s) && Has(s, t, Spawned)
    ensures WillExecute(s)
  {
    assert WorkerOk(s, t);
    if s.workers[t].queue != [] {
      FilledExecutes(s, t);
    } else {
      StepKeeps(s, Enqueue);
      FilledExecutes(Apply(s, Enqueue), t);
      WillExecuteBefore(s, Enqueue);
    }
  }

  /** Some worker has not started yet, or has something to do. */
  predicate Busy(s: State, t: string) {
    Has(s, t, Spawned) || (Has(s, t, Running) && (s.workers[t].queue != [] || s.workers[t].inHand != []))
  }

  lemma BusyExecutes(s: State, t: string)
    requires Invariant(s) && Busy(s, t)
    ensures WillExecute(s)
  {
    if Has(s, t, Spawned) {
      SpawnedExecutes(s, t);
    } else if s.workers[t].inHand != [] {
      HandExecutes(s, t);
    } else {
      QueueExecutes(s, t);
    }
  }

  // ---- A tenant without a worker --------------------------------------------------------

  function Letters(n: nat): (s: string)
    ensures |s| == n
  {
    if n == 0 then "" else ['A'] + Letters(n - 1)
  }

  lemma {:induction false} LettersSplit(n: nat)
    ensures Split(Letters(n) + "/") == [Letters(n), ""]
    ensures Capitals(Letters(n)) == Letters(n)
  {
    var s := Letters(n) + "/";
    if n == 0 {
      assert s[1..] == "";
    } else {
      LettersSplit(n - 1);
      assert s[1..] == Letters(n - 1) + "/";
    }
  }

  lemma TopicOf(n: nat)
    ensures Tenant("//" + (Letters(n) + "/")) == Letters(n)
  {
    var rest := Letters(n) + "/";
    LettersSplit(n);
    assert ("//" + rest)[1..] == "/" + rest && ("/" + rest)[1..] == rest;
    assert Split("/" + rest) == [""] + Split(rest);
    assert Split("//" + rest) == ["", "", Letters(n), ""];
  }

  lemma {:induction false} LongerThan(names: set<string>) returns (n: nat)
    ensures forall name | name in names :: |name| < n
    decreases names
  {
    n := 0;
    if name :| name in names {
      n := LongerThan(names - {name});
      n := if n <= |name| then |name| + 1 else n;
    }
  }

  lemma FreshTenant(s: State) returns (job: Message)
    ensures Tenant(job.topic) !in s.workers
  {
    var n := LongerThan(s.workers.Keys);
    job := Message("//" + (Letters(n) + "/"), 0);
    TopicOf(n);
  }

  // ---- What is executed from any state --------------------------------------------------

  /** A waiting dispatcher can accept a message of a tenant without a worker. */
  lemma WaitingExecutes(s: State)
    requires Invariant(s) && s.loop.Waiting?
    ensures WillExecute(s)
  {
    var job := FreshTenant(s);
    var received := Apply(s, Receive(job));
    StepKeeps(s, Receive(job));
    StepKeeps(received, GetWorker);
    SpawnedExecutes(Apply(received, GetWorker), Tenant(job.topic));
    WillExecuteBefore(received, GetWorker);
    WillExecuteBefore(s, Receive(job));
  }

  /** The dispatcher holds a message for a stopped worker whose queue is full. */
  predicate Blocked(s: State) {
    && (s.loop.Received? || s.loop.Queueing?)
    && var t := Tenant(s.loop.job.topic); Has(s, t, Stopped) && |s.workers[t].queue| >= QUEUE_CAPACITY
  }

  lemma QueueingExecutes(s: State)
    requires Invariant(s) && s.loop.Queueing? && !Blocked(s)
    ensures WillExecute(s)
  {
    var t := Tenant(s.loop.job.topic);
    if Busy(s, t) {
      BusyExecutes(s, t);
    } else {
      StepKeeps(s, Enqueue);
      WaitingExecutes(Apply(s, Enqueue));
      WillExecuteBefore(s, Enqueue);
    }
  }

  lemma ReceivedExecutes(s: State)
    requires Invariant(s) && s.loop.Received? && !Blocked(s)
    ensures WillExecute(s)
  {
    StepKeeps(s, GetWorker);
    QueueingExecutes(Apply(s, GetWorker));
    WillExecuteBefore(s, GetWorker);
  }

  /** Nothing is left to do and nothing can come in. */
  ghost predicate Dead(s: State) {
    (s.loop.Exited? || Blocked(s)) && forall t :: !Busy(s, t)
  }

  lemma DeadStep(s: State, step: Step)
    requires Dead(s) && Enabled(s, step)
    ensures Dead(Apply(s, step))
    ensures forall t :: Executed(Apply(s, step), t) == Executed(s, t)
  {
    var s' := Apply(s, step);
    forall t ensures !Busy(s', t) && Executed(s', t) == Executed(s, t) {
      assert !Busy(s, t);
    }
  }

  lemma {:induction false} DeadStays(states: seq<State>, steps: seq<Step>, k: nat, t: string)
    requires Run(states, steps) && k < |states| && Dead(states[0])
    ensures Dead(states[k]) && Executed(states[k], t) == Executed(states[0], t)
  {
    if k > 0 {
      DeadStays(states, steps, k - 1, t);
      assert StepAt(states, steps, k - 1);
      DeadStep(states[k - 1], steps[k - 1]);
    }
  }

  lemma DeadExecutesNothing(s: State)
    requires Dead(s)
    ensures !WillExecute(s)
  {
    forall states, steps, t: string ensures !Executes(s, states, steps, t) {
      if Run(states, steps) && states[0] == s {
        DeadStays(states, steps, |steps|, t);
      }
    }
  }

  /** In every state another message can be executed exactly when a worker has not started or has
      something to do, or the dispatcher has neither left its loop nor holds a message for a stopped
      worker with a full queue - whether Close was called, has returned or not. */
  lemma WillExecuteExactly(s: State)
    requires Invariant(s)
    ensures WillExecute(s) <==> (exists t :: Busy(s, t)) || !(s.loop.Exited? || Blocked(s))
  {
    if t :| Busy(s, t) {
      BusyExecutes(s, t);
    } else if s.loop.Exited? || Blocked(s) {
      DeadExecutesNothing(s);
    } else {
      match s.loop
      case Waiting => WaitingExecutes(s);
      case Received(_) => ReceivedExecutes(s);
      case Queueing(_) => QueueingExecutes(s);
      case Exited =>
    }
  }

  /** Close waits for the workers in the wait group, and a worker joins it only when its goroutine
      gets to run: after Close has returned and the dispatcher has left its loop, messages are still
      executed exactly when a worker was spawned that had not started. */
  lemma CloseMissesUnstarted(s: State)
    requires Invariant(s) && ShutDown(s)
    ensures WillExecute(s) <==> exists t :: Has(s, t, Spawned)
  {
    WillExecuteExactly(s);
    forall t ensures Busy(s, t) <==> Has(s, t, Spawned) {
      if t in s.workers {
        assert s.workers[t].phase != Running;
      }
    }
  }

  /** Close does not wait for the dispatcher: it can return while the loop still accepts messages, and
      these are executed. */
  lemma CloseLeavesLoop() returns (states: seq<State>, steps: seq<Step>)
    ensures Run(states, steps) && states[0] == START
    ensures states[|steps|].closing.Returned? && WillExecute(states[|steps|])
  {
    steps := [CloseQuit, Cancel, ReturnFromClose];
    states := [START, START.(closing := QuitClosed), START.(closing := Cancelled), START.(closing := Returned)];
    assert StepAt(states, steps, 0) && StepAt(states, steps, 1) && StepAt(states, steps, 2);
    StartIsOk();
    RunKeeps(states, steps, 3);
    WaitingExecutes(states[3]);
  }

  // ---- Each accepted message ----------------------------------------------------------------

  /** Some run from here executes n messages of the tenant in all. */
  ghost predicate CanReach(s: State, t: string, n: nat) {
    exists states, steps :: Reaches(s, states, steps, t, n)
  }

  ghost predicate Reaches(s: State, states: seq<State>, steps: seq<Step>, t: string, n: nat) {
    Run(states, steps) && states[0] == s && |Executed(states[|steps|], t)| >= n
  }

  lemma ReachesNow(s: State, t: string, n: nat)
    requires n <= |Executed(s, t)|
    ensures CanReach(s, t, n)
  {
    assert Reaches(s, [s], [], t, n);
  }

  lemma ReachesBefore(s: State, step: Step, t: string, n: nat)
    requires Enabled(s, step) && CanReach(Apply(s, step), t, n)
    ensures CanReach(s, t, n)
  {
    var states, steps :| Reaches(Apply(s, step), states, steps, t, n);
    RunBefore(s, step, states, steps);
    assert Reaches(s, [s] + states, [step] + steps, t, n);
  }

  /** How far the dispatcher and the worker are from having a message of the tenant in hand. */
  function LoopRank(s: State): nat {
    match s.loop
    case Received(_) => 2
    case Queueing(_) => 1
    case _ => 0
  }

  function WorkerRank(s: State, t: string): nat {
    if t !in s.workers then 2 else if s.workers[t].phase.Spawned? then 1 else 0
  }

  function HandRank(s: State, t: string): nat {
    if t in s.workers && s.workers[t].inHand != [] then 0 else 1
  }

  /** The next step towards the execution of a message of the tenant. */
  function StepTowards(s: State, t: string): Step {
    if t !in s.workers then GetWorker
    else
      var w := s.workers[t];
      if w.phase.Spawned? then StartWorker(t)
      else if w.inHand != [] then Execute(t)
      else if w.queue != [] then Take(t)
      else if s.loop.Received? then GetWorker
      else Enqueue
  }

  lemma StepsTowards(s: State, t: string)
    requires Invariant(s) && !Has(s, t, Stopped) && |Executed(s, t)| < |Of(s.accepted, t)|
    ensures Enabled(s, StepTowards(s, t))
    ensures var s' := Apply(s, StepTowards(s, t));
      && !Has(s', t, Stopped) && s'.accepted == s.accepted && |Executed(s, t)| <= |Executed(s', t)|
      && (|Executed(s', t)| > |Executed(s, t)| || LoopRank(s') < LoopRank(s)
          || (LoopRank(s') == LoopRank(s) && WorkerRank(s', t) < WorkerRank(s, t))
          || (LoopRank(s') == LoopRank(s) && WorkerRank(s', t) == WorkerRank(s, t) && HandRank(s', t) < HandRank(s, t)))
  {
    assert InOrder(s, t);
    assert |Given(s, t) + Held(s.loop, t)| == |Of(s.accepted, t)|;
    if t in s.workers {
      assert WorkerOk(s, t);
    }
  }

  lemma {:induction false} ReachesAll(s: State, t: string, n: nat)
    requires Invariant(s) && !Has(s, t, Stopped) && n <= |Of(s.accepted, t)|
    ensures CanReach(s, t, n)
    decreases n - |Executed(s, t)|, LoopRank(s), WorkerRank(s, t), HandRank(s, t)
  {
    if n <= |Executed(s, t)| {
      ReachesNow(s, t, n);
    } else {
      var step := StepTowards(s, t);
      StepsTowards(s, t);
      StepKeeps(s, step);
      ReachesAll(Apply(s, step), t, n);
      ReachesBefore(s, step, t, n);
    }
  }

  lemma {:induction false} StoppedExecutesNoMore(states: seq<State>, steps: seq<Step>, k: nat, t: string)
    requires Run(states, steps) && k < |states| && Has(states[0], t, Stopped)
    ensures Has(states[k], t, Stopped) && Executed(states[k], t) == Executed(states[0], t)
  {
    if k > 0 {
      StoppedExecutesNoMore(states, steps, k - 1, t);
      assert StepAt(states, steps, k - 1);
    }
  }

  /** Message by message, in every state: an accepted message that was not executed yet - under
      execution, queued, or held by the dispatcher - can still be executed exactly when the worker of
      its tenant has not stopped. So a stopped worker loses all of them, and only it loses any. */
  lemma MessageLostExactly(s: State, t: string, i: nat)
    requires Invariant(s) && |Executed(s, t)| <= i < |Of(s.accepted, t)|
    ensures CanReach(s, t, i + 1) <==> !Has(s, t, Stopped)
  {
    var n := i + 1;
    if Has(s, t, Stopped) {
      forall states, steps ensures !Reaches(s, states, steps, t, n) {
        if Run(states, steps) && states[0] == s {
          StoppedExecutesNoMore(states, steps, |steps|, t);
        }
      }
    } else {
      ReachesAll(s, t, n);
    }
  }

  lemma {:induction false} NobodyStopsBefore(states: seq<State>, steps: seq<Step>, k: nat, t: string)
    requires Run(states, steps) && states[0] == START && k < |states|
    ensures Has(states[k], t, Stopped) ==> states[k].closing.Cancelled? || states[k].closing.Returned?
  {
    if k > 0 {
      NobodyStopsBefore(states, steps, k - 1, t);
      assert StepAt(states, steps, k - 1);
    }
  }

  /** In every state of every run in which Close has not cancelled the workers, no accepted message is
      lost. */
  lemma NothingLostBeforeCancel(states: seq<State>, steps: seq<Step>, k: nat, t: string)
    requires Run(states, steps) && states[0] == START && k < |states|
    requires states[k].closing.NotClosed? || states[k].closing.QuitClosed?
    ensures CanReach(states[k], t, |Of(states[k].accepted, t)|)
  {
    RunKeeps(states, steps, k);
    NobodyStopsBefore(states, steps, k, t);
    ReachesAll(states[k], t, |Of(states[k].accepted, t)|);
  }

  /** The states of an early return: one message is accepted and queued, and the program is closed
      before the new worker's goroutine has run. */
  function EarlyReturn(job: Message, k: nat): State
    requires k <= 7
  {
    var t := Tenant(job.topic);
    var w := map[t := NEW_WORKER.(queue := [job])];
    match k
    case 0 => START
    case 1 => State(Received(job), map[], NotClosed, [job], [])
    case 2 => State(Queueing(job), map[t := NEW_WORKER], NotClosed, [job], [t])
    case 3 => State(Waiting, w, NotClosed, [job], [t])
    case 4 => State(Waiting, w, QuitClosed, [job], [t])
    case 5 => State(Exited, w, QuitClosed, [job], [t])
    case 6 => State(Exited, w, Cancelled, [job], [t])
    case _ => State(Exited, w, Returned, [job], [t])
  }

  function EarlySteps(job: Message): (steps: seq<Step>)
    ensures |steps| == 7
  {
    [Receive(job), GetWorker, Enqueue, CloseQuit, Exit, Cancel, ReturnFromClose]
  }

  lemma EarlyStep(job: Message, k: nat)
    requires k < 7
    ensures Enabled(EarlyReturn(job, k), EarlySteps(job)[k])
    ensures Apply(EarlyReturn(job, k), EarlySteps(job)[k]) == EarlyReturn(job, k + 1)
  {
    var t := Tenant(job.topic);
    if k == 1 {
      assert map[][t := NEW_WORKER] == map[t := NEW_WORKER];
      assert [] + [t] == [t];
    } else if k == 2 {
      assert [] + [job] == [job];
    }
  }

  /** This happens: Close returns before the accepted message is executed, and it is executed later. */
  lemma CloseReturnsEarly(job: Message) returns (states: seq<State>, steps: seq<Step>)
    ensures Run(states, steps) && states[0] == START
    ensures ShutDown(states[|steps|]) && WillExecute(states[|steps|])
  {
    states, steps := seq(8, k requires 0 <= k < 8 => EarlyReturn(job, k)), EarlySteps(job);
    forall k | 0 <= k < 7 ensures StepAt(states, steps, k) {
      EarlyStep(job, k);
    }
    StartIsOk();
    RunKeeps(states, steps, 7);
    assert Has(states[7], Tenant(job.topic), Spawned);
    SpawnedExecutes(states[7], Tenant(job.topic));
  }

  lemma StartIsOk()
    ensures Invariant(START)
  {
  }
}
