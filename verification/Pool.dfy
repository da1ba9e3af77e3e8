/**
 `agent.Pool`: a bounded queue of batches, `N` workers, and a shutdown that drains or cancels. Each atomic action of a
 goroutine is a step, and a run is any list of steps. Callers of `Submit` and `Shutdown` are goroutines too; the pool is
 written for one of them, and `SafeIffOneCaller` says why.
 */
module Pool {
  import opened Wrappers

  type Batch = int

  datatype Worker = Waiting | Sending(b: Batch) | Exited

  /** A finished `Send`, with whether the workers' context was still live at its end. */
  datatype Sent = Sent(b: Batch, live: bool)

  /** Program points of a goroutine that calls `Submit` and `Shutdown`. */
  datatype Point =
    | Ready
    | SubmitCheck(b: Batch)      // the first select: is the pool stopping?
    | SubmitSelect(b: Batch)     // the second: queue the batch, or notice the stop
    | CloseDone                  // inside once.Do
    | CloseJobs                  // inside once.Do, after close(done)
    | ShutdownSelect
    | ShutdownJoin               // the context ended; workers cancelled; <-drained

  /** What a finished call returned. */
  datatype Result = Submitted(b: Batch, ok: bool) | ShutdownDone(err: bool)

  /** A goroutine, and what its calls have returned so far, oldest first. */
  datatype Caller = Caller(at: Point, results: seq<Result>)

  datatype State = State(
    callers: seq<Caller>,
    queue: seq<Batch>,
    capacity: nat,
    jobsClosed: bool,
    done: bool,
    once: bool,                  // once.Do has been entered
    cancelled: bool,
    panicked: bool,
    workers: seq<Worker>,
    accepted: seq<Batch>,        // history: batches queued, oldest first
    dequeued: seq<Batch>,        // history: batches taken from the queue, oldest first
    sent: seq<Sent>)             // history: finished sends

  datatype Step =
    | BeginSubmit(c: nat, b: Batch)
    | BeginShutdown(c: nat)
    | Check(c: nat)
    | Queue(c: nat)        // the select takes the send case
    | Refuse(c: nat)       // the select takes the done case
    | CloseDoneStep(c: nat)
    | CloseJobsStep(c: nat)
    | Drained(c: nat)      // the select takes the drained case
    | TimedOut(c: nat)     // the select takes the context case
    | Join(c: nat)
    | Receive(w: nat)
    | FinishSend(w: nat)
    | WorkerExit(w: nat)

  predicate AllExited(s: State) {
    forall w :: 0 <= w < |s.workers| ==> s.workers[w].Exited?
  }

  function Move(s: State, c: nat, k: Point): State
    requires c < |s.callers|
  {
    s.(callers := s.callers[c := Caller(k, s.callers[c].results)])
  }

  function Return(s: State, c: nat, r: Result): State
    requires c < |s.callers|
  {
    s.(callers := s.callers[c := Caller(Ready, s.callers[c].results + [r])])
  }

  /** A goroutine is inside `once.Do`; later ones wait for it there. */
  predicate InOnce(s: State) {
    exists d :: 0 <= d < |s.callers| && (s.callers[d].at.CloseDone? || s.callers[d].at.CloseJobs?)
  }

  /** The state after `step`, or `None` when the goroutine cannot take it. */
  function Apply(s: State, step: Step): Option<State>
  {
    if s.panicked then None
    else match step
      case BeginSubmit(c, b) =>
        if c < |s.callers| && s.callers[c].at.Ready? then Some(Move(s, c, SubmitCheck(b))) else None
      case BeginShutdown(c) =>
        if c >= |s.callers| || !s.callers[c].at.Ready? then None
        else if s.once then
          if InOnce(s) then None else Some(Move(s, c, ShutdownSelect))
        else Some(Move(s.(once := true), c, CloseDone))
      case Check(c) =>
        if c >= |s.callers| || !s.callers[c].at.SubmitCheck? then None
        else if s.done then Some(Return(s, c, Submitted(s.callers[c].at.b, false)))
        else Some(Move(s, c, SubmitSelect(s.callers[c].at.b)))
      case Queue(c) =>
        if c >= |s.callers| || !s.callers[c].at.SubmitSelect? then None
        else if s.jobsClosed then Some(s.(panicked := true))
        else if |s.queue| >= s.capacity then None
        else
          var b := s.callers[c].at.b;
          Some(Return(s.(queue := s.queue + [b], accepted := s.accepted + [b]), c, Submitted(b, true)))
      case Refuse(c) =>
        if c < |s.callers| && s.callers[c].at.SubmitSelect? && s.done then
          Some(Return(s, c, Submitted(s.callers[c].at.b, false)))
        else None
      case CloseDoneStep(c) =>
        if c < |s.callers| && s.callers[c].at.CloseDone? then Some(Move(s.(done := true), c, CloseJobs)) else None
      case CloseJobsStep(c) =>
        if c < |s.callers| && s.callers[c].at.CloseJobs? then
          Some(Move(s.(jobsClosed := true), c, ShutdownSelect))
        else None
      case Drained(c) =>
        if c < |s.callers| && s.callers[c].at.ShutdownSelect? && AllExited(s) then
          Some(Return(s.(cancelled := true), c, ShutdownDone(false)))
        else None
      case TimedOut(c) =>
        if c < |s.callers| && s.callers[c].at.ShutdownSelect? then
          Some(Move(s.(cancelled := true), c, ShutdownJoin))
        else None
      case Join(c) =>
        if c < |s.callers| && s.callers[c].at.ShutdownJoin? && AllExited(s) then Some(Return(s, c, ShutdownDone(true)))
        else None
      case Receive(w) =>
        if w < |s.workers| && s.workers[w].Waiting? && |s.queue| > 0 then
          Some(s.(workers := s.workers[w := Sending(s.queue[0])], queue := s.queue[1..],
            dequeued := s.dequeued + [s.queue[0]]))
        else None
      case FinishSend(w) =>
        if w < |s.workers| && s.workers[w].Sending? then
          Some(s.(workers := s.workers[w := Waiting], sent := s.sent + [Sent(s.workers[w].b, !s.cancelled)]))
        else None
      case WorkerExit(w) =>
        if w < |s.workers| && s.workers[w].Waiting? && s.queue == [] && s.jobsClosed then
          Some(s.(workers := s.workers[w := Exited]))
        else None
  }

  /** `NewPool` with the given numbers of workers and queue places, and `n` goroutines that will use it. */
  function NewPool(workers: nat, capacity: nat, n: nat): State {
    State(seq(n, i => Caller(Ready, [])), [], capacity, false, false, false, false, false,
      seq(workers, i => Waiting), [], [], [])
  }

  function Run(s: State, steps: seq<Step>): Option<State> {
    if |steps| == 0 then Some(s)
    else
      var before := Run(s, steps[..|steps| - 1]);
      if before.None? then None else Apply(before.value, steps[|steps| - 1])
  }

  // The invariant of a pool used by one goroutine.

  function InFlight(workers: seq<Worker>): multiset<Batch> {
    if |workers| == 0 then multiset{}
    else
      InFlight(workers[..|workers| - 1]) + BatchOf(workers[|workers| - 1])
  }

  function SentBatches(sent: seq<Sent>): multiset<Batch> {
    if |sent| == 0 then multiset{} else SentBatches(sent[..|sent| - 1]) + multiset{sent[|sent| - 1].b}
  }

  predicate AllLive(sent: seq<Sent>) {
    forall i :: 0 <= i < |sent| ==> sent[i].live
  }

  /** Batches are neither lost nor duplicated, and leave the queue in the order they entered it. */
  predicate Conserved(s: State) {
    && s.accepted == s.dequeued + s.queue
    && multiset(s.dequeued) == SentBatches(s.sent) + InFlight(s.workers)
  }

  /** The results of shutdowns, in order. */
  function Shutdowns(results: seq<Result>): seq<bool> {
    if |results| == 0 then []
    else
      var last := results[|results| - 1];
      Shutdowns(results[..|results| - 1]) + if last.ShutdownDone? then [last.err] else []
  }

  /** The batches whose `Submit` has returned true, in order. */
  function SubmittedOk(results: seq<Result>): seq<Batch> {
    if |results| == 0 then []
    else
      var last := results[|results| - 1];
      SubmittedOk(results[..|results| - 1]) + if last.Submitted? && last.ok then [last.b] else []
  }

  /** How far the only caller has stopped the pool. */
  predicate StopProgressOk(s: State) {
    && |s.callers| == 1
    && var k, shutdowns := s.callers[0].at, Shutdowns(s.callers[0].results);
    && s.accepted == SubmittedOk(s.callers[0].results)
    && (s.once <==> shutdowns != [] || k.CloseDone? || k.CloseJobs? || k.ShutdownSelect? || k.ShutdownJoin?)
    && (s.done <==> s.once && !k.CloseDone?)
    && (s.jobsClosed <==> s.done && !k.CloseJobs?)
    && (k.CloseDone? || k.CloseJobs? ==> shutdowns == [])
    && (k.SubmitSelect? ==> !s.done)
    && (shutdowns != [] ==> AllExited(s))
    && (s.cancelled <==> shutdowns != [] || k.ShutdownJoin?)
    && ((!s.cancelled || (shutdowns != [] && !shutdowns[0])) ==> AllLive(s.sent))
  }

  predicate QueueOk(s: State) {
    && |s.queue| <= s.capacity
    && (forall w :: 0 <= w < |s.workers| && s.workers[w].Exited? ==> s.jobsClosed && s.queue == [])
  }

  predicate Inv(s: State) {
    !s.panicked && QueueOk(s) && Conserved(s) && StopProgressOk(s)
  }

  lemma {:induction false} InFlightUpdate(workers: seq<Worker>, w: nat, k: Worker)
    requires w < |workers|
    ensures InFlight(workers[w := k]) + BatchOf(workers[w]) == InFlight(workers) + BatchOf(k)
    decreases |workers|
  {
    var last := |workers| - 1;
    var updated := workers[w := k];
    InFlightLast(workers);
    InFlightLast(updated);
    if w == last {
      assert updated[..last] == workers[..last];
      AddBoth(InFlight(workers[..last]), BatchOf(k), InFlight(workers[..last]), BatchOf(k), BatchOf(workers[last]));
    } else {
      InFlightUpdate(workers[..last], w, k);
      assert updated[..last] == workers[..last][w := k];
      AddBoth(InFlight(updated[..last]), BatchOf(workers[w]), InFlight(workers[..last]), BatchOf(k),
        BatchOf(workers[last]));
    }
  }

  lemma AddBoth(a: multiset<Batch>, x: multiset<Batch>, b: multiset<Batch>, y: multiset<Batch>, more: multiset<Batch>)
    requires a + x == b + y
    ensures (a + more) + x == (b + more) + y
    ensures (a + x) + more == (b + more) + y
  {
    assert (a + more) + x == (a + x) + more == (b + y) + more;
  }

  function BatchOf(k: Worker): multiset<Batch> {
    if k.Sending? then multiset{k.b} else multiset{}
  }

  lemma InFlightLast(workers: seq<Worker>)
    requires |workers| > 0
    ensures InFlight(workers) == InFlight(workers[..|workers| - 1]) + BatchOf(workers[|workers| - 1])
  {
  }

  lemma {:induction false} NoneInFlight(workers: seq<Worker>)
    requires forall w :: 0 <= w < |workers| ==> !workers[w].Sending?
    ensures InFlight(workers) == multiset{}
    decreases |workers|
  {
    if |workers| > 0 { NoneInFlight(workers[..|workers| - 1]); }
  }

  lemma ResultsSnoc(results: seq<Result>, r: Result)
    ensures Shutdowns(results + [r]) == Shutdowns(results) + if r.ShutdownDone? then [r.err] else []
    ensures SubmittedOk(results + [r]) == SubmittedOk(results) + if r.Submitted? && r.ok then [r.b] else []
  {
  }

  lemma SentSnoc(sent: seq<Sent>, t: Sent)
    ensures SentBatches(sent + [t]) == SentBatches(sent) + multiset{t.b}
  {
  }

  lemma NewPoolInv(workers: nat, capacity: nat)
    ensures Inv(NewPool(workers, capacity, 1))
  {
    assert Shutdowns([]) == [];
    NoneInFlight(NewPool(workers, capacity, 1).workers);
  }

  predicate IsSubmitStep(step: Step) {
    step.BeginSubmit? || step.Check? || step.Queue? || step.Refuse?
  }

  predicate IsWorkerStep(step: Step) {
    step.Receive? || step.FinishSend? || step.WorkerExit?
  }

  lemma SubmitStepInv(s: State, step: Step, s': State)
    requires IsSubmitStep(step)
    requires !s.panicked && StopProgressOk(s) && Apply(s, step) == Some(s')
    ensures !s'.panicked && StopProgressOk(s')
  {
  }

  lemma BeginShutdownInv(s: State, c: nat, s': State)
    requires !s.panicked && StopProgressOk(s) && Apply(s, BeginShutdown(c)) == Some(s')
    ensures !s'.panicked && StopProgressOk(s')
  {
  }

  lemma ShutdownStepInv(s: State, step: Step, s': State)
    requires step.Drained? || step.Join?
    requires !s.panicked && StopProgressOk(s) && Apply(s, step) == Some(s')
    ensures !s'.panicked && StopProgressOk(s')
  {
  }

  lemma StoppingStepInv(s: State, step: Step, s': State)
    requires step.CloseDoneStep? || step.CloseJobsStep? || step.TimedOut?
    requires !s.panicked && StopProgressOk(s) && Apply(s, step) == Some(s')
    ensures !s'.panicked && StopProgressOk(s')
  {
  }

  lemma StopStepInv(s: State, step: Step, s': State)
    requires !IsWorkerStep(step)
    requires !s.panicked && StopProgressOk(s) && Apply(s, step) == Some(s')
    ensures !s'.panicked && StopProgressOk(s')
  {
    if IsSubmitStep(step) { SubmitStepInv(s, step, s'); }
    else if step.BeginShutdown? { BeginShutdownInv(s, step.c, s'); }
    else if step.Drained? || step.Join? { ShutdownStepInv(s, step, s'); }
    else { StoppingStepInv(s, step, s'); }
  }

  lemma CallerStepInv(s: State, step: Step, s': State)
    requires !IsWorkerStep(step)
    requires Inv(s) && Apply(s, step) == Some(s')
    ensures Inv(s')
  {
    StopStepInv(s, step, s');
    CallerStepKeeps(s, step, s');
    if step.Queue? { assert s.dequeued + s'.queue == (s.dequeued + s.queue) + [s.callers[0].at.b]; }
  }

  /** A caller leaves everything of the workers alone, and the queue too unless it queues. */
  lemma CallerStepKeeps(s: State, step: Step, s': State)
    requires !IsWorkerStep(step) && |s.callers| == 1 && (step.Queue? ==> !s.jobsClosed)
    requires Apply(s, step) == Some(s')
    ensures s'.workers == s.workers && s'.sent == s.sent && s'.dequeued == s.dequeued && s'.capacity == s.capacity
    ensures s.jobsClosed ==> s'.jobsClosed
    ensures if step.Queue? then
        && s.callers[0].at.SubmitSelect? && |s.queue| < s.capacity
        && s'.queue == s.queue + [s.callers[0].at.b] && s'.accepted == s.accepted + [s.callers[0].at.b]
      else s'.queue == s.queue && s'.accepted == s.accepted
  {
    if step.Queue? { QueueKeeps(s, step.c, s'); } else { OtherStepKeeps(s, step, s'); }
  }

  lemma QueueKeeps(s: State, c: nat, s': State)
    requires |s.callers| == 1 && !s.jobsClosed && Apply(s, Queue(c)) == Some(s')
    ensures s'.workers == s.workers && s'.sent == s.sent && s'.dequeued == s.dequeued && s'.capacity == s.capacity
    ensures s.callers[0].at.SubmitSelect? && |s.queue| < s.capacity
    ensures s'.queue == s.queue + [s.callers[0].at.b] && s'.accepted == s.accepted + [s.callers[0].at.b]
  {
  }

  lemma OtherStepKeeps(s: State, step: Step, s': State)
    requires !IsWorkerStep(step) && !step.Queue? && Apply(s, step) == Some(s')
    ensures s'.workers == s.workers && s'.sent == s.sent && s'.dequeued == s.dequeued && s'.capacity == s.capacity
    ensures s'.queue == s.queue && s'.accepted == s.accepted && (s.jobsClosed ==> s'.jobsClosed)
  {
  }

  lemma InFlightStart(workers: seq<Worker>, w: nat, b: Batch)
    requires w < |workers| && !workers[w].Sending?
    ensures InFlight(workers[w := Sending(b)]) == InFlight(workers) + multiset{b}
  {
    InFlightUpdate(workers, w, Sending(b));
    assert InFlight(workers[w := Sending(b)]) + multiset{} == InFlight(workers[w := Sending(b)]);
  }

  lemma InFlightStop(workers: seq<Worker>, w: nat, k: Worker)
    requires w < |workers| && !k.Sending?
    ensures InFlight(workers) == InFlight(workers[w := k]) + BatchOf(workers[w])
  {
    InFlightUpdate(workers, w, k);
    assert InFlight(workers) + multiset{} == InFlight(workers);
  }

  lemma ReceiveConserves(s: State, w: nat, s': State)
    requires Conserved(s) && w < |s.workers| && s.workers[w].Waiting? && |s.queue| > 0
    requires s'.workers == s.workers[w := Sending(s.queue[0])] && s'.queue == s.queue[1..]
    requires s'.dequeued == s.dequeued + [s.queue[0]] && s'.sent == s.sent && s'.accepted == s.accepted
    ensures Conserved(s')
  {
    var b := s.queue[0];
    InFlightStart(s.workers, w, b);
    assert s.queue == [b] + s.queue[1..];
    assert multiset(s'.dequeued) == multiset(s.dequeued) + multiset{b};
  }

  lemma FinishConserves(s: State, w: nat, s': State)
    requires Conserved(s) && w < |s.workers| && s.workers[w].Sending?
    requires s'.workers == s.workers[w := Waiting] && s'.queue == s.queue && s'.dequeued == s.dequeued
    requires s'.sent == s.sent + [Sent(s.workers[w].b, !s.cancelled)] && s'.accepted == s.accepted
    ensures Conserved(s')
  {
    InFlightStop(s.workers, w, Waiting);
    SentSnoc(s.sent, Sent(s.workers[w].b, !s.cancelled));
  }

  lemma WorkerConserves(s: State, step: Step, s': State)
    requires IsWorkerStep(step)
    requires Conserved(s) && Apply(s, step) == Some(s')
    ensures Conserved(s')
  {
    match step
    case Receive(w) => ReceiveConserves(s, w, s');
    case FinishSend(w) => FinishConserves(s, w, s');
    case WorkerExit(w) => InFlightStop(s.workers, w, Exited);
  }

  lemma WorkerKeepsStop(s: State, step: Step, s': State)
    requires IsWorkerStep(step)
    requires StopProgressOk(s) && Apply(s, step) == Some(s')
    ensures !s'.panicked && StopProgressOk(s')
  {
  }

  lemma WorkerKeepsQueue(s: State, step: Step, s': State)
    requires IsWorkerStep(step)
    requires QueueOk(s) && Apply(s, step) == Some(s')
    ensures QueueOk(s')
  {
  }

  lemma StepInv(s: State, step: Step, s': State)
    requires Inv(s) && Apply(s, step) == Some(s')
    ensures Inv(s')
  {
    if IsWorkerStep(step) {
      WorkerConserves(s, step, s');
      WorkerKeepsStop(s, step, s');
      WorkerKeepsQueue(s, step, s');
    } else {
      CallerStepInv(s, step, s');
    }
  }

  lemma StepSizes(s: State, step: Step, s': State)
    requires Apply(s, step) == Some(s')
    ensures |s'.callers| == |s.callers| && |s'.workers| == |s.workers| && s'.capacity == s.capacity
  {
    if IsWorkerStep(step) { WorkerStepSizes(s, step, s'); } else { CallerStepSizes(s, step, s'); }
  }

  lemma WorkerStepSizes(s: State, step: Step, s': State)
    requires IsWorkerStep(step) && Apply(s, step) == Some(s')
    ensures s'.callers == s.callers && |s'.workers| == |s.workers| && s'.capacity == s.capacity
  {
  }

  lemma CallerStepSizes(s: State, step: Step, s': State)
    requires !IsWorkerStep(step) && Apply(s, step) == Some(s')
    ensures s'.workers == s.workers && |s'.callers| == |s.callers| && s'.capacity == s.capacity
  {
    if IsSubmitStep(step) { SubmitStepSizes(s, step, s'); } else { ShutdownStepSizes(s, step, s'); }
  }

  lemma SubmitStepSizes(s: State, step: Step, s': State)
    requires IsSubmitStep(step) && Apply(s, step) == Some(s')
    ensures s'.workers == s.workers && |s'.callers| == |s.callers| && s'.capacity == s.capacity
  {
  }

  lemma ShutdownStepSizes(s: State, step: Step, s': State)
    requires !IsWorkerStep(step) && !IsSubmitStep(step) && Apply(s, step) == Some(s')
    ensures s'.workers == s.workers && |s'.callers| == |s.callers| && s'.capacity == s.capacity
  {
  }

  lemma {:induction false} RunInv(workers: nat, capacity: nat, steps: seq<Step>, s: State)
    requires Run(NewPool(workers, capacity, 1), steps) == Some(s)
    ensures Inv(s) && |s.workers| == workers && s.capacity == capacity
    decreases |steps|
  {
    if |steps| == 0 {
      NewPoolInv(workers, capacity);
    } else {
      var before := Run(NewPool(workers, capacity, 1), steps[..|steps| - 1]).value;
      RunInv(workers, capacity, steps[..|steps| - 1], before);
      StepInv(before, steps[|steps| - 1], s);
      StepSizes(before, steps[|steps| - 1], s);
    }
  }

  // Results over all runs.

  /**
   In every run with one caller: no send meets a closed channel, the queue keeps within its capacity, `Submit` returned
   true exactly for the batches queued, batches leave the queue in that order, and each is queued, in flight or sent,
   exactly once.
   */
  lemma ExactlyOnceInAnyRun(workers: nat, capacity: nat, steps: seq<Step>, s: State)
    requires Run(NewPool(workers, capacity, 1), steps) == Some(s)
    ensures !s.panicked && |s.queue| <= capacity
    ensures |s.callers| == 1 && s.accepted == SubmittedOk(s.callers[0].results)
    ensures s.accepted == s.dequeued + s.queue
    ensures multiset(s.accepted) == SentBatches(s.sent) + InFlight(s.workers) + multiset(s.queue)
  {
    RunInv(workers, capacity, steps, s);
  }

  /** Every `Submit` before the first `Shutdown` has returned true, and every one after it false. */
  predicate AnswersOk(results: seq<Result>) {
    forall i :: 0 <= i < |results| && results[i].Submitted? ==> (results[i].ok <==> Shutdowns(results[..i]) == [])
  }

  predicate AnswerOk(results: seq<Result>, r: Result) {
    r.Submitted? ==> (r.ok <==> Shutdowns(results) == [])
  }

  lemma AnswersSnoc(results: seq<Result>, r: Result)
    requires AnswersOk(results) && AnswerOk(results, r)
    ensures AnswersOk(results + [r])
  {
    var more := results + [r];
    assert more[..|results|] == results && forall i :: 0 <= i < |results| ==> more[..i] == results[..i];
  }

  /** A step leaves the results of the only caller alone, or adds one that is as it should be. */
  predicate AddsAnswer(s: State, s': State) {
    |s.callers| == 1 && |s'.callers| == 1 &&
    var results, results' := s.callers[0].results, s'.callers[0].results;
    || results' == results
    || (|results'| == |results| + 1 && results' == results + [results'[|results|]]
        && AnswerOk(results, results'[|results|]))
  }

  lemma SubmitAnswers(s: State, step: Step, s': State)
    requires IsSubmitStep(step) && !s.panicked && StopProgressOk(s) && Apply(s, step) == Some(s')
    ensures AddsAnswer(s, s')
  {
  }

  lemma ShutdownAnswers(s: State, step: Step, s': State)
    requires !IsSubmitStep(step) && !IsWorkerStep(step) && |s.callers| == 1 && Apply(s, step) == Some(s')
    ensures AddsAnswer(s, s')
  {
  }

  lemma StepAnswers(s: State, step: Step, s': State)
    requires Inv(s) && Apply(s, step) == Some(s')
    ensures AddsAnswer(s, s')
  {
    if IsSubmitStep(step) { SubmitAnswers(s, step, s'); }
    else if IsWorkerStep(step) { WorkerStepSizes(s, step, s'); }
    else { ShutdownAnswers(s, step, s'); }
  }

  /**
   In every run with one caller `Submit` refuses a batch only after `Shutdown`: however full the queue, it waits for
   room and returns true until then, and false from then on.
   */
  lemma {:induction false} SubmitRefusesIffStopped(workers: nat, capacity: nat, steps: seq<Step>, s: State)
    requires Run(NewPool(workers, capacity, 1), steps) == Some(s)
    ensures |s.callers| == 1 && AnswersOk(s.callers[0].results)
    decreases |steps|
  {
    RunInv(workers, capacity, steps, s);
    if |steps| > 0 {
      var last := |steps| - 1;
      var before := Run(NewPool(workers, capacity, 1), steps[..last]).value;
      RunInv(workers, capacity, steps[..last], before);
      SubmitRefusesIffStopped(workers, capacity, steps[..last], before);
      StepAnswers(before, steps[last], s);
      var results, results' := before.callers[0].results, s.callers[0].results;
      if results' != results { AnswersSnoc(results, results'[|results|]); }
    }
  }

  // What the error of `Shutdown` means.

  function Errors(results: seq<Result>): nat {
    if |results| == 0 then 0
    else Errors(results[..|results| - 1]) + if results[|results| - 1] == ShutdownDone(true) then 1 else 0
  }

  /** How often the context of a `Shutdown` of caller `c` ended while it waited for the workers. */
  function Timeouts(steps: seq<Step>, c: nat): nat {
    if |steps| == 0 then 0
    else Timeouts(steps[..|steps| - 1], c) + if steps[|steps| - 1] == TimedOut(c) then 1 else 0
  }

  lemma ErrorsSnoc(results: seq<Result>, r: Result)
    ensures Errors(results + [r]) == Errors(results) + if r == ShutdownDone(true) then 1 else 0
  {
    assert (results + [r])[..|results|] == results;
  }

  predicate ErrorsOk(k: Caller, timeouts: nat) {
    timeouts == Errors(k.results) + if k.at.ShutdownJoin? then 1 else 0
  }

  lemma WorkerMovesNoCaller(s: State, step: Step, s': State)
    requires Apply(s, step) == Some(s') && IsWorkerStep(step)
    ensures s'.callers == s.callers
  {
  }

  lemma OneCallerMoves(s: State, step: Step, s': State)
    requires Apply(s, step) == Some(s') && !IsWorkerStep(step)
    ensures step.c < |s.callers| == |s'.callers| && s'.callers == s.callers[step.c := s'.callers[step.c]]
  {
  }

  lemma SubmitStepErrors(s: State, step: Step, s': State, c: nat)
    requires Apply(s, step) == Some(s') && c < |s.callers| && IsSubmitStep(step) && step.c == c
    ensures |s'.callers| == |s.callers| && !s'.callers[c].at.ShutdownJoin? && !s.callers[c].at.ShutdownJoin?
    ensures Errors(s'.callers[c].results) == Errors(s.callers[c].results)
  {
    if s'.callers[c].results != s.callers[c].results {
      ErrorsSnoc(s.callers[c].results, Submitted(s.callers[c].at.b, step.Queue?));
    }
  }

  lemma ShutdownStepErrors(s: State, step: Step, s': State, c: nat, timeouts: nat)
    requires Apply(s, step) == Some(s') && c < |s.callers| && ErrorsOk(s.callers[c], timeouts)
    requires !IsWorkerStep(step) && !IsSubmitStep(step) && step.c == c
    ensures |s'.callers| == |s.callers|
    ensures ErrorsOk(s'.callers[c], timeouts + if step == TimedOut(c) then 1 else 0)
  {
    if step.Drained? || step.Join? { ErrorsSnoc(s.callers[c].results, ShutdownDone(step.Join?)); }
  }

  lemma StepErrors(s: State, step: Step, s': State, c: nat, timeouts: nat)
    requires Apply(s, step) == Some(s') && c < |s.callers| && ErrorsOk(s.callers[c], timeouts)
    ensures |s'.callers| == |s.callers|
    ensures ErrorsOk(s'.callers[c], timeouts + if step == TimedOut(c) then 1 else 0)
  {
    if IsWorkerStep(step) { WorkerMovesNoCaller(s, step, s'); }
    else if step.c != c { OneCallerMoves(s, step, s'); }
    else if IsSubmitStep(step) { SubmitStepErrors(s, step, s', c); }
    else { ShutdownStepErrors(s, step, s', c, timeouts); }
  }

  /** In every run, with any number of callers, exactly the shutdowns whose own context ended first return an error. */
  lemma {:induction false} ErrorIffTimedOut(workers: nat, capacity: nat, n: nat, steps: seq<Step>, s: State, c: nat)
    requires Run(NewPool(workers, capacity, n), steps) == Some(s) && c < n
    ensures |s.callers| == n && ErrorsOk(s.callers[c], Timeouts(steps, c))
    decreases |steps|
  {
    if |steps| > 0 {
      var last := |steps| - 1;
      var before := Run(NewPool(workers, capacity, n), steps[..last]).value;
      ErrorIffTimedOut(workers, capacity, n, steps[..last], before, c);
      StepErrors(before, steps[last], s, c, Timeouts(steps[..last], c));
    }
  }

  /** Every accepted batch has been sent once, and no worker is left. */
  predicate Finished(s: State) {
    && AllExited(s)
    && multiset(s.accepted) == SentBatches(s.sent)
    && s.dequeued == s.accepted
  }

  /**
   Once the first `Shutdown` has returned, with an error or without, a pool of at least one worker is finished; when it
   returned no error, every batch was sent with a live context.
   */
  lemma FirstShutdownReturns(workers: nat, capacity: nat, steps: seq<Step>, s: State)
    requires workers > 0
    requires Run(NewPool(workers, capacity, 1), steps) == Some(s)
    requires |s.callers| == 1 && Shutdowns(s.callers[0].results) != []
    ensures Finished(s)
    ensures !Shutdowns(s.callers[0].results)[0] ==> AllLive(s.sent)
  {
    RunInv(workers, capacity, steps, s);
    assert s.workers[0].Exited?;
    NoneInFlight(s.workers);
  }

  /** No deadlock: with a worker and a queue place, a call in progress can be served even if its context never ends. */
  lemma NeverStuck(workers: nat, capacity: nat, steps: seq<Step>, s: State) returns (step: Step)
    requires workers > 0 && capacity > 0
    requires Run(NewPool(workers, capacity, 1), steps) == Some(s)
    requires |s.callers| == 1 && !s.callers[0].at.Ready?
    ensures !step.TimedOut? && !IsBegin(step) && Apply(s, step).Some?
  {
    RunInv(workers, capacity, steps, s);
    step := NextStep(s);
  }

  lemma NextStep(s: State) returns (step: Step)
    requires Inv(s) && |s.workers| > 0 && s.capacity > 0 && !s.callers[0].at.Ready?
    ensures !step.TimedOut? && !IsBegin(step) && Apply(s, step).Some?
  {
    var k := s.callers[0].at;
    if k.SubmitSelect? {
      step := QueueStep(s);
    } else if k.ShutdownSelect? || k.ShutdownJoin? {
      step := DrainStep(s, if k.ShutdownSelect? then Drained(0) else Join(0));
    } else {
      step := if k.SubmitCheck? then Check(0) else if k.CloseDone? then CloseDoneStep(0) else CloseJobsStep(0);
    }
  }

  lemma QueueStep(s: State) returns (step: Step)
    requires !s.panicked && QueueOk(s) && !s.jobsClosed && |s.workers| > 0 && s.capacity > 0
    requires |s.callers| == 1 && s.callers[0].at.SubmitSelect?
    ensures !step.TimedOut? && !IsBegin(step) && Apply(s, step).Some?
  {
    assert !s.workers[0].Exited?;
    step := if |s.queue| < s.capacity then Queue(0) else if s.workers[0].Waiting? then Receive(0) else FinishSend(0);
  }

  /** `wait` when the workers have exited, and otherwise what an unfinished one can do. */
  lemma DrainStep(s: State, wait: Step) returns (step: Step)
    requires !s.panicked && s.jobsClosed
    requires AllExited(s) ==> Apply(s, wait).Some?
    ensures step == wait || IsWorkerStep(step)
    ensures Apply(s, step).Some?
  {
    if AllExited(s) {
      step := wait;
    } else {
      var w :| 0 <= w < |s.workers| && !s.workers[w].Exited?;
      step := if s.workers[w].Sending? then FinishSend(w) else if s.queue == [] then WorkerExit(w) else Receive(w);
    }
  }

  // Why one caller, why at least one worker, and what a second Shutdown says.

  lemma RunSnoc(s0: State, steps: seq<Step>, s: State, step: Step)
    requires Run(s0, steps) == Some(s)
    ensures Run(s0, steps + [step]) == Apply(s, step)
  {
  }

  /** A script replayed step by step. */
  lemma Play(s0: State, steps: seq<Step>, s: State, step: Step) returns (steps': seq<Step>, s': State)
    requires Run(s0, steps) == Some(s) && Apply(s, step).Some?
    ensures steps' == steps + [step] && Apply(s, step) == Some(s') && Run(s0, steps') == Some(s')
  {
    RunSnoc(s0, steps, s, step);
    steps', s' := steps + [step], Apply(s, step).value;
  }

  lemma SubmitRacesShutdown(workers: nat, capacity: nat, n: nat, b: Batch) returns (steps: seq<Step>, s: State)
    requires n >= 2
    ensures Run(NewPool(workers, capacity, n), steps) == Some(s) && s.panicked
  {
    var s0 := NewPool(workers, capacity, n);
    steps, s := Play(s0, [], s0, BeginSubmit(0, b));
    steps, s := Play(s0, steps, s, Check(0));
    steps, s := Play(s0, steps, s, BeginShutdown(1));
    steps, s := Play(s0, steps, s, CloseDoneStep(1));
    steps, s := Play(s0, steps, s, CloseJobsStep(1));
    steps, s := Play(s0, steps, s, Queue(0));
  }

  /** No run panics if and only if one goroutine, at most, uses the pool. */
  lemma SafeIffOneCaller(workers: nat, capacity: nat, n: nat)
    requires n > 0
    ensures (forall steps, s :: Run(NewPool(workers, capacity, n), steps) == Some(s) ==> !s.panicked) <==> n == 1
  {
    if n == 1 {
      forall steps, s | Run(NewPool(workers, capacity, n), steps) == Some(s) ensures !s.panicked {
        RunInv(workers, capacity, steps, s);
      }
    } else {
      var steps, s := SubmitRacesShutdown(workers, capacity, n, 0);
    }
  }

  /** The first `Shutdown` of the only caller, up to its select. */
  lemma PlayShutdown(s0: State, steps: seq<Step>, s: State) returns (steps': seq<Step>, s': State)
    requires Run(s0, steps) == Some(s) && !s.panicked && !s.once
    requires |s.callers| == 1 && s.callers[0].at.Ready?
    ensures Run(s0, steps') == Some(s')
    ensures s' == s.(once := true, done := true, jobsClosed := true,
      callers := [Caller(ShutdownSelect, s.callers[0].results)])
  {
    steps', s' := Play(s0, steps, s, BeginShutdown(0));
    steps', s' := Play(s0, steps', s', CloseDoneStep(0));
    steps', s' := Play(s0, steps', s', CloseJobsStep(0));
  }

  /** A `Submit` of the only caller that finds room. */
  lemma PlaySubmit(s0: State, steps: seq<Step>, s: State, b: Batch) returns (steps': seq<Step>, s': State)
    requires Run(s0, steps) == Some(s) && !s.panicked && !s.done && !s.jobsClosed && |s.queue| < s.capacity
    requires |s.callers| == 1 && s.callers[0].at.Ready?
    ensures Run(s0, steps') == Some(s')
    ensures s' == s.(queue := s.queue + [b], accepted := s.accepted + [b],
      callers := [Caller(Ready, s.callers[0].results + [Submitted(b, true)])])
  {
    steps', s' := Play(s0, steps, s, BeginSubmit(0, b));
    steps', s' := Play(s0, steps', s', Check(0));
    steps', s' := Play(s0, steps', s', Queue(0));
  }

  lemma PlayDrained(s0: State, steps: seq<Step>, s: State) returns (steps': seq<Step>, s': State)
    requires Run(s0, steps) == Some(s) && !s.panicked && AllExited(s)
    requires |s.callers| == 1 && s.callers[0].at.ShutdownSelect?
    ensures Run(s0, steps') == Some(s')
    ensures s' == s.(cancelled := true, callers := [Caller(Ready, s.callers[0].results + [ShutdownDone(false)])])
  {
    steps', s' := Play(s0, steps, s, Drained(0));
  }

  lemma NoWorkersLoses(capacity: nat, b: Batch) returns (steps: seq<Step>, s: State)
    requires capacity > 0
    ensures Run(NewPool(0, capacity, 1), steps) == Some(s)
    ensures s.callers == [Caller(Ready, [Submitted(b, true), ShutdownDone(false)])]
    ensures s.queue == [b] && s.sent == []
  {
    var s0 := NewPool(0, capacity, 1);
    assert s0.callers == [Caller(Ready, [])];
    assert [] + [Submitted(b, true)] == [Submitted(b, true)] && [] + [b] == [b];
    steps, s := PlaySubmit(s0, [], s0, b);
    assert s.callers == [Caller(Ready, [Submitted(b, true)])];
    steps, s := PlayShutdown(s0, steps, s);
    assert s.callers == [Caller(ShutdownSelect, [Submitted(b, true)])] && s.workers == [];
    assert [Submitted(b, true)] + [ShutdownDone(false)] == [Submitted(b, true), ShutdownDone(false)];
    steps, s := PlayDrained(s0, steps, s);
  }

  /** In every run with one caller, a `Shutdown` that has returned leaves the pool finished. */
  ghost predicate AlwaysFinishes(workers: nat, capacity: nat) {
    forall steps, s ::
      Run(NewPool(workers, capacity, 1), steps) == Some(s) && |s.callers| == 1 && Shutdowns(s.callers[0].results) != []
      ==> Finished(s)
  }

  /** A shutdown always leaves the pool finished if and only if there is a worker. */
  lemma FinishesIffWorkers(workers: nat, capacity: nat)
    requires capacity > 0
    ensures AlwaysFinishes(workers, capacity) <==> workers > 0
  {
    if workers > 0 {
      forall steps, s | Run(NewPool(workers, capacity, 1), steps) == Some(s) && |s.callers| == 1
          && Shutdowns(s.callers[0].results) != []
        ensures Finished(s)
      {
        FirstShutdownReturns(workers, capacity, steps, s);
      }
    } else {
      var steps, s := NoWorkersLoses(capacity, 0);
      LostIsUnfinished(capacity, steps, s);
    }
  }

  lemma LostIsUnfinished(capacity: nat, steps: seq<Step>, s: State)
    requires Run(NewPool(0, capacity, 1), steps) == Some(s) && s.queue != []
    requires s.callers == [Caller(Ready, [Submitted(0, true), ShutdownDone(false)])]
    ensures !Finished(s) && Shutdowns(s.callers[0].results) != []
  {
    ResultsSnoc([Submitted(0, true)], ShutdownDone(false));
    assert [Submitted(0, true)] + [ShutdownDone(false)] == s.callers[0].results;
    RunInv(0, capacity, steps, s);
    assert |s.accepted| > |s.dequeued|;
  }

  // What a nil from a later `Shutdown` is worth.

  /** The idle workers exit, the queue being closed and empty. */
  lemma {:induction false} PlayExits(s0: State, steps: seq<Step>, s: State, n: nat)
      returns (steps': seq<Step>, s': State)
    requires Run(s0, steps) == Some(s) && !s.panicked && s.jobsClosed && s.queue == [] && n <= |s.workers|
    requires forall w :: 0 <= w < |s.workers| ==> if w < n then s.workers[w].Waiting? else s.workers[w].Exited?
    ensures Run(s0, steps') == Some(s') && s' == s.(workers := s'.workers) && AllExited(s')
    decreases n
  {
    steps', s' := steps, s;
    if n > 0 {
      steps', s' := Play(s0, steps, s, WorkerExit(n - 1));
      steps', s' := PlayExits(s0, steps', s', n - 1);
    }
  }

  /** A batch is taken by the first worker, and the context of `Shutdown` ends before it is sent. */
  lemma PlayTimedOut(workers: nat, capacity: nat, b: Batch) returns (steps: seq<Step>, s: State)
    requires workers > 0 && capacity > 0
    ensures Run(NewPool(workers, capacity, 1), steps) == Some(s)
    ensures !s.panicked && s.once && s.jobsClosed && s.cancelled && s.queue == [] && s.sent == []
    ensures s.callers == [Caller(ShutdownJoin, [Submitted(b, true)])]
    ensures s.workers == NewPool(workers, capacity, 1).workers[0 := Sending(b)]
  {
    var s0 := NewPool(workers, capacity, 1);
    assert s0.callers == [Caller(Ready, [])];
    assert [] + [Submitted(b, true)] == [Submitted(b, true)] && [] + [b] == [b];
    steps, s := PlaySubmit(s0, [], s0, b);
    assert s.queue == [b] && s.queue[1..] == [];
    steps, s := Play(s0, steps, s, Receive(0));
    assert s.callers == [Caller(Ready, [Submitted(b, true)])];
    steps, s := PlayShutdown(s0, steps, s);
    var k := Caller(ShutdownJoin, [Submitted(b, true)]);
    assert s.callers[0 := k] == [k];
    steps, s := Play(s0, steps, s, TimedOut(0));
  }

  /** The send is aborted, and `Shutdown` says so. */
  lemma PlayAborted(workers: nat, capacity: nat, b: Batch) returns (steps: seq<Step>, s: State)
    requires workers > 0 && capacity > 0
    ensures Run(NewPool(workers, capacity, 1), steps) == Some(s)
    ensures !s.panicked && s.once && AllExited(s) && s.sent == [Sent(b, false)]
    ensures s.callers == [Caller(Ready, [Submitted(b, true), ShutdownDone(true)])]
  {
    var s0 := NewPool(workers, capacity, 1);
    steps, s := PlayTimedOut(workers, capacity, b);
    steps, s := Play(s0, steps, s, FinishSend(0));
    assert s.sent == [] + [Sent(b, false)] == [Sent(b, false)];
    assert forall w :: 0 <= w < workers ==> s.workers[w].Waiting?;
    steps, s := PlayExits(s0, steps, s, workers);
    assert [Submitted(b, true)] + [ShutdownDone(true)] == [Submitted(b, true), ShutdownDone(true)];
    var k := Caller(Ready, [Submitted(b, true), ShutdownDone(true)]);
    assert s.callers[0 := k] == [k];
    steps, s := Play(s0, steps, s, Join(0));
  }

  /** Another `Shutdown` of a stopped pool finds it drained. */
  lemma PlayShutdownAgain(s0: State, steps: seq<Step>, s: State) returns (steps': seq<Step>, s': State)
    requires Run(s0, steps) == Some(s) && !s.panicked && s.once && AllExited(s)
    requires |s.callers| == 1 && s.callers[0].at.Ready?
    ensures Run(s0, steps') == Some(s')
    ensures s' == s.(cancelled := true, callers := [Caller(Ready, s.callers[0].results + [ShutdownDone(false)])])
  {
    steps', s' := Play(s0, steps, s, BeginShutdown(0));
    assert s'.callers == [Caller(ShutdownSelect, s.callers[0].results)];
    steps', s' := PlayDrained(s0, steps', s');
  }

  function Nils(n: nat): seq<bool> {
    seq(n, i => false)
  }

  lemma {:induction false} PlayShutdowns(s0: State, steps: seq<Step>, s: State, n: nat)
      returns (steps': seq<Step>, s': State)
    requires Run(s0, steps) == Some(s) && !s.panicked && s.once && AllExited(s)
    requires |s.callers| == 1 && s.callers[0].at.Ready?
    ensures Run(s0, steps') == Some(s') && s'.sent == s.sent && |s'.callers| == 1
    ensures Shutdowns(s'.callers[0].results) == Shutdowns(s.callers[0].results) + Nils(n)
    decreases n
  {
    steps', s' := steps, s;
    var before := Shutdowns(s.callers[0].results);
    if n == 0 {
      assert before + Nils(0) == before;
    } else {
      steps', s' := PlayShutdownAgain(s0, steps, s);
      ResultsSnoc(s.callers[0].results, ShutdownDone(false));
      steps', s' := PlayShutdowns(s0, steps', s', n - 1);
      assert (before + [false]) + Nils(n - 1) == before + Nils(n);
    }
  }

  /** A second `Shutdown` may return nil although the send of an accepted batch was aborted. */
  lemma SecondShutdownMayReturnNil(workers: nat, capacity: nat, b: Batch) returns (steps: seq<Step>, s: State)
    requires workers > 0 && capacity > 0
    ensures Run(NewPool(workers, capacity, 1), steps) == Some(s)
    ensures s.callers == [Caller(Ready, [Submitted(b, true), ShutdownDone(true), ShutdownDone(false)])]
    ensures s.sent == [Sent(b, false)]
  {
    steps, s := PlayAborted(workers, capacity, b);
    var rs := [Submitted(b, true), ShutdownDone(true)];
    assert rs + [ShutdownDone(false)] == [Submitted(b, true), ShutdownDone(true), ShutdownDone(false)];
    steps, s := PlayShutdownAgain(NewPool(workers, capacity, 1), steps, s);
  }

  /** In every run with one caller, a nil from `Shutdown` number `i` means that no send was aborted. */
  ghost predicate NilMeansLive(workers: nat, capacity: nat, i: nat) {
    forall steps, s ::
      Run(NewPool(workers, capacity, 1), steps) == Some(s) && |s.callers| == 1 && ReturnedNil(s.callers[0].results, i)
      ==> AllLive(s.sent)
  }

  predicate ReturnedNil(results: seq<Result>, i: nat) {
    i < |Shutdowns(results)| && !Shutdowns(results)[i]
  }

  /** A nil means that nothing was aborted if and only if it comes from the first `Shutdown`. */
  lemma NilMeansLiveIffFirst(workers: nat, capacity: nat, i: nat)
    requires workers > 0 && capacity > 0
    ensures NilMeansLive(workers, capacity, i) <==> i == 0
  {
    if i == 0 {
      forall steps, s | Run(NewPool(workers, capacity, 1), steps) == Some(s) && |s.callers| == 1
          && ReturnedNil(s.callers[0].results, 0)
        ensures AllLive(s.sent)
      {
        FirstShutdownReturns(workers, capacity, steps, s);
      }
    } else {
      var s0 := NewPool(workers, capacity, 1);
      var steps, s := PlayAborted(workers, capacity, 0);
      AbortedShutdowns(0);
      var steps', s' := PlayShutdowns(s0, steps, s, i);
      assert Shutdowns(s'.callers[0].results)[i] == Nils(i)[i - 1];
      assert ReturnedNil(s'.callers[0].results, i) && !s'.sent[0].live;
    }
  }

  lemma AbortedShutdowns(b: Batch)
    ensures Shutdowns([Submitted(b, true), ShutdownDone(true)]) == [true]
  {
    ResultsSnoc([], Submitted(b, true));
    ResultsSnoc([Submitted(b, true)], ShutdownDone(true));
    assert [] + [Submitted(b, true)] == [Submitted(b, true)];
    assert [Submitted(b, true)] + [ShutdownDone(true)] == [Submitted(b, true), ShutdownDone(true)];
  }

  // Every run ends, but for the calls its caller keeps beginning.

  /** A call begins with at most this many steps to come, those of a worker for its batch included. */
  const STEPS_OF_A_CALL := 6

  function PointLeft(k: Point): nat {
    match k
    case Ready => 0
    case SubmitCheck(_) => 5
    case SubmitSelect(_) => 4
    case CloseDone => 5
    case CloseJobs => 4
    case ShutdownSelect => 3
    case ShutdownJoin => 2
  }

  function CallersLeft(callers: seq<Caller>): nat {
    if |callers| == 0 then 0 else CallersLeft(callers[..|callers| - 1]) + PointLeft(callers[|callers| - 1].at)
  }

  function WorkerLeft(k: Worker): nat {
    match k case Waiting => 1 case Sending(_) => 2 case Exited => 0
  }

  function WorkersLeft(workers: seq<Worker>): nat {
    if |workers| == 0 then 0 else WorkersLeft(workers[..|workers| - 1]) + WorkerLeft(workers[|workers| - 1])
  }

  function Measure(s: State): nat {
    CallersLeft(s.callers) + WorkersLeft(s.workers) + 2 * |s.queue|
  }

  lemma {:induction false} CallersLeftUpdate(callers: seq<Caller>, c: nat, k: Caller)
    requires c < |callers|
    ensures CallersLeft(callers[c := k]) + PointLeft(callers[c].at) == CallersLeft(callers) + PointLeft(k.at)
    decreases |callers|
  {
    var last := |callers| - 1;
    if c < last {
      CallersLeftUpdate(callers[..last], c, k);
      assert callers[c := k][..last] == callers[..last][c := k];
    } else {
      assert callers[c := k][..last] == callers[..last];
    }
  }

  lemma {:induction false} WorkersLeftUpdate(workers: seq<Worker>, w: nat, k: Worker)
    requires w < |workers|
    ensures WorkersLeft(workers[w := k]) + WorkerLeft(workers[w]) == WorkersLeft(workers) + WorkerLeft(k)
    decreases |workers|
  {
    var last := |workers| - 1;
    if w < last {
      WorkersLeftUpdate(workers[..last], w, k);
      assert workers[w := k][..last] == workers[..last][w := k];
    } else {
      assert workers[w := k][..last] == workers[..last];
    }
  }

  predicate IsBegin(step: Step) {
    step.BeginSubmit? || step.BeginShutdown?
  }

  lemma WorkerStepLess(s: State, step: Step, s': State)
    requires IsWorkerStep(step) && Apply(s, step) == Some(s')
    ensures Measure(s') < Measure(s)
  {
    WorkersLeftUpdate(s.workers, step.w, s'.workers[step.w]);
  }

  lemma CallerStepChanges(s: State, step: Step, s': State)
    requires !IsWorkerStep(step) && Apply(s, step) == Some(s') && !s'.panicked
    ensures step.c < |s.callers| && s'.workers == s.workers && s'.callers == s.callers[step.c := s'.callers[step.c]]
    ensures PointLeft(s'.callers[step.c].at) + 2 * |s'.queue| <
      PointLeft(s.callers[step.c].at) + 2 * |s.queue| + if IsBegin(step) then STEPS_OF_A_CALL else 0
  {
    if IsSubmitStep(step) { SubmitStepChanges(s, step, s'); } else { ShutdownStepChanges(s, step, s'); }
  }

  lemma SubmitStepChanges(s: State, step: Step, s': State)
    requires IsSubmitStep(step) && Apply(s, step) == Some(s') && !s'.panicked
    ensures step.c < |s.callers| && s'.workers == s.workers && s'.callers == s.callers[step.c := s'.callers[step.c]]
    ensures PointLeft(s'.callers[step.c].at) + 2 * |s'.queue| <
      PointLeft(s.callers[step.c].at) + 2 * |s.queue| + if IsBegin(step) then STEPS_OF_A_CALL else 0
  {
  }

  lemma ShutdownStepChanges(s: State, step: Step, s': State)
    requires !IsWorkerStep(step) && !IsSubmitStep(step) && Apply(s, step) == Some(s')
    ensures step.c < |s.callers| && s'.workers == s.workers && s'.callers == s.callers[step.c := s'.callers[step.c]]
    ensures s'.queue == s.queue
    ensures PointLeft(s'.callers[step.c].at) <
      PointLeft(s.callers[step.c].at) + if IsBegin(step) then STEPS_OF_A_CALL else 0
  {
  }

  lemma StepLess(s: State, step: Step, s': State)
    requires Apply(s, step) == Some(s') && !s'.panicked
    ensures Measure(s') < Measure(s) + if IsBegin(step) then STEPS_OF_A_CALL else 0
  {
    if IsWorkerStep(step) {
      WorkerStepLess(s, step, s');
    } else {
      CallerStepChanges(s, step, s');
      CallersLeftUpdate(s.callers, step.c, s'.callers[step.c]);
    }
  }

  function Begun(steps: seq<Step>): nat {
    if |steps| == 0 then 0 else Begun(steps[..|steps| - 1]) + if IsBegin(steps[|steps| - 1]) then 1 else 0
  }

  /** A run takes at most six steps for each call it begins, and one for each worker. */
  lemma {:induction false} RunsAreBounded(workers: nat, capacity: nat, steps: seq<Step>, s: State)
    requires Run(NewPool(workers, capacity, 1), steps) == Some(s)
    ensures |steps| + Measure(s) <= workers + STEPS_OF_A_CALL * Begun(steps)
    decreases |steps|
  {
    if |steps| == 0 {
      NewWorkersLeft(workers);
      assert CallersLeft(s.callers) == 0 by { assert s.callers == [Caller(Ready, [])] && CallersLeft([]) == 0; }
    } else {
      var mid := Run(NewPool(workers, capacity, 1), steps[..|steps| - 1]).value;
      RunsAreBounded(workers, capacity, steps[..|steps| - 1], mid);
      RunInv(workers, capacity, steps, s);
      StepLess(mid, steps[|steps| - 1], s);
    }
  }

  lemma {:induction false} NewWorkersLeft(workers: nat)
    ensures WorkersLeft(seq(workers, i => Waiting)) == workers
  {
    if workers > 0 {
      assert seq(workers, i => Waiting)[..workers - 1] == seq(workers - 1, i => Waiting);
      NewWorkersLeft(workers - 1);
    }
  }

  /** A run that only a new call, or a context ending, could go on with has let every call return. */
  lemma EndedRunHasReturned(workers: nat, capacity: nat, steps: seq<Step>, s: State)
    requires workers > 0 && capacity > 0
    requires Run(NewPool(workers, capacity, 1), steps) == Some(s)
    requires forall step :: Apply(s, step).Some? ==> step.TimedOut? || IsBegin(step)
    ensures |s.callers| == 1 && s.callers[0].at.Ready?
  {
    RunInv(workers, capacity, steps, s);
    if !s.callers[0].at.Ready? { var step := NeverStuck(workers, capacity, steps, s); }
  }
}
