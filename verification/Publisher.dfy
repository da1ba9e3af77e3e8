/**
 `audit.Publisher`: one bounded queue and one worker per observer, publishers that drop on a full queue, and a
 mutex-guarded `Close`. Every atomic action of a goroutine is a step; a run is any list of steps, so the theorems hold
 for every interleaving of any number of `Publish` and `Close` callers with the workers.
 */
module Publisher {
  import opened Wrappers

  type Event = int

  /** What one enqueue attempt of a published event met at one observer's queue. */
  datatype Attempt = Attempt(ev: Event, room: bool)

  /** A finished `Notify` call: whether the internal context was still live, and the observer still open, at its end. */
  datatype Delivery = Delivery(ev: Event, live: bool, open: bool)

  datatype WorkerState = Waiting | Notifying(ev: Event) | Exited

  /** An observer with its queue and worker. `attempts` and `done` are histories. */
  datatype Observer = Observer(
    queue: seq<Event>,
    closed: bool,
    worker: WorkerState,
    attempts: seq<Attempt>,
    done: seq<Delivery>,
    isCloser: bool,
    closes: nat)

  /** Program points of a goroutine that runs `Publish` or `Close`. */
  datatype Caller =
    | PublishStart(ev: Event)
    | PublishLoop(ev: Event, next: nat)         // holds the mutex, about to try queue `next`
    | CloseStart
    | CloseLoop(next: nat)                      // holds the mutex, about to close queue `next`
    | CloseSelect                               // waits for the workers or for its context
    | CloseCancel(waitErr: bool)                // about to cancel the internal context
    | CloseJoin(waitErr: bool)                  // <-done
    | CloseObservers(waitErr: bool, next: nat)
    | Returned(first: bool, waitErr: bool)      // `first` marks the Close that did the work

  datatype State = State(
    obs: seq<Observer>,
    callers: seq<Caller>,
    mutex: Option<nat>,
    closed: bool,
    cancelled: bool,
    panicked: bool,
    capacity: nat,
    published: seq<Event>,   // history: the events whose Publish found the publisher open, in that order
    closer: Option<nat>)     // history: the Close that found it open

  datatype Step =
    | Lock(c: nat)            // mutex acquired, `closed` tested
    | Enqueue(c: nat)         // one turn of the Publish loop
    | Unlock(c: nat)          // the loop is over
    | CloseQueue(c: nat)      // one turn of the Close loop
    | Drained(c: nat)         // select takes the `done` case
    | TimedOut(c: nat)        // select takes the context case
    | Cancel(c: nat)
    | Join(c: nat)
    | CloseObserver(c: nat)   // one turn of closeObservers
    | Receive(o: nat)
    | FinishNotify(o: nat)
    | WorkerExit(o: nat)

  /** Go panics on a send to a closed channel and on closing one twice. */
  function Panicking(s: State): State {
    s.(panicked := true)
  }

  predicate AllExited(s: State) {
    forall o :: 0 <= o < |s.obs| ==> s.obs[o].worker.Exited?
  }

  function SetCaller(s: State, c: nat, k: Caller): State
    requires c < |s.callers|
  {
    s.(callers := s.callers[c := k])
  }

  function SetObserver(s: State, o: nat, b: Observer): State
    requires o < |s.obs|
  {
    s.(obs := s.obs[o := b])
  }

  /** The state after `step`, or `None` when the goroutine cannot take it. */
  function Apply(s: State, step: Step): Option<State> {
    if s.panicked then None
    else match step
      case Lock(c) =>
        if c >= |s.callers| || s.mutex.Some? then None
        else (match s.callers[c]
          case PublishStart(ev) =>
            if s.closed then Some(SetCaller(s, c, Returned(false, false)))
            else Some(SetCaller(s.(mutex := Some(c), published := s.published + [ev]), c, PublishLoop(ev, 0)))
          case CloseStart =>
            if s.closed then Some(SetCaller(s, c, Returned(false, false)))
            else Some(SetCaller(s.(mutex := Some(c), closed := true, closer := Some(c)), c, CloseLoop(0)))
          case _ => None)
      case Enqueue(c) =>
        if c >= |s.callers| || !s.callers[c].PublishLoop? || s.callers[c].next >= |s.obs| then None
        else
          var k, b := s.callers[c], s.obs[s.callers[c].next];
          if b.closed then Some(Panicking(s))
          else
            var room := |b.queue| < s.capacity;
            var queue := if room then b.queue + [k.ev] else b.queue;
            var b' := b.(queue := queue, attempts := b.attempts + [Attempt(k.ev, room)]);
            Some(SetCaller(SetObserver(s, k.next, b'), c, PublishLoop(k.ev, k.next + 1)))
      case Unlock(c) =>
        if c >= |s.callers| then None
        else if s.callers[c].PublishLoop? && s.callers[c].next == |s.obs| then
          Some(SetCaller(s.(mutex := None), c, Returned(false, false)))
        else if s.callers[c].CloseLoop? && s.callers[c].next == |s.obs| then
          Some(SetCaller(s.(mutex := None), c, CloseSelect))
        else None
      case CloseQueue(c) =>
        if c >= |s.callers| || !s.callers[c].CloseLoop? || s.callers[c].next >= |s.obs| then None
        else
          var k, b := s.callers[c], s.obs[s.callers[c].next];
          if b.closed then Some(Panicking(s))
          else Some(SetCaller(SetObserver(s, k.next, b.(closed := true)), c, CloseLoop(k.next + 1)))
      case Drained(c) =>
        if c < |s.callers| && s.callers[c].CloseSelect? && AllExited(s) then Some(SetCaller(s, c, CloseCancel(false)))
        else None
      case TimedOut(c) =>
        if c < |s.callers| && s.callers[c].CloseSelect? then Some(SetCaller(s, c, CloseCancel(true))) else None
      case Cancel(c) =>
        if c < |s.callers| && s.callers[c].CloseCancel? then
          Some(SetCaller(s.(cancelled := true), c, CloseJoin(s.callers[c].waitErr)))
        else None
      case Join(c) =>
        if c < |s.callers| && s.callers[c].CloseJoin? && AllExited(s) then
          Some(SetCaller(s, c, CloseObservers(s.callers[c].waitErr, 0)))
        else None
      case CloseObserver(c) =>
        if c >= |s.callers| || !s.callers[c].CloseObservers? then None
        else
          var k := s.callers[c];
          if k.next >= |s.obs| then Some(SetCaller(s, c, Returned(true, k.waitErr)))
          else
            var b := s.obs[k.next];
            var b' := if b.isCloser then b.(closes := b.closes + 1) else b;
            Some(SetCaller(SetObserver(s, k.next, b'), c, CloseObservers(k.waitErr, k.next + 1)))
      case Receive(o) =>
        if o < |s.obs| && s.obs[o].worker.Waiting? && |s.obs[o].queue| > 0 then
          var b := s.obs[o];
          Some(SetObserver(s, o, b.(worker := Notifying(b.queue[0]), queue := b.queue[1..])))
        else None
      case FinishNotify(o) =>
        if o < |s.obs| && s.obs[o].worker.Notifying? then
          var b := s.obs[o];
          var d := Delivery(b.worker.ev, !s.cancelled, b.closes == 0);
          Some(SetObserver(s, o, b.(worker := Waiting, done := b.done + [d])))
        else None
      case WorkerExit(o) =>
        if o < |s.obs| && s.obs[o].worker.Waiting? && s.obs[o].queue == [] && s.obs[o].closed then
          Some(SetObserver(s, o, s.obs[o].(worker := Exited)))
        else None
  }

  predicate IsWorkerStep(step: Step) {
    step.Receive? || step.FinishNotify? || step.WorkerExit?
  }

  /** `NewPublisher`, with callers that have not started. */
  predicate Initial(s: State) {
    && !s.closed && !s.cancelled && !s.panicked && s.mutex.None?
    && s.capacity > 0 && s.published == [] && s.closer.None?
    && (forall o :: 0 <= o < |s.obs| ==>
          s.obs[o].(isCloser := false) == Observer([], false, Waiting, [], [], false, 0))
    && (forall c :: 0 <= c < |s.callers| ==> s.callers[c].PublishStart? || s.callers[c].CloseStart?)
  }

  function Run(s: State, steps: seq<Step>): Option<State> {
    if |steps| == 0 then Some(s)
    else
      var before := Run(s, steps[..|steps| - 1]);
      if before.None? then None else Apply(before.value, steps[|steps| - 1])
  }

  predicate Reachable(s0: State, steps: seq<Step>, s: State) {
    Initial(s0) && Run(s0, steps) == Some(s)
  }

  // The invariant.

  /** The attempts that found room, in order. */
  function Accepted(attempts: seq<Attempt>): seq<Event> {
    if |attempts| == 0 then []
    else
      var last := attempts[|attempts| - 1];
      Accepted(attempts[..|attempts| - 1]) + if last.room then [last.ev] else []
  }

  function Events(attempts: seq<Attempt>): seq<Event> {
    seq(|attempts|, i requires 0 <= i < |attempts| => attempts[i].ev)
  }

  function DoneEvents(done: seq<Delivery>): seq<Event> {
    seq(|done|, i requires 0 <= i < |done| => done[i].ev)
  }

  function InFlight(b: Observer): seq<Event> {
    if b.worker.Notifying? then [b.worker.ev] else []
  }

  /** Nothing accepted is lost, duplicated or reordered. */
  predicate Conserved(b: Observer) {
    DoneEvents(b.done) + InFlight(b) + b.queue == Accepted(b.attempts)
  }

  /** The Close caller that found the publisher open and has not yet returned, or has returned first. */
  predicate IsFirstClose(k: Caller) {
    || k.CloseLoop? || k.CloseSelect? || k.CloseCancel? || k.CloseJoin? || k.CloseObservers?
    || (k.Returned? && k.first)
  }

  predicate Holds(k: Caller) {
    k.PublishLoop? || k.CloseLoop?
  }

  /** The caller at `c` agrees with the mutex and with the history of the first Close. */
  predicate CallerOk(s: State, c: nat) {
    c < |s.callers| ==>
      var k := s.callers[c];
      && (Holds(k) <==> s.mutex == Some(c))
      && (Holds(k) ==> k.next <= |s.obs|)
      && (k.PublishLoop? ==> !s.closed)
      && (IsFirstClose(k) <==> s.closer == Some(c))
  }

  predicate CallersOk(s: State) {
    && (s.closed <==> s.closer.Some?)
    && (s.closer.Some? ==> s.closer.value < |s.callers|)
    && (s.mutex.Some? ==> s.mutex.value < |s.callers|)
    && (forall c :: 0 <= c < |s.callers| ==> CallerOk(s, c))
  }

  /** Whether queue `o` is closed while the first Close is at `k`. */
  predicate QueueClosedAt(k: Caller, o: nat) {
    k.CloseLoop? ==> o < k.next
  }

  predicate PastJoin(k: Caller) {
    k.CloseObservers? || (k.Returned? && k.first)
  }

  predicate MustHaveExited(k: Caller) {
    PastJoin(k) || !WaitErr(k)
  }

  predicate PastCancel(k: Caller) {
    k.CloseJoin? || PastJoin(k)
  }

  function WaitErr(k: Caller): bool {
    match k
    case CloseCancel(e) => e
    case CloseJoin(e) => e
    case CloseObservers(e, _) => e
    case Returned(_, e) => e
    case _ => true
  }

  /** How often observer `o` has been closed while the first Close is at `k`. */
  function ClosesAt(k: Caller, o: nat, isCloser: bool): nat {
    if !isCloser then 0
    else match k
      case CloseObservers(_, next) => if o < next then 1 else 0
      case Returned(_, _) => 1
      case _ => 0
  }

  /** What the position `k` of the first Close says about observer `o`. */
  predicate CloseMarks(k: Caller, o: nat, b: Observer) {
    && (b.closed <==> QueueClosedAt(k, o))
    && b.closes == ClosesAt(k, o, b.isCloser)
    && (!WaitErr(k) ==> AllLive(b))
  }

  predicate NoCloseMarks(b: Observer) {
    !b.closed && b.closes == 0
  }

  /** Observer `o` is as the first Close, if there is one, has left it. */
  predicate MarksOk(s: State, o: nat) {
    o < |s.obs| &&
    if s.closer.None? then NoCloseMarks(s.obs[o])
    else s.closer.value < |s.callers| && CloseMarks(s.callers[s.closer.value], o, s.obs[o])
  }

  /** What the position of the first Close says about the rest of the state. */
  predicate CloseProgressOk(s: State) {
    && (forall o :: 0 <= o < |s.obs| ==> MarksOk(s, o))
    && if s.closer.None? then !s.cancelled
       else
         s.closer.value < |s.callers| &&
         var k := s.callers[s.closer.value];
         && (s.cancelled <==> PastCancel(k))
         && (MustHaveExited(k) ==> AllExited(s))
         && (k.CloseObservers? ==> k.next <= |s.obs|)
  }

  predicate AllLive(b: Observer) {
    forall i :: 0 <= i < |b.done| ==> b.done[i].live
  }

  predicate ObserverOk(s: State, b: Observer) {
    && Conserved(b)
    && |b.queue| <= s.capacity
    && (b.worker.Exited? ==> b.closed && b.queue == [])
    && (forall i :: 0 <= i < |b.done| ==> b.done[i].open)
    && (!s.cancelled ==> AllLive(b))
  }

  /** How many published events the queue `o` has been tried with: all, or all but the one being published. */
  function Tried(s: State, o: nat): nat {
    if s.mutex.Some? && s.mutex.value < |s.callers| && s.callers[s.mutex.value].PublishLoop?
       && s.callers[s.mutex.value].next <= o && |s.published| > 0
    then |s.published| - 1 else |s.published|
  }

  predicate InPublishOrder(s: State, o: nat)
    requires o < |s.obs|
  {
    Events(s.obs[o].attempts) == s.published[..Tried(s, o)]
  }

  /** Every observer has been tried with the published events, in publish order. */
  predicate PublishOrder(s: State) {
    && (forall o :: 0 <= o < |s.obs| ==> InPublishOrder(s, o))
    && (s.mutex.Some? && s.mutex.value < |s.callers| && s.callers[s.mutex.value].PublishLoop? ==>
          |s.published| > 0 && s.published[|s.published| - 1] == s.callers[s.mutex.value].ev)
  }

  predicate Inv(s: State) {
    && !s.panicked
    && CallersOk(s)
    && CloseProgressOk(s)
    && PublishOrder(s)
    && forall o :: 0 <= o < |s.obs| ==> ObserverOk(s, s.obs[o])
  }

  lemma AcceptedSnoc(attempts: seq<Attempt>, a: Attempt)
    ensures Accepted(attempts + [a]) == Accepted(attempts) + if a.room then [a.ev] else []
    ensures Events(attempts + [a]) == Events(attempts) + [a.ev]
  {
  }

  lemma InitialInv(s: State)
    requires Initial(s)
    ensures Inv(s)
  {
  }

  function Actor(step: Step): nat {
    match step
    case Receive(_) => 0
    case FinishNotify(_) => 0
    case WorkerExit(_) => 0
    case _ => step.c
  }

  /** What the invariant says of the caller that steps, and of the holder of the mutex and the first Close. */
  lemma CallersAt(s: State, step: Step)
    requires CallersOk(s)
    ensures CallerOk(s, Actor(step))
    ensures s.mutex.Some? ==> CallerOk(s, s.mutex.value)
    ensures s.closer.Some? ==> CallerOk(s, s.closer.value)
  {
  }

  /** No send to a closed queue, and no queue closed twice. */
  lemma NoPanic(s: State, step: Step, s': State)
    requires Inv(s) && Apply(s, step) == Some(s')
    ensures !s'.panicked
  {
    CallersAt(s, step);
    if (step.Enqueue? || step.CloseQueue?) && step.c < |s.callers| && Holds(s.callers[step.c]) {
      var k := s.callers[step.c];
      assert k.next < |s.obs|;
      assert MarksOk(s, k.next);
    }
  }

  lemma SameObservers(s: State, step: Step, s': State)
    requires Apply(s, step) == Some(s')
    ensures |s'.obs| == |s.obs|
  {
  }

  lemma CallerInv(s: State, step: Step, s': State, c: nat)
    requires CallersOk(s) && Apply(s, step) == Some(s') && !s'.panicked
    ensures CallerOk(s', c)
  {
    assert CallerOk(s, c);
    CallersAt(s, step);
  }

  lemma CallersInv(s: State, step: Step, s': State)
    requires CallersOk(s) && Apply(s, step) == Some(s') && !s'.panicked
    ensures CallersOk(s')
  {
    forall c | 0 <= c < |s'.callers| ensures CallerOk(s', c) { CallerInv(s, step, s', c); }
  }

  lemma ExitedInv(s: State, step: Step, s': State)
    requires Inv(s) && Apply(s, step) == Some(s') && CallersOk(s')
    requires s'.closer.Some? && MustHaveExited(s'.callers[s'.closer.value])
    ensures AllExited(s')
  {
    CallersAt(s, step);
    CallersAt(s', step);
    OnlyAfterExit(s, step, s');
    ExitedStay(s, step, s');
  }

  lemma OnlyAfterExit(s: State, step: Step, s': State)
    requires CloseProgressOk(s) && Apply(s, step) == Some(s')
    requires s'.closer.Some? && s'.closer.value < |s'.callers| && MustHaveExited(s'.callers[s'.closer.value])
    requires s.closer.None? ==> !IsWorkerStep(step) && CallerOk(s, step.c)
    requires !IsWorkerStep(step) ==> CallerOk(s, step.c)
    ensures AllExited(s)
  {
  }

  lemma ExitedStay(s: State, step: Step, s': State)
    requires AllExited(s) && Apply(s, step) == Some(s')
    ensures AllExited(s')
  {
    SameObservers(s, step, s');
    forall o | 0 <= o < |s'.obs| ensures s'.obs[o].worker.Exited? { assert s.obs[o].worker.Exited?; }
  }

  lemma CloseInv(s: State, step: Step, s': State)
    requires Inv(s) && Apply(s, step) == Some(s') && CallersOk(s') && !s'.panicked
    ensures CloseProgressOk(s')
  {
    SameObservers(s, step, s');
    forall o | 0 <= o < |s'.obs| ensures MarksOk(s', o) { MarksInv(s, step, s', o); }
    if s'.closer.None? {
      NotCancelled(s, step, s');
    } else {
      if MustHaveExited(s'.callers[s'.closer.value]) { ExitedInv(s, step, s'); }
      CancelledInv(s, step, s');
    }
  }

  lemma NotCancelled(s: State, step: Step, s': State)
    requires CallersOk(s) && CloseProgressOk(s) && Apply(s, step) == Some(s') && s'.closer.None?
    ensures !s'.cancelled
  {
    CallersAt(s, step);
  }

  lemma CancelledInv(s: State, step: Step, s': State)
    requires Inv(s) && Apply(s, step) == Some(s') && CallersOk(s') && s'.closer.Some?
    ensures var k := s'.callers[s'.closer.value];
      (s'.cancelled <==> PastCancel(k)) && (k.CloseObservers? ==> k.next <= |s'.obs|)
  {
    CallersAt(s, step);
    CallersAt(s', step);
  }

  lemma MarksInv(s: State, step: Step, s': State, o: nat)
    requires Inv(s) && Apply(s, step) == Some(s') && CallersOk(s') && !s'.panicked
    requires o < |s.obs|
    ensures MarksOk(s', o)
  {
    assert ObserverOk(s, s.obs[o]);
    if IsWorkerStep(step) {
      WorkerKeepsMarks(s, step, s', o);
    } else if s.closer == Some(Actor(step)) {
      CloserKeepsMarks(s, step, s', o);
    } else {
      OtherKeepsMarks(s, step, s', o);
    }
  }

  lemma WorkerKeepsMarks(s: State, step: Step, s': State, o: nat)
    requires IsWorkerStep(step)
    requires CloseProgressOk(s) && Apply(s, step) == Some(s') && o < |s.obs|
    ensures MarksOk(s', o)
  {
    assert MarksOk(s, o);
  }

  /** The steps of the first Close itself. */
  lemma CloserKeepsMarks(s: State, step: Step, s': State, o: nat)
    requires !IsWorkerStep(step) && s.closer == Some(step.c)
    requires CallersOk(s) && CloseProgressOk(s) && o < |s.obs| && ObserverOk(s, s.obs[o])
    requires Apply(s, step) == Some(s') && !s'.panicked
    ensures MarksOk(s', o)
  {
    assert MarksOk(s, o);
    assert CallerOk(s, step.c);
  }

  /** The steps of every other caller, the start of the first Close included. */
  lemma OtherKeepsMarks(s: State, step: Step, s': State, o: nat)
    requires !IsWorkerStep(step) && s.closer != Some(step.c)
    requires CallersOk(s) && CloseProgressOk(s) && o < |s.obs|
    requires Apply(s, step) == Some(s') && !s'.panicked
    ensures MarksOk(s', o)
  {
    assert MarksOk(s, o);
    assert CallerOk(s, step.c);
  }

  lemma EnqueueOrderAt(s: State, c: nat, s': State, o: nat)
    requires o < |s.obs| && |s'.obs| == |s.obs|
    requires CallersOk(s) && PublishOrder(s) && Apply(s, Enqueue(c)) == Some(s') && CallersOk(s') && !s'.panicked
    ensures InPublishOrder(s', o)
  {
    CallersAt(s, Enqueue(c));
    CallersAt(s', Enqueue(c));
    var k, b := s.callers[c], s.obs[o];
    assert InPublishOrder(s, o);
    if k.next == o {
      AcceptedSnoc(b.attempts, Attempt(k.ev, |b.queue| < s.capacity));
      assert s.published == s.published[..|s.published| - 1] + [k.ev];
      assert Tried(s', o) == |s.published|;
    } else {
      assert Tried(s', o) == Tried(s, o);
    }
  }

  lemma OrderAt(s: State, step: Step, s': State, o: nat)
    requires o < |s.obs| && |s'.obs| == |s.obs|
    requires CallersOk(s) && PublishOrder(s) && Apply(s, step) == Some(s') && CallersOk(s') && !s'.panicked
    ensures InPublishOrder(s', o)
  {
    CallersAt(s, step);
    CallersAt(s', step);
    assert InPublishOrder(s, o);
    if step.Enqueue? {
      EnqueueOrderAt(s, step.c, s', o);
    } else {
      assert s'.obs[o].attempts == s.obs[o].attempts;
      assert s'.published[..Tried(s', o)] == s.published[..Tried(s, o)];
    }
  }

  lemma OrderInv(s: State, step: Step, s': State)
    requires Inv(s) && Apply(s, step) == Some(s') && CallersOk(s') && !s'.panicked
    ensures PublishOrder(s')
  {
    SameObservers(s, step, s');
    forall o | 0 <= o < |s'.obs| ensures InPublishOrder(s', o) { OrderAt(s, step, s', o); }
    if s'.mutex.Some? && s'.mutex.value < |s'.callers| && s'.callers[s'.mutex.value].PublishLoop? {
      LastPublished(s, step, s');
    }
  }

  /** The event being published is the last one in the history. */
  lemma LastPublished(s: State, step: Step, s': State)
    requires CallersOk(s) && PublishOrder(s) && Apply(s, step) == Some(s') && CallersOk(s') && !s'.panicked
    requires s'.mutex.Some? && s'.mutex.value < |s'.callers| && s'.callers[s'.mutex.value].PublishLoop?
    ensures |s'.published| > 0 && s'.published[|s'.published| - 1] == s'.callers[s'.mutex.value].ev
  {
    CallersAt(s, step);
    CallersAt(s', step);
  }

  /** While its worker runs, an observer is open. */
  lemma NotYetClosed(s: State, o: nat)
    requires CallersOk(s) && CloseProgressOk(s) && o < |s.obs| && !s.obs[o].worker.Exited?
    ensures s.obs[o].closes == 0
  {
    assert MarksOk(s, o);
    if s.closer.Some? {
      assert CallerOk(s, s.closer.value);
    }
  }

  lemma WorkerInv(s: State, step: Step, s': State, o: nat)
    requires step == Receive(o) || step == FinishNotify(o) || step == WorkerExit(o)
    requires o < |s.obs| && |s'.obs| == |s.obs|
    requires CallersOk(s) && CloseProgressOk(s) && ObserverOk(s, s.obs[o]) && Apply(s, step) == Some(s')
    ensures ObserverOk(s', s'.obs[o])
  {
    assert s'.capacity == s.capacity && s'.cancelled == s.cancelled;
    if step == FinishNotify(o) {
      NotYetClosed(s, o);
      FinishConserves(s.obs[o], Delivery(s.obs[o].worker.ev, !s.cancelled, true));
    } else if step == Receive(o) {
      ReceiveConserves(s.obs[o]);
    }
  }

  lemma FinishConserves(b: Observer, d: Delivery)
    requires Conserved(b) && b.worker == Notifying(d.ev)
    ensures Conserved(b.(worker := Waiting, done := b.done + [d]))
  {
    assert DoneEvents(b.done + [d]) == DoneEvents(b.done) + [d.ev];
  }

  lemma ReceiveConserves(b: Observer)
    requires Conserved(b) && b.worker.Waiting? && |b.queue| > 0
    ensures Conserved(b.(worker := Notifying(b.queue[0]), queue := b.queue[1..]))
  {
    assert b.queue == [b.queue[0]] + b.queue[1..];
  }

  lemma EnqueueObserverInv(s: State, c: nat, s': State, o: nat)
    requires o < |s.obs| && |s'.obs| == |s.obs|
    requires ObserverOk(s, s.obs[o]) && Apply(s, Enqueue(c)) == Some(s')
    ensures ObserverOk(s', s'.obs[o])
  {
    var b := s.obs[o];
    assert s'.capacity == s.capacity && s'.cancelled == s.cancelled;
    if s'.obs[o] != b {
      assert s.callers[c].next == o && !b.closed;
      EnqueueConserves(b, s.callers[c].ev, |b.queue| < s.capacity);
    }
  }

  lemma EnqueueConserves(b: Observer, ev: Event, room: bool)
    requires Conserved(b)
    ensures var queue := if room then b.queue + [ev] else b.queue;
      Conserved(b.(queue := queue, attempts := b.attempts + [Attempt(ev, room)]))
  {
  }

  lemma ObserverInv(s: State, step: Step, s': State, o: nat)
    requires o < |s.obs| && |s'.obs| == |s.obs|
    requires Inv(s) && Apply(s, step) == Some(s')
    ensures ObserverOk(s', s'.obs[o])
  {
    if step.Enqueue? {
      EnqueueObserverInv(s, step.c, s', o);
    } else if step == Receive(o) || step == FinishNotify(o) || step == WorkerExit(o) {
      WorkerInv(s, step, s', o);
    } else {
      OtherObserverInv(s, step, s', o);
    }
  }

  /** A step that neither enqueues nor is the worker's own leaves the queue and the histories of an observer alone. */
  lemma OtherObserverInv(s: State, step: Step, s': State, o: nat)
    requires !step.Enqueue? && step != Receive(o) && step != FinishNotify(o) && step != WorkerExit(o)
    requires o < |s.obs| && |s'.obs| == |s.obs| && ObserverOk(s, s.obs[o])
    requires Apply(s, step) == Some(s')
    ensures ObserverOk(s', s'.obs[o])
  {
    Untouched(s, step, s', o);
    var b, b' := s.obs[o], s'.obs[o];
    assert Conserved(b) && InFlight(b') == InFlight(b);
  }

  lemma Untouched(s: State, step: Step, s': State, o: nat)
    requires !step.Enqueue? && step != Receive(o) && step != FinishNotify(o) && step != WorkerExit(o)
    requires o < |s.obs| && |s'.obs| == |s.obs| && Apply(s, step) == Some(s')
    ensures var b, b' := s.obs[o], s'.obs[o];
      && b'.queue == b.queue && b'.worker == b.worker && b'.attempts == b.attempts && b'.done == b.done
      && s'.capacity == s.capacity && (s.cancelled ==> s'.cancelled) && (b.closed ==> b'.closed)
  {
  }

  lemma StepInv(s: State, step: Step, s': State)
    requires Inv(s) && Apply(s, step) == Some(s')
    ensures Inv(s')
  {
    NoPanic(s, step, s');
    CallersInv(s, step, s');
    CloseInv(s, step, s');
    OrderInv(s, step, s');
    SameObservers(s, step, s');
    forall o | 0 <= o < |s'.obs| ensures ObserverOk(s', s'.obs[o]) { ObserverInv(s, step, s', o); }
  }

  lemma {:induction false} RunInv(s0: State, steps: seq<Step>, s: State)
    requires Reachable(s0, steps, s)
    ensures Inv(s)
    decreases |steps|
  {
    if |steps| == 0 {
      InitialInv(s0);
    } else {
      var before := steps[..|steps| - 1];
      RunInv(s0, before, Run(s0, before).value);
      StepInv(Run(s0, before).value, steps[|steps| - 1], s);
    }
  }

  // Results over all runs.

  /**
   In every run: nothing is sent to a closed queue and no queue is closed twice; every queue keeps within its capacity;
   and for each observer the events notified, in flight and queued are exactly those of its publish-order attempts that
   found room, each observer having been tried with all published events (or all but the one being published).
   */
  lemma NothingLostInAnyRun(s0: State, steps: seq<Step>, s: State)
    requires Reachable(s0, steps, s)
    ensures !s.panicked
    ensures forall o :: 0 <= o < |s.obs| ==>
      && |s.obs[o].queue| <= s.capacity
      && DoneEvents(s.obs[o].done) + InFlight(s.obs[o]) + s.obs[o].queue == Accepted(s.obs[o].attempts)
      && Events(s.obs[o].attempts) == s.published[..Tried(s, o)]
      && Tried(s, o) + 1 >= |s.published|
  {
    RunInv(s0, steps, s);
    forall o | 0 <= o < |s.obs| ensures ObserverOk(s, s.obs[o]) && InPublishOrder(s, o) {}
  }

  /**
   When the Close that found the publisher open has returned, every accepted event has been notified, every worker has
   exited and every closer among the observers was closed once; without a wait error, all of it with a live context.
   */
  lemma FirstCloseReturns(s0: State, steps: seq<Step>, s: State, c: nat)
    requires Reachable(s0, steps, s)
    requires c < |s.callers| && s.callers[c].Returned? && s.callers[c].first
    ensures AllExited(s)
    ensures forall o :: 0 <= o < |s.obs| ==>
      && DoneEvents(s.obs[o].done) == Accepted(s.obs[o].attempts)
      && Events(s.obs[o].attempts) == s.published
      && s.obs[o].closes == (if s.obs[o].isCloser then 1 else 0)
      && (!s.callers[c].waitErr ==> AllLive(s.obs[o]))
  {
    RunInv(s0, steps, s);
    assert CallerOk(s, c);
    CallersAt(s, Lock(c));
    forall o | 0 <= o < |s.obs|
      ensures DoneEvents(s.obs[o].done) == Accepted(s.obs[o].attempts) && Events(s.obs[o].attempts) == s.published
      ensures s.obs[o].closes == (if s.obs[o].isCloser then 1 else 0)
      ensures !s.callers[c].waitErr ==> AllLive(s.obs[o])
    {
      assert ObserverOk(s, s.obs[o]) && MarksOk(s, o) && InPublishOrder(s, o);
    }
  }

  /** No `Notify` of an observer the publisher closes ever runs after that observer was closed. */
  lemma NeverNotifiedAfterClose(s0: State, steps: seq<Step>, s: State, o: nat)
    requires Reachable(s0, steps, s) && o < |s.obs|
    ensures forall i :: 0 <= i < |s.obs[o].done| ==> s.obs[o].done[i].open
    ensures s.obs[o].closes > 0 ==> AllExited(s)
    ensures s.obs[o].closes <= 1
  {
    RunInv(s0, steps, s);
    assert ObserverOk(s, s.obs[o]);
    assert MarksOk(s, o);
    CallersAt(s, Receive(0));
  }

  /** No deadlock: while a caller has not returned, some goroutine can step, even if no `Close` context ever expires. */
  lemma NeverStuck(s0: State, steps: seq<Step>, s: State, c: nat) returns (step: Step)
    requires Reachable(s0, steps, s)
    requires c < |s.callers| && !s.callers[c].Returned?
    ensures !step.TimedOut? && Apply(s, step).Some?
  {
    RunInv(s0, steps, s);
    assert CallerOk(s, c);
    var k := s.callers[c];
    if s.mutex.Some? {
      var d := s.mutex.value;
      assert CallerOk(s, d);
      step := if s.callers[d].next == |s.obs| then Unlock(d) else if s.callers[d].PublishLoop? then Enqueue(d)
        else CloseQueue(d);
    } else if k.PublishStart? || k.CloseStart? {
      step := Lock(c);
    } else if k.CloseCancel? {
      step := Cancel(c);
    } else if k.CloseObservers? {
      step := CloseObserver(c);
    } else if AllExited(s) {
      step := if k.CloseSelect? then Drained(c) else Join(c);
    } else {
      var o :| 0 <= o < |s.obs| && !s.obs[o].worker.Exited?;
      assert MarksOk(s, o);
      var b := s.obs[o];
      step := if b.worker.Notifying? then FinishNotify(o) else if b.queue == [] then WorkerExit(o) else Receive(o);
    }
  }

  lemma RunSnoc(s0: State, steps: seq<Step>, s: State, step: Step)
    requires Run(s0, steps) == Some(s)
    ensures Run(s0, steps + [step]) == Apply(s, step)
  {
  }

  /** Only the first `Close` waits: a second one may return nil while an accepted event is still queued. */
  lemma SecondCloseMayReturnEarly(ev: Event) returns (s0: State, steps: seq<Step>, s: State)
    ensures Reachable(s0, steps, s)
    ensures s.callers == [Returned(false, false), CloseSelect, Returned(false, false)]
    ensures |s.obs| == 1 && s.obs[0].queue == [ev] && s.obs[0].done == []
  {
    var o := Observer([], false, Waiting, [], [], false, 0);
    s0 := State([o], [PublishStart(ev), CloseStart, CloseStart], None, false, false, false, 1, [], None);
    steps, s := PlayPublish(s0, [], s0, ev);
    steps, s := PlayFirstClose(s0, steps, s);
    steps, s := Play(s0, steps, s, Lock(2));
  }

  /** A run prolonged by one step. */
  lemma Play(s0: State, steps: seq<Step>, s: State, step: Step) returns (steps': seq<Step>, s': State)
    requires Run(s0, steps) == Some(s) && Apply(s, step).Some?
    ensures Run(s0, steps') == Some(s') && Apply(s, step) == Some(s')
  {
    RunSnoc(s0, steps, s, step);
    steps', s' := steps + [step], Apply(s, step).value;
  }

  /** The first of three callers publishes to the only observer, whose queue is empty. */
  lemma PlayPublish(s0: State, steps: seq<Step>, s: State, ev: Event) returns (steps': seq<Step>, s': State)
    requires Run(s0, steps) == Some(s) && !s.panicked && !s.closed && s.mutex.None? && s.capacity > 0
    requires |s.callers| == 3 && s.callers[0] == PublishStart(ev)
    requires |s.obs| == 1 && !s.obs[0].closed && s.obs[0].queue == []
    ensures Run(s0, steps') == Some(s')
    ensures s' == s.(callers := s.callers[0 := Returned(false, false)], published := s.published + [ev],
      obs := [s.obs[0].(queue := [ev], attempts := s.obs[0].attempts + [Attempt(ev, true)])])
  {
    steps', s' := Play(s0, steps, s, Lock(0));
    steps', s' := Play(s0, steps', s', Enqueue(0));
    assert [] + [ev] == [ev];
    steps', s' := Play(s0, steps', s', Unlock(0));
  }

  /** The second of three callers closes the only queue and waits. */
  lemma PlayFirstClose(s0: State, steps: seq<Step>, s: State) returns (steps': seq<Step>, s': State)
    requires Run(s0, steps) == Some(s) && !s.panicked && !s.closed && s.mutex.None?
    requires |s.callers| == 3 && s.callers[1] == CloseStart && |s.obs| == 1 && !s.obs[0].closed
    ensures Run(s0, steps') == Some(s')
    ensures s' == s.(callers := s.callers[1 := CloseSelect], closed := true, closer := Some(1),
      obs := [s.obs[0].(closed := true)])
  {
    steps', s' := Play(s0, steps, s, Lock(1));
    steps', s' := Play(s0, steps', s', CloseQueue(1));
    steps', s' := Play(s0, steps', s', Unlock(1));
  }

  // What a returned `Close` promises depends on how many callers close.

  function Closers(callers: seq<Caller>): nat {
    if |callers| == 0 then 0
    else Closers(callers[..|callers| - 1]) + if callers[|callers| - 1].CloseStart? then 1 else 0
  }

  /** What became of the caller at `c`, by the call it started with. */
  predicate OriginOk(s0: State, s: State, c: nat) {
    c < |s0.callers| && c < |s.callers| ==>
      var k := s.callers[c];
      && (s0.callers[c].CloseStart? ==>
            k.CloseStart? || IsFirstClose(k) || (k == Returned(false, false) && s.closed))
      && (s0.callers[c].PublishStart? ==> k.PublishStart? || k.PublishLoop? || k == Returned(false, false))
  }

  lemma OriginStep(s0: State, s: State, step: Step, s': State, c: nat)
    requires OriginOk(s0, s, c) && Apply(s, step) == Some(s') && |s.callers| == |s0.callers|
    ensures |s'.callers| == |s0.callers| && OriginOk(s0, s', c)
  {
    OthersKept(s, step, s', c);
    if !IsWorkerStep(step) && step.c == c { ActorKeepsOrigin(s0, s, step, s'); }
  }

  lemma OthersKept(s: State, step: Step, s': State, c: nat)
    requires Apply(s, step) == Some(s')
    ensures |s'.callers| == |s.callers| && (s.closed ==> s'.closed)
    ensures c < |s.callers| && (IsWorkerStep(step) || step.c != c) ==> s'.callers[c] == s.callers[c]
  {
  }

  lemma ActorKeepsOrigin(s0: State, s: State, step: Step, s': State)
    requires !IsWorkerStep(step) && step.c < |s0.callers| == |s.callers|
    requires OriginOk(s0, s, step.c) && Apply(s, step) == Some(s')
    ensures OriginOk(s0, s', step.c)
  {
  }

  lemma {:induction false} OriginRun(s0: State, steps: seq<Step>, s: State, c: nat)
    requires Reachable(s0, steps, s)
    ensures |s.callers| == |s0.callers| && OriginOk(s0, s, c)
    decreases |steps|
  {
    if |steps| > 0 {
      var before := steps[..|steps| - 1];
      OriginRun(s0, before, Run(s0, before).value, c);
      OriginStep(s0, Run(s0, before).value, steps[|steps| - 1], s, c);
    }
  }

  /** In every run, once a `Close` has returned, all workers have exited. */
  ghost predicate CloseMeansDrained(s0: State) {
    forall steps, s, c: nat :: Reachable(s0, steps, s) && HasClosed(s0, s, c) ==> AllExited(s)
  }

  /** The caller at `c` called `Close`, and it has returned. */
  predicate HasClosed(s0: State, s: State, c: nat) {
    c < |s0.callers| && c < |s.callers| && s0.callers[c].CloseStart? && s.callers[c].Returned?
  }

  lemma {:induction false} TwoClosers(callers: seq<Caller>, c: nat, d: nat)
    requires c < d < |callers| && callers[c].CloseStart? && callers[d].CloseStart?
    ensures Closers(callers) >= 2
    decreases |callers|
  {
    var last := |callers| - 1;
    if d < last { TwoClosers(callers[..last], c, d); } else { OneCloser(callers[..last], c); }
  }

  lemma {:induction false} OneCloser(callers: seq<Caller>, c: nat)
    requires c < |callers| && callers[c].CloseStart?
    ensures Closers(callers) >= 1
    decreases |callers|
  {
    if c < |callers| - 1 { OneCloser(callers[..|callers| - 1], c); }
  }

  lemma {:induction false} FindCloser(callers: seq<Caller>) returns (c: nat)
    requires Closers(callers) >= 1
    ensures c < |callers| && callers[c].CloseStart?
    decreases |callers|
  {
    c := |callers| - 1;
    if !callers[c].CloseStart? { c := FindCloser(callers[..c]); }
  }

  lemma {:induction false} FindClosers(callers: seq<Caller>) returns (c: nat, d: nat)
    requires Closers(callers) >= 2
    ensures c < d < |callers| && callers[c].CloseStart? && callers[d].CloseStart?
    decreases |callers|
  {
    d := |callers| - 1;
    if callers[d].CloseStart? { c := FindCloser(callers[..d]); } else { c, d := FindClosers(callers[..d]); }
  }

  /** The only closer is the first `Close`, and has waited for the workers. */
  lemma OnlyCloserDrains(s0: State, steps: seq<Step>, s: State, c: nat)
    requires Reachable(s0, steps, s) && Closers(s0.callers) <= 1
    requires HasClosed(s0, s, c)
    ensures AllExited(s)
  {
    RunInv(s0, steps, s);
    OriginRun(s0, steps, s, c);
    assert CallerOk(s, c);
    if s.callers[c].first {
      FirstCloseReturns(s0, steps, s, c);
    } else {
      var d := s.closer.value;
      OriginRun(s0, steps, s, d);
      assert CallerOk(s, d);
      TwoClosers(s0.callers, if c < d then c else d, if c < d then d else c);
    }
  }

  /** The first `Close`, at `CloseLoop`, closes its way through the queues that are left. */
  lemma {:induction false} PlayCloseQueues(s0: State, steps: seq<Step>, s: State, c: nat)
      returns (steps': seq<Step>, s': State)
    requires Reachable(s0, steps, s)
    requires c < |s.callers| && s.callers[c].CloseLoop?
    ensures Reachable(s0, steps', s')
    ensures s'.callers == s.callers[c := CloseLoop(|s.obs|)] && |s'.obs| == |s.obs|
    ensures s'.closed == s.closed && s'.mutex == s.mutex
    ensures forall o :: 0 <= o < |s.obs| ==> s'.obs[o].worker == s.obs[o].worker
    decreases |s.obs| - s.callers[c].next
  {
    RunInv(s0, steps, s);
    assert CallerOk(s, c);
    steps', s' := steps, s;
    if s.callers[c].next < |s.obs| {
      NoCloseYet(s, c);
      steps', s' := Play(s0, steps, s, CloseQueue(c));
      steps', s' := PlayCloseQueues(s0, steps', s', c);
    }
  }

  lemma NoCloseYet(s: State, c: nat)
    requires Inv(s) && c < |s.callers| && s.callers[c].CloseLoop? && s.callers[c].next < |s.obs|
    ensures !s.obs[s.callers[c].next].closed
  {
    assert CallerOk(s, c);
    assert MarksOk(s, s.callers[c].next);
  }

  /** With two closers and an observer, the second may return while no worker has exited. */
  lemma PlayTwoCloses(s0: State, c: nat, d: nat) returns (steps: seq<Step>, s: State)
    requires Initial(s0) && |s0.obs| > 0
    requires c < d < |s0.callers| && s0.callers[c].CloseStart? && s0.callers[d].CloseStart?
    ensures Reachable(s0, steps, s)
    ensures |s.callers| == |s0.callers| && s.callers[d].Returned? && !AllExited(s)
  {
    steps, s := Play(s0, [], s0, Lock(c));
    assert s0.obs[0].(isCloser := false).worker == Waiting;
    steps, s := PlayCloseQueues(s0, steps, s, c);
    steps, s := Play(s0, steps, s, Unlock(c));
    steps, s := Play(s0, steps, s, Lock(d));
    assert !s.obs[0].worker.Exited?;
  }

  /** A returned `Close` means drained, in every run, if and only if there is nothing to drain or at most one closer. */
  lemma DrainedIffOneCloser(s0: State)
    requires Initial(s0)
    ensures CloseMeansDrained(s0) <==> |s0.obs| == 0 || Closers(s0.callers) <= 1
  {
    if |s0.obs| == 0 {
      forall steps, s | Reachable(s0, steps, s) ensures AllExited(s) { ObserversKept(s0, steps, s); }
    } else if Closers(s0.callers) <= 1 {
      forall steps, s, c: nat | Reachable(s0, steps, s) && HasClosed(s0, s, c) ensures AllExited(s) {
        OnlyCloserDrains(s0, steps, s, c);
      }
    } else {
      var c, d := FindClosers(s0.callers);
      var steps, s := PlayTwoCloses(s0, c, d);
      assert HasClosed(s0, s, d);
    }
  }

  lemma {:induction false} ObserversKept(s0: State, steps: seq<Step>, s: State)
    requires Reachable(s0, steps, s)
    ensures |s.obs| == |s0.obs|
    decreases |steps|
  {
    if |steps| > 0 {
      var before := steps[..|steps| - 1];
      ObserversKept(s0, before, Run(s0, before).value);
      SameObservers(Run(s0, before).value, steps[|steps| - 1], s);
    }
  }

  // Every run ends: each step brings every call nearer to its return.

  /** The steps a caller has left; one that queues an event is worth the two steps the worker will take for it too. */
  function Left(k: Caller, observers: nat): nat {
    match k
    case PublishStart(_) => 3 * observers + 2
    case PublishLoop(_, next) => if next <= observers then 3 * (observers - next) + 1 else 0
    case CloseStart => 2 * observers + 8
    case CloseLoop(next) => if next <= observers then observers - next + observers + 7 else 0
    case CloseSelect => observers + 5
    case CloseCancel(_) => observers + 4
    case CloseJoin(_) => observers + 3
    case CloseObservers(_, next) => if next <= observers then observers - next + 2 else 1
    case Returned(_, _) => 0
  }

  function CallersLeft(callers: seq<Caller>, observers: nat): nat {
    if |callers| == 0 then 0
    else CallersLeft(callers[..|callers| - 1], observers) + Left(callers[|callers| - 1], observers)
  }

  /** The steps the worker of an observer has left. */
  function WorkerLeft(b: Observer): nat {
    2 * |b.queue| + match b.worker { case Waiting => 1 case Notifying(_) => 2 case Exited => 0 }
  }

  function WorkersLeft(obs: seq<Observer>): nat {
    if |obs| == 0 then 0 else WorkersLeft(obs[..|obs| - 1]) + WorkerLeft(obs[|obs| - 1])
  }

  function Measure(s: State): nat {
    CallersLeft(s.callers, |s.obs|) + WorkersLeft(s.obs)
  }

  lemma {:induction false} CallersLeftUpdate(callers: seq<Caller>, observers: nat, c: nat, k: Caller)
    requires c < |callers|
    ensures CallersLeft(callers[c := k], observers) + Left(callers[c], observers) ==
      CallersLeft(callers, observers) + Left(k, observers)
    decreases |callers|
  {
    var last := |callers| - 1;
    if c < last {
      CallersLeftUpdate(callers[..last], observers, c, k);
      assert callers[c := k][..last] == callers[..last][c := k];
    } else {
      assert callers[c := k][..last] == callers[..last];
    }
  }

  lemma {:induction false} WorkersLeftUpdate(obs: seq<Observer>, o: nat, b: Observer)
    requires o < |obs|
    ensures WorkersLeft(obs[o := b]) + WorkerLeft(obs[o]) == WorkersLeft(obs) + WorkerLeft(b)
    decreases |obs|
  {
    var last := |obs| - 1;
    if o < last {
      WorkersLeftUpdate(obs[..last], o, b);
      assert obs[o := b][..last] == obs[..last][o := b];
    } else {
      assert obs[o := b][..last] == obs[..last];
    }
  }

  lemma WorkerStepLess(s: State, step: Step, s': State)
    requires IsWorkerStep(step)
    requires Apply(s, step) == Some(s')
    ensures Measure(s') < Measure(s)
  {
    WorkersLeftUpdate(s.obs, step.o, s'.obs[step.o]);
    assert s'.obs == s.obs[step.o := s'.obs[step.o]] && s'.callers == s.callers;
  }

  lemma EnqueueLess(s: State, c: nat, s': State)
    requires Apply(s, Enqueue(c)) == Some(s') && !s'.panicked && CallerOk(s, c)
    ensures Measure(s') < Measure(s)
  {
    var o := s.callers[c].next;
    CallersLeftUpdate(s.callers, |s.obs|, c, s'.callers[c]);
    WorkersLeftUpdate(s.obs, o, s'.obs[o]);
  }

  /** The steps of a caller that touch the queue or the observer it has come to. */
  predicate IsTouch(s: State, step: Step) {
    !IsWorkerStep(step) && step.c < |s.callers| &&
    (step.CloseQueue? || (step.CloseObserver? && s.callers[step.c].CloseObservers? && s.callers[step.c].next < |s.obs|))
  }

  lemma TouchChanges(s: State, step: Step, s': State)
    requires IsTouch(s, step) && Apply(s, step) == Some(s') && !s'.panicked
    ensures var k, k' := s.callers[step.c], s'.callers[step.c];
      && (k.CloseLoop? || k.CloseObservers?) && k.next < |s.obs| && |s'.obs| == |s.obs|
      && s'.callers == s.callers[step.c := k'] && Left(k', |s.obs|) < Left(k, |s.obs|)
      && s'.obs == s.obs[k.next := s'.obs[k.next]]
      && s'.obs[k.next].queue == s.obs[k.next].queue && s'.obs[k.next].worker == s.obs[k.next].worker
  {
  }

  /** Every other step of a caller but `Enqueue` moves it alone. */
  lemma MoveChanges(s: State, step: Step, s': State)
    requires !IsWorkerStep(step) && !step.Enqueue? && !IsTouch(s, step)
    requires Apply(s, step) == Some(s') && !s'.panicked
    ensures step.c < |s.callers| && s'.obs == s.obs && s'.callers == s.callers[step.c := s'.callers[step.c]]
    ensures Left(s'.callers[step.c], |s.obs|) < Left(s.callers[step.c], |s.obs|)
  {
  }

  lemma StepLess(s: State, step: Step, s': State)
    requires Inv(s) && Apply(s, step) == Some(s')
    ensures Measure(s') < Measure(s)
  {
    if IsWorkerStep(step) {
      WorkerStepLess(s, step, s');
    } else {
      NoPanic(s, step, s');
      CallersAt(s, step);
      if step.Enqueue? {
        EnqueueLess(s, step.c, s');
      } else if IsTouch(s, step) {
        TouchChanges(s, step, s');
        var o := s.callers[step.c].next;
        CallersLeftUpdate(s.callers, |s.obs|, step.c, s'.callers[step.c]);
        WorkersLeftUpdate(s.obs, o, s'.obs[o]);
      } else {
        MoveChanges(s, step, s');
        CallersLeftUpdate(s.callers, |s.obs|, step.c, s'.callers[step.c]);
      }
    }
  }

  /** No run is longer than its start allows. */
  lemma {:induction false} RunsAreBounded(s0: State, steps: seq<Step>, s: State)
    requires Reachable(s0, steps, s)
    ensures |steps| + Measure(s) <= Measure(s0)
    decreases |steps|
  {
    if |steps| > 0 {
      var before := steps[..|steps| - 1];
      var mid := Run(s0, before).value;
      RunsAreBounded(s0, before, mid);
      RunInv(s0, before, mid);
      StepLess(mid, steps[|steps| - 1], s);
    }
  }

  /** A run that cannot go on without a context ending has let every call return. */
  lemma EndedRunHasReturned(s0: State, steps: seq<Step>, s: State)
    requires Reachable(s0, steps, s) && forall step :: Apply(s, step).Some? ==> step.TimedOut?
    ensures forall c :: 0 <= c < |s.callers| ==> s.callers[c].Returned?
  {
    forall c | 0 <= c < |s.callers| ensures s.callers[c].Returned? {
      if !s.callers[c].Returned? { var step := NeverStuck(s0, steps, s, c); }
    }
  }
}
