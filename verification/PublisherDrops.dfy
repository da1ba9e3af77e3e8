/**
 What `Publish` may drop: an event at an observer whose queue is full, and an event after `Close`; nothing else.
 */
module PublisherDrops {
  import opened Wrappers
  import opened Publisher

  /** How many accepted events the worker of an observer has taken from its queue. */
  function Received(b: Observer): nat {
    |b.done| + |InFlight(b)|
  }

  /**
   Whenever an observer is tried with one more event, the event is dropped exactly when `capacity` accepted events have
   not been received yet.
   */
  lemma DroppedIffFull(s0: State, steps: seq<Step>, s: State, step: Step, s': State, o: nat)
    requires Reachable(s0, steps, s) && Apply(s, step) == Some(s') && o < |s.obs| && o < |s'.obs|
    requires |Events(s'.obs[o].attempts)| > |Events(s.obs[o].attempts)|
    ensures var before, after := s.obs[o], s'.obs[o];
      && |Events(after.attempts)| == |Events(before.attempts)| + 1
      && Accepted(after.attempts) == Accepted(before.attempts) +
           if |Accepted(before.attempts)| == Received(before) + s.capacity then []
           else [Events(after.attempts)[|Events(before.attempts)|]]
  {
    RunInv(s0, steps, s);
    var b := s.obs[o];
    assert ObserverOk(s, b);
    AttemptsGrow(s, step, s', o);
    AcceptedSnoc(b.attempts, s'.obs[o].attempts[|b.attempts|]);
    assert |Accepted(b.attempts)| == |DoneEvents(b.done)| + |InFlight(b)| + |b.queue|;
  }

  lemma AttemptsGrow(s: State, step: Step, s': State, o: nat)
    requires Apply(s, step) == Some(s') && o < |s.obs| && o < |s'.obs|
    requires |s'.obs[o].attempts| > |s.obs[o].attempts|
    ensures s'.obs[o].attempts ==
      s.obs[o].attempts + [Attempt(s'.obs[o].attempts[|s.obs[o].attempts|].ev, |s.obs[o].queue| < s.capacity)]
  {
  }

  /** Every observer accepted every event it was tried with. */
  predicate NothingDropped(s: State) {
    forall o :: 0 <= o < |s.obs| ==> Accepted(s.obs[o].attempts) == Events(s.obs[o].attempts)
  }

  /** A step leaves the attempts of an observer alone, or is a turn of the Publish loop at it. */
  lemma AttemptsOrSame(s: State, step: Step, s': State, o: nat)
    requires Apply(s, step) == Some(s') && o < |s.obs| && |s'.obs| == |s.obs|
    ensures s'.capacity == s.capacity && |s'.published| >= |s.published|
    ensures s'.obs[o].attempts == s.obs[o].attempts || (step.Enqueue? && step.c < |s.callers| &&
      s.callers[step.c].PublishLoop? && s.callers[step.c].next == o &&
      s'.obs[o].attempts == s.obs[o].attempts + [Attempt(s.callers[step.c].ev, |s.obs[o].queue| < s.capacity)])
  {
  }

  /** While no more has been published than a queue holds, a turn of the loop finds room. */
  lemma TurnFindsRoom(s: State, c: nat, o: nat)
    requires Inv(s) && |s.published| <= s.capacity
    requires c < |s.callers| && o < |s.obs| && s.callers[c].PublishLoop? && s.callers[c].next == o
    requires Accepted(s.obs[o].attempts) == Events(s.obs[o].attempts)
    ensures |s.obs[o].queue| < s.capacity
  {
    var b := s.obs[o];
    assert CallerOk(s, c) && ObserverOk(s, b) && InPublishOrder(s, o);
    assert |Events(b.attempts)| == |s.published| - 1;
    assert |Accepted(b.attempts)| == |DoneEvents(b.done)| + |InFlight(b)| + |b.queue|;
  }

  lemma StepDropsNothing(s: State, step: Step, s': State)
    requires Inv(s) && NothingDropped(s) && Apply(s, step) == Some(s') && |s'.published| <= s'.capacity
    ensures NothingDropped(s')
  {
    SameObservers(s, step, s');
    forall o | 0 <= o < |s'.obs| ensures Accepted(s'.obs[o].attempts) == Events(s'.obs[o].attempts) {
      AttemptsOrSame(s, step, s', o);
      assert Accepted(s.obs[o].attempts) == Events(s.obs[o].attempts);
      if s'.obs[o].attempts != s.obs[o].attempts {
        TurnFindsRoom(s, step.c, o);
        AcceptedSnoc(s.obs[o].attempts, Attempt(s.callers[step.c].ev, true));
      }
    }
  }

  lemma InitialSizes(s: State)
    requires Initial(s)
    ensures NothingDropped(s)
  {
    forall o | 0 <= o < |s.obs| ensures s.obs[o].attempts == [] {
      assert s.obs[o].(isCloser := false).attempts == [];
    }
  }

  /** In every run, until more events than `capacity` have been published no observer misses one. */
  lemma {:induction false} NothingDroppedBelowCapacity(s0: State, steps: seq<Step>, s: State)
    requires Reachable(s0, steps, s) && |s.published| <= s.capacity
    ensures NothingDropped(s)
    decreases |steps|
  {
    if |steps| == 0 {
      InitialSizes(s0);
    } else {
      var last := |steps| - 1;
      var before := Run(s0, steps[..last]).value;
      RunInv(s0, steps[..last], before);
      PublishedGrows(before, steps[last], s);
      NothingDroppedBelowCapacity(s0, steps[..last], before);
      StepDropsNothing(before, steps[last], s);
    }
  }

  lemma PublishedGrows(s: State, step: Step, s': State)
    requires Apply(s, step) == Some(s')
    ensures s'.capacity == s.capacity && |s'.published| >= |s.published|
  {
  }

  // Which events are published at all.

  /** The events of the `Publish` calls that have taken the mutex or returned. */
  function TakenUp(start: seq<Caller>, callers: seq<Caller>): multiset<Event>
    requires |callers| == |start|
  {
    if |start| == 0 then multiset{}
    else
      var last := |start| - 1;
      TakenUp(start[..last], callers[..last]) + Taken(start[last], callers[last])
  }

  function Taken(start: Caller, k: Caller): multiset<Event> {
    if start.PublishStart? && !k.PublishStart? then multiset{start.ev} else multiset{}
  }

  lemma TakenUpSplit(start: seq<Caller>, callers: seq<Caller>, last: nat)
    requires |callers| == |start| == last + 1
    ensures TakenUp(start, callers) == TakenUp(start[..last], callers[..last]) + Taken(start[last], callers[last])
  {
  }

  lemma SwapLast(a: multiset<Event>, b: multiset<Event>, c: multiset<Event>)
    ensures (a + b) + c == (a + c) + b
  {
  }

  lemma {:induction false} TakenUpUpdate(start: seq<Caller>, callers: seq<Caller>, c: nat, k: Caller)
    requires |callers| == |start| && c < |start| && !k.PublishStart?
    ensures TakenUp(start, callers[c := k]) ==
      TakenUp(start, callers) + if callers[c].PublishStart? then Taken(start[c], k) else multiset{}
    decreases |start|
  {
    var last := |start| - 1;
    TakenUpSplit(start, callers, last);
    TakenUpSplit(start, callers[c := k], last);
    var before, mine := TakenUp(start[..last], callers[..last]), Taken(start[last], callers[last]);
    if c == last {
      assert callers[c := k][..last] == callers[..last];
    } else {
      assert callers[c := k][..last] == callers[..last][c := k];
      TakenUpUpdate(start[..last], callers[..last], c, k);
      SwapLast(before, if callers[c].PublishStart? then Taken(start[c], k) else multiset{}, mine);
    }
  }

  lemma {:induction false} NoneTakenUp(start: seq<Caller>)
    ensures TakenUp(start, start) == multiset{}
    decreases |start|
  {
    if |start| > 0 { NoneTakenUp(start[..|start| - 1]); }
  }

  /** A caller that has not started is as it was, and before any `Close` the published events are those taken up. */
  predicate AllPublished(s0: State, s: State) {
    && |s.callers| == |s0.callers|
    && (forall c :: 0 <= c < |s.callers| && s.callers[c].PublishStart? ==> s.callers[c] == s0.callers[c])
    && (s.closer.None? ==> multiset(s.published) == TakenUp(s0.callers, s.callers))
  }

  lemma WorkerPublishesNothing(s: State, step: Step, s': State)
    requires IsWorkerStep(step) && Apply(s, step) == Some(s')
    ensures s'.callers == s.callers && s'.closer == s.closer && s'.published == s.published
  {
  }

  lemma LockPublishes(s: State, c: nat, s': State)
    requires Apply(s, Lock(c)) == Some(s') && (s.closed <==> s.closer.Some?)
    ensures c < |s.callers| && |s'.callers| == |s.callers| && s'.callers == s.callers[c := s'.callers[c]]
    ensures !s'.callers[c].PublishStart? && (s'.closer.None? ==> s.closer.None?)
    ensures s'.closer.None? ==>
      s'.published == s.published + if s.callers[c].PublishStart? then [s.callers[c].ev] else []
  {
  }

  lemma OtherPublishesNothing(s: State, step: Step, s': State)
    requires !IsWorkerStep(step) && !step.Lock? && Apply(s, step) == Some(s') && !s'.panicked
    ensures step.c < |s.callers| && |s'.callers| == |s.callers| && s'.callers == s.callers[step.c := s'.callers[step.c]]
    ensures !s'.callers[step.c].PublishStart? && !s.callers[step.c].PublishStart?
    ensures s'.closer == s.closer && s'.published == s.published
  {
  }

  /** A caller that moves on has published its event if it had not started. */
  lemma MoveKeepsPublished(s0: State, s: State, c: nat, s': State)
    requires AllPublished(s0, s) && c < |s.callers| && |s'.callers| == |s.callers|
    requires s'.callers == s.callers[c := s'.callers[c]] && !s'.callers[c].PublishStart?
    requires s'.closer.None? ==> s.closer.None?
    requires s'.closer.None? ==>
      s'.published == s.published + if s.callers[c].PublishStart? then [s.callers[c].ev] else []
    ensures AllPublished(s0, s')
  {
    TakenUpUpdate(s0.callers, s.callers, c, s'.callers[c]);
  }

  lemma StepPublishes(s0: State, s: State, step: Step, s': State)
    requires Inv(s) && AllPublished(s0, s) && Apply(s, step) == Some(s') && !s'.panicked
    ensures AllPublished(s0, s')
  {
    if IsWorkerStep(step) {
      WorkerPublishesNothing(s, step, s');
    } else {
      if step.Lock? { LockPublishes(s, step.c, s'); } else { OtherPublishesNothing(s, step, s'); }
      MoveKeepsPublished(s0, s, step.c, s');
    }
  }

  lemma {:induction false} RunPublishes(s0: State, steps: seq<Step>, s: State)
    requires Reachable(s0, steps, s)
    ensures AllPublished(s0, s)
    decreases |steps|
  {
    if |steps| == 0 {
      NoneTakenUp(s0.callers);
    } else {
      var last := |steps| - 1;
      var before := Run(s0, steps[..last]).value;
      RunInv(s0, steps[..last], before);
      RunInv(s0, steps, s);
      RunPublishes(s0, steps[..last], before);
      StepPublishes(s0, before, steps[last], s);
    }
  }

  /** In every run, until a `Close` takes effect every `Publish` that has started publishes its event, once. */
  lemma PublishedUnlessClosed(s0: State, steps: seq<Step>, s: State)
    requires Reachable(s0, steps, s) && s.closer.None?
    ensures |s.callers| == |s0.callers| && multiset(s.published) == TakenUp(s0.callers, s.callers)
  {
    RunPublishes(s0, steps, s);
  }

  /** The waiting `Close` of three callers gives up while the only worker notifies. */
  lemma PlayCancel(s0: State, steps: seq<Step>, s: State, ev: Event) returns (steps': seq<Step>, s': State)
    requires Run(s0, steps) == Some(s) && !s.panicked && |s.callers| == 3 && s.callers[1] == CloseSelect
    requires |s.obs| == 1 && s.obs[0].worker == Notifying(ev) && s.obs[0].closes == 0
    ensures Run(s0, steps') == Some(s')
    ensures s' == s.(callers := s.callers[1 := CloseJoin(true)], cancelled := true,
      obs := [s.obs[0].(worker := Waiting, done := s.obs[0].done + [Delivery(ev, false, true)])])
  {
    steps', s' := Play(s0, steps, s, TimedOut(1));
    steps', s' := Play(s0, steps', s', Cancel(1));
    steps', s' := Play(s0, steps', s', FinishNotify(0));
    assert s.obs[0 := s'.obs[0]] == [s'.obs[0]];
  }

  /** Once the only worker has nothing left, the `Close` that gave up returns. */
  lemma PlayReturn(s0: State, steps: seq<Step>, s: State) returns (steps': seq<Step>, s': State)
    requires Run(s0, steps) == Some(s) && !s.panicked && |s.callers| == 3 && s.callers[1] == CloseJoin(true)
    requires |s.obs| == 1 && s.obs[0].worker == Waiting && s.obs[0].queue == [] && s.obs[0].closed
    ensures Run(s0, steps') == Some(s') && |s'.callers| == 3 && |s'.obs| == 1
    ensures s'.callers[1] == Returned(true, true) && s'.obs[0].done == s.obs[0].done
  {
    steps', s' := Play(s0, steps, s, WorkerExit(0));
    assert AllExited(s');
    steps', s' := Play(s0, steps', s', Join(1));
    steps', s' := Play(s0, steps', s', CloseObserver(1));
    steps', s' := Play(s0, steps', s', CloseObserver(1));
  }

  lemma PlayReceive(s0: State, steps: seq<Step>, s: State, ev: Event) returns (steps': seq<Step>, s': State)
    requires Run(s0, steps) == Some(s) && !s.panicked && |s.obs| == 1
    requires s.obs[0].worker == Waiting && s.obs[0].queue == [ev]
    ensures Run(s0, steps') == Some(s') && s' == s.(obs := [s.obs[0].(worker := Notifying(ev), queue := [])])
  {
    steps', s' := Play(s0, steps, s, Receive(0));
    assert [ev][1..] == [];
    assert s.obs[0 := s'.obs[0]] == [s'.obs[0]];
  }

  /** A `Close` whose context ends cancels the workers: it returns the error, and a `Notify` under way was not live. */
  lemma TimedOutCloseCancels(ev: Event) returns (s0: State, steps: seq<Step>, s: State)
    ensures Reachable(s0, steps, s) && |s.callers| == 3 && |s.obs| == 1
    ensures s.callers[1] == Returned(true, true) && s.obs[0].done == [Delivery(ev, false, true)]
  {
    var o := Observer([], false, Waiting, [], [], true, 0);
    s0 := State([o], [PublishStart(ev), CloseStart, CloseStart], None, false, false, false, 1, [], None);
    assert o.(isCloser := false) == Observer([], false, Waiting, [], [], false, 0);
    steps, s := PlayPublish(s0, [], s0, ev);
    steps, s := PlayReceive(s0, steps, s, ev);
    steps, s := PlayFirstClose(s0, steps, s);
    steps, s := PlayCancel(s0, steps, s, ev);
    steps, s := PlayReturn(s0, steps, s);
  }

  // What the wait error of `Close` means.

  /** Past the select of `Close`, or returned. */
  predicate PastSelect(k: Caller) {
    k.CloseCancel? || k.CloseJoin? || k.CloseObservers? || k.Returned?
  }

  /** The caller reports a wait error exactly when its context ended while it waited for the workers. */
  predicate WaitErrOk(steps: seq<Step>, k: Caller, c: nat) {
    TimedOut(c) in steps <==> PastSelect(k) && k.waitErr
  }

  lemma WorkerMovesNoCaller(s: State, step: Step, s': State)
    requires Apply(s, step) == Some(s') && IsWorkerStep(step)
    ensures s'.callers == s.callers
  {
  }

  lemma OneCallerMoves(s: State, step: Step, s': State)
    requires Apply(s, step) == Some(s') && !IsWorkerStep(step)
    ensures s'.panicked || (step.c < |s.callers| && s'.callers == s.callers[step.c := s'.callers[step.c]])
    ensures s'.panicked ==> s'.callers == s.callers && !step.TimedOut?
  {
  }

  lemma MoveWaitErr(s: State, step: Step, s': State)
    requires Apply(s, step) == Some(s') && !IsWorkerStep(step) && !s'.panicked
    requires step.c < |s.callers| == |s'.callers|
    ensures var k, k' := s.callers[step.c], s'.callers[step.c];
      PastSelect(k') && k'.waitErr <==> step.TimedOut? || (PastSelect(k) && k.waitErr)
  {
  }

  lemma StepWaitErr(s: State, steps: seq<Step>, step: Step, s': State, c: nat)
    requires Apply(s, step) == Some(s') && c < |s.callers| && WaitErrOk(steps, s.callers[c], c)
    ensures |s'.callers| == |s.callers| && WaitErrOk(steps + [step], s'.callers[c], c)
  {
    if IsWorkerStep(step) { WorkerMovesNoCaller(s, step, s'); }
    else {
      OneCallerMoves(s, step, s');
      if !s'.panicked { MoveWaitErr(s, step, s'); }
    }
  }

  /** In every run, a `Close` has a wait error exactly when its own context ended first, and a `Publish` has none. */
  lemma {:induction false} WaitErrIffTimedOut(s0: State, steps: seq<Step>, s: State, c: nat)
    requires Reachable(s0, steps, s) && c < |s0.callers|
    ensures |s.callers| == |s0.callers| && WaitErrOk(steps, s.callers[c], c)
    decreases |steps|
  {
    if |steps| == 0 {
      assert s0.callers[c].PublishStart? || s0.callers[c].CloseStart?;
    } else {
      var last := |steps| - 1;
      var before := Run(s0, steps[..last]).value;
      WaitErrIffTimedOut(s0, steps[..last], before, c);
      StepWaitErr(before, steps[..last], steps[last], s, c);
      assert steps == steps[..last] + [steps[last]];
    }
  }

  /** A `Close` has ended the context of the workers. */
  predicate HasCancelled(steps: seq<Step>) {
    exists i :: 0 <= i < |steps| && steps[i].Cancel?
  }

  lemma StepCancels(s: State, step: Step, s': State)
    requires Apply(s, step) == Some(s')
    ensures s'.cancelled <==> s.cancelled || step.Cancel?
  {
  }

  lemma HasCancelledSnoc(steps: seq<Step>)
    requires |steps| > 0
    ensures var last := |steps| - 1; HasCancelled(steps) <==> HasCancelled(steps[..last]) || steps[last].Cancel?
  {
    var last := |steps| - 1;
    if i :| 0 <= i < last && steps[..last][i].Cancel? { assert steps[i].Cancel?; }
    if i :| 0 <= i < |steps| && steps[i].Cancel? && i != last { assert steps[..last][i].Cancel?; }
  }

  lemma {:induction false} CancelledMeans(s0: State, steps: seq<Step>, s: State)
    requires Reachable(s0, steps, s)
    ensures s.cancelled <==> HasCancelled(steps)
    decreases |steps|
  {
    if |steps| > 0 {
      var last := |steps| - 1;
      var before := Run(s0, steps[..last]).value;
      CancelledMeans(s0, steps[..last], before);
      StepCancels(before, steps[last], s);
      HasCancelledSnoc(steps);
    }
  }

  /** In every run, a notification ends with a live context exactly when no `Close` has cancelled the workers yet. */
  lemma LiveIffNotCancelled(s0: State, steps: seq<Step>, s: State, o: nat, s': State)
    requires Reachable(s0, steps, s) && Apply(s, FinishNotify(o)) == Some(s')
    ensures o < |s'.obs| && |s'.obs[o].done| > 0
    ensures s'.obs[o].done[|s'.obs[o].done| - 1].live <==> !HasCancelled(steps)
  {
    CancelledMeans(s0, steps, s);
  }
}
