/**
 `file.SyncStorage` under concurrency and crashes: any number of goroutines update memory and save it, each step of a
 save is atomic by itself, and a crash is a run that stops. What a restart finds is the file of the last state.
 */
module FileSync {
  import opened Wrappers
  import opened Metrics
  import opened Bytes
  import Mem = MemStorage
  import opened FileStorage

  /** An update: `UpdateGauge` and `UpdateCounter` report a failed save, `UpdateBatch` does not. */
  datatype Op = Op(writes: seq<Write>, isBatch: bool)

  /** What an update told its caller: nil, or the error of its save. */
  datatype Report = Report(c: nat, isBatch: bool, isNil: bool)

  /** Program points of one update; `s` is the snapshot `GetAll` returned. */
  datatype Point =
    | Idle
    | Begun(op: Op)
    | Updated(op: Op)
    | Snapped(op: Op, s: Store)
    | Encoded(op: Op, s: Store, data: Bytes)
    | Writing(op: Op, s: Store, data: Bytes, tmp: Bytes)   // temporary file created and partly written
    | Closed(op: Op, s: Store, data: Bytes)                // temporary file complete

  datatype State = State(
    mem: Store,
    file: Option<Bytes>,
    callers: seq<Point>,
    past: seq<Store>,            // history: every state memory has been in, the present one last
    reports: seq<Report>)        // history: what the updates that have returned told their callers, in that order

  datatype Step =
    | Begin(c: nat, op: Op)
    | Update(c: nat)                                       // under the storage lock
    | Snapshot(c: nat)                                     // GetAll, under the storage lock
    | Encode(c: nat, gs: seq<string>, cs: seq<string>)     // in the map order the ranges took
    | CreateTemp(c: nat, ok: bool)
    | WriteSome(c: nat, n: nat)
    | WriteFails(c: nat)
    | CloseTemp(c: nat, ok: bool)
    | Rename(c: nat, ok: bool)

  function At(s: State, c: nat, p: Point): State
    requires c < |s.callers|
  {
    s.(callers := s.callers[c := p])
  }

  function Return(s: State, c: nat, saved: bool): State
    requires c < |s.callers| && !s.callers[c].Idle?
  {
    var isBatch := s.callers[c].op.isBatch;
    At(s, c, Idle).(reports := s.reports + [Report(c, isBatch, saved || isBatch)])
  }

  ghost function Apply(json: Json, s: State, step: Step): Option<State> {
    if step.c >= |s.callers| then None
    else
      var c, p := step.c, s.callers[step.c];
      match step
      case Begin(_, op) => if p.Idle? then Some(At(s, c, Begun(op))) else None
      case Update(_) =>
        if !p.Begun? then None
        else
          var mem := Mem.ApplyWrites(s.mem, p.op.writes);
          Some(At(s, c, Updated(p.op)).(mem := mem, past := s.past + [mem]))
      case Snapshot(_) => if p.Updated? then Some(At(s, c, Snapped(p.op, s.mem))) else None
      case Encode(_, gs, cs) =>
        if !p.Snapped? || !Orders(gs, p.s.gauges) || !Orders(cs, p.s.counters) then None
        else
          var data := json.marshal(GaugeList(gs, p.s.gauges) + CounterList(cs, p.s.counters));
          if data.None? then Some(Return(s, c, false)) else Some(At(s, c, Encoded(p.op, p.s, data.value)))
      case CreateTemp(_, ok) =>
        if !p.Encoded? then None
        else if !ok then Some(Return(s, c, false))
        else Some(At(s, c, Writing(p.op, p.s, p.data, [])))
      case WriteSome(_, n) =>
        if !p.Writing? || |p.tmp| + n > |p.data| then None
        else Some(At(s, c, Writing(p.op, p.s, p.data, p.data[..|p.tmp| + n])))
      case WriteFails(_) => if p.Writing? then Some(Return(s, c, false)) else None
      case CloseTemp(_, ok) =>
        if !p.Writing? || |p.tmp| != |p.data| then None
        else if !ok then Some(Return(s, c, false))
        else Some(At(s, c, Closed(p.op, p.s, p.tmp)))
      case Rename(_, ok) =>
        if !p.Closed? then None
        else if !ok then Some(Return(s, c, false))
        else Some(Return(s.(file := Some(p.data)), c, true))
  }

  function Start(mem: Store, file: Option<Bytes>, n: nat): State {
    State(mem, file, seq(n, i => Idle), [mem], [])
  }

  ghost function Run(json: Json, s: State, steps: seq<Step>): Option<State> {
    if |steps| == 0 then Some(s)
    else
      var before := Run(json, s, steps[..|steps| - 1]);
      if before.None? then None else Apply(json, before.value, steps[|steps| - 1])
  }

  // The invariant.

  /** A caller's snapshot is a past state, and what it has written so far is the beginning of its encoding. */
  ghost predicate PointOk(json: Json, past: seq<Store>, p: Point) {
    match p
    case Snapped(_, s) => s in past
    case Encoded(_, s, data) => s in past && Holds(json, data, s)
    case Writing(_, s, data, tmp) => s in past && Holds(json, data, s) && tmp <= data
    case Closed(_, s, data) => s in past && Holds(json, data, s)
    case _ => true
  }

  /** The file is as it was at the start, or holds one whole past state. */
  ghost predicate FileOk(json: Json, initial: Option<Bytes>, s: State) {
    s.file == initial || (s.file.Some? && exists t :: t in s.past && Holds(json, s.file.value, t))
  }

  ghost predicate Inv(json: Json, initial: Option<Bytes>, s: State) {
    && s.mem in s.past
    && FileOk(json, initial, s)
    && forall c :: 0 <= c < |s.callers| ==> PointOk(json, s.past, s.callers[c])
  }

  lemma EncodeHolds(json: Json, p: Point, gs: seq<string>, cs: seq<string>, data: Bytes)
    requires p.Snapped? && Orders(gs, p.s.gauges) && Orders(cs, p.s.counters)
    requires json.marshal(GaugeList(gs, p.s.gauges) + CounterList(cs, p.s.counters)) == Some(data)
    ensures Holds(json, data, p.s)
  {
    var ms := GaugeList(gs, p.s.gauges) + CounterList(cs, p.s.counters);
    assert Lists(ms, p.s, gs, cs) && json.marshal(ms) == Some(data);
  }

  lemma ActorOk(json: Json, initial: Option<Bytes>, s: State, step: Step, s': State)
    requires Inv(json, initial, s) && Apply(json, s, step) == Some(s')
    ensures PointOk(json, s'.past, s'.callers[step.c])
  {
    var p := s.callers[step.c];
    assert PointOk(json, s.past, p);
    if step.Encode? && s'.callers[step.c].Encoded? {
      EncodeHolds(json, p, step.gs, step.cs, s'.callers[step.c].data);
    }
    if step.CloseTemp? && step.ok { assert p.tmp == p.data; }
  }

  lemma StepInv(json: Json, initial: Option<Bytes>, s: State, step: Step, s': State)
    requires Inv(json, initial, s) && Apply(json, s, step) == Some(s')
    ensures Inv(json, initial, s')
  {
    ActorOk(json, initial, s, step, s');
    assert forall t :: t in s.past ==> t in s'.past;
    assert s'.mem in s'.past by { if step.Update? { assert s'.past[|s.past|] == s'.mem; } }
    forall c | 0 <= c < |s'.callers| ensures PointOk(json, s'.past, s'.callers[c]) {
      assert PointOk(json, s.past, s.callers[c]);
    }
    assert FileOk(json, initial, s') by {
      if step.Rename? && step.ok {
        var p := s.callers[step.c];
        assert PointOk(json, s.past, p);
        assert p.s in s'.past && Holds(json, s'.file.value, p.s);
      } else if s.file != initial {
        var t :| t in s.past && Holds(json, s.file.value, t);
        assert t in s'.past;
      }
    }
  }

  lemma {:induction false} RunInv(json: Json, mem: Store, file: Option<Bytes>, n: nat, steps: seq<Step>, s: State)
    requires Run(json, Start(mem, file, n), steps) == Some(s)
    ensures Inv(json, file, s)
    decreases |steps|
  {
    if |steps| > 0 {
      var before := Run(json, Start(mem, file, n), steps[..|steps| - 1]).value;
      RunInv(json, mem, file, n, steps[..|steps| - 1], before);
      StepInv(json, file, before, steps[|steps| - 1], s);
    }
  }

  /**
   At every point of every run, crash points inside `Save` included, the file is the one found at the start or loads as
   one whole state that memory has passed through.
   */
  lemma FileIsAWholeState(json: Json, mem: Store, file: Option<Bytes>, n: nat, steps: seq<Step>, s: State)
    requires Lawful(json)
    requires Run(json, Start(mem, file, n), steps) == Some(s)
    ensures s.file != file ==>
      && s.file.Some? && json.unmarshal(s.file.value).Some?
      && Mem.ApplyBatch(Mem.EMPTY, json.unmarshal(s.file.value).value) in s.past
  {
    RunInv(json, mem, file, n, steps, s);
    if s.file != file {
      var t :| t in s.past && Holds(json, s.file.value, t);
      SaveLoadRoundTrip(json, s.file.value, Mem.EMPTY, t);
    }
  }

  // Sequential callers, and why concurrent ones are different.

  /** Nothing is running. */
  predicate Settled(s: State) {
    forall c :: 0 <= c < |s.callers| ==> s.callers[c].Idle?
  }

  /** The latest update to return, a batch or not, returned nil. */
  predicate LastIsNil(s: State, isBatch: bool) {
    |s.reports| > 0 && s.reports[|s.reports| - 1].isNil && s.reports[|s.reports| - 1].isBatch == isBatch
  }

  ghost predicate Synced(json: Json, s: State) {
    s.file.Some? && Holds(json, s.file.value, s.mem)
  }

  /** With one caller, its snapshot is what memory holds until it returns. */
  ghost predicate OneCallerInv(json: Json, s: State) {
    && |s.callers| == 1
    && var p := s.callers[0];
    && (p.Snapped? || p.Encoded? || p.Writing? || p.Closed? ==> p.s == s.mem)
    && (p.Idle? && LastIsNil(s, false) ==> Synced(json, s))
  }

  lemma {:induction false} OneCallerRun(json: Json, mem: Store, file: Option<Bytes>, steps: seq<Step>, s: State)
    requires Run(json, Start(mem, file, 1), steps) == Some(s)
    ensures OneCallerInv(json, s)
    decreases |steps|
  {
    if |steps| > 0 {
      var before := Run(json, Start(mem, file, 1), steps[..|steps| - 1]).value;
      OneCallerRun(json, mem, file, steps[..|steps| - 1], before);
      RunInv(json, mem, file, 1, steps[..|steps| - 1], before);
      assert PointOk(json, before.past, before.callers[0]);
      OneCallerStep(json, before, steps[|steps| - 1], s);
    }
  }

  lemma OneCallerStep(json: Json, s: State, step: Step, s': State)
    requires OneCallerInv(json, s) && PointOk(json, s.past, s.callers[0])
    requires Apply(json, s, step) == Some(s')
    ensures OneCallerInv(json, s')
  {
  }

  lemma RunSnoc(json: Json, s0: State, steps: seq<Step>, s: State, step: Step)
    requires Run(json, s0, steps) == Some(s)
    ensures Run(json, s0, steps + [step]) == Apply(json, s, step)
  {
  }

  lemma Play(json: Json, s0: State, steps: seq<Step>, s: State, step: Step) returns (steps': seq<Step>, s': State)
    requires Run(json, s0, steps) == Some(s) && Apply(json, s, step).Some?
    ensures Apply(json, s, step) == Some(s') && Run(json, s0, steps') == Some(s')
  {
    RunSnoc(json, s0, steps, s, step);
    steps', s' := steps + [step], Apply(json, s, step).value;
  }

  lemma PlayEncode(json: Json, s0: State, steps: seq<Step>, s: State, c: nat, gs: seq<string>, cs: seq<string>)
      returns (steps': seq<Step>, s': State, data: Bytes)
    requires Lawful(json) && Run(json, s0, steps) == Some(s)
    requires c < |s.callers| && s.callers[c].Snapped? && AllFinite(s.callers[c].s)
    requires Orders(gs, s.callers[c].s.gauges) && Orders(cs, s.callers[c].s.counters)
    ensures Run(json, s0, steps') == Some(s')
    ensures s' == At(s, c, Encoded(s.callers[c].op, s.callers[c].s, data)) && Holds(json, data, s.callers[c].s)
  {
    var p := s.callers[c];
    var ms := GaugeList(gs, p.s.gauges) + CounterList(cs, p.s.counters);
    assert Lists(ms, p.s, gs, cs);
    ListedFinite(ms, p.s, gs, cs);
    data := json.marshal(ms).value;
    EncodeHolds(json, p, gs, cs, data);
    steps', s' := Play(json, s0, steps, s, Encode(c, gs, cs));
  }

  lemma PlayWrite(json: Json, s0: State, steps: seq<Step>, s: State, c: nat) returns (steps': seq<Step>, s': State)
    requires Run(json, s0, steps) == Some(s) && c < |s.callers| && s.callers[c].Encoded?
    ensures Run(json, s0, steps') == Some(s')
    ensures s' == At(s, c, Closed(s.callers[c].op, s.callers[c].s, s.callers[c].data))
  {
    var p := s.callers[c];
    ApplyCreate(json, s, c);
    steps', s' := Play(json, s0, steps, s, CreateTemp(c, true));
    steps', s' := PlayWriteAll(json, s0, steps', s', c);
    AtTwice(s, c, Writing(p.op, p.s, p.data, []), Writing(p.op, p.s, p.data, p.data));
    ApplyClose(json, s', c);
    steps', s' := Play(json, s0, steps', s', CloseTemp(c, true));
    AtTwice(s, c, Writing(p.op, p.s, p.data, p.data), Closed(p.op, p.s, p.data));
  }

  lemma AtTwice(s: State, c: nat, p: Point, q: Point)
    requires c < |s.callers|
    ensures At(At(s, c, p), c, q) == At(s, c, q)
  {
    assert s.callers[c := p][c := q] == s.callers[c := q];
  }

  lemma ApplyCreate(json: Json, s: State, c: nat)
    requires c < |s.callers| && s.callers[c].Encoded?
    ensures var p := s.callers[c];
      Apply(json, s, CreateTemp(c, true)) == Some(At(s, c, Writing(p.op, p.s, p.data, [])))
  {
  }

  lemma ApplyClose(json: Json, s: State, c: nat)
    requires c < |s.callers| && s.callers[c].Writing? && s.callers[c].tmp == s.callers[c].data
    ensures var p := s.callers[c];
      Apply(json, s, CloseTemp(c, true)) == Some(At(s, c, Closed(p.op, p.s, p.data)))
  {
  }

  /** The whole data goes out in one write. */
  lemma ApplyWriteAll(json: Json, s: State, c: nat)
    requires c < |s.callers| && s.callers[c].Writing? && s.callers[c].tmp == []
    ensures var p := s.callers[c];
      Apply(json, s, WriteSome(c, |p.data|)) == Some(At(s, c, p.(tmp := p.data)))
  {
    var p := s.callers[c];
    assert p.data[..|p.data|] == p.data;
  }

  lemma PlayWriteAll(json: Json, s0: State, steps: seq<Step>, s: State, c: nat) returns (steps': seq<Step>, s': State)
    requires Run(json, s0, steps) == Some(s) && c < |s.callers| && s.callers[c].Writing? && s.callers[c].tmp == []
    ensures Run(json, s0, steps') == Some(s')
    ensures s' == At(s, c, s.callers[c].(tmp := s.callers[c].data))
  {
    ApplyWriteAll(json, s, c);
    steps', s' := Play(json, s0, steps, s, WriteSome(c, |s.callers[c].data|));
  }

  /** A crash can find any beginning of the data in the temporary file; the file itself is then untouched. */
  lemma TornWrite(json: Json, s0: State, steps: seq<Step>, s: State, c: nat, n: nat)
      returns (steps': seq<Step>, s': State)
    requires Run(json, s0, steps) == Some(s) && c < |s.callers| && s.callers[c].Encoded?
    requires n <= |s.callers[c].data|
    ensures var p := s.callers[c];
      Run(json, s0, steps') == Some(s') && s' == At(s, c, Writing(p.op, p.s, p.data, p.data[..n]))
  {
    var p := s.callers[c];
    ApplyCreate(json, s, c);
    steps', s' := Play(json, s0, steps, s, CreateTemp(c, true));
    ApplyWritePart(json, s', c, n);
    AtTwice(s, c, Writing(p.op, p.s, p.data, []), Writing(p.op, p.s, p.data, p.data[..n]));
    steps', s' := Play(json, s0, steps', s', WriteSome(c, n));
  }

  lemma ApplyWritePart(json: Json, s: State, c: nat, n: nat)
    requires c < |s.callers| && s.callers[c].Writing? && s.callers[c].tmp == [] && n <= |s.callers[c].data|
    ensures var p := s.callers[c]; Apply(json, s, WriteSome(c, n)) == Some(At(s, c, p.(tmp := p.data[..n])))
  {
  }

  /** A caller that has its snapshot encodes, writes and renames it without a failure. */
  lemma PlaySave(json: Json, s0: State, steps: seq<Step>, s: State, c: nat, gs: seq<string>, cs: seq<string>)
      returns (steps': seq<Step>, s': State, data: Bytes)
    requires Lawful(json) && Run(json, s0, steps) == Some(s)
    requires c < |s.callers| && s.callers[c].Snapped? && AllFinite(s.callers[c].s)
    requires Orders(gs, s.callers[c].s.gauges) && Orders(cs, s.callers[c].s.counters)
    ensures Run(json, s0, steps') == Some(s')
    ensures s' == s.(file := Some(data), callers := s.callers[c := Idle],
      reports := s.reports + [Report(c, s.callers[c].op.isBatch, true)])
    ensures Holds(json, data, s.callers[c].s)
  {
    steps', s', data := PlayEncode(json, s0, steps, s, c, gs, cs);
    steps', s' := PlayWrite(json, s0, steps', s', c);
    steps', s' := Play(json, s0, steps', s', Rename(c, true));
    assert s'.callers == s.callers[c := Idle];
  }

  lemma PlayUpdate(json: Json, s0: State, steps: seq<Step>, s: State, c: nat, op: Op)
      returns (steps': seq<Step>, s': State)
    requires Run(json, s0, steps) == Some(s)
    requires c < |s.callers| && s.callers[c].Idle?
    ensures Run(json, s0, steps') == Some(s')
    ensures var mem := Mem.ApplyWrites(s.mem, op.writes);
      s' == s.(mem := mem, past := s.past + [mem], callers := s.callers[c := Snapped(op, mem)])
  {
    steps', s' := Play(json, s0, steps, s, Begin(c, op));
    steps', s' := Play(json, s0, steps', s', Update(c));
    steps', s' := Play(json, s0, steps', s', Snapshot(c));
    assert s'.callers == s.callers[c := Snapped(op, s'.mem)];
  }

  function Counting(x: int64): Store {
    Mem.Store(map[], map["c" := x])
  }

  lemma CountOnce(s: Store, x: int64)
    requires (s == Mem.EMPTY && x == 1) || (s == Counting(1) && x == 2)
    ensures Mem.ApplyWrites(s, [AddCounter("c", 1)]) == Counting(x)
  {
  }

  /**
   Two callers update, the second saves, then the first saves its older snapshot: both are told nil, and the file lags
   behind memory.
   */
  lemma StaleFile(json: Json, file: Option<Bytes>, n: nat) returns (steps: seq<Step>, s: State)
    requires Lawful(json) && n >= 2
    ensures Run(json, Start(Mem.EMPTY, file, n), steps) == Some(s)
    ensures Settled(s) && s.reports == [Report(1, false, true), Report(0, false, true)]
    ensures s.mem == Counting(2) && s.file.Some? && Holds(json, s.file.value, Counting(1))
    ensures !Synced(json, s)
  {
    var data;
    steps, s := PlayTwoUpdates(json, file, n);
    CountingOrders(1);
    CountingOrders(2);
    var s0 := Start(Mem.EMPTY, file, n);
    var one, two := Report(1, false, true), Report(0, false, true);
    assert [] + [one] == [one] && [one] + [two] == [one, two];
    steps, s, data := PlaySave(json, s0, steps, s, 1, [], ["c"]);
    steps, s, data := PlaySave(json, s0, steps, s, 0, [], ["c"]);
    NotSynced(json, s);
  }

  /** Two callers each count once and take their snapshots. */
  lemma PlayTwoUpdates(json: Json, file: Option<Bytes>, n: nat) returns (steps: seq<Step>, s: State)
    requires n >= 2
    ensures var op := Op([AddCounter("c", 1)], false);
      && Run(json, Start(Mem.EMPTY, file, n), steps) == Some(s) && s.mem == Counting(2) && s.reports == []
      && s.callers == Start(Mem.EMPTY, file, n).callers[0 := Snapped(op, Counting(1))][1 := Snapped(op, Counting(2))]
  {
    var s0 := Start(Mem.EMPTY, file, n);
    var op := Op([AddCounter("c", 1)], false);
    CountOnce(Mem.EMPTY, 1);
    CountOnce(Counting(1), 2);
    steps, s := PlayUpdate(json, s0, [], s0, 0, op);
    steps, s := PlayUpdate(json, s0, steps, s, 1, op);
  }

  lemma CountingOrders(x: int64)
    ensures Orders([], Counting(x).gauges) && Orders(["c"], Counting(x).counters) && AllFinite(Counting(x))
  {
  }

  lemma NotSynced(json: Json, s: State)
    requires Lawful(json) && s.mem == Counting(2) && s.file.Some? && Holds(json, s.file.value, Counting(1))
    ensures !Synced(json, s)
  {
    assert Counting(1).counters["c"] != Counting(2).counters["c"];
    if Synced(json, s) { HoldsOne(json, s.file.value, Counting(1), Counting(2)); }
  }

  /** A batch whose save fails is told nil all the same. */
  lemma HiddenFailure(json: Json, n: nat) returns (steps: seq<Step>, s: State)
    requires Lawful(json) && n > 0
    ensures Run(json, Start(Mem.EMPTY, None, n), steps) == Some(s)
    ensures Settled(s) && s.reports == [Report(0, true, true)] && s.file.None?
  {
    var s0 := Start(Mem.EMPTY, None, n);
    var op := Op([], true);
    assert Mem.ApplyWrites(Mem.EMPTY, []) == Mem.EMPTY;
    var data;
    steps, s := PlayUpdate(json, s0, [], s0, 0, op);
    steps, s, data := PlayEncode(json, s0, steps, s, 0, [], []);
    steps, s := Play(json, s0, steps, s, CreateTemp(0, false));
    assert s.reports == [] + [Report(0, true, true)] == [Report(0, true, true)];
  }

  /** In every run of `n` callers, when nothing is running and the latest update was told nil, the file holds memory. */
  ghost predicate NilMeansSynced(json: Json, n: nat, isBatch: bool) {
    forall mem, file, steps, s ::
      Run(json, Start(mem, file, n), steps) == Some(s) && Settled(s) && LastIsNil(s, isBatch) ==> Synced(json, s)
  }

  /** A nil can be relied on if and only if there is one caller and the update is not a batch. */
  lemma SyncedIffSequential(json: Json, n: nat, isBatch: bool)
    requires Lawful(json) && n > 0
    ensures NilMeansSynced(json, n, isBatch) <==> n == 1 && !isBatch
  {
    if isBatch {
      var steps, s := HiddenFailure(json, n);
    } else if n > 1 {
      var steps, s := StaleFile(json, None, n);
    } else {
      forall mem, file, steps, s | Run(json, Start(mem, file, n), steps) == Some(s) && Settled(s) && LastIsNil(s, false)
        ensures Synced(json, s)
      {
        OneCallerRun(json, mem, file, steps, s);
      }
    }
  }
}
