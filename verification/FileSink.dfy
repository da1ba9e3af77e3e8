/**
 `audit.FileSink`: an observer that appends one JSON line per event to a file until it is closed.
 The JSON encoder, the operating system's writes and the caller's context are parameters of each call.
 */
module FileSink {
  import opened Wrappers
  import Publisher

  type Event = Publisher.Event

  datatype Error = ContextDone | MarshalFailed | SinkClosed | WriteFailed | CloseFailed

  /** The outcome of what a `Notify` call depends on: its context, the encoder, and how many bytes the write accepts. */
  datatype Env = Env(live: bool, json: Option<string>, accepts: nat)

  datatype Contents = Contents(file: string, closed: bool)

  function Notified(s: Contents, e: Env): (Contents, Option<Error>) {
    if !e.live then (s, Some(ContextDone))
    else if e.json.None? then (s, Some(MarshalFailed))
    else if s.closed then (s, Some(SinkClosed))
    else
      var data := e.json.value + "\n";
      if e.accepts < |data| then (s.(file := s.file + data[..e.accepts]), Some(WriteFailed))
      else (s.(file := s.file + data), None)
  }

  class Sink {
    var file: string
    var closed: bool

    function State(): Contents
      reads this
    {
      Contents(file, closed)
    }

    constructor (existing: string)
      ensures State() == Contents(existing, false)
    {
      file, closed := existing, false;
    }

    method Notify(e: Env) returns (err: Option<Error>)
      modifies this
      ensures (State(), err) == Notified(old(State()), e)
    {
      if !e.live { return Some(ContextDone); }
      if e.json.None? { return Some(MarshalFailed); }
      var data := e.json.value + "\n";
      if closed { return Some(SinkClosed); }
      if e.accepts < |data| {
        file := file + data[..e.accepts];
        return Some(WriteFailed);
      }
      file := file + data;
      return None;
    }

    /** Only the first call closes the file; it leaves the sink closed even when the system reports an error. */
    method Close(ok: bool) returns (err: Option<Error>)
      modifies this
      ensures State() == old(State()).(closed := true)
      ensures err.Some? <==> !old(closed) && !ok
    {
      if closed { return None; }
      closed := true;
      if !ok { return Some(CloseFailed); }
      return None;
    }
  }

  /** A `Notify` call, or a `Close`. */
  datatype Call = NotifyCall(e: Env) | CloseCall

  function After(s: Contents, calls: seq<Call>): (Contents, seq<Option<Error>>) {
    if |calls| == 0 then (s, [])
    else
      var last := calls[|calls| - 1];
      var (t, errs) := After(s, calls[..|calls| - 1]);
      match last
      case NotifyCall(e) => var (u, err) := Notified(t, e); (u, errs + [err])
      case CloseCall => (t.(closed := true), errs + [None])
  }

  /** The lines of the calls that returned no error. */
  function Lines(calls: seq<Call>, errs: seq<Option<Error>>): string
    requires |errs| == |calls|
  {
    if |calls| == 0 then ""
    else
      var last := |calls| - 1;
      Lines(calls[..last], errs[..last]) + LineOf(calls[last], errs[last])
  }

  predicate FullWrites(calls: seq<Call>) {
    forall c :: c in calls && c.NotifyCall? && c.e.json.Some? ==> c.e.accepts > |c.e.json.value|
  }

  /** Calls made while the sink is open never meet a closed sink, and when writes are not cut short add their lines. */
  lemma {:induction false} OpenSinkAppends(s: Contents, calls: seq<Call>)
    requires !s.closed && CloseCall !in calls
    ensures var (t, errs) := After(s, calls);
      && |errs| == |calls|
      && Some(SinkClosed) !in errs
      && !t.closed
      && (FullWrites(calls) ==> t.file == s.file + Lines(calls, errs))
    decreases |calls|
  {
    if |calls| > 0 {
      var last := |calls| - 1;
      OpenSinkAppends(s, calls[..last]);
      var (t, errs) := After(s, calls[..last]);
      assert calls[last] in calls;
      AfterSnoc(s, calls, t, errs);
      OpenSinkNotified(t, calls[last].e);
      if FullWrites(calls) {
        assert FullWrites(calls[..last]);
        LinesSnoc(calls, errs, Notified(t, calls[last].e).1);
      }
    }
  }

  lemma AfterSnoc(s: Contents, calls: seq<Call>, t: Contents, errs: seq<Option<Error>>)
    requires |calls| > 0 && calls[|calls| - 1].NotifyCall? && After(s, calls[..|calls| - 1]) == (t, errs)
    ensures var (u, err) := Notified(t, calls[|calls| - 1].e); After(s, calls) == (u, errs + [err])
  {
  }

  function LineOf(c: Call, err: Option<Error>): string {
    if c.NotifyCall? && err.None? && c.e.json.Some? then c.e.json.value + "\n" else ""
  }

  lemma LinesSnoc(calls: seq<Call>, errs: seq<Option<Error>>, err: Option<Error>)
    requires |calls| > 0 && |errs| == |calls| - 1
    ensures Lines(calls, errs + [err]) == Lines(calls[..|errs|], errs) + LineOf(calls[|errs|], err)
  {
    assert (errs + [err])[..|errs|] == errs;
  }

  lemma OpenSinkNotified(t: Contents, e: Env)
    requires !t.closed
    ensures var (u, err) := Notified(t, e);
      && !u.closed && err != Some(SinkClosed)
      && ((e.json.Some? ==> e.accepts > |e.json.value|) ==> u.file == t.file + LineOf(NotifyCall(e), err))
  {
  }

  /**
   A call succeeds exactly when its context is live, the event encodes, the sink is open and the whole line goes out;
   then the file ends in that line, and otherwise in no more than a beginning of it.
   */
  lemma NotifySucceedsIff(s: Contents, e: Env)
    ensures var (t, err) := Notified(s, e);
      && t.closed == s.closed
      && (err.None? <==> e.live && e.json.Some? && !s.closed && e.accepts > |e.json.value|)
      && (err.None? ==> t.file == s.file + e.json.value + "\n")
      && (err.Some? && err != Some(WriteFailed) ==> t == s)
      && (err == Some(WriteFailed) ==> e.json.Some? && s.file <= t.file < s.file + e.json.value + "\n")
  {
    if e.json.Some? {
      var data := e.json.value + "\n";
      assert s.file + data == s.file + e.json.value + "\n";
      if e.accepts < |data| { assert s.file + data == s.file + data[..e.accepts] + data[e.accepts..]; }
    }
  }

  /**
   What the sink at observer `o` of a publisher has been asked to do, `json` and `accepts` being the environment's.
   */
  function Calls(done: seq<Publisher.Delivery>, json: Event -> Option<string>, accepts: Event -> nat): seq<Call> {
    if |done| == 0 then []
    else
      var d := done[|done| - 1];
      Calls(done[..|done| - 1], json, accepts) +
      (if d.open then [] else [CloseCall]) + [NotifyCall(Env(d.live, json(d.ev), accepts(d.ev)))]
  }

  lemma {:induction false} NoCloseAmongCalls(done: seq<Publisher.Delivery>, json: Event -> Option<string>,
      accepts: Event -> nat)
    requires forall i :: 0 <= i < |done| ==> done[i].open
    ensures CloseCall !in Calls(done, json, accepts)
    decreases |done|
  {
    if |done| > 0 {
      NoCloseAmongCalls(done[..|done| - 1], json, accepts);
      var d := done[|done| - 1];
      assert d.open;
      assert Calls(done, json, accepts) ==
        Calls(done[..|done| - 1], json, accepts) + [NotifyCall(Env(d.live, json(d.ev), accepts(d.ev)))];
    }
  }

  /** A file sink owned by a publisher never answers `ErrSinkClosed`, in any run. */
  lemma OwnedSinkNeverClosed(s0: Publisher.State, steps: seq<Publisher.Step>, s: Publisher.State, o: nat,
      existing: string, json: Event -> Option<string>, accepts: Event -> nat)
    requires Publisher.Reachable(s0, steps, s) && o < |s.obs|
    ensures Some(SinkClosed) !in After(Contents(existing, false), Calls(s.obs[o].done, json, accepts)).1
  {
    Publisher.NeverNotifiedAfterClose(s0, steps, s, o);
    var calls := Calls(s.obs[o].done, json, accepts);
    NoCloseAmongCalls(s.obs[o].done, json, accepts);
    OpenSinkAppends(Contents(existing, false), calls);
  }
}
