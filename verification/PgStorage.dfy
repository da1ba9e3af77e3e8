/**
 `pg.Storage`: one table keyed by metric id alone, with SQL NULLs, written by upserts that never change a row's type,
 in transactions repeated under `retry.Do`.
 */
module PgStorage {
  import opened Wrappers
  import opened Metrics
  import Mem = MemStorage
  import Retry

  datatype RowType = GaugeRow | CounterRow

  /** A missing `delta` or `value` is SQL NULL. */
  datatype Row = Row(typ: RowType, delta: Option<int64>, value: Option<Float>)

  type Table = map<string, Row>

  /** A server error carries an SQLSTATE code; anything else is a client-side error. */
  datatype Error = PgError(code: string) | OtherError

  const NUMERIC_VALUE_OUT_OF_RANGE := PgError("22003")
  const STRING_TOO_LONG := PgError("22001")

  /** `isRetriablePgError`: class 08 and class 40. */
  predicate IsRetriable(e: Error) {
    e.PgError? && |e.code| >= 2 && (e.code[..2] == "08" || e.code[..2] == "40")
  }

  datatype Result<T> = Ok(value: T) | Err(error: Error)

  /** NULL + x is NULL. */
  function SqlAdd(a: Option<int64>, x: int64): Result<Option<int64>> {
    if a.None? then Ok(None)
    else if IsInt64(a.value + x) then Ok(Some(a.value + x))
    else Err(NUMERIC_VALUE_OUT_OF_RANGE)
  }

  /** The upsert of one write: `VARCHAR(255)` bounds the id, and a conflict updates one column and never the type. */
  function Upsert(t: Table, w: Write): Result<Table> {
    if |w.id| > 255 then Err(STRING_TOO_LONG)
    else match w
      case SetGauge(id, v) =>
        if id in t then Ok(t[id := t[id].(value := Some(v))]) else Ok(t[id := Row(GaugeRow, None, Some(v))])
      case AddCounter(id, d) =>
        if id !in t then Ok(t[id := Row(CounterRow, Some(d), None)])
        else
          var sum := SqlAdd(t[id].delta, d);
          if sum.Err? then Err(sum.error) else Ok(t[id := t[id].(delta := sum.value)])
  }

  function Upserts(t: Table, ws: seq<Write>): Result<Table> {
    if |ws| == 0 then Ok(t)
    else
      var before := Upserts(t, ws[..|ws| - 1]);
      if before.Err? then before else Upsert(before.value, ws[|ws| - 1])
  }

  // Reading.

  function GaugeView(t: Table, id: string): Option<Float> {
    if id in t && t[id].typ.GaugeRow? then t[id].value else None
  }

  function CounterView(t: Table, id: string): Option<int64> {
    if id in t && t[id].typ.CounterRow? then t[id].delta else None
  }

  /** Rows keep the column of their own type. */
  predicate OwnColumn(t: Table) {
    forall id :: id in t ==> if t[id].typ.GaugeRow? then t[id].value.Some? else t[id].delta.Some?
  }

  /** What `GetAll` reports of a table. */
  function View(t: Table): Mem.Store {
    Mem.Store(
      map id | id in t && t[id].typ.GaugeRow? && t[id].value.Some? :: t[id].value.value,
      map id | id in t && t[id].typ.CounterRow? && t[id].delta.Some? :: t[id].delta.value)
  }

  // Against MemStorage.

  /** The kind an id was first written with. */
  function FirstKind(ws: seq<Write>, id: string): Option<RowType> {
    if |ws| == 0 then None
    else
      var before, w := FirstKind(ws[..|ws| - 1], id), ws[|ws| - 1];
      if before.Some? then before
      else if w.id != id then None
      else Some(if w.SetGauge? then GaugeRow else CounterRow)
  }

  function Lookup<V>(m: map<string, V>, id: string): Option<V> {
    if id in m then Some(m[id]) else None
  }

  /**
   After any writes, each committed once (so none overflowed), an id reads from the table as `MemStorage` has it for the
   kind it was first written with, and as absent for the other kind.
   */
  lemma {:induction false} TableRefinesMemory(ws: seq<Write>, t: Table, id: string)
    requires Upserts(map[], ws) == Ok(t)
    ensures OwnColumn(t)
    ensures var m := Mem.ApplyWrites(Mem.EMPTY, ws);
      match FirstKind(ws, id)
      case None =>
        id !in t && id !in m.gauges && id !in m.counters
      case Some(GaugeRow) =>
        && GaugeView(t, id) == Lookup(m.gauges, id) && GaugeView(t, id).Some?
        && CounterView(t, id).None? && t[id].delta.None?
      case Some(CounterRow) =>
        CounterView(t, id) == Lookup(m.counters, id) && CounterView(t, id).Some? && GaugeView(t, id).None?
    decreases |ws|
  {
    if |ws| > 0 {
      var last := |ws| - 1;
      TableRefinesMemory(ws[..last], Upserts(map[], ws[..last]).value, id);
    }
  }

  /** The id was never written as both a gauge and a counter. */
  predicate OneKind(ws: seq<Write>, id: string) {
    Mem.LastGauge(ws, id).None? || !Mem.CountsId(ws, id)
  }

  /** An id reads the same from table and memory, as either kind, if and only if it was written as one kind only. */
  lemma AgreeIffOneKind(ws: seq<Write>, t: Table, id: string)
    requires Upserts(map[], ws) == Ok(t)
    ensures var m := Mem.ApplyWrites(Mem.EMPTY, ws);
      GaugeView(t, id) == Lookup(m.gauges, id) && CounterView(t, id) == Lookup(m.counters, id) <==> OneKind(ws, id)
  {
    TableRefinesMemory(ws, t, id);
    Mem.GaugesMean(Mem.EMPTY, ws, id);
    Mem.CountersMean(Mem.EMPTY, ws, id);
  }

  lemma {:induction false} UpsertsAppend(t: Table, a: seq<Write>, b: seq<Write>)
    ensures Upserts(t, a + b) == if Upserts(t, a).Err? then Upserts(t, a) else Upserts(Upserts(t, a).value, b)
    decreases |b|
  {
    if |b| == 0 {
      assert a + b == a;
    } else {
      var last := |b| - 1;
      assert (a + b)[..|a| + last] == a + b[..last] && (a + b)[|a| + last] == b[last];
      UpsertsAppend(t, a, b[..last]);
    }
  }

  // When writes succeed.

  /** What additions to the counter column of `id` start from: its number, or 0 once an addition has made the row. */
  function Base(t: Table, ws: seq<Write>, id: string): Option<int> {
    if id in t then if t[id].delta.Some? then Some(t[id].delta.value as int) else None
    else if FirstKind(ws, id) == Some(CounterRow) then Some(0)
    else None
  }

  /** The sum in the counter column of `id` after the writes is a 64-bit number. */
  predicate Fits(t: Table, ws: seq<Write>, id: string) {
    Base(t, ws, id).Some? ==> IsInt64(Base(t, ws, id).value + Mem.SumDeltas(ws, id))
  }

  ghost predicate AllFit(t: Table, ws: seq<Write>) {
    forall k, id :: 0 <= k <= |ws| ==> Fits(t, ws[..k], id)
  }

  predicate ShortIds(ws: seq<Write>) {
    forall w :: w in ws ==> |w.id| <= 255
  }

  lemma {:induction false} NeverWritten(ws: seq<Write>, id: string)
    requires FirstKind(ws, id).None?
    ensures Mem.SumDeltas(ws, id) == 0
    decreases |ws|
  {
    if |ws| > 0 { NeverWritten(ws[..|ws| - 1], id); }
  }

  /** The counter column holds the exact sum, NULL staying NULL. */
  lemma {:induction false} StoredDelta(t: Table, ws: seq<Write>, u: Table, id: string)
    requires Upserts(t, ws) == Ok(u)
    ensures id in u <==> id in t || FirstKind(ws, id).Some?
    ensures id in u ==>
      if Base(t, ws, id).None? then u[id].delta.None?
      else u[id].delta.Some? && u[id].delta.value as int == Base(t, ws, id).value + Mem.SumDeltas(ws, id)
    decreases |ws|
  {
    if |ws| > 0 {
      var last := |ws| - 1;
      StoredDelta(t, ws[..last], Upserts(t, ws[..last]).value, id);
      if FirstKind(ws[..last], id).None? { NeverWritten(ws[..last], id); }
    }
  }

  /** One more write succeeds exactly when its id is short and its own sum fits. */
  lemma UpsertOkIff(t: Table, ws: seq<Write>, w: Write, u: Table)
    requires Upserts(t, ws) == Ok(u)
    ensures Upsert(u, w).Ok? <==> |w.id| <= 255 && Fits(t, ws + [w], w.id)
    ensures forall id :: id != w.id && Fits(t, ws, id) ==> Fits(t, ws + [w], id)
  {
    StoredDelta(t, ws, u, w.id);
    if FirstKind(ws, w.id).None? { NeverWritten(ws, w.id); }
    assert (ws + [w])[..|ws|] == ws;
  }

  lemma AllFitSnoc(t: Table, ws: seq<Write>, w: Write)
    ensures AllFit(t, ws + [w]) <==> AllFit(t, ws) && forall id :: Fits(t, ws + [w], id)
  {
    var more := ws + [w];
    assert more[..|more|] == more && forall k :: 0 <= k <= |ws| ==> more[..k] == ws[..k];
    if AllFit(t, more) {
      forall k, id | 0 <= k <= |ws| ensures Fits(t, ws[..k], id) { assert Fits(t, more[..k], id); }
      forall id ensures Fits(t, more, id) { assert Fits(t, more[..|more|], id); }
    }
    if AllFit(t, ws) && forall id :: Fits(t, more, id) {
      forall k, id | 0 <= k <= |more| ensures Fits(t, more[..k], id) {
        if k <= |ws| { assert Fits(t, ws[..k], id); }
      }
    }
  }

  /** Writes succeed exactly when every id is short and no sum on the way leaves the 64-bit range. */
  lemma {:induction false} UpsertsOkIff(t: Table, ws: seq<Write>)
    ensures Upserts(t, ws).Ok? <==> ShortIds(ws) && AllFit(t, ws)
    decreases |ws|
  {
    if |ws| > 0 {
      var before, w := ws[..|ws| - 1], ws[|ws| - 1];
      assert ws == before + [w];
      UpsertsOkIff(t, before);
      AllFitSnoc(t, before, w);
      if Upserts(t, before).Ok? {
        UpsertOkIff(t, before, w, Upserts(t, before).value);
        assert forall id :: Fits(t, before[..|before|], id);
        assert before[..|before|] == before;
      }
    }
  }

  /** Into an empty table: exactly when the sums of the ids first written as counters stay in range. */
  lemma FreshWritesOkIff(ws: seq<Write>)
    ensures Upserts(map[], ws).Ok? <==>
      ShortIds(ws) && forall k, id :: 0 <= k <= |ws| ==> SumFits(ws[..k], id)
  {
    UpsertsOkIff(map[], ws);
    forall k, id | 0 <= k <= |ws| ensures Fits(map[], ws[..k], id) <==> SumFits(ws[..k], id) {}
  }

  /** The sum of an id first written as a counter is a 64-bit number. */
  predicate SumFits(ws: seq<Write>, id: string) {
    FirstKind(ws, id) == Some(CounterRow) ==> IsInt64(Mem.SumDeltas(ws, id))
  }

  /** The calls of the `Storage` interface that write. */
  datatype Call =
    | UpdateGauge(id: string, value: Float)
    | UpdateCounter(id: string, delta: int64)
    | UpdateBatch(metrics: seq<Metric>)

  function CallWrites(c: Call): seq<Write> {
    match c
    case UpdateGauge(id, v) => [SetGauge(id, v)]
    case UpdateCounter(id, d) => [AddCounter(id, d)]
    case UpdateBatch(metrics) => BatchWrites(metrics)
  }

  function AllWrites(calls: seq<Call>): seq<Write> {
    if |calls| == 0 then [] else AllWrites(calls[..|calls| - 1]) + CallWrites(calls[|calls| - 1])
  }

  function PgRun(t: Table, calls: seq<Call>): Result<Table> {
    if |calls| == 0 then Ok(t)
    else
      var before := PgRun(t, calls[..|calls| - 1]);
      if before.Err? then before else Upserts(before.value, CallWrites(calls[|calls| - 1]))
  }

  function MemRun(s: Mem.Store, calls: seq<Call>): Mem.Store {
    if |calls| == 0 then s else Mem.ApplyWrites(MemRun(s, calls[..|calls| - 1]), CallWrites(calls[|calls| - 1]))
  }

  lemma {:induction false} RunsAreWrites(calls: seq<Call>)
    requires PgRun(map[], calls).Ok?
    ensures PgRun(map[], calls) == Upserts(map[], AllWrites(calls))
    ensures MemRun(Mem.EMPTY, calls) == Mem.ApplyWrites(Mem.EMPTY, AllWrites(calls))
    decreases |calls|
  {
    if |calls| > 0 {
      var last := |calls| - 1;
      RunsAreWrites(calls[..last]);
      UpsertsAppend(map[], AllWrites(calls[..last]), CallWrites(calls[last]));
      Mem.ApplyWritesAppend(Mem.EMPTY, AllWrites(calls[..last]), CallWrites(calls[last]));
    }
  }

  /** `TableRefinesMemory` for any list of gauge, counter and batch calls. */
  lemma StorageRefinesMemory(calls: seq<Call>, t: Table, id: string)
    requires PgRun(map[], calls) == Ok(t)
    ensures var m := MemRun(Mem.EMPTY, calls);
      match FirstKind(AllWrites(calls), id)
      case None => GaugeView(t, id).None? && CounterView(t, id).None? && id !in m.gauges && id !in m.counters
      case Some(GaugeRow) =>
        GaugeView(t, id) == Lookup(m.gauges, id) && GaugeView(t, id).Some? && CounterView(t, id).None?
      case Some(CounterRow) =>
        CounterView(t, id) == Lookup(m.counters, id) && CounterView(t, id).Some? && GaugeView(t, id).None?
  {
    RunsAreWrites(calls);
    TableRefinesMemory(AllWrites(calls), t, id);
  }

  // Transactions and retries.

  /** How a commit ends; an ambiguous one is reported as an error after the server has applied it. */
  datatype Commit = Committed | RolledBack(error: Error) | Ambiguous(error: Error)

  /** What the environment does to one attempt: an error on `BEGIN`, on the statement of metric `i`, or on `COMMIT`. */
  datatype Attempt = Attempt(begin: Option<Error>, exec: nat -> Option<Error>, commit: Commit)

  function Finish(t: Table, tx: Table, c: Commit): (Table, Option<Error>) {
    match c
    case Committed => (tx, None)
    case RolledBack(e) => (t, Some(e))
    case Ambiguous(e) => (tx, Some(e))
  }

  /** The transaction's table after the statements for `metrics`. */
  function Statements(t: Table, metrics: seq<Metric>, exec: nat -> Option<Error>): Result<Table> {
    if |metrics| == 0 then Ok(t)
    else
      var last := |metrics| - 1;
      var before, ws := Statements(t, metrics[..last], exec), WritesOf(metrics[last]);
      if before.Err? || ws == [] then before
      else if exec(last).Some? then Err(exec(last).value)
      else Upsert(before.value, ws[0])
  }

  function BatchAttempt(t: Table, metrics: seq<Metric>, a: Attempt): (Table, Option<Error>) {
    if a.begin.Some? then (t, a.begin)
    else
      var tx := Statements(t, metrics, a.exec);
      if tx.Err? then (t, Some(tx.error)) else Finish(t, tx.value, a.commit)
  }

  // Other clients write between the attempts.

  /** Of the others' writes, those that succeed, each committed by itself. */
  function Committed(t: Table, ws: seq<Write>): (r: seq<Write>)
    ensures Upserts(t, r).Ok?
  {
    if |ws| == 0 then []
    else
      var last := |ws| - 1;
      var before := Committed(t, ws[..last]);
      if Upserts(t, before + [ws[last]]).Ok? then before + [ws[last]] else before
  }

  /** The table an attempt finds. */
  function Found(t: Table, ws: seq<Write>): Table {
    Upserts(t, Committed(t, ws)).value
  }

  /** `others(i)`: what the other clients write before attempt `i`. */
  function BatchFn(metrics: seq<Metric>, attempts: nat -> Attempt, others: nat -> seq<Write>)
      : (fn: (Table, nat) -> (Table, Option<Error>))
  {
    (t: Table, i: nat) => BatchAttempt(Found(t, others(i)), metrics, attempts(i))
  }

  lemma {:induction false} StatementsErrSticks(t: Table, metrics: seq<Metric>, exec: nat -> Option<Error>, i: nat)
    requires i <= |metrics| && Statements(t, metrics[..i], exec).Err?
    ensures Statements(t, metrics, exec) == Statements(t, metrics[..i], exec)
    decreases |metrics|
  {
    if i < |metrics| {
      assert metrics[..|metrics| - 1][..i] == metrics[..i];
      StatementsErrSticks(t, metrics[..|metrics| - 1], exec, i);
    } else {
      assert metrics[..i] == metrics;
    }
  }

  /** The closure `UpdateBatch` retries: one transaction over the batch. */
  method RunTransaction(t: Table, metrics: seq<Metric>, a: Attempt) returns (t': Table, err: Option<Error>)
    ensures (t', err) == BatchAttempt(t, metrics, a)
  {
    if a.begin.Some? { return t, a.begin; }
    var tx := t;
    for i := 0 to |metrics|
      invariant Statements(t, metrics[..i], a.exec) == Ok(tx)
    {
      var m := metrics[i];
      assert metrics[..i + 1][..i] == metrics[..i] && metrics[..i + 1][i] == m;
      var ws := WritesOf(m);
      if ws != [] {
        var done := if a.exec(i).Some? then Err(a.exec(i).value) else Upsert(tx, ws[0]);
        if done.Err? {
          StatementsErrSticks(t, metrics, a.exec, i + 1);
          return t, Some(done.error);
        }
        tx := done.value;
      }
    }
    assert metrics[..|metrics|] == metrics;
    var end := Finish(t, tx, a.commit);
    return end.0, end.1;
  }

  class PgStorage {
    var table: Table

    constructor ()
      ensures table == map[]
    {
      table := map[];
    }

    /** Other clients may write to the table before each attempt. */
    method UpdateBatch(metrics: seq<Metric>, attempts: nat -> Attempt, others: nat -> seq<Write>, waits: nat -> bool)
        returns (err: Option<Error>)
      modifies this
      ensures var r := Retry.Attempts(old(table), 0, BatchFn(metrics, attempts, others), IsRetriable, waits);
        table == r.0 && err == r.1
    {
      var n;
      table, err, n := Retry.Do(table, BatchFn(metrics, attempts, others), IsRetriable, waits);
    }

    /** `UpdateGauge` and `UpdateCounter`: a single statement, committed by itself. */
    method UpdateOne(w: Write, attempts: nat -> Commit, others: nat -> seq<Write>, waits: nat -> bool)
        returns (err: Option<Error>)
      modifies this
      ensures var r := Retry.Attempts(old(table), 0, StatementFn(w, attempts, others), IsRetriable, waits);
        table == r.0 && err == r.1
    {
      var n;
      table, err, n := Retry.Do(table, StatementFn(w, attempts, others), IsRetriable, waits);
    }
  }

  function StatementAttempt(t: Table, w: Write, c: Commit): (Table, Option<Error>) {
    var u := Upsert(t, w);
    if u.Err? then (t, Some(u.error)) else Finish(t, u.value, c)
  }

  function StatementFn(w: Write, attempts: nat -> Commit, others: nat -> seq<Write>)
      : (fn: (Table, nat) -> (Table, Option<Error>))
  {
    (t: Table, i: nat) => StatementAttempt(Found(t, others(i)), w, attempts(i))
  }

  lemma {:induction false} StatementsAreUpserts(t: Table, metrics: seq<Metric>, exec: nat -> Option<Error>)
    requires Statements(t, metrics, exec).Ok?
    ensures Statements(t, metrics, exec) == Upserts(t, BatchWrites(metrics))
    decreases |metrics|
  {
    if |metrics| > 0 {
      var last := |metrics| - 1;
      StatementsAreUpserts(t, metrics[..last], exec);
      var ws := WritesOf(metrics[last]);
      UpsertsAppend(t, BatchWrites(metrics[..last]), ws);
      if |ws| == 1 { assert ws[..0] == []; }
    }
  }

  function Applied(t: Table, ws: seq<Write>): Table {
    var r := Upserts(t, ws);
    if r.Ok? then r.value else t
  }

  /**
   The writes that reach the table while a batch with the writes `ws` is retried: those of the others in their order,
   and after them, for each attempt that took effect, the whole batch.
   */
  function Log(t: Table, ws: seq<Write>, others: nat -> seq<Write>, took: seq<bool>): seq<Write> {
    if |took| == 0 then []
    else
      var last := |took| - 1;
      var before := Log(t, ws, others, took[..last]);
      before + Committed(Applied(t, before), others(last)) + if took[last] then ws else []
  }

  /** The attempt was committed, reported or not. */
  predicate TookEffect(t: Table, metrics: seq<Metric>, a: Attempt) {
    a.begin.None? && Statements(t, metrics, a.exec).Ok? && !a.commit.RolledBack?
  }

  lemma FailureIsRollback(t: Table, metrics: seq<Metric>, a: Attempt)
    requires BatchAttempt(t, metrics, a).1.Some? && !a.commit.Ambiguous?
    ensures !TookEffect(t, metrics, a)
  {
  }

  /** No statement that is executed fails; a metric without a value executes none. */
  predicate NoFailure(metrics: seq<Metric>, exec: nat -> Option<Error>) {
    forall i :: 0 <= i < |metrics| && WritesOf(metrics[i]) != [] ==> exec(i).None?
  }

  lemma {:induction false} StatementsOkIff(t: Table, metrics: seq<Metric>, exec: nat -> Option<Error>)
    ensures Statements(t, metrics, exec).Ok? <==>
      NoFailure(metrics, exec) && Upserts(t, BatchWrites(metrics)).Ok?
    decreases |metrics|
  {
    if |metrics| > 0 {
      var before, m := metrics[..|metrics| - 1], metrics[|metrics| - 1];
      StatementsOkIff(t, before, exec);
      UpsertsAppend(t, BatchWrites(before), WritesOf(m));
      NoFailureSnoc(metrics, exec);
      if Statements(t, before, exec).Ok? {
        StatementsAreUpserts(t, before, exec);
        LastOkIff(t, metrics, exec);
      }
    }
  }

  lemma NoFailureSnoc(metrics: seq<Metric>, exec: nat -> Option<Error>)
    requires |metrics| > 0
    ensures var last := |metrics| - 1;
      NoFailure(metrics, exec) <==>
        NoFailure(metrics[..last], exec) && (WritesOf(metrics[last]) != [] ==> exec(last).None?)
  {
    var last := |metrics| - 1;
    assert forall i :: 0 <= i < last ==> metrics[..last][i] == metrics[i];
    if NoFailure(metrics, exec) {
      forall i | 0 <= i < last && WritesOf(metrics[..last][i]) != [] ensures exec(i).None? {
        assert WritesOf(metrics[i]) != [];
      }
    }
  }

  lemma LastOkIff(t: Table, metrics: seq<Metric>, exec: nat -> Option<Error>)
    requires |metrics| > 0 && Statements(t, metrics[..|metrics| - 1], exec).Ok?
    ensures var last := |metrics| - 1; var before := Statements(t, metrics[..last], exec).value;
      Statements(t, metrics, exec).Ok? <==>
        (WritesOf(metrics[last]) != [] ==> exec(last).None?) && Upserts(before, WritesOf(metrics[last])).Ok?
  {
    var ws := WritesOf(metrics[|metrics| - 1]);
    if ws != [] { assert ws == [ws[0]] && ws[..0] == []; }
  }

  /**
   An attempt returns nil exactly when `BEGIN` succeeds, no statement it executes fails, every write is possible and the
   commit is confirmed.
   */
  lemma AttemptSucceedsIff(t: Table, metrics: seq<Metric>, a: Attempt)
    ensures BatchAttempt(t, metrics, a).1.None? <==>
      && a.begin.None? && a.commit.Committed?
      && NoFailure(metrics, a.exec)
      && ShortIds(BatchWrites(metrics)) && AllFit(t, BatchWrites(metrics))
  {
    StatementsOkIff(t, metrics, a.exec);
    UpsertsOkIff(t, BatchWrites(metrics));
  }

  /** The connection failed, or the transaction was rolled back for another one's sake: SQLSTATE classes 08 and 40. */
  predicate Transient(e: Error) {
    e.PgError? && ("08" <= e.code || "40" <= e.code)
  }

  /**
   However a call goes, it is tried again exactly after a transient error, while its context lives, up to four times in
   all, and it returns what the last attempt did.
   */
  lemma RetriedIff(t: Table, fn: (Table, nat) -> (Table, Option<Error>), waits: nat -> bool)
    ensures var (u, err, n) := Retry.Attempts(t, 0, fn, IsRetriable, waits);
      && 1 <= n <= 4
      && (forall i :: 0 <= i < n - 1 ==>
            Retry.ErrorOf(t, i, fn).Some? && Transient(Retry.ErrorOf(t, i, fn).value) && waits(i))
      && (n == 4 || err.None? || !Transient(err.value) || !waits(n - 1))
      && u == Retry.StateAfter(t, n, fn) && err == Retry.ErrorOf(t, n - 1, fn)
  {
    Retry.AttemptsStop(t, 0, fn, IsRetriable, waits);
    assert Retry.StateAfter(t, 0, fn) == t;
    forall e ensures IsRetriable(e) <==> Transient(e) { TransientClass(e); }
  }

  lemma TransientClass(e: Error)
    ensures IsRetriable(e) <==> Transient(e)
  {
    if e.PgError? && |e.code| >= 2 {
      assert "08" <= e.code <==> e.code[..2] == "08";
      assert "40" <= e.code <==> e.code[..2] == "40";
    }
  }

  /** A batch the table cannot take is refused by the first attempt, if no failure ends that, and not tried again. */
  lemma DataErrorIsFinal(t: Table, metrics: seq<Metric>, attempts: nat -> Attempt, others: nat -> seq<Write>,
      waits: nat -> bool)
    requires attempts(0).begin.None? && NoFailure(metrics, attempts(0).exec)
    requires !(ShortIds(BatchWrites(metrics)) && AllFit(Found(t, others(0)), BatchWrites(metrics)))
    ensures var (u, err, n) := Retry.Attempts(t, 0, BatchFn(metrics, attempts, others), IsRetriable, waits);
      n == 1 && u == Found(t, others(0)) && err.Some? && err.value in {NUMERIC_VALUE_OUT_OF_RANGE, STRING_TOO_LONG}
  {
    var fn := BatchFn(metrics, attempts, others);
    RefusedAttempt(Found(t, others(0)), metrics, attempts(0));
    assert fn(t, 0) == BatchAttempt(Found(t, others(0)), metrics, attempts(0));
    DataErrorsAreFinal();
    FinalAttempt(t, fn, waits);
  }

  lemma DataErrorsAreFinal()
    ensures !IsRetriable(NUMERIC_VALUE_OUT_OF_RANGE) && !IsRetriable(STRING_TOO_LONG)
  {
    assert "22003"[0] == '2' && "22001"[0] == '2' && "08"[0] == '0' && "40"[0] == '4';
    assert "22003"[..2][0] == '2' && "22001"[..2][0] == '2';
  }

  lemma RefusedAttempt(t: Table, metrics: seq<Metric>, a: Attempt)
    requires a.begin.None? && NoFailure(metrics, a.exec)
    requires !(ShortIds(BatchWrites(metrics)) && AllFit(t, BatchWrites(metrics)))
    ensures BatchAttempt(t, metrics, a) in
      {(t, Some(NUMERIC_VALUE_OUT_OF_RANGE)), (t, Some(STRING_TOO_LONG))}
  {
    StatementsOkIff(t, metrics, a.exec);
    UpsertsOkIff(t, BatchWrites(metrics));
    StatementsError(t, metrics, a.exec);
  }

  lemma FinalAttempt(t: Table, fn: (Table, nat) -> (Table, Option<Error>), waits: nat -> bool)
    requires fn(t, 0).1.Some? && !IsRetriable(fn(t, 0).1.value)
    ensures Retry.Attempts(t, 0, fn, IsRetriable, waits) == (fn(t, 0).0, fn(t, 0).1, 1)
  {
  }

  lemma {:induction false} StatementsError(t: Table, metrics: seq<Metric>, exec: nat -> Option<Error>)
    requires NoFailure(metrics, exec) && Statements(t, metrics, exec).Err?
    ensures Statements(t, metrics, exec).error in {NUMERIC_VALUE_OUT_OF_RANGE, STRING_TOO_LONG}
    decreases |metrics|
  {
    var last := |metrics| - 1;
    if Statements(t, metrics[..last], exec).Err? { StatementsError(t, metrics[..last], exec); }
  }

  /** A failed serialization or connection is tried again, and a clean second attempt then returns nil. */
  lemma TransientFailure(t: Table, metrics: seq<Metric>, attempts: nat -> Attempt, others: nat -> seq<Write>,
      waits: nat -> bool, code: string)
    requires |code| == 5 && (code[..2] == "40" || code[..2] == "08") && waits(0)
    requires attempts(0).begin == Some(PgError(code)) || (attempts(0).begin.None? &&
      Statements(Found(t, others(0)), metrics, attempts(0).exec).Ok? && attempts(0).commit == RolledBack(PgError(code)))
    requires BatchAttempt(Found(Found(t, others(0)), others(1)), metrics, attempts(1)).1.None?
    ensures var r := Retry.Attempts(t, 0, BatchFn(metrics, attempts, others), IsRetriable, waits);
      r.1.None? && r.2 == 2
  {
  }

  /** Any other error of the database, and every error of the client, is final. */
  lemma OtherFailure(t: Table, metrics: seq<Metric>, attempts: nat -> Attempt, others: nat -> seq<Write>,
      waits: nat -> bool, e: Error)
    requires BatchAttempt(Found(t, others(0)), metrics, attempts(0)).1 == Some(e)
    requires e.OtherError? || |e.code| < 2 || e.code[..2] !in {"40", "08"}
    ensures var r := Retry.Attempts(t, 0, BatchFn(metrics, attempts, others), IsRetriable, waits);
      r.1 == Some(e) && r.2 == 1
  {
  }

  /** The table after the first `n` attempts. */
  function AfterAttempts(t: Table, metrics: seq<Metric>, attempts: nat -> Attempt, others: nat -> seq<Write>, n: nat)
      : Table
    decreases n, 0
  {
    if n == 0 then t else BatchAttempt(FoundAt(t, metrics, attempts, others, n - 1), metrics, attempts(n - 1)).0
  }

  /** The table that attempt `i` finds. */
  function FoundAt(t: Table, metrics: seq<Metric>, attempts: nat -> Attempt, others: nat -> seq<Write>, i: nat): Table
    decreases i, 1
  {
    Found(AfterAttempts(t, metrics, attempts, others, i), others(i))
  }

  lemma {:induction false} AfterAttemptsIsState(t: Table, metrics: seq<Metric>, attempts: nat -> Attempt,
      others: nat -> seq<Write>, n: nat)
    ensures AfterAttempts(t, metrics, attempts, others, n) ==
      Retry.StateAfter(t, n, BatchFn(metrics, attempts, others))
  {
    if n > 0 { AfterAttemptsIsState(t, metrics, attempts, others, n - 1); }
  }

  lemma ErrorOfAttempt(t: Table, metrics: seq<Metric>, attempts: nat -> Attempt, others: nat -> seq<Write>, i: nat)
    ensures Retry.ErrorOf(t, i, BatchFn(metrics, attempts, others)) ==
      BatchAttempt(FoundAt(t, metrics, attempts, others, i), metrics, attempts(i)).1
  {
    AfterAttemptsIsState(t, metrics, attempts, others, i);
  }

  /** Which of the first `n` attempts took effect. */
  function Took(t: Table, metrics: seq<Metric>, attempts: nat -> Attempt, others: nat -> seq<Write>, n: nat)
      : (r: seq<bool>)
    ensures |r| == n
    ensures forall i :: 0 <= i < n ==>
      r[i] == TookEffect(FoundAt(t, metrics, attempts, others, i), metrics, attempts(i))
  {
    if n == 0 then []
    else
      Took(t, metrics, attempts, others, n - 1) +
        [TookEffect(FoundAt(t, metrics, attempts, others, n - 1), metrics, attempts(n - 1))]
  }

  lemma LogRound(t: Table, metrics: seq<Metric>, others: nat -> seq<Write>, took: seq<bool>, u: Table, a: Attempt)
    requires Upserts(t, Log(t, BatchWrites(metrics), others, took)) == Ok(u)
    ensures var found := Found(u, others(|took|));
      Upserts(t, Log(t, BatchWrites(metrics), others, took + [TookEffect(found, metrics, a)])) ==
        Ok(BatchAttempt(found, metrics, a).0)
  {
    var ws := BatchWrites(metrics);
    LogOneMore(t, metrics, Log(t, ws, others, took), u, others(|took|), a);
    LogSnoc(t, ws, others, took, TookEffect(Found(u, others(|took|)), metrics, a), u);
  }

  /** The log makes the table that the attempts make. */
  lemma {:induction false} AttemptsAreLogged(t: Table, metrics: seq<Metric>, attempts: nat -> Attempt,
      others: nat -> seq<Write>, n: nat)
    ensures var took := Took(t, metrics, attempts, others, n);
      Upserts(t, Log(t, BatchWrites(metrics), others, took)) == Ok(AfterAttempts(t, metrics, attempts, others, n))
    decreases n
  {
    if n > 0 {
      var before := Took(t, metrics, attempts, others, n - 1);
      var u := AfterAttempts(t, metrics, attempts, others, n - 1);
      AttemptsAreLogged(t, metrics, attempts, others, n - 1);
      LogRound(t, metrics, others, before, u, attempts(n - 1));
      assert FoundAt(t, metrics, attempts, others, n - 1) == Found(u, others(n - 1));
    }
  }

  lemma LogSnoc(t: Table, ws: seq<Write>, others: nat -> seq<Write>, took: seq<bool>, last: bool, u: Table)
    requires Upserts(t, Log(t, ws, others, took)) == Ok(u)
    ensures Log(t, ws, others, took + [last]) ==
      Log(t, ws, others, took) + Committed(u, others(|took|)) + if last then ws else []
  {
    assert (took + [last])[..|took|] == took;
  }

  lemma LogOneMore(t: Table, metrics: seq<Metric>, log: seq<Write>, u: Table, other: seq<Write>, a: Attempt)
    requires Upserts(t, log) == Ok(u)
    ensures var more := if TookEffect(Found(u, other), metrics, a) then BatchWrites(metrics) else [];
      Upserts(t, log + Committed(u, other) + more) == Ok(BatchAttempt(Found(u, other), metrics, a).0)
  {
    var found, more := Found(u, other), if TookEffect(Found(u, other), metrics, a) then BatchWrites(metrics) else [];
    UpsertsAppend(t, log, Committed(u, other));
    UpsertsAppend(t, log + Committed(u, other), more);
    OneAttempt(found, metrics, a);
    assert Upserts(found, []) == Ok(found);
  }

  /** An attempt leaves the table alone or applies the whole batch to it. */
  lemma OneAttempt(t: Table, metrics: seq<Metric>, a: Attempt)
    ensures if TookEffect(t, metrics, a) then Upserts(t, BatchWrites(metrics)) == Ok(BatchAttempt(t, metrics, a).0)
      else BatchAttempt(t, metrics, a).0 == t
  {
    if Statements(t, metrics, a.exec).Ok? { StatementsAreUpserts(t, metrics, a.exec); }
  }

  /**
   A retried batch is atomic and bounded, whatever other clients write meanwhile: the table is made by the others'
   writes with the whole batch among them once for each of the at most 4 attempts that took effect. Success means that
   the last one did. With no ambiguous commit, none but the last did, and it did exactly on success.
   */
  lemma BatchAtomicAndBounded(t0: Table, metrics: seq<Metric>, attempts: nat -> Attempt, others: nat -> seq<Write>,
      waits: nat -> bool) returns (took: seq<bool>)
    ensures var (t, err, n) := Retry.Attempts(t0, 0, BatchFn(metrics, attempts, others), IsRetriable, waits);
      && took == Took(t0, metrics, attempts, others, n) && 1 <= n <= 4
      && Upserts(t0, Log(t0, BatchWrites(metrics), others, took)) == Ok(t)
      && (err.None? ==> took[n - 1])
      && ((forall i :: 0 <= i < n ==> !attempts(i).commit.Ambiguous?) ==>
            forall i :: 0 <= i < n ==> (took[i] <==> i == n - 1 && err.None?))
  {
    var fn := BatchFn(metrics, attempts, others);
    assert Retry.StateAfter(t0, 0, fn) == t0;
    Retry.AttemptsStop(t0, 0, fn, IsRetriable, waits);
    var n := Retry.Attempts(t0, 0, fn, IsRetriable, waits).2;
    took := Took(t0, metrics, attempts, others, n);
    AttemptsAreLogged(t0, metrics, attempts, others, n);
    AfterAttemptsIsState(t0, metrics, attempts, others, n);
    TookMeans(t0, metrics, attempts, others, waits, n);
  }

  lemma TookMeans(t0: Table, metrics: seq<Metric>, attempts: nat -> Attempt, others: nat -> seq<Write>,
      waits: nat -> bool, n: nat)
    requires Retry.Stops(t0, n, BatchFn(metrics, attempts, others), IsRetriable, waits)
    ensures
      var took := Took(t0, metrics, attempts, others, n);
      var err := Retry.ErrorOf(t0, n - 1, BatchFn(metrics, attempts, others));
      && (err.None? ==> took[n - 1])
      && ((forall i :: 0 <= i < n ==> !attempts(i).commit.Ambiguous?) ==>
            forall i :: 0 <= i < n ==> (took[i] <==> i == n - 1 && err.None?))
  {
    ErrorOfAttempt(t0, metrics, attempts, others, n - 1);
    if forall i :: 0 <= i < n ==> !attempts(i).commit.Ambiguous? {
      forall i | 0 <= i < n - 1 ensures !Took(t0, metrics, attempts, others, n)[i] {
        assert Retry.ErrorOf(t0, i, BatchFn(metrics, attempts, others)).Some?;
        ErrorOfAttempt(t0, metrics, attempts, others, i);
        FailureIsRollback(FoundAt(t0, metrics, attempts, others, i), metrics, attempts(i));
      }
    }
  }

  // A single update is a batch of one.

  function MetricOf(w: Write): Metric {
    match w
    case SetGauge(id, v) => Metric(id, GAUGE, None, Some(v), "")
    case AddCounter(id, d) => Metric(id, COUNTER, Some(d), None, "")
  }

  function Alone(attempts: nat -> Commit): (r: nat -> Attempt) {
    (i: nat) => Attempt(None, (j: nat) => None, attempts(i))
  }

  lemma SingleIsBatch(t: Table, w: Write, attempts: nat -> Commit, others: nat -> seq<Write>, i: nat)
    ensures StatementFn(w, attempts, others)(t, i) == BatchFn([MetricOf(w)], Alone(attempts), others)(t, i)
  {
    KindsDiffer();
    var a, found := Alone(attempts)(i), Found(t, others(i));
    OneStatement(found, MetricOf(w), w, a.exec);
    assert BatchAttempt(found, [MetricOf(w)], a) == StatementAttempt(found, w, attempts(i));
  }

  lemma OneStatement(t: Table, m: Metric, w: Write, exec: nat -> Option<Error>)
    requires WritesOf(m) == [w] && exec(0).None?
    ensures Statements(t, [m], exec) == Upsert(t, w)
  {
    assert [m][..0] == [];
    assert Statements(t, [], exec) == Ok(t);
  }

  /** A retried single update is atomic and bounded in the same way. */
  lemma SingleAtomicAndBounded(t0: Table, w: Write, attempts: nat -> Commit, others: nat -> seq<Write>,
      waits: nat -> bool) returns (took: seq<bool>)
    ensures var (t, err, n) := Retry.Attempts(t0, 0, StatementFn(w, attempts, others), IsRetriable, waits);
      && |took| == n && 1 <= n <= 4
      && Upserts(t0, Log(t0, [w], others, took)) == Ok(t)
      && (err.None? ==> took[n - 1])
      && ((forall i :: 0 <= i < n ==> !attempts(i).Ambiguous?) ==>
            forall i :: 0 <= i < n ==> (took[i] <==> i == n - 1 && err.None?))
  {
    var ms, batch := [MetricOf(w)], Alone(attempts);
    forall t: Table, i: nat ensures StatementFn(w, attempts, others)(t, i) == BatchFn(ms, batch, others)(t, i) {
      SingleIsBatch(t, w, attempts, others, i);
    }
    Retry.AttemptsSame(t0, 0, StatementFn(w, attempts, others), BatchFn(ms, batch, others), IsRetriable, waits);
    took := BatchAtomicAndBounded(t0, ms, batch, others, waits);
    OneMetricWrites(w);
    assert forall i: nat :: batch(i).commit == attempts(i);
  }

  lemma OneMetricWrites(w: Write)
    ensures BatchWrites([MetricOf(w)]) == [w]
  {
    KindsDiffer();
    assert [MetricOf(w)][..0] == [];
    assert BatchWrites([]) + [w] == [w];
  }

  // What applying a batch more than once amounts to.

  predicate GaugesOnly(ws: seq<Write>) {
    forall w :: w in ws ==> w.SetGauge?
  }

  lemma {:induction false} GaugeUpserts(t: Table, ws: seq<Write>, u: Table, id: string)
    requires GaugesOnly(ws) && Upserts(t, ws) == Ok(u)
    ensures var last := Mem.LastGauge(ws, id);
      && (id in u <==> id in t || last.Some?)
      && (id in u ==>
            u[id] == if last.None? then t[id] else if id in t then t[id].(value := last) else Row(GaugeRow, None, last))
    decreases |ws|
  {
    if |ws| > 0 {
      var last := |ws| - 1;
      assert ws[last] in ws;
      GaugeUpserts(t, ws[..last], Upserts(t, ws[..last]).value, id);
    }
  }

  lemma {:induction false} GaugeUpsertsOk(t: Table, ws: seq<Write>)
    requires GaugesOnly(ws)
    ensures Upserts(t, ws).Ok? <==> forall w :: w in ws ==> |w.id| <= 255
    decreases |ws|
  {
    if |ws| > 0 {
      var last := |ws| - 1;
      assert ws == ws[..last] + [ws[last]];
      GaugeUpsertsOk(t, ws[..last]);
    }
  }

  /** How many attempts took effect. */
  function Count(took: seq<bool>): nat {
    if |took| == 0 then 0 else Count(took[..|took| - 1]) + if took[|took| - 1] then 1 else 0
  }

  predicate Mentions(ws: seq<Write>, id: string) {
    exists w :: w in ws && w.id == id
  }

  function RowAt(t: Table, id: string): Option<Row> {
    if id in t then Some(t[id]) else None
  }

  lemma {:induction false} UpsertsElsewhere(t: Table, ws: seq<Write>, u: Table, id: string)
    requires Upserts(t, ws) == Ok(u) && !Mentions(ws, id)
    ensures RowAt(u, id) == RowAt(t, id)
    decreases |ws|
  {
    if |ws| > 0 {
      var last := |ws| - 1;
      assert ws[last] in ws && !Mentions(ws[..last], id);
      UpsertsElsewhere(t, ws[..last], Upserts(t, ws[..last]).value, id);
    }
  }

  lemma {:induction false} CommittedAmong(t: Table, ws: seq<Write>, id: string)
    requires !Mentions(ws, id)
    ensures !Mentions(Committed(t, ws), id)
    decreases |ws|
  {
    if |ws| > 0 {
      assert ws[|ws| - 1] in ws && !Mentions(ws[..|ws| - 1], id);
      CommittedAmong(t, ws[..|ws| - 1], id);
    }
  }

  /** Once a batch of gauges has been applied, applying it again changes no row. */
  lemma GaugesAgain(t: Table, ws: seq<Write>, u: Table, v: Table, id: string)
    requires GaugesOnly(ws) && Upserts(t, ws) == Ok(u) && RowAt(v, id) == RowAt(u, id)
    requires Upserts(v, ws).Ok?
    ensures RowAt(Upserts(v, ws).value, id) == RowAt(u, id)
  {
    GaugeUpserts(t, ws, u, id);
    GaugeUpserts(v, ws, Upserts(v, ws).value, id);
  }

  /** A batch of gauges does the same to rows like these. */
  lemma GaugesAlike(t: Table, ws: seq<Write>, v: Table, id: string)
    requires GaugesOnly(ws) && RowAt(v, id) == RowAt(t, id) && Upserts(t, ws).Ok? && Upserts(v, ws).Ok?
    ensures RowAt(Upserts(v, ws).value, id) == RowAt(Upserts(t, ws).value, id)
  {
    GaugeUpserts(t, ws, Upserts(t, ws).value, id);
    GaugeUpserts(v, ws, Upserts(v, ws).value, id);
  }

  /** One more application, to a table whose row is as after one or as at the start. */
  lemma GaugeRound(t: Table, ws: seq<Write>, done: bool, found: Table, u: Table, id: string)
    requires GaugesOnly(ws) && Upserts(found, ws) == Ok(u) && (done ==> Upserts(t, ws).Ok?)
    requires RowAt(found, id) == RowAt(if done then Upserts(t, ws).value else t, id)
    ensures Upserts(t, ws).Ok? && RowAt(u, id) == RowAt(Upserts(t, ws).value, id)
  {
    GaugeUpsertsOk(found, ws);
    GaugeUpsertsOk(t, ws);
    if done { GaugesAgain(t, ws, Upserts(t, ws).value, found, id); } else { GaugesAlike(t, ws, found, id); }
  }

  /** The three parts of the last round of a log. */
  lemma LastRound(t: Table, ws: seq<Write>, others: nat -> seq<Write>, took: seq<bool>, u: Table)
      returns (before: Table, found: Table)
    requires |took| > 0 && Upserts(t, Log(t, ws, others, took)) == Ok(u)
    ensures var last := |took| - 1;
      && Upserts(t, Log(t, ws, others, took[..last])) == Ok(before)
      && Upserts(before, Committed(before, others(last))) == Ok(found)
      && if took[last] then Upserts(found, ws) == Ok(u) else u == found
  {
    var last := |took| - 1;
    var log := Log(t, ws, others, took[..last]);
    var other, more := Committed(Applied(t, log), others(last)), if took[last] then ws else [];
    UpsertsAppend(t, log + other, more);
    UpsertsAppend(t, log, other);
    before, found := Upserts(t, log).value, Upserts(t, log + other).value;
    assert Upserts(found, []) == Ok(found);
  }

  /**
   A batch of gauges does no more when applied several times: a row that no other client writes meanwhile is as after
   one application to the table at the start, or as at the start when no attempt took effect.
   */
  lemma {:induction false} GaugeBatchIdempotent(t: Table, ws: seq<Write>, others: nat -> seq<Write>, took: seq<bool>,
      u: Table, id: string)
    requires GaugesOnly(ws) && Upserts(t, Log(t, ws, others, took)) == Ok(u)
    requires forall i :: 0 <= i < |took| ==> !Mentions(others(i), id)
    ensures Count(took) > 0 ==> Upserts(t, ws).Ok?
    ensures RowAt(u, id) == RowAt(if Count(took) > 0 then Upserts(t, ws).value else t, id)
    decreases |took|
  {
    if |took| > 0 {
      var last := |took| - 1;
      var before, found := LastRound(t, ws, others, took, u);
      GaugeBatchIdempotent(t, ws, others, took[..last], before, id);
      CommittedAmong(before, others(last), id);
      UpsertsElsewhere(before, Committed(before, others(last)), found, id);
      if took[last] { GaugeRound(t, ws, Count(took[..last]) > 0, found, u, id); }
    }
  }

  lemma {:induction false} UpsertsCount(t: Table, ws: seq<Write>, u: Table, id: string)
    requires Upserts(t, ws) == Ok(u) && CounterView(t, id).Some?
    ensures CounterView(u, id).Some? && CounterView(u, id).value == CounterView(t, id).value + Mem.SumDeltas(ws, id)
    decreases |ws|
  {
    if |ws| > 0 { UpsertsCount(t, ws[..|ws| - 1], Upserts(t, ws[..|ws| - 1]).value, id); }
  }

  /** What the other clients add to the counter in the course of the log. */
  function OthersAdd(t: Table, ws: seq<Write>, others: nat -> seq<Write>, took: seq<bool>, id: string): int {
    if |took| == 0 then 0
    else
      var last := |took| - 1;
      OthersAdd(t, ws, others, took[..last], id)
        + Mem.SumDeltas(Committed(Applied(t, Log(t, ws, others, took[..last])), others(last)), id)
  }

  lemma OneMore(k: nat, x: int)
    ensures (k + 1) * x == k * x + x
  {
  }

  lemma CountStep(took: seq<bool>, x: int)
    requires |took| > 0
    ensures Count(took) * x == Count(took[..|took| - 1]) * x + if took[|took| - 1] then x else 0
  {
    OneMore(Count(took[..|took| - 1]), x);
  }

  /**
   A counter counts the batch once for every time it was applied, the ambiguous commits included, beside what the other
   clients add.
   */
  lemma {:induction false} CounterCounts(t: Table, ws: seq<Write>, others: nat -> seq<Write>, took: seq<bool>, u: Table,
      id: string)
    requires Upserts(t, Log(t, ws, others, took)) == Ok(u) && CounterView(t, id).Some?
    ensures CounterView(u, id).Some?
    ensures CounterView(u, id).value == CounterView(t, id).value
      + Count(took) * Mem.SumDeltas(ws, id) + OthersAdd(t, ws, others, took, id)
    decreases |took|
  {
    if |took| > 0 {
      var last := |took| - 1;
      var before, found := LastRound(t, ws, others, took, u);
      CounterCounts(t, ws, others, took[..last], before, id);
      UpsertsCount(before, Committed(before, others(last)), found, id);
      if took[last] { UpsertsCount(found, ws, u, id); }
      CountStep(took, Mem.SumDeltas(ws, id));
    }
  }

  // Reading everything, with writers between the attempts.

  /** One attempt of `GetAll`: the rows received, and the error that cut them short, if any. */
  datatype Read = Read(order: seq<string>, err: Option<Error>)

  function ScanRow(acc: Mem.Store, id: string, row: Row): Mem.Store {
    match row.typ
    case GaugeRow => if row.value.Some? then acc.(gauges := acc.gauges[id := row.value.value]) else acc
    case CounterRow => if row.delta.Some? then acc.(counters := acc.counters[id := row.delta.value]) else acc
  }

  function ScanRows(acc: Mem.Store, t: Table, order: seq<string>): Mem.Store {
    if |order| == 0 then acc
    else
      var before, id := ScanRows(acc, t, order[..|order| - 1]), order[|order| - 1];
      if id in t then ScanRow(before, id, t[id]) else before
  }

  /** Writers never remove a row, change a type or clear the column of a row's own type. */
  predicate Grows(t: Table, u: Table) {
    (forall id :: id in t ==> id in u && u[id].typ == t[id].typ) && (OwnColumn(t) ==> OwnColumn(u))
  }

  lemma {:induction false} WritersGrow(t: Table, ws: seq<Write>, u: Table)
    requires Upserts(t, ws) == Ok(u)
    ensures Grows(t, u)
    decreases |ws|
  {
    if |ws| > 0 { WritersGrow(t, ws[..|ws| - 1], Upserts(t, ws[..|ws| - 1]).value); }
  }

  /** The accumulated maps hold only ids of rows of the right type. */
  predicate Within(acc: Mem.Store, t: Table) {
    && (forall id :: id in acc.gauges ==> id in t && t[id].typ.GaugeRow?)
    && (forall id :: id in acc.counters ==> id in t && t[id].typ.CounterRow?)
  }

  lemma {:induction false} ScanWithin(acc: Mem.Store, t: Table, order: seq<string>)
    requires Within(acc, t) && OwnColumn(t)
    ensures var r := ScanRows(acc, t, order);
      && Within(r, t)
      && forall id :: id in order && id in t ==>
           if t[id].typ.GaugeRow? then id in r.gauges && Some(r.gauges[id]) == t[id].value
           else id in r.counters && Some(r.counters[id]) == t[id].delta
    decreases |order|
  {
    if |order| > 0 {
      var last := |order| - 1;
      assert order == order[..last] + [order[last]];
      ScanWithin(acc, t, order[..last]);
    }
  }

  function ReadAttempt(tables: nat -> Table, scans: nat -> Read): (fn: (Mem.Store, nat) -> (Mem.Store, Option<Error>)) {
    (acc: Mem.Store, i: nat) => (ScanRows(acc, tables(i), scans(i).order), scans(i).err)
  }

  ghost predicate Written(t: Table, u: Table) {
    exists ws :: Upserts(t, ws) == Ok(u)
  }

  predicate Complete(t: Table, r: Read) {
    r.err.None? ==> forall id :: id in t ==> id in r.order
  }

  /** Between attempts other clients write; a complete read has received every row. */
  ghost predicate Interleaving(tables: nat -> Table, scans: nat -> Read) {
    && OwnColumn(tables(0))
    && (forall i: nat, j: nat :: j == i + 1 ==> Written(tables(i), tables(j)))
    && (forall i: nat :: Complete(tables(i), scans(i)))
  }

  lemma {:induction false} ReadsWithin(tables: nat -> Table, scans: nat -> Read, n: nat)
    requires Interleaving(tables, scans)
    ensures OwnColumn(tables(n)) && Within(Retry.StateAfter(Mem.EMPTY, n, ReadAttempt(tables, scans)), tables(n))
    decreases n
  {
    if n > 0 {
      var i := n - 1;
      ReadsWithin(tables, scans, i);
      var acc := Retry.StateAfter(Mem.EMPTY, i, ReadAttempt(tables, scans));
      ScanWithin(acc, tables(i), scans(i).order);
      assert Written(tables(i), tables(n));
      var ws :| Upserts(tables(i), ws) == Ok(tables(n));
      WritersGrow(tables(i), ws, tables(n));
      WithinGrows(ScanRows(acc, tables(i), scans(i).order), tables(i), tables(n));
    }
  }

  lemma WithinGrows(acc: Mem.Store, t: Table, u: Table)
    requires Within(acc, t) && Grows(t, u)
    ensures Within(acc, u)
  {
  }

  lemma CompleteScan(acc: Mem.Store, t: Table, r: Read)
    requires Within(acc, t) && OwnColumn(t) && Complete(t, r) && r.err.None?
    ensures ScanRows(acc, t, r.order) == View(t)
  {
    ScanWithin(acc, t, r.order);
    var s, v := ScanRows(acc, t, r.order), View(t);
    assert s.gauges.Keys == v.gauges.Keys && s.counters.Keys == v.counters.Keys;
    assert s.gauges == v.gauges;
    assert s.counters == v.counters;
  }

  /**
   `GetAll`: the maps outlive failed attempts, yet the answer is exactly the table at the successful attempt, or empty
   when none succeeded.
   */
  method GetAll(tables: nat -> Table, scans: nat -> Read, waits: nat -> bool)
      returns (g: map<string, Float>, c: map<string, int64>, n: nat)
    requires Interleaving(tables, scans)
    ensures Retry.Stops(Mem.EMPTY, n, ReadAttempt(tables, scans), IsRetriable, waits)
    ensures Mem.Store(g, c) == if scans(n - 1).err.None? then View(tables(n - 1)) else Mem.EMPTY
  {
    var acc, err;
    acc, err, n := Retry.Do(Mem.EMPTY, ReadAttempt(tables, scans), IsRetriable, waits);
    if err.Some? { return map[], map[], n; }
    ghost var last := n - 1;
    ReadsWithin(tables, scans, last);
    CompleteScan(Retry.StateAfter(Mem.EMPTY, last, ReadAttempt(tables, scans)), tables(last), scans(last));
    return acc.gauges, acc.counters, n;
  }
}
