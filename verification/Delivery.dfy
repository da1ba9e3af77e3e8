/**
 A batch on its way from the agent to the server's storage, with the retries of both: the agent posts it again when the
 server cannot be reached or fails, the server repeats its transaction.
 */
module Delivery {
  import opened Wrappers
  import opened Bytes
  import opened Metrics
  import opened Crypto
  import opened FileStorage
  import opened Pipeline
  import Mem = MemStorage
  import Pg = PgStorage
  import Retry

  /** What becomes of one post: it never arrives, or it is served and its answer comes back or not. */
  datatype Fate = Lost | Served(answered: bool)

  datatype HttpError = Unreachable | Unavailable(status: nat) | Rejected(status: nat)

  /** `isRetriableHTTPError`. */
  predicate IsRetriable(e: HttpError) {
    e.Unreachable? || e.Unavailable?
  }

  function ErrorOfStatus(status: nat): Option<HttpError> {
    if status >= INTERNAL_SERVER_ERROR then Some(Unavailable(status))
    else if status >= BAD_REQUEST then Some(Rejected(status))
    else None
  }

  /** The closure that `Sender.Send` retries. `serve` is what the server does with post `i`. */
  function PostFn<S>(serve: (S, nat) -> (S, nat), fates: nat -> Fate): (fn: (S, nat) -> (S, Option<HttpError>)) {
    (s: S, i: nat) =>
      if fates(i).Lost? then (s, Some(Unreachable))
      else
        var (s', status) := serve(s, i);
        (s', if fates(i).answered then ErrorOfStatus(status) else Some(Unreachable))
  }

  lemma PostOf<S>(serve: (S, nat) -> (S, nat), fates: nat -> Fate, s: S, i: nat, s': S, status: nat)
    requires serve(s, i) == (s', status)
    ensures PostFn(serve, fates)(s, i) ==
      (if fates(i).Lost? then s else s',
       if fates(i) == Served(true) then ErrorOfStatus(status) else Some(Unreachable))
  {
  }

  /** The status of the answer to post `i`. */
  function StatusAt<S>(serve: (S, nat) -> (S, nat), fates: nat -> Fate, s: S, i: nat): nat {
    serve(Retry.StateAfter(s, i, PostFn(serve, fates)), i).1
  }

  /**
   Whatever the server does: a post is repeated exactly when no answer comes back or the answer is 500 and up, until
   four posts are made; a smaller status is final, and `Send` succeeds exactly when it is below 400.
   */
  lemma RepeatedIff<S>(serve: (S, nat) -> (S, nat), fates: nat -> Fate, s: S, waits: nat -> bool, n: nat)
    requires Retry.Stops(s, n, PostFn(serve, fates), IsRetriable, waits) && forall i: nat :: waits(i)
    ensures forall i :: 0 <= i < n - 1 ==> fates(i) != Served(true) || StatusAt(serve, fates, s, i) >= 500
    ensures n < 4 ==> fates(n - 1) == Served(true) && StatusAt(serve, fates, s, n - 1) < 500
    ensures Retry.ErrorOf(s, n - 1, PostFn(serve, fates)).None? <==>
      fates(n - 1) == Served(true) && StatusAt(serve, fates, s, n - 1) < 400
  {
    forall i: nat
      ensures Retry.ErrorOf(s, i, PostFn(serve, fates)) ==
        if fates(i) == Served(true) then ErrorOfStatus(StatusAt(serve, fates, s, i)) else Some(Unreachable)
    {
      var u := Retry.StateAfter(s, i, PostFn(serve, fates));
      PostOf(serve, fates, u, i, serve(u, i).0, serve(u, i).1);
    }
  }

  // A server that keeps metrics in memory.

  function ServeMemory(c: Codecs, priv: Option<PrivateKey>, key: string, r: Request)
      : (serve: (Store, nat) -> (Store, nat))
  {
    (s: Store, i: nat) =>
      var o := Chain(c, priv, key, r);
      if o.Reply? then (s, o.status) else HandleBatch(c.json, s, o.req)
  }

  function MemTimes(s: Store, metrics: seq<Metric>, k: nat): Store {
    if k == 0 then s else Mem.ApplyBatch(MemTimes(s, metrics, k - 1), metrics)
  }

  /** How many of the first `n` posts are served. */
  function Servings(fates: nat -> Fate, n: nat): nat {
    if n == 0 then 0 else Servings(fates, n - 1) + if fates(n - 1).Served? then 1 else 0
  }

  /** One post: what it does to the memory, and the error that `Send` sees. */
  lemma MemoryPost(c: Codecs, metrics: seq<Metric>, key: string, enc: Option<Sealing>, priv: Option<PrivateKey>,
      s: Store, fates: nat -> Fate, i: nat)
    requires LawfulCodecs(c) && KeysMatch(c, enc, priv) && Send(c, metrics, key, enc).Some?
    ensures PostFn(ServeMemory(c, priv, key, Send(c, metrics, key, enc).value), fates)(s, i) ==
      (if fates(i).Served? then Mem.ApplyBatch(s, metrics) else s,
       if fates(i) == Served(true) then None else Some(Unreachable))
  {
    var r := Send(c, metrics, key, enc).value;
    SentBatchIsApplied(c, metrics, key, enc, priv, s);
    PostOf(ServeMemory(c, priv, key, r), fates, s, i, Mem.ApplyBatch(s, metrics), STATUS_OK);
  }

  lemma {:induction false} MemoryAfter(c: Codecs, metrics: seq<Metric>, key: string, enc: Option<Sealing>,
      priv: Option<PrivateKey>, s: Store, fates: nat -> Fate, n: nat)
    requires LawfulCodecs(c) && KeysMatch(c, enc, priv) && Send(c, metrics, key, enc).Some?
    ensures Retry.StateAfter(s, n, PostFn(ServeMemory(c, priv, key, Send(c, metrics, key, enc).value), fates)) ==
      MemTimes(s, metrics, Servings(fates, n))
    decreases n
  {
    if n > 0 {
      MemoryAfter(c, metrics, key, enc, priv, s, fates, n - 1);
      MemoryPost(c, metrics, key, enc, priv, MemTimes(s, metrics, Servings(fates, n - 1)), fates, n - 1);
    }
  }

  lemma MemoryError(c: Codecs, metrics: seq<Metric>, key: string, enc: Option<Sealing>, priv: Option<PrivateKey>,
      s: Store, fates: nat -> Fate, i: nat)
    requires LawfulCodecs(c) && KeysMatch(c, enc, priv) && Send(c, metrics, key, enc).Some?
    ensures Retry.ErrorOf(s, i, PostFn(ServeMemory(c, priv, key, Send(c, metrics, key, enc).value), fates)) ==
      if fates(i) == Served(true) then None else Some(Unreachable)
  {
    var fn := PostFn(ServeMemory(c, priv, key, Send(c, metrics, key, enc).value), fates);
    MemoryPost(c, metrics, key, enc, priv, Retry.StateAfter(s, i, fn), fates, i);
  }

  lemma {:induction false} ServingsBound(fates: nat -> Fate, n: nat)
    ensures Servings(fates, n) <= n
  {
    if n > 0 { ServingsBound(fates, n - 1); }
  }

  lemma {:induction false} NoneServed(fates: nat -> Fate, n: nat)
    requires forall i :: 0 <= i < n ==> fates(i).Lost?
    ensures Servings(fates, n) == 0
  {
    if n > 0 { NoneServed(fates, n - 1); }
  }

  /** Posts stop at the first that is answered. */
  lemma StoppedServings(fates: nat -> Fate, n: nat)
    requires n >= 1 && forall i :: 0 <= i < n - 1 ==> fates(i) != Served(true)
    ensures Servings(fates, n) <= n
    ensures (forall i :: 0 <= i < n ==> fates(i) != Served(false)) ==>
      Servings(fates, n) == if fates(n - 1) == Served(true) then 1 else 0
  {
    ServingsBound(fates, n);
    if forall i :: 0 <= i < n ==> fates(i) != Served(false) {
      assert forall i :: 0 <= i < n - 1 ==> fates(i).Lost?;
      NoneServed(fates, n - 1);
    }
  }

  /**
   A batch sent to a server in memory is counted once for each of the at most four posts that are served. When no answer
   is lost it is counted exactly once if `Send`, which makes `n` posts, succeeds, and else not at all.
   */
  lemma MemoryDelivery(c: Codecs, metrics: seq<Metric>, key: string, enc: Option<Sealing>, priv: Option<PrivateKey>,
      s: Store, fates: nat -> Fate, waits: nat -> bool, n: nat)
    requires LawfulCodecs(c) && KeysMatch(c, enc, priv) && Send(c, metrics, key, enc).Some?
    requires var fn := PostFn(ServeMemory(c, priv, key, Send(c, metrics, key, enc).value), fates);
      Retry.Stops(s, n, fn, IsRetriable, waits)
    ensures var fn := PostFn(ServeMemory(c, priv, key, Send(c, metrics, key, enc).value), fates);
      var err := Retry.ErrorOf(s, n - 1, fn);
      && Retry.StateAfter(s, n, fn) == MemTimes(s, metrics, Servings(fates, n)) && Servings(fates, n) <= n <= 4
      && (err.None? <==> fates(n - 1) == Served(true))
      && ((forall i :: 0 <= i < n ==> fates(i) != Served(false)) ==> Servings(fates, n) == if err.None? then 1 else 0)
  {
    var fn := PostFn(ServeMemory(c, priv, key, Send(c, metrics, key, enc).value), fates);
    MemoryAfter(c, metrics, key, enc, priv, s, fates, n);
    forall i | 0 <= i < n
      ensures Retry.ErrorOf(s, i, fn) == if fates(i) == Served(true) then None else Some(Unreachable)
    {
      MemoryError(c, metrics, key, enc, priv, s, fates, i);
    }
    StoppedServings(fates, n);
  }

  // A server over PostgreSQL.

  /** What happens around the transactions of one serving. */
  datatype Serving = Serving(attempts: nat -> Pg.Attempt, others: nat -> seq<Write>, waits: nat -> bool)

  function Update(t: Pg.Table, metrics: seq<Metric>, e: Serving): (Pg.Table, Option<Pg.Error>, nat) {
    Retry.Attempts(t, 0, Pg.BatchFn(metrics, e.attempts, e.others), Pg.IsRetriable, e.waits)
  }

  function ServeTable(c: Codecs, priv: Option<PrivateKey>, key: string, r: Request, servings: nat -> Serving)
      : (serve: (Pg.Table, nat) -> (Pg.Table, nat))
  {
    (t: Pg.Table, i: nat) =>
      var o := Chain(c, priv, key, r);
      if o.Reply? then (t, o.status)
      else
        var metrics := BatchIn(c.json, o.req);
        if metrics.None? then (t, BAD_REQUEST)
        else
          var u := Update(t, metrics.value, servings(i));
          (u.0, if u.1.None? then STATUS_OK else INTERNAL_SERVER_ERROR)
  }

  /**
   What serving the batch once to the table `t` amounts to: the table after it, all writes that reach it meanwhile, how
   often the batch is among them, and whether the answer is 200.
   */
  datatype Effect = Effect(after: Pg.Table, log: seq<Write>, count: nat, ok: bool)

  function EffectOf(t: Pg.Table, metrics: seq<Metric>, e: Serving): Effect {
    var (u, err, n) := Update(t, metrics, e);
    var took := Pg.Took(t, metrics, e.attempts, e.others, n);
    Effect(u, Pg.Log(t, BatchWrites(metrics), e.others, took), Pg.Count(took), err.None?)
  }

  function Effects(metrics: seq<Metric>, servings: nat -> Serving): (does: (Pg.Table, nat) -> Effect) {
    (t: Pg.Table, i: nat) => EffectOf(t, metrics, servings(i))
  }

  lemma {:induction false} CountBounds(took: seq<bool>)
    ensures Pg.Count(took) <= |took|
    ensures |took| > 0 && took[|took| - 1] ==> Pg.Count(took) >= 1
    ensures (forall i :: 0 <= i < |took| - 1 ==> !took[i]) ==>
      Pg.Count(took) == if |took| > 0 && took[|took| - 1] then 1 else 0
    decreases |took|
  {
    if |took| > 0 { CountBounds(took[..|took| - 1]); }
  }

  predicate Unambiguous(e: Serving) {
    forall i :: 0 <= i < 4 ==> !e.attempts(i).commit.Ambiguous?
  }

  /** The log makes the table, with the batch in it at most four times, at least once for a 200. */
  predicate Sound(t: Pg.Table, e: Effect) {
    Pg.Upserts(t, e.log) == Pg.Ok(e.after) && e.count <= 4 && (e.ok ==> e.count >= 1)
  }

  /** With no ambiguous commit the batch is applied once for a 200, and else never. */
  lemma OneServing(t: Pg.Table, metrics: seq<Metric>, e: Serving)
    ensures Sound(t, EffectOf(t, metrics, e))
    ensures Unambiguous(e) ==> EffectOf(t, metrics, e).count == if EffectOf(t, metrics, e).ok then 1 else 0
  {
    var took := Pg.BatchAtomicAndBounded(t, metrics, e.attempts, e.others, e.waits);
    CountBounds(took);
    assert took == Pg.Took(t, metrics, e.attempts, e.others, Update(t, metrics, e).2);
  }

  // A row of posts, each with its effect.

  /** The table when post `n` is served. */
  function TableAt(t: Pg.Table, fates: nat -> Fate, does: (Pg.Table, nat) -> Effect, n: nat): Pg.Table {
    if n == 0 then t
    else
      var before := TableAt(t, fates, does, n - 1);
      if fates(n - 1).Lost? then before else does(before, n - 1).after
  }

  /** All writes of the first `n` posts and of other clients meanwhile. */
  function DeliveryLog(t: Pg.Table, fates: nat -> Fate, does: (Pg.Table, nat) -> Effect, n: nat): seq<Write> {
    if n == 0 then []
    else
      DeliveryLog(t, fates, does, n - 1) +
      if fates(n - 1).Lost? then [] else does(TableAt(t, fates, does, n - 1), n - 1).log
  }

  /** How often the batch is among them. */
  function Applications(t: Pg.Table, fates: nat -> Fate, does: (Pg.Table, nat) -> Effect, n: nat): nat {
    if n == 0 then 0
    else
      Applications(t, fates, does, n - 1) +
      if fates(n - 1).Lost? then 0 else does(TableAt(t, fates, does, n - 1), n - 1).count
  }

  /** The error `Send` sees after a post. */
  function PostError(fate: Fate, e: Effect): Option<HttpError> {
    if fate != Served(true) then Some(Unreachable)
    else if e.ok then None
    else Some(Unavailable(INTERNAL_SERVER_ERROR))
  }

  function ErrorAt(t: Pg.Table, fates: nat -> Fate, does: (Pg.Table, nat) -> Effect, i: nat): Option<HttpError> {
    PostError(fates(i), does(TableAt(t, fates, does, i), i))
  }

  ghost predicate AllSound(does: (Pg.Table, nat) -> Effect) {
    forall t, i :: Sound(t, does(t, i))
  }

  lemma {:induction false} DeliveryLogged(t: Pg.Table, fates: nat -> Fate, does: (Pg.Table, nat) -> Effect, n: nat)
    requires AllSound(does)
    ensures Pg.Upserts(t, DeliveryLog(t, fates, does, n)) == Pg.Ok(TableAt(t, fates, does, n))
    ensures Applications(t, fates, does, n) <= 4 * n
    decreases n
  {
    if n > 0 {
      var before, u := DeliveryLog(t, fates, does, n - 1), TableAt(t, fates, does, n - 1);
      DeliveryLogged(t, fates, does, n - 1);
      assert Sound(u, does(u, n - 1));
      var more := if fates(n - 1).Lost? then [] else does(u, n - 1).log;
      assert Pg.Upserts(u, []) == Pg.Ok(u);
      Pg.UpsertsAppend(t, before, more);
    }
  }

  /** No post and no transaction is repeated after it took effect. */
  ghost predicate Clean(fates: nat -> Fate, does: (Pg.Table, nat) -> Effect) {
    && (forall i: nat :: fates(i) != Served(false))
    && (forall t, i :: does(t, i).count == if does(t, i).ok then 1 else 0)
  }

  lemma {:induction false} FailedPostsDoNothing(t: Pg.Table, fates: nat -> Fate, does: (Pg.Table, nat) -> Effect,
      n: nat)
    requires Clean(fates, does) && forall i :: 0 <= i < n ==> ErrorAt(t, fates, does, i).Some?
    ensures Applications(t, fates, does, n) == 0
    decreases n
  {
    if n > 0 {
      FailedPostsDoNothing(t, fates, does, n - 1);
      assert ErrorAt(t, fates, does, n - 1).Some?;
    }
  }

  /** What the rule for stopping says about how often the batch was applied. */
  lemma ApplicationsOfRun(t: Pg.Table, fates: nat -> Fate, does: (Pg.Table, nat) -> Effect, n: nat)
    requires 1 <= n <= 4 && AllSound(does) && forall i :: 0 <= i < n - 1 ==> ErrorAt(t, fates, does, i).Some?
    ensures var k, last := Applications(t, fates, does, n), ErrorAt(t, fates, does, n - 1);
      && k <= 16
      && (last.None? ==> k >= 1)
      && (Clean(fates, does) ==> k == if last.None? then 1 else 0)
  {
    DeliveryLogged(t, fates, does, n);
    var u := TableAt(t, fates, does, n - 1);
    assert Sound(u, does(u, n - 1));
    if Clean(fates, does) { FailedPostsDoNothing(t, fates, does, n - 1); }
  }

  // The agent's retries over such posts.

  lemma TablePost(c: Codecs, metrics: seq<Metric>, key: string, enc: Option<Sealing>, priv: Option<PrivateKey>,
      t: Pg.Table, fates: nat -> Fate, servings: nat -> Serving, i: nat)
    requires LawfulCodecs(c) && KeysMatch(c, enc, priv) && Send(c, metrics, key, enc).Some?
    ensures var e := EffectOf(t, metrics, servings(i));
      PostFn(ServeTable(c, priv, key, Send(c, metrics, key, enc).value, servings), fates)(t, i) ==
        (if fates(i).Served? then e.after else t, PostError(fates(i), e))
  {
    var serve := ServeTable(c, priv, key, Send(c, metrics, key, enc).value, servings);
    var e := EffectOf(t, metrics, servings(i));
    SentBatchArrives(c, metrics, key, enc, priv);
    PostOf(serve, fates, t, i, e.after, if e.ok then STATUS_OK else INTERNAL_SERVER_ERROR);
  }

  lemma {:induction false} TableAfter(c: Codecs, metrics: seq<Metric>, key: string, enc: Option<Sealing>,
      priv: Option<PrivateKey>, t: Pg.Table, fates: nat -> Fate, servings: nat -> Serving, n: nat)
    requires LawfulCodecs(c) && KeysMatch(c, enc, priv) && Send(c, metrics, key, enc).Some?
    ensures Retry.StateAfter(t, n,
        PostFn(ServeTable(c, priv, key, Send(c, metrics, key, enc).value, servings), fates)) ==
      TableAt(t, fates, Effects(metrics, servings), n)
    decreases n
  {
    if n > 0 {
      TableAfter(c, metrics, key, enc, priv, t, fates, servings, n - 1);
      TablePost(c, metrics, key, enc, priv, TableAt(t, fates, Effects(metrics, servings), n - 1), fates, servings,
        n - 1);
    }
  }

  lemma TableError(c: Codecs, metrics: seq<Metric>, key: string, enc: Option<Sealing>, priv: Option<PrivateKey>,
      t: Pg.Table, fates: nat -> Fate, servings: nat -> Serving, i: nat)
    requires LawfulCodecs(c) && KeysMatch(c, enc, priv) && Send(c, metrics, key, enc).Some?
    ensures Retry.ErrorOf(t, i,
        PostFn(ServeTable(c, priv, key, Send(c, metrics, key, enc).value, servings), fates)) ==
      ErrorAt(t, fates, Effects(metrics, servings), i)
  {
    TableAfter(c, metrics, key, enc, priv, t, fates, servings, i);
    TablePost(c, metrics, key, enc, priv, TableAt(t, fates, Effects(metrics, servings), i), fates, servings, i);
  }

  lemma EffectsSound(metrics: seq<Metric>, servings: nat -> Serving)
    ensures AllSound(Effects(metrics, servings))
  {
    forall t, i ensures Sound(t, Effects(metrics, servings)(t, i)) { OneServing(t, metrics, servings(i)); }
  }

  lemma UnambiguousIsClean(metrics: seq<Metric>, fates: nat -> Fate, servings: nat -> Serving)
    requires forall i: nat :: fates(i) != Served(false)
    requires forall i: nat :: Unambiguous(servings(i))
    ensures Clean(fates, Effects(metrics, servings))
  {
    var does := Effects(metrics, servings);
    forall t, i ensures does(t, i).count == if does(t, i).ok then 1 else 0 { OneServing(t, metrics, servings(i)); }
  }

  /**
   With both retries a batch is applied at most sixteen times, four for each of four posts, and at least once when
   `Send`, which makes `n` posts, succeeds; everything else in the table is the other clients'. With no lost answer and
   no ambiguous commit it is applied exactly once on success and not at all otherwise.
   */
  lemma TableDelivery(c: Codecs, metrics: seq<Metric>, key: string, enc: Option<Sealing>, priv: Option<PrivateKey>,
      t0: Pg.Table, fates: nat -> Fate, servings: nat -> Serving, waits: nat -> bool, n: nat)
    requires LawfulCodecs(c) && KeysMatch(c, enc, priv) && Send(c, metrics, key, enc).Some?
    requires var fn := PostFn(ServeTable(c, priv, key, Send(c, metrics, key, enc).value, servings), fates);
      Retry.Stops(t0, n, fn, IsRetriable, waits)
    ensures var fn := PostFn(ServeTable(c, priv, key, Send(c, metrics, key, enc).value, servings), fates);
      var err, k := Retry.ErrorOf(t0, n - 1, fn), Applications(t0, fates, Effects(metrics, servings), n);
      && Pg.Upserts(t0, DeliveryLog(t0, fates, Effects(metrics, servings), n)) == Pg.Ok(Retry.StateAfter(t0, n, fn))
      && k <= 16
      && (err.None? ==> k >= 1)
      && ((forall i: nat :: fates(i) != Served(false)) && (forall i: nat :: Unambiguous(servings(i))) ==>
            k == if err.None? then 1 else 0)
  {
    var fn := PostFn(ServeTable(c, priv, key, Send(c, metrics, key, enc).value, servings), fates);
    var does := Effects(metrics, servings);
    EffectsSound(metrics, servings);
    TableAfter(c, metrics, key, enc, priv, t0, fates, servings, n);
    DeliveryLogged(t0, fates, does, n);
    forall i | 0 <= i < n ensures Retry.ErrorOf(t0, i, fn) == ErrorAt(t0, fates, does, i) {
      TableError(c, metrics, key, enc, priv, t0, fates, servings, i);
    }
    ApplicationsOfRun(t0, fates, does, n);
    if (forall i: nat :: fates(i) != Served(false)) && (forall i: nat :: Unambiguous(servings(i))) {
      UnambiguousIsClean(metrics, fates, servings);
    }
  }

  // The bound is met.

  const CONNECTION_FAILURE := Pg.PgError("08006")

  /** Every commit is applied, and its confirmation lost with the connection. */
  ghost predicate LosesConfirmations(e: Serving) {
    forall i :: 0 <= i < 4 ==>
      && e.waits(i) && e.attempts(i).begin.None? && e.attempts(i).commit == Pg.Ambiguous(CONNECTION_FAILURE)
      && forall j: nat :: e.attempts(i).exec(j).None?
  }

  lemma LastStatement(t: Pg.Table, metrics: seq<Metric>, exec: nat -> Option<Pg.Error>)
    requires |metrics| > 0 && exec(|metrics| - 1).None?
    requires var before := Pg.Statements(t, metrics[..|metrics| - 1], exec);
      before.Ok? && Pg.Upserts(before.value, WritesOf(metrics[|metrics| - 1])).Ok?
    ensures Pg.Statements(t, metrics, exec).Ok?
  {
    var ws := WritesOf(metrics[|metrics| - 1]);
    if ws != [] { assert ws == [ws[0]] && ws[..0] == []; }
  }

  lemma {:induction false} StatementsOk(t: Pg.Table, metrics: seq<Metric>, exec: nat -> Option<Pg.Error>)
    requires (forall j: nat :: exec(j).None?) && Pg.Upserts(t, BatchWrites(metrics)).Ok?
    ensures Pg.Statements(t, metrics, exec).Ok?
    decreases |metrics|
  {
    if |metrics| > 0 {
      var last := |metrics| - 1;
      Pg.UpsertsAppend(t, BatchWrites(metrics[..last]), WritesOf(metrics[last]));
      StatementsOk(t, metrics[..last], exec);
      Pg.StatementsAreUpserts(t, metrics[..last], exec);
      LastStatement(t, metrics, exec);
    }
  }

  predicate ShortGauges(metrics: seq<Metric>) {
    Pg.GaugesOnly(BatchWrites(metrics)) && forall w :: w in BatchWrites(metrics) ==> |w.id| <= 255
  }

  /** An attempt on any table takes effect and reports a retriable error. */
  lemma LostConfirmation(t: Pg.Table, metrics: seq<Metric>, e: Serving, i: nat)
    requires ShortGauges(metrics) && LosesConfirmations(e) && i < 4
    ensures Pg.TookEffect(t, metrics, e.attempts(i))
    ensures Pg.BatchAttempt(t, metrics, e.attempts(i)).1 == Some(CONNECTION_FAILURE)
  {
    Pg.GaugeUpsertsOk(t, BatchWrites(metrics));
    StatementsOk(t, metrics, e.attempts(i).exec);
  }

  lemma {:induction false} CountAll(took: seq<bool>)
    requires forall i :: 0 <= i < |took| ==> took[i]
    ensures Pg.Count(took) == |took|
  {
    if |took| > 0 { CountAll(took[..|took| - 1]); }
  }

  lemma FourAttempts(t: Pg.Table, metrics: seq<Metric>, e: Serving, n: nat)
    requires ShortGauges(metrics) && LosesConfirmations(e)
    requires Retry.Stops(t, n, Pg.BatchFn(metrics, e.attempts, e.others), Pg.IsRetriable, e.waits)
    ensures n == 4 && Pg.Count(Pg.Took(t, metrics, e.attempts, e.others, n)) == 4
    ensures Retry.ErrorOf(t, n - 1, Pg.BatchFn(metrics, e.attempts, e.others)).Some?
  {
    forall i | 0 <= i < n
      ensures Retry.ErrorOf(t, i, Pg.BatchFn(metrics, e.attempts, e.others)) == Some(CONNECTION_FAILURE)
      ensures Pg.Took(t, metrics, e.attempts, e.others, n)[i]
    {
      Pg.ErrorOfAttempt(t, metrics, e.attempts, e.others, i);
      LostConfirmation(Pg.FoundAt(t, metrics, e.attempts, e.others, i), metrics, e, i);
    }
    assert e.waits(n - 1) && Pg.IsRetriable(CONNECTION_FAILURE);
    CountAll(Pg.Took(t, metrics, e.attempts, e.others, n));
  }

  lemma FourTimes(t: Pg.Table, metrics: seq<Metric>, e: Serving)
    requires ShortGauges(metrics) && LosesConfirmations(e)
    ensures EffectOf(t, metrics, e).count == 4 && !EffectOf(t, metrics, e).ok
  {
    var fn := Pg.BatchFn(metrics, e.attempts, e.others);
    assert Retry.StateAfter(t, 0, fn) == t;
    Retry.AttemptsStop(t, 0, fn, Pg.IsRetriable, e.waits);
    FourAttempts(t, metrics, e, Update(t, metrics, e).2);
  }

  lemma {:induction false} FourEach(t: Pg.Table, fates: nat -> Fate, does: (Pg.Table, nat) -> Effect, n: nat)
    requires forall i: nat :: fates(i).Served?
    requires forall u, i :: does(u, i).count == 4
    ensures Applications(t, fates, does, n) == 4 * n
  {
    if n > 0 { FourEach(t, fates, does, n - 1); }
  }

  /**
   When every confirmation of the database is lost, a batch of gauges is posted four times and applied sixteen times,
   although every answer reaches the agent.
   */
  lemma SixteenTimes(c: Codecs, metrics: seq<Metric>, key: string, enc: Option<Sealing>, priv: Option<PrivateKey>,
      t0: Pg.Table, fates: nat -> Fate, servings: nat -> Serving, waits: nat -> bool)
    requires LawfulCodecs(c) && KeysMatch(c, enc, priv) && Send(c, metrics, key, enc).Some? && ShortGauges(metrics)
    requires forall i: nat :: fates(i) == Served(true) && LosesConfirmations(servings(i)) && waits(i)
    ensures var fn := PostFn(ServeTable(c, priv, key, Send(c, metrics, key, enc).value, servings), fates);
      Retry.Stops(t0, 4, fn, IsRetriable, waits)
    ensures Applications(t0, fates, Effects(metrics, servings), 4) == 16
  {
    var fn := PostFn(ServeTable(c, priv, key, Send(c, metrics, key, enc).value, servings), fates);
    var does := Effects(metrics, servings);
    forall u, i ensures does(u, i).count == 4 && !does(u, i).ok { FourTimes(u, metrics, servings(i)); }
    forall i: nat ensures Retry.ErrorOf(t0, i, fn) == Some(Unavailable(INTERNAL_SERVER_ERROR)) {
      TableError(c, metrics, key, enc, priv, t0, fates, servings, i);
    }
    FourEach(t0, fates, does, 4);
  }
}
