/**
 `file.Save`, `file.Load` and `file.SyncStorage`: metrics in a JSON file, replaced as a whole. JSON itself is a pair of
 functions that undo each other; maps are walked in any order; the file system decides which operations fail.
 */
module FileStorage {
  import opened Wrappers
  import opened Metrics
  import opened Bytes
  import Mem = MemStorage

  type Store = Mem.Store

  /**
   `json.MarshalIndent` and `json.Unmarshal` for lists of metrics, and `Decode` of a `json.Decoder`, which reads the
   list that a stream begins with and no further.
   */
  datatype Json = Json(
    marshal: seq<Metric> -> Option<Bytes>,
    unmarshal: Bytes -> Option<seq<Metric>>,
    decode: Bytes -> Option<seq<Metric>>)

  predicate Finite(metrics: seq<Metric>) {
    forall m :: m in metrics && m.value.Some? ==> m.value.value.finite
  }

  /** JSON cannot encode NaN and infinities, and decodes what it encodes. */
  ghost predicate Lawful(json: Json) {
    && (forall ms :: json.marshal(ms).Some? <==> Finite(ms))
    && (forall ms :: json.marshal(ms).Some? ==> json.unmarshal(json.marshal(ms).value) == Some(ms))
    && (forall ms :: json.marshal(ms).Some? ==> json.decode(json.marshal(ms).value) == Some(ms))
  }

  predicate AllFinite(s: Store) {
    forall id :: id in s.gauges ==> s.gauges[id].finite
  }

  // The list `Save` builds.

  function GaugeMetric(id: string, v: Float): Metric {
    Metric(id, GAUGE, None, Some(v), "")
  }

  function CounterMetric(id: string, d: int64): Metric {
    Metric(id, COUNTER, Some(d), None, "")
  }

  /** `order` lists every key once. */
  ghost predicate Orders<V>(order: seq<string>, m: map<string, V>) {
    && (forall i, j :: 0 <= i < j < |order| ==> order[i] != order[j])
    && (forall id :: id in order <==> id in m)
  }

  function GaugeList(order: seq<string>, m: map<string, Float>): seq<Metric>
    requires forall id :: id in order ==> id in m
  {
    if |order| == 0 then []
    else GaugeList(order[..|order| - 1], m) + [GaugeMetric(order[|order| - 1], m[order[|order| - 1]])]
  }

  function CounterList(order: seq<string>, m: map<string, int64>): seq<Metric>
    requires forall id :: id in order ==> id in m
  {
    if |order| == 0 then []
    else CounterList(order[..|order| - 1], m) + [CounterMetric(order[|order| - 1], m[order[|order| - 1]])]
  }

  ghost predicate Lists(metrics: seq<Metric>, s: Store, gs: seq<string>, cs: seq<string>) {
    Orders(gs, s.gauges) && Orders(cs, s.counters) && metrics == GaugeList(gs, s.gauges) + CounterList(cs, s.counters)
  }

  /** The file contents `data` are an encoding of `s`, in some map order. */
  ghost predicate Holds(json: Json, data: Bytes, s: Store) {
    exists gs, cs, ms :: Lists(ms, s, gs, cs) && json.marshal(ms) == Some(data)
  }

  // Loading what was saved.

  /** Loading into a store overwrites gauges and adds counters. */
  function Merge(s0: Store, s: Store): Store {
    Mem.Store(
      s0.gauges + s.gauges,
      s0.counters + map id | id in s.counters :: Mem.Added(s0, id, s.counters[id]))
  }

  lemma OneWrite(s: Store, m: Metric, w: Write)
    requires WritesOf(m) == [w]
    ensures Mem.ApplyBatch(s, [m]) == Mem.ApplyWrite(s, w)
  {
    assert [m][..0] == [] && [w][..0] == [];
    assert BatchWrites([]) == [] && BatchWrites([m]) == [] + [w] == [w];
    assert Mem.ApplyWrites(s, []) == s;
  }

  ghost predicate GaugesLoaded(s0: Store, r: Store, order: seq<string>, m: map<string, Float>)
    requires forall id :: id in order ==> id in m
  {
    && r.counters == s0.counters
    && (forall id :: id in r.gauges <==> id in s0.gauges || id in order)
    && (forall id :: id in r.gauges ==> r.gauges[id] == if id in order then m[id] else s0.gauges[id])
  }

  lemma {:induction false} LoadGauges(s0: Store, order: seq<string>, m: map<string, Float>)
    requires forall id :: id in order ==> id in m
    ensures GaugesLoaded(s0, Mem.ApplyBatch(s0, GaugeList(order, m)), order, m)
    decreases |order|
  {
    if |order| == 0 {
      assert Mem.ApplyBatch(s0, []) == s0;
    } else {
      var last := |order| - 1;
      var before, id := order[..last], order[last];
      assert order == before + [id];
      LoadGauges(s0, before, m);
      Mem.BatchComposes(s0, GaugeList(before, m), [GaugeMetric(id, m[id])]);
      OneWrite(Mem.ApplyBatch(s0, GaugeList(before, m)), GaugeMetric(id, m[id]), SetGauge(id, m[id]));
    }
  }

  ghost predicate CountersLoaded(s0: Store, r: Store, order: seq<string>, m: map<string, int64>)
    requires forall id :: id in order ==> id in m
  {
    && r.gauges == s0.gauges
    && (forall id :: id in r.counters <==> id in s0.counters || id in order)
    && (forall id :: id in r.counters ==>
          r.counters[id] == if id in order then Mem.Added(s0, id, m[id]) else s0.counters[id])
  }

  lemma {:induction false} LoadCounters(s0: Store, order: seq<string>, m: map<string, int64>)
    requires forall id :: id in order ==> id in m
    requires forall i, j :: 0 <= i < j < |order| ==> order[i] != order[j]
    ensures CountersLoaded(s0, Mem.ApplyBatch(s0, CounterList(order, m)), order, m)
    decreases |order|
  {
    if |order| == 0 {
      assert Mem.ApplyBatch(s0, []) == s0;
    } else {
      var last := |order| - 1;
      var before, id := order[..last], order[last];
      assert order == before + [id] && id !in before;
      LoadCounters(s0, before, m);
      var mid := Mem.ApplyBatch(s0, CounterList(before, m));
      LoadOneCounter(s0, mid, before, id, m);
      Mem.BatchComposes(s0, CounterList(before, m), [CounterMetric(id, m[id])]);
    }
  }

  lemma LoadOneCounter(s0: Store, mid: Store, before: seq<string>, id: string, m: map<string, int64>)
    requires id in m && id !in before && forall x :: x in before ==> x in m
    requires CountersLoaded(s0, mid, before, m)
    ensures CountersLoaded(s0, Mem.ApplyBatch(mid, [CounterMetric(id, m[id])]), before + [id], m)
  {
    KindsDiffer();
    OneWrite(mid, CounterMetric(id, m[id]), AddCounter(id, m[id]));
    AddedSame(mid, s0, id, m[id]);
    CountersStep(s0, mid, before, id, m, Mem.Added(s0, id, m[id]));
  }

  lemma AddedSame(s: Store, t: Store, id: string, d: int64)
    requires Mem.CounterOr0(s, id) == Mem.CounterOr0(t, id)
    ensures Mem.Added(s, id, d) == Mem.Added(t, id, d)
  {
  }

  lemma CountersStep(s0: Store, mid: Store, before: seq<string>, id: string, m: map<string, int64>, sum: int64)
    requires id in m && forall x :: x in before ==> x in m
    requires CountersLoaded(s0, mid, before, m) && sum == Mem.Added(s0, id, m[id])
    ensures CountersLoaded(s0, mid.(counters := mid.counters[id := sum]), before + [id], m)
  {
  }

  lemma LoadListed(s0: Store, s: Store, ms: seq<Metric>, gs: seq<string>, cs: seq<string>)
    requires Lists(ms, s, gs, cs)
    ensures Mem.ApplyBatch(s0, ms) == Merge(s0, s)
  {
    Mem.BatchComposes(s0, GaugeList(gs, s.gauges), CounterList(cs, s.counters));
    LoadGauges(s0, gs, s.gauges);
    var mid := Mem.ApplyBatch(s0, GaugeList(gs, s.gauges));
    LoadCounters(mid, cs, s.counters);
    LoadedIsMerged(s0, mid, Mem.ApplyBatch(s0, ms), s, gs, cs);
  }

  /** A map whose keys and values are those of `a` overlaid with `b` is `a + b`. */
  lemma Overlaid<V>(r: map<string, V>, a: map<string, V>, b: map<string, V>)
    requires forall id :: id in r <==> id in a || id in b
    requires forall id :: id in r ==> r[id] == if id in b then b[id] else a[id]
    ensures r == a + b
  {
  }

  lemma LoadedIsMerged(s0: Store, mid: Store, r: Store, s: Store, gs: seq<string>, cs: seq<string>)
    requires Orders(gs, s.gauges) && Orders(cs, s.counters)
    requires GaugesLoaded(s0, mid, gs, s.gauges) && CountersLoaded(mid, r, cs, s.counters)
    ensures r == Merge(s0, s)
  {
    Overlaid(r.gauges, s0.gauges, s.gauges);
    var sums := map id | id in s.counters :: Mem.Added(s0, id, s.counters[id]);
    forall id | id in r.counters ensures r.counters[id] == if id in sums then sums[id] else s0.counters[id] {
      if id in s.counters { AddedSame(mid, s0, id, s.counters[id]); }
    }
    Overlaid(r.counters, s0.counters, sums);
  }

  /**
   Save and Load undo each other: whatever the map order, a file that holds `s` loads into an empty store as exactly
   `s`, zeros included, and into any other store by overwriting gauges and adding counters.
   */
  lemma SaveLoadRoundTrip(json: Json, data: Bytes, s0: Store, s: Store)
    requires Lawful(json) && Holds(json, data, s)
    ensures json.unmarshal(data).Some?
    ensures Mem.ApplyBatch(s0, json.unmarshal(data).value) == Merge(s0, s)
    ensures s0 == Mem.EMPTY ==> Mem.ApplyBatch(s0, json.unmarshal(data).value) == s
  {
    var gs, cs, ms :| Lists(ms, s, gs, cs) && json.marshal(ms) == Some(data);
    LoadListed(s0, s, ms, gs, cs);
    MergeEmpty(s);
  }

  lemma MergeEmpty(s: Store)
    ensures Merge(Mem.EMPTY, s) == s
  {
  }

  /** A file holds at most one state. */
  lemma HoldsOne(json: Json, data: Bytes, s: Store, t: Store)
    requires Lawful(json) && Holds(json, data, s) && Holds(json, data, t)
    ensures s == t
  {
    SaveLoadRoundTrip(json, data, Mem.EMPTY, s);
    SaveLoadRoundTrip(json, data, Mem.EMPTY, t);
  }

  lemma {:induction false} GaugeListFinite(order: seq<string>, m: map<string, Float>)
    requires forall id :: id in order ==> id in m
    ensures Finite(GaugeList(order, m)) <==> forall id :: id in order ==> m[id].finite
    decreases |order|
  {
    if |order| > 0 {
      var last := |order| - 1;
      assert order == order[..last] + [order[last]];
      GaugeListFinite(order[..last], m);
      var here := GaugeMetric(order[last], m[order[last]]);
      assert GaugeList(order, m) == GaugeList(order[..last], m) + [here];
      assert here in GaugeList(order, m);
      assert forall x :: x in GaugeList(order[..last], m) ==> x in GaugeList(order, m);
    }
  }

  lemma {:induction false} CounterListFinite(order: seq<string>, m: map<string, int64>)
    requires forall id :: id in order ==> id in m
    ensures Finite(CounterList(order, m))
    decreases |order|
  {
    if |order| > 0 { CounterListFinite(order[..|order| - 1], m); }
  }

  lemma ListedFinite(ms: seq<Metric>, s: Store, gs: seq<string>, cs: seq<string>)
    requires Lists(ms, s, gs, cs)
    ensures Finite(ms) <==> AllFinite(s)
  {
    GaugeListFinite(gs, s.gauges);
    CounterListFinite(cs, s.counters);
    if Finite(ms) {
      assert forall x :: x in GaugeList(gs, s.gauges) ==> x in ms;
    }
  }

  // Save, Load and SyncStorage as procedures.

  datatype Error = EncodeError | FileError

  /** Which file operations of one `Save` succeed. */
  datatype Env = Env(create: bool, write: bool, close: bool, rename: bool)

  ghost predicate ListsGauges(metrics: seq<Metric>, m: map<string, Float>) {
    exists gs :: Orders(gs, m) && metrics == GaugeList(gs, m)
  }

  ghost predicate ListsCounters(metrics: seq<Metric>, m: map<string, int64>) {
    exists cs :: Orders(cs, m) && metrics == CounterList(cs, m)
  }

  /** The list holds every gauge and every counter once, in some order of each map. */
  ghost predicate ListsAll(metrics: seq<Metric>, s: Store) {
    exists gs, cs :: Lists(metrics, s, gs, cs)
  }

  /** The range loop of `Save` over the gauges; a Go map is walked in an arbitrary order. */
  method CollectGauges(m: map<string, Float>) returns (metrics: seq<Metric>)
    ensures ListsGauges(metrics, m)
  {
    metrics := [];
    ghost var gs := [];
    var rest := m.Keys;
    while rest != {}
      invariant rest <= m.Keys
      invariant forall id :: id in gs <==> id in m.Keys - rest
      invariant forall i, j :: 0 <= i < j < |gs| ==> gs[i] != gs[j]
      invariant metrics == GaugeList(gs, m)
      decreases |rest|
    {
      var id :| id in rest;
      assert id !in gs;
      ghost var before := gs;
      gs := gs + [id];
      assert gs[..|gs| - 1] == before;
      metrics := metrics + [GaugeMetric(id, m[id])];
      rest := rest - {id};
    }
    assert Orders(gs, m);
  }

  /** The range loop over the counters. */
  method CollectCounters(m: map<string, int64>) returns (metrics: seq<Metric>)
    ensures ListsCounters(metrics, m)
  {
    metrics := [];
    ghost var cs := [];
    var rest := m.Keys;
    while rest != {}
      invariant rest <= m.Keys
      invariant forall id :: id in cs <==> id in m.Keys - rest
      invariant forall i, j :: 0 <= i < j < |cs| ==> cs[i] != cs[j]
      invariant metrics == CounterList(cs, m)
      decreases |rest|
    {
      var id :| id in rest;
      assert id !in cs;
      ghost var before := cs;
      cs := cs + [id];
      assert cs[..|cs| - 1] == before;
      metrics := metrics + [CounterMetric(id, m[id])];
      rest := rest - {id};
    }
    assert Orders(cs, m);
  }

  /** The list `Save` encodes: all gauges, then all counters. */
  method Collect(s: Store) returns (metrics: seq<Metric>)
    ensures ListsAll(metrics, s)
  {
    var gauges := CollectGauges(s.gauges);
    var counters := CollectCounters(s.counters);
    metrics := gauges + counters;
    ghost var gs :| Orders(gs, s.gauges) && gauges == GaugeList(gs, s.gauges);
    ghost var cs :| Orders(cs, s.counters) && counters == CounterList(cs, s.counters);
    assert Lists(metrics, s, gs, cs);
  }

  /** The file is replaced by an encoding of `s`, or left as it was. */
  method Save(json: Json, s: Store, file: Option<Bytes>, env: Env) returns (file': Option<Bytes>, err: Option<Error>)
    requires Lawful(json)
    ensures err.None? <==> AllFinite(s) && env == Env(true, true, true, true)
    ensures err.None? ==> file'.Some? && Holds(json, file'.value, s)
    ensures err.Some? ==> file' == file
  {
    var metrics := Collect(s);
    ghost var gs, cs :| Lists(metrics, s, gs, cs);
    ListedFinite(metrics, s, gs, cs);
    var data := json.marshal(metrics);
    if data.None? { return file, Some(EncodeError); }
    if !env.create || !env.write || !env.close || !env.rename { return file, Some(FileError); }
    return data, None;
  }

  method Load(json: Json, file: Option<Bytes>, storage: Mem.MemStorage) returns (err: Option<Error>)
    modifies storage
    ensures err.None? <==> file.Some? && json.unmarshal(file.value).Some?
    ensures storage.Contents() ==
      if err.None? then Mem.ApplyBatch(old(storage.Contents()), json.unmarshal(file.value).value)
      else old(storage.Contents())
  {
    if file.None? { return Some(FileError); }
    var decoded := json.unmarshal(file.value);
    if decoded.None? { return Some(EncodeError); }
    var metrics := decoded.value;
    for i := 0 to |metrics|
      invariant storage.Contents() == Mem.ApplyBatch(old(storage.Contents()), metrics[..i])
    {
      var m := metrics[i];
      assert metrics[..i + 1] == metrics[..i] + [m];
      Mem.BatchComposes(old(storage.Contents()), metrics[..i], [m]);
      ghost var before := storage.Contents();
      KindsDiffer();
      if m.mtype == GAUGE {
        if m.value.Some? {
          OneWrite(before, m, SetGauge(m.id, m.value.value));
          storage.UpdateGauge(m.id, m.value.value);
        } else {
          NoWrite(before, m);
        }
      } else if m.mtype == COUNTER {
        if m.delta.Some? {
          OneWrite(before, m, AddCounter(m.id, m.delta.value));
          storage.UpdateCounter(m.id, m.delta.value);
        } else {
          NoWrite(before, m);
        }
      } else {
        NoWrite(before, m);
      }
    }
    assert metrics[..|metrics|] == metrics;
    return None;
  }

  lemma NoWrite(s: Store, m: Metric)
    requires WritesOf(m) == []
    ensures Mem.ApplyBatch(s, [m]) == s
  {
    assert [m][..0] == [];
    assert BatchWrites([m]) == [] + [] == [];
  }

  /** A memory storage that writes its file through after every update; used by one caller at a time here. */
  class SyncStorage {
    const json: Json
    const storage: Mem.MemStorage
    var file: Option<Bytes>

    constructor (json: Json, storage: Mem.MemStorage, existing: Option<Bytes>)
      ensures this.json == json && this.storage == storage && file == existing
    {
      this.json, this.storage, file := json, storage, existing;
    }

    /** The file holds what memory holds. */
    ghost predicate Synced()
      reads this, storage
    {
      file.Some? && Holds(json, file.value, storage.Contents())
    }

    method UpdateGauge(name: string, value: Float, env: Env) returns (err: Option<Error>)
      requires Lawful(json)
      modifies this, storage
      ensures storage.Contents() == Mem.ApplyWrite(old(storage.Contents()), SetGauge(name, value))
      ensures err.None? <==> AllFinite(storage.Contents()) && env == Env(true, true, true, true)
      ensures err.None? ==> Synced()
      ensures err.Some? ==> file == old(file)
    {
      storage.UpdateGauge(name, value);
      var g, c := storage.GetAll();
      file, err := Save(json, Mem.Store(g, c), file, env);
    }

    method UpdateCounter(name: string, value: int64, env: Env) returns (err: Option<Error>)
      requires Lawful(json)
      modifies this, storage
      ensures storage.Contents() == Mem.ApplyWrite(old(storage.Contents()), AddCounter(name, value))
      ensures err.None? <==> AllFinite(storage.Contents()) && env == Env(true, true, true, true)
      ensures err.None? ==> Synced()
      ensures err.Some? ==> file == old(file)
    {
      storage.UpdateCounter(name, value);
      var g, c := storage.GetAll();
      file, err := Save(json, Mem.Store(g, c), file, env);
    }

    /** A failed save of a batch is only logged: nil does not mean synced. */
    method UpdateBatch(metrics: seq<Metric>, env: Env) returns (err: Option<Error>)
      requires Lawful(json)
      modifies this, storage
      ensures err.None?
      ensures storage.Contents() == Mem.ApplyBatch(old(storage.Contents()), metrics)
      ensures if AllFinite(storage.Contents()) && env == Env(true, true, true, true) then Synced()
        else file == old(file)
    {
      storage.UpdateBatch(metrics);
      var g, c := storage.GetAll();
      var saveErr;
      file, saveErr := Save(json, Mem.Store(g, c), file, env);
      return None;
    }
  }
}
