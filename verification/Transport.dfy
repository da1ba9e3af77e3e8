/** The gRPC transport: metrics become protobuf messages in the agent and metrics again in the server. */
module Transport {
  import opened Wrappers
  import opened Metrics
  import Mem = MemStorage

  /** proto3: no field is ever missing, and `kind` is an open enum. */
  datatype ProtoMetric = ProtoMetric(id: string, kind: int, delta: int64, value: Float)

  const GAUGE_KIND := 0
  const COUNTER_KIND := 1

  function ToProto(m: Metric): ProtoMetric {
    if m.mtype == GAUGE then ProtoMetric(m.id, GAUGE_KIND, 0, if m.value.Some? then m.value.value else ZERO)
    else if m.mtype == COUNTER then ProtoMetric(m.id, COUNTER_KIND, if m.delta.Some? then m.delta.value else 0, ZERO)
    else ProtoMetric(m.id, GAUGE_KIND, 0, ZERO)
  }

  predicate KnownKind(p: ProtoMetric) {
    p.kind == GAUGE_KIND || p.kind == COUNTER_KIND
  }

  /** `None` is `errUnknownType`. */
  function ToModel(p: ProtoMetric): Option<Metric> {
    if p.kind == GAUGE_KIND then Some(Metric(p.id, GAUGE, None, Some(p.value), ""))
    else if p.kind == COUNTER_KIND then Some(Metric(p.id, COUNTER, Some(p.delta), None, ""))
    else None
  }

  /** The switch of `toProto`: it starts from a message with only an id. */
  method ToProtoLoop(metrics: seq<Metric>) returns (out: seq<ProtoMetric>)
    ensures |out| == |metrics| && forall i :: 0 <= i < |metrics| ==> out[i] == ToProto(metrics[i])
  {
    out := [];
    for i := 0 to |metrics|
      invariant |out| == i && forall k :: 0 <= k < i ==> out[k] == ToProto(metrics[k])
    {
      var m := metrics[i];
      var b := ProtoMetric(m.id, GAUGE_KIND, 0, ZERO);
      KindsDiffer();
      if m.mtype == GAUGE {
        b := b.(kind := GAUGE_KIND);
        if m.value.Some? { b := b.(value := m.value.value); }
      } else if m.mtype == COUNTER {
        b := b.(kind := COUNTER_KIND);
        if m.delta.Some? { b := b.(delta := m.delta.value); }
      }
      out := out + [b];
    }
  }

  datatype Reply = Accepted | InvalidArgument

  /** `Server.UpdateMetrics` on a storage in memory, with the service's empty-batch check between them. */
  method UpdateMetrics(storage: Mem.MemStorage, request: seq<ProtoMetric>) returns (r: Reply)
    modifies storage
    ensures r.Accepted? <==> request != [] && forall i :: 0 <= i < |request| ==> KnownKind(request[i])
    ensures r.InvalidArgument? ==> storage.Contents() == old(storage.Contents())
    ensures r.Accepted? ==> storage.Contents() == Mem.ApplyWrites(old(storage.Contents()), ProtoWrites(request))
  {
    var metrics: seq<Metric> := [];
    for i := 0 to |request|
      invariant storage.Contents() == old(storage.Contents())
      invariant forall k :: 0 <= k < i ==> KnownKind(request[k])
      invariant BatchWrites(metrics) == ProtoWrites(request[..i])
      invariant |metrics| == i
    {
      var converted := ToModel(request[i]);
      if converted.None? { return InvalidArgument; }
      assert request[..i + 1][..i] == request[..i];
      assert (metrics + [converted.value])[..i] == metrics;
      KindsDiffer();
      metrics := metrics + [converted.value];
    }
    assert request[..|request|] == request;
    if |metrics| == 0 { return InvalidArgument; }
    storage.UpdateBatch(metrics);
    return Accepted;
  }

  // What a request writes, said on the wire format alone.

  function ProtoWrite(p: ProtoMetric): Write {
    if p.kind == COUNTER_KIND then AddCounter(p.id, p.delta) else SetGauge(p.id, p.value)
  }

  function ProtoWrites(request: seq<ProtoMetric>): seq<Write> {
    if |request| == 0 then []
    else ProtoWrites(request[..|request| - 1]) + [ProtoWrite(request[|request| - 1])]
  }

  function ToProtos(metrics: seq<Metric>): seq<ProtoMetric> {
    seq(|metrics|, i requires 0 <= i < |metrics| => ToProto(metrics[i]))
  }

  /** A known type, and the value that goes with it. */
  predicate WellFormed(m: Metric) {
    (m.mtype == GAUGE && m.value.Some?) || (m.mtype == COUNTER && m.delta.Some?)
  }

  /** gRPC does to a storage what the metric itself does. */
  predicate Agrees(m: Metric, s: Mem.Store) {
    Mem.ApplyWrite(s, ProtoWrite(ToProto(m))) == Mem.ApplyBatch(s, [m])
  }

  lemma OneWrite(s: Mem.Store, w: Write)
    ensures Mem.ApplyWrites(s, [w]) == Mem.ApplyWrite(s, w)
  {
  }

  lemma ApplyOne(s: Mem.Store, m: Metric)
    ensures Mem.ApplyBatch(s, [m]) == if WritesOf(m) == [] then s else Mem.ApplyWrite(s, WritesOf(m)[0])
  {
    assert [m][..0] == [];
    assert BatchWrites([m]) == BatchWrites([]) + WritesOf(m) == WritesOf(m);
    var ws := WritesOf(m);
    assert |ws| <= 1;
    assert |ws| == 1 ==> ws == [ws[0]];
    if |ws| == 1 { OneWrite(s, ws[0]); }
  }

  /**
   On every storage the two paths agree about a metric exactly when it is well formed: otherwise gRPC writes a zero
   where the storage itself would write nothing, which shows on any storage that does not hold that zero yet.
   */
  lemma AgreeIffWellFormed(m: Metric)
    ensures (forall s :: Agrees(m, s)) <==> WellFormed(m)
  {
    KindsDiffer();
    forall s ensures WellFormed(m) ==> Agrees(m, s) { ApplyOne(s, m); }
    if !WellFormed(m) {
      ApplyOne(Mem.EMPTY, m);
      var t := Mem.ApplyWrite(Mem.EMPTY, ProtoWrite(ToProto(m)));
      assert m.id in t.gauges || m.id in t.counters;
      assert !Agrees(m, Mem.EMPTY);
    }
  }

  lemma {:induction false} SameWrites(metrics: seq<Metric>)
    requires forall i :: 0 <= i < |metrics| ==> WellFormed(metrics[i])
    ensures ProtoWrites(ToProtos(metrics)) == BatchWrites(metrics)
  {
    if |metrics| > 0 {
      var last := |metrics| - 1;
      SameWrites(metrics[..last]);
      assert ToProtos(metrics)[..last] == ToProtos(metrics[..last]);
      assert WellFormed(metrics[last]);
      KindsDiffer();
    }
  }

  /**
   Both transports leave the same storage: the agent's loop, then the server's, against the batch applied directly.
   */
  method SendOverGrpc(storage: Mem.MemStorage, metrics: seq<Metric>) returns (r: Reply)
    requires forall i :: 0 <= i < |metrics| ==> WellFormed(metrics[i])
    modifies storage
    ensures r.Accepted? <==> metrics != []
    ensures storage.Contents() == Mem.ApplyBatch(old(storage.Contents()), metrics)
  {
    var request := ToProtoLoop(metrics);
    assert request == ToProtos(metrics);
    SameWrites(metrics);
    if metrics == [] { assert BatchWrites(metrics) == []; }
    r := UpdateMetrics(storage, request);
  }
}
