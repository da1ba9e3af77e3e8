/** `repository.MemStorage`: two maps behind a lock. Every other storage is compared with it. */
module MemStorage {
  import opened Wrappers
  import opened Metrics

  datatype Store = Store(gauges: map<string, Float>, counters: map<string, int64>)

  const EMPTY := Store(map[], map[])

  function CounterOr0(s: Store, id: string): int64 {
    if id in s.counters then s.counters[id] else 0
  }

  /** A counter's value after `d` is added to it, in Go's 64-bit arithmetic. */
  function Added(s: Store, id: string, d: int64): int64 {
    Wrap(CounterOr0(s, id) + d)
  }

  function ApplyWrite(s: Store, w: Write): Store {
    match w
    case SetGauge(id, v) => s.(gauges := s.gauges[id := v])
    case AddCounter(id, d) => s.(counters := s.counters[id := Added(s, id, d)])
  }

  function ApplyWrites(s: Store, ws: seq<Write>): Store {
    if |ws| == 0 then s else ApplyWrite(ApplyWrites(s, ws[..|ws| - 1]), ws[|ws| - 1])
  }

  function ApplyBatch(s: Store, metrics: seq<Metric>): Store {
    ApplyWrites(s, BatchWrites(metrics))
  }

  lemma {:induction false} ApplyWritesAppend(s: Store, a: seq<Write>, b: seq<Write>)
    ensures ApplyWrites(s, a + b) == ApplyWrites(ApplyWrites(s, a), b)
    decreases |b|
  {
    if |b| == 0 {
      assert a + b == a;
    } else {
      var last := |b| - 1;
      assert (a + b)[..|a| + last] == a + b[..last];
      ApplyWritesAppend(s, a, b[..last]);
    }
  }

  /** A batch is its parts one after the other. */
  lemma BatchComposes(s: Store, a: seq<Metric>, b: seq<Metric>)
    ensures ApplyBatch(s, a + b) == ApplyBatch(ApplyBatch(s, a), b)
  {
    BatchWritesAppend(a, b);
    ApplyWritesAppend(s, BatchWrites(a), BatchWrites(b));
  }

  class MemStorage {
    var gauges: map<string, Float>
    var counters: map<string, int64>

    function Contents(): Store
      reads this
    {
      Store(gauges, counters)
    }

    constructor ()
      ensures Contents() == EMPTY
    {
      gauges, counters := map[], map[];
    }

    method UpdateGauge(name: string, value: Float)
      modifies this
      ensures Contents() == ApplyWrite(old(Contents()), SetGauge(name, value))
    {
      gauges := gauges[name := value];
    }

    method UpdateCounter(name: string, value: int64)
      modifies this
      ensures Contents() == ApplyWrite(old(Contents()), AddCounter(name, value))
    {
      var before := if name in counters then counters[name] else 0;
      counters := counters[name := Wrap(before + value)];
    }

    method UpdateBatch(metrics: seq<Metric>)
      modifies this
      ensures Contents() == ApplyBatch(old(Contents()), metrics)
    {
      for i := 0 to |metrics|
        invariant Contents() == ApplyBatch(old(Contents()), metrics[..i])
      {
        var m := metrics[i];
        assert metrics[..i + 1][..i] == metrics[..i];
        ApplyWritesAppend(old(Contents()), BatchWrites(metrics[..i]), WritesOf(m));
        ghost var before := Contents();
        if m.mtype == GAUGE {
          if m.value.Some? {
            gauges := gauges[m.id := m.value.value];
            assert Contents() == ApplyWrites(before, [SetGauge(m.id, m.value.value)]);
          }
        } else if m.mtype == COUNTER {
          if m.delta.Some? {
            var sum := if m.id in counters then counters[m.id] else 0;
            counters := counters[m.id := Wrap(sum + m.delta.value)];
            assert Contents() == ApplyWrites(before, [AddCounter(m.id, m.delta.value)]);
          }
        }
      }
      assert metrics[..|metrics|] == metrics;
    }

    method GetGauge(name: string) returns (r: Option<Float>)
      ensures r == if name in gauges then Some(gauges[name]) else None
    {
      if name in gauges { return Some(gauges[name]); }
      return None;
    }

    method GetCounter(name: string) returns (r: Option<int64>)
      ensures r == if name in counters then Some(counters[name]) else None
    {
      if name in counters { return Some(counters[name]); }
      return None;
    }

    method GetAll() returns (g: map<string, Float>, c: map<string, int64>)
      ensures Store(g, c) == Contents()
    {
      return gauges, counters;
    }
  }

  // What a list of writes means: the last value of a gauge, and the sum of a counter.

  function LastGauge(ws: seq<Write>, id: string): Option<Float> {
    if |ws| == 0 then None
    else
      var w := ws[|ws| - 1];
      if w.SetGauge? && w.id == id then Some(w.value) else LastGauge(ws[..|ws| - 1], id)
  }

  function SumDeltas(ws: seq<Write>, id: string): int {
    if |ws| == 0 then 0
    else
      var w := ws[|ws| - 1];
      SumDeltas(ws[..|ws| - 1], id) + if w.AddCounter? && w.id == id then w.delta else 0
  }

  predicate CountsId(ws: seq<Write>, id: string) {
    exists i :: 0 <= i < |ws| && ws[i].AddCounter? && ws[i].id == id
  }

  /** A gauge holds the last value written to it. */
  lemma {:induction false} GaugesMean(s: Store, ws: seq<Write>, id: string)
    ensures var t := ApplyWrites(s, ws); var last := LastGauge(ws, id);
      && (id in t.gauges <==> id in s.gauges || last.Some?)
      && (id in t.gauges ==> t.gauges[id] == if last.Some? then last.value else s.gauges[id])
    decreases |ws|
  {
    if |ws| > 0 { GaugesMean(s, ws[..|ws| - 1], id); }
  }

  /** A counter holds the wrapped sum of everything added to it. */
  lemma {:induction false} CountersMean(s: Store, ws: seq<Write>, id: string)
    ensures var t := ApplyWrites(s, ws);
      && (id in t.counters <==> id in s.counters || CountsId(ws, id))
      && CounterOr0(t, id) == Wrap(CounterOr0(s, id) + SumDeltas(ws, id))
    decreases |ws|
  {
    if |ws| > 0 {
      var last := |ws| - 1;
      var before, w := ws[..last], ws[last];
      CountersMean(s, before, id);
      CountsSnoc(ws, id);
      OneWriteCounts(ApplyWrites(s, before), w, id);
      if w.AddCounter? && w.id == id { WrapAdd(CounterOr0(s, id) + SumDeltas(before, id), w.delta); }
    }
  }

  lemma OneWriteCounts(s: Store, w: Write, id: string)
    ensures id in ApplyWrite(s, w).counters <==> id in s.counters || (w.AddCounter? && w.id == id)
    ensures CounterOr0(ApplyWrite(s, w), id) ==
      if w.AddCounter? && w.id == id then Wrap(CounterOr0(s, id) + w.delta) else CounterOr0(s, id)
  {
  }

  lemma CountsSnoc(ws: seq<Write>, id: string)
    requires |ws| > 0
    ensures var last := |ws| - 1;
      CountsId(ws, id) <==> CountsId(ws[..last], id) || (ws[last].AddCounter? && ws[last].id == id)
  {
  }
}
