/** The flat metric model shared by agent and server, and Go's 64-bit counters. */
module Metrics {
  import opened Wrappers

  /** A `float64`, of which only finiteness matters here. */
  datatype Float = Float(code: int, finite: bool)

  /** The zero of `float64`. */
  const ZERO := Float(0, true)

  const TWO_TO_63 := 0x8000_0000_0000_0000

  predicate IsInt64(x: int) {
    -TWO_TO_63 <= x < TWO_TO_63
  }

  type int64 = x: int | IsInt64(x)

  datatype Metric = Metric(id: string, mtype: string, delta: Option<int64>, value: Option<Float>, hash: string)

  const COUNTER := "counter"
  const GAUGE := "gauge"

  lemma KindsDiffer()
    ensures COUNTER != GAUGE
  {
  }

  /** Two's complement wrap-around. */
  function Wrap(x: int): (r: int64)
    ensures IsInt64(x) ==> r == x
  {
    (x + TWO_TO_63) % (2 * TWO_TO_63) - TWO_TO_63
  }

  /** Adding to a wrapped sum is wrapping the sum. */
  lemma WrapAdd(x: int, y: int)
    ensures Wrap(Wrap(x) + y) == Wrap(x + y)
  {
  }

  /** What one metric does to a storage: nothing when its type is unknown or its value missing. */
  datatype Write = SetGauge(id: string, value: Float) | AddCounter(id: string, delta: int64)

  function WritesOf(m: Metric): seq<Write> {
    if m.mtype == GAUGE then if m.value.Some? then [SetGauge(m.id, m.value.value)] else []
    else if m.mtype == COUNTER then if m.delta.Some? then [AddCounter(m.id, m.delta.value)] else []
    else []
  }

  function BatchWrites(metrics: seq<Metric>): seq<Write> {
    if |metrics| == 0 then []
    else BatchWrites(metrics[..|metrics| - 1]) + WritesOf(metrics[|metrics| - 1])
  }

  lemma {:induction false} BatchWritesAppend(a: seq<Metric>, b: seq<Metric>)
    ensures BatchWrites(a + b) == BatchWrites(a) + BatchWrites(b)
    decreases |b|
  {
    if |b| == 0 {
      assert a + b == a;
    } else {
      var last := |b| - 1;
      assert a + b == (a + b[..last]) + [b[last]] && b == b[..last] + [b[last]];
      BatchWritesSnoc(a + b[..last], b[last]);
      BatchWritesAppend(a, b[..last]);
      Assoc(BatchWrites(a), BatchWrites(b[..last]), WritesOf(b[last]));
    }
  }

  lemma BatchWritesSnoc(a: seq<Metric>, m: Metric)
    ensures BatchWrites(a + [m]) == BatchWrites(a) + WritesOf(m)
  {
  }

  lemma Assoc(x: seq<Write>, y: seq<Write>, z: seq<Write>)
    ensures (x + y) + z == x + (y + z)
  {
  }
}
