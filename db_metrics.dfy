// pages/api/db-metrics.ts: a timer samples the database health and keeps a
// bounded history; the endpoint reports the history and its mean latency.
// The timer, `Date.now` and the health probe are parameters here.
module DbMetrics {

  /** One health sample: when, how long the probe took (ms), and whether it succeeded. */
  datatype Sample = Sample(timestamp: int, latency: int, healthy: bool)

  /** The history is shifted before a push once it holds more than this many samples. */
  const SHIFT_ABOVE: nat := 100

  /** One timer tick: drop the oldest sample when there are more than 100, then append the new one. */
  function Tick(history: seq<Sample>, sample: Sample): seq<Sample> {
    (if |history| > SHIFT_ABOVE then history[1..] else history) + [sample]
  }

  /** The history after the timer has delivered `samples`, in order, to an empty history. */
  function History(samples: seq<Sample>): seq<Sample>
    decreases |samples|
  {
    if samples == [] then [] else Tick(History(samples[..|samples| - 1]), samples[|samples| - 1])
  }

  function Min(a: nat, b: nat): nat {
    if a < b then a else b
  }

  /** Sum of the latencies, as `reduce((sum, item) => sum + item.latency, 0)`. */
  function LatencySum(history: seq<Sample>): int
    decreases |history|
  {
    if history == [] then 0 else LatencySum(history[..|history| - 1]) + history[|history| - 1].latency
  }

  /** The mean latency of the history, and 0 for an empty history. */
  function AverageLatency(history: seq<Sample>): (avg: real)
    ensures |history| == 0 ==> avg == 0.0
    ensures |history| > 0 ==> avg * (|history| as real) == LatencySum(history) as real
  {
    if |history| > 0 then (LatencySum(history) as real) / (|history| as real) else 0.0
  }

  /** The endpoint's answer. */
  datatype Report = Report(current: Sample, history: seq<Sample>, averageLatency: real)

  /** The module-level `metricsHistory` array, with the timer's step and the endpoint's read. */
  class MetricsCollector {
    var metricsHistory: seq<Sample>

    constructor ()
      ensures metricsHistory == []
    {
      metricsHistory := [];
    }

    /** The `setInterval` callback, given the probe's result and the clock. */
    method Collect(now: int, latency: int, healthy: bool)
      modifies this
      ensures metricsHistory == Tick(old(metricsHistory), Sample(now, latency, healthy))
    {
      if |metricsHistory| > SHIFT_ABOVE {
        metricsHistory := metricsHistory[1..];
      }
      metricsHistory := metricsHistory + [Sample(now, latency, healthy)];
    }

    /** The endpoint: the current probe, the history and its mean latency. */
    method Handler(current: Sample) returns (r: Report)
      ensures r.current == current && r.history == metricsHistory
      ensures r.averageLatency == AverageLatency(metricsHistory)
      ensures metricsHistory == [] ==> r.averageLatency == 0.0
    {
      var average := 0.0;
      if |metricsHistory| > 0 {
        average := (LatencySum(metricsHistory) as real) / (|metricsHistory| as real);
      }
      r := Report(current, metricsHistory, average);
    }
  }

  // ---------------------------------------------------------------------

  /**
   * Starting from empty, the history is exactly the last `min(n, 101)` samples
   * delivered, in the order they came: at most 101 are kept, the newest is
   * last, and the oldest go first.
   */
  lemma {:induction false} HistoryIsLastSamples(samples: seq<Sample>)
    ensures var n := Min(|samples|, SHIFT_ABOVE + 1);
      History(samples) == samples[|samples| - n..]
    decreases |samples|
  {
    if samples != [] {
      var init := samples[..|samples| - 1];
      var s := samples[|samples| - 1];
      assert samples == init + [s];
      assert History(samples) == Tick(History(init), s);
      HistoryIsLastSamples(init);
      if |init| > SHIFT_ABOVE {
        var kept := init[|init| - (SHIFT_ABOVE + 1)..];
        assert History(init) == kept && |kept| == SHIFT_ABOVE + 1;
        assert Tick(kept, s) == kept[1..] + [s];
        assert kept[1..] == init[|init| - SHIFT_ABOVE..];
        assert Min(|samples|, SHIFT_ABOVE + 1) == SHIFT_ABOVE + 1;
        SuffixOfSnoc(init, s, SHIFT_ABOVE);
      } else {
        assert History(init) == init;
        assert Tick(init, s) == samples;
        assert Min(|samples|, SHIFT_ABOVE + 1) == |samples|;
        assert samples[0..] == samples;
      }
    }
  }

  /** The last `k + 1` elements of `init + [s]` are the last `k` of `init` followed by `s`. */
  lemma SuffixOfSnoc(init: seq<Sample>, s: Sample, k: nat)
    requires k <= |init|
    ensures (init + [s])[|init| - k..] == init[|init| - k..] + [s]
  {
  }

  /** Starting from empty, the history never holds more than 101 samples. */
  lemma HistoryBounded(samples: seq<Sample>)
    ensures |History(samples)| <= SHIFT_ABOVE + 1
  {
    HistoryIsLastSamples(samples);
  }

  /** A tick appends the new sample last and drops the oldest only when more than 100 were held, keeping the rest in order. */
  lemma TickKeepsOrder(history: seq<Sample>, sample: Sample)
    ensures var h := Tick(history, sample);
      && h[|h| - 1] == sample
      && (|history| <= SHIFT_ABOVE ==> h[..|h| - 1] == history)
      && (|history| > SHIFT_ABOVE ==> h[..|h| - 1] == history[1..])
  {
    var h := Tick(history, sample);
    assert h[..|h| - 1] == if |history| > SHIFT_ABOVE then history[1..] else history;
  }

  /** Every latency between `lo` and `hi` bounds their sum by `n * lo` and `n * hi`. */
  lemma {:induction false} SumBounds(history: seq<Sample>, lo: int, hi: int)
    requires forall i :: 0 <= i < |history| ==> lo <= history[i].latency <= hi
    ensures |history| * lo <= LatencySum(history) <= |history| * hi
    decreases |history|
  {
    if history != [] {
      var init := history[..|history| - 1];
      assert forall i :: 0 <= i < |init| ==> init[i] == history[i];
      SumBounds(init, lo, hi);
      assert (|history| - 1) * lo + lo == |history| * lo;
      assert (|history| - 1) * hi + hi == |history| * hi;
    }
  }

  /** The mean lies between the smallest and the largest latency. */
  lemma AverageBetween(history: seq<Sample>, lo: int, hi: int)
    requires |history| > 0
    requires forall i :: 0 <= i < |history| ==> lo <= history[i].latency <= hi
    ensures lo as real <= AverageLatency(history) <= hi as real
  {
    SumBounds(history, lo, hi);
    var n := |history| as real;
    var avg := AverageLatency(history);
    assert avg * n == LatencySum(history) as real;
    assert (lo as real) * n <= avg * n <= (hi as real) * n;
  }

  /** Three samples of 10, 20 and 30 ms average 20 ms. */
  lemma AverageExample(a: Sample, b: Sample, c: Sample)
    requires a.latency == 10 && b.latency == 20 && c.latency == 30
    ensures AverageLatency([a, b, c]) == 20.0
  {
    assert [a, b, c][..2] == [a, b] && [a, b][..1] == [a] && [a][..0] == [];
    assert LatencySum([a]) == 10;
    assert LatencySum([a, b]) == 30;
    assert LatencySum([a, b, c]) == 60;
  }
}
