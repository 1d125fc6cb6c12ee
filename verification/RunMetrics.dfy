/** The whole metrics store of a run: the series and totals of Metrics and the latency histograms of Latency. */
module RunMetrics {
  import opened LatencySpec
  import opened Latency
  import opened MetricsSpec
  import opened Metrics

  class SampleStore {
    const series: MetricsStore
    var latencies: LatencySet

    ghost predicate Valid()
      reads this, series, latencies.of.Values
    {
      series.Valid() && latencies.Valid()
    }

    constructor ()
      ensures Valid() && fresh(series) && !series.recording
      ensures forall op :: fresh(latencies.of[op]) && fresh(latencies.of[op].counts)
      ensures forall op :: latencies.of[op].Value() == Empty(ScaleOf(op))
    {
      series := new MetricsStore();
      latencies := new LatencySet();
    }

    /** A new run: series, totals and histograms start empty, and what was handed out before is not touched. */
    method Begin()
      modifies this`latencies, series
      ensures Valid() && series.recording && Ordered(series.history, series.buckets)
      ensures series.history == [] && series.buckets == map[] && series.log == [] && series.totals == NO_TOTALS
      ensures fresh(latencies) && forall op :: fresh(latencies.of[op]) && fresh(latencies.of[op].counts)
      ensures forall op :: latencies.of[op].Value() == Empty(ScaleOf(op))
    {
      series.Begin();
      latencies := new LatencySet();
    }

    /** apply: while recording, the sample is credited and its histograms are merged; otherwise nothing happens. */
    method Apply(sample: Sample, delta: LatencySet, now: real, later: real)
      requires Valid() && latencies.Apart(delta)
      modifies series, latencies.Footprint()
      ensures Valid() && series.recording == old(series.recording) && latencies == old(latencies)
      ensures !series.recording ==> unchanged(series)
      ensures fresh(latencies.Footprint() - old(latencies.Footprint()))
      ensures latencies.Values() == if series.recording then MergedAll(old(latencies.Values()), old(delta.Values()))
                                    else old(latencies.Values())
      ensures series.recording ==>
                series.log == old(series.log) + [Credit(sample, if sample.timestamp <= 0 then now.Floor
                                                                else sample.timestamp)]
    {
      latencies.MergeWhile(series.recording, delta);
      CreditBeside(sample, now, later);
    }

    method CreditBeside(sample: Sample, now: real, later: real)
      requires Valid()
      modifies series
      ensures Valid() && series.recording == old(series.recording)
      ensures latencies.Values() == old(latencies.Values()) && latencies.Footprint() == old(latencies.Footprint())
      ensures !series.recording ==> unchanged(series)
      ensures series.recording ==>
                series.log == old(series.log) + [Credit(sample, if sample.timestamp <= 0 then now.Floor
                                                                else sample.timestamp)]
    {
      CreditSeries(sample, now, later);
      assert forall op :: latencies.of[op].Value() == old(latencies.of[op].Value());
    }

    method CreditSeries(sample: Sample, now: real, later: real)
      requires series.Valid()
      modifies series
      ensures series.Valid() && series.recording == old(series.recording)
      ensures !series.recording ==> unchanged(series)
      ensures series.recording ==>
                series.log == old(series.log) + [Credit(sample, if sample.timestamp <= 0 then now.Floor
                                                                else sample.timestamp)]
    {
      series.Apply(sample, now, later);
    }

    /** Latencies: a copy that shares nothing with the store. */
    method Latencies() returns (out: LatencySet)
      requires Valid()
      ensures out.Valid() && latencies.Apart(out)
      ensures forall op :: out.of[op].Value() == Fitted(latencies.of[op].Value())
    {
      out := latencies.Clone();
    }

    /** A copy handed out before is not changed by the samples that follow, and stays apart from the store. */
    method ApplyBeside(copy: LatencySet, sample: Sample, delta: LatencySet, now: real, later: real)
      requires Valid() && latencies.Apart(delta) && copy.Valid() && latencies.Apart(copy)
      modifies series, latencies.Footprint()
      ensures Valid() && latencies.Apart(delta) && copy.Valid() && latencies.Apart(copy)
      ensures forall op :: copy.of[op].Value() == old(copy.of[op].Value())
    {
      if series.recording {
        latencies.MergeBeside(copy, delta);
      }
      CreditSeries(sample, now, later);
    }
  }
}
