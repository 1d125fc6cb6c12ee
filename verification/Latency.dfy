/** The histograms updated in place, the client statistics that hand them over, and the percentile read-out. */
module Latency {
  import opened Basics
  import opened LatencySpec

  /** The scan over the edge table. */
  method FindBucket(edges: seq<real>, us: real) returns (i: nat)
    ensures i == BucketOf(edges, us)
  {
    i := 0;
    while i < |edges|
      invariant i <= |edges| && BucketOf(edges, us) >= i
    {
      if us <= edges[i] {
        return;
      }
      i := i + 1;
    }
  }

  /** A histogram whose counts live in an array of their own. */
  class LatencyHistogram {
    var scale: Scale
    var counts: array<nat>
    var total: nat
    var sumUs: real
    var failures: nat

    ghost function Value(): Hist
      reads this, counts
    {
      Hist(scale, counts[..], total, sumUs, failures)
    }

    constructor (scale: Scale)
      ensures Value() == Empty(scale) && fresh(counts)
    {
      this.scale, total, sumUs, failures := scale, 0, 0.0, 0;
      counts := new nat[BucketCount(scale)](i => 0);
    }

    method EnsureCounts()
      modifies this`counts
      ensures Value() == Ensured(old(Value()))
      ensures counts == old(counts) || fresh(counts)
    {
      var n := BucketCount(scale);
      if counts.Length != n {
        counts := new nat[n](i => 0);
      }
    }

    method ObserveUs(us: real)
      modifies this, counts
      ensures Value() == Observed(old(Value()), us)
      ensures counts == old(counts) || fresh(counts)
    {
      EnsureCounts();
      var x := us;
      if x < 0.0 {
        x := 0.0;
      }
      Count(Edges(scale), x);
    }

    method Count(edges: seq<real>, us: real)
      requires counts.Length == |edges| + 1
      modifies this, counts
      ensures Value() == Counted(old(Value()), BucketOf(edges, us), us) && counts == old(counts)
    {
      total, sumUs := total + 1, sumUs + us;
      var i := FindBucket(edges, us);
      counts[i] := counts[i] + 1;
    }

    method ObserveFailure()
      modifies this`failures
      ensures counts == old(counts) && Value() == old(Value()).(failures := old(failures) + 1)
    {
      failures := failures + 1;
    }

    method Merge(other: LatencyHistogram)
      requires other != this && other.counts != counts
      modifies this, counts
      ensures Value() == Merged(old(Value()), old(other.Value()))
      ensures counts == old(counts) || fresh(counts)
    {
      if scale == IO && other.scale != IO {
        scale := other.scale;
      }
      EnsureCounts();
      failures := failures + other.failures;
      if other.counts.Length == 0 {
        total, sumUs := total + other.total, sumUs + other.sumUs;
        assert AddPrefix(counts[..], other.counts[..]) == counts[..];
        return;
      }
      AddCounts(other);
      total, sumUs := total + other.total, sumUs + other.sumUs;
    }

    /** The merging loop over the common prefix. */
    method AddCounts(other: LatencyHistogram)
      requires other != this && other.counts != counts
      modifies counts
      ensures counts[..] == AddPrefix(old(counts[..]), other.counts[..])
    {
      var n := if other.counts.Length < counts.Length then other.counts.Length else counts.Length;
      for i := 0 to n
        invariant forall k :: 0 <= k < counts.Length ==>
                    counts[k] == if k < i then old(counts[k]) + other.counts[k] else old(counts[k])
      {
        counts[i] := counts[i] + other.counts[i];
      }
    }

    /** A deep copy, its counts cut or filled up to the scale: nothing of it is shared. */
    method Clone() returns (out: LatencyHistogram)
      ensures fresh(out) && fresh(out.counts) && out.Value() == Fitted(Value())
      ensures out.scale == scale && out.total == total && out.sumUs == sumUs && out.failures == failures
      ensures out.counts.Length == BucketCount(scale)
              && forall i :: 0 <= i < out.counts.Length ==>
                   out.counts[i] == if i < counts.Length then counts[i] else 0
    {
      out := new LatencyHistogram(scale);
      out.total, out.sumUs, out.failures := total, sumUs, failures;
      var n := if counts.Length < out.counts.Length then counts.Length else out.counts.Length;
      for i := 0 to n
        invariant out.counts.Length == BucketCount(scale) && fresh(out) && fresh(out.counts)
        invariant out.scale == scale && out.total == total && out.sumUs == sumUs && out.failures == failures
        invariant forall k :: 0 <= k < out.counts.Length ==> out.counts[k] == if k < i then counts[k] else 0
      {
        out.counts[i] := counts[i];
      }
      assert out.counts[..] == Fitted(Value()).counts;
    }
  }

  datatype Op = Create | Delete | Write | Read | StartupCold | StartupWarm | GitClone | Untar

  const OPS := [Create, Delete, Write, Read, StartupCold, StartupWarm, GitClone, Untar]

  lemma AllOps(op: Op)
    ensures op in OPS
  {
    assert Create == OPS[0] && Delete == OPS[1] && Write == OPS[2] && Read == OPS[3];
    assert StartupCold == OPS[4] && StartupWarm == OPS[5] && GitClone == OPS[6] && Untar == OPS[7];
  }

  /** Bandwidth files and software phases take seconds and use the long scale. */
  function ScaleOf(op: Op): Scale { if op == Create || op == Delete then IO else Long }

  /** No two operations share a histogram or an array. */
  ghost predicate Separate(m: map<Op, LatencyHistogram>)
    reads m.Values
  {
    forall a, b :: a in m && b in m && a != b ==> m[a] != m[b] && m[a].counts != m[b].counts
  }

  /** Adds a histogram nothing refers to yet. */
  lemma Added(m: map<Op, LatencyHistogram>, op: Op, h: LatencyHistogram)
    requires Separate(m) && forall o :: o in m ==> m[o] != h && m[o].counts != h.counts
    ensures Separate(m[op := h])
  {}

  /** An empty histogram for each of the operations, with nothing in common. */
  method NewHistograms(ops: seq<Op>) returns (m: map<Op, LatencyHistogram>)
    ensures Separate(m) && forall op :: op in m <==> op in ops
    ensures forall op :: op in m ==> fresh(m[op]) && fresh(m[op].counts) && m[op].Value() == Empty(ScaleOf(op))
  {
    if ops == [] {
      return map[];
    }
    var n := |ops| - 1;
    assert ops == ops[..n] + [ops[n]];
    m := NewHistograms(ops[..n]);
    var h := new LatencyHistogram(ScaleOf(ops[n]));
    Added(m, ops[n], h);
    m := m[ops[n] := h];
  }

  /** Operation by operation. */
  function MergedAll(a: map<Op, Hist>, b: map<Op, Hist>): map<Op, Hist> {
    map op | op in a && op in b :: Merged(a[op], b[op])
  }

  /** LatencySet: one histogram for each operation. */
  class LatencySet {
    const of: map<Op, LatencyHistogram>

    ghost predicate Complete() { forall op :: op in of }

    ghost predicate Valid()
      reads of.Values
    {
      Complete() && Separate(of)
    }

    /** Two sets with nothing in common. */
    ghost predicate Apart(other: LatencySet)
      reads of.Values, other.of.Values
    {
      Complete() && other.Complete() && forall a, b :: of[a] != other.of[b] && of[a].counts != other.of[b].counts
    }

    /** The histograms and their arrays. */
    ghost function Footprint(): set<object>
      reads of.Values
    {
      of.Values + set op | op in of :: of[op].counts
    }

    /** All histograms as values. */
    ghost function Values(): map<Op, Hist>
      reads of.Values, Footprint()
    {
      map op | op in of :: of[op].Value()
    }

    /** NewLatencySet. */
    constructor ()
      ensures Valid()
      ensures forall op :: fresh(of[op]) && fresh(of[op].counts) && of[op].Value() == Empty(ScaleOf(op))
      // creates and deletes take microseconds, everything else seconds
      ensures forall op :: of[op].scale == if op.Create? || op.Delete? then IO else Long
    {
      var m := NewHistograms(OPS);
      of := m;
      new;
      forall op
        ensures op in of
      {
        AllOps(op);
      }
    }

    constructor Of(m: map<Op, LatencyHistogram>)
      ensures of == m
    {
      of := m;
    }

    method MergeOp(op: Op, other: LatencySet)
      requires Valid() && Apart(other)
      modifies of[op], of[op].counts
      ensures Valid() && Apart(other)
      ensures of[op].Value() == Merged(old(of[op].Value()), old(other.of[op].Value()))
      ensures of[op].counts == old(of[op].counts) || fresh(of[op].counts)
      ensures forall o :: o != op ==> of[o].Value() == old(of[o].Value()) && of[o].counts == old(of[o].counts)
      ensures forall o :: other.of[o].Value() == old(other.of[o].Value())
    {
      of[op].Merge(other.of[op]);
    }

    method CollectOne(op: Op, sample: Option<real>)
      requires Valid()
      modifies of[op], of[op].counts
      ensures Valid() && of[op].Value() == Collected(old(of[op].Value()), sample)
      ensures of[op].counts == old(of[op].counts) || fresh(of[op].counts)
      ensures forall o :: o != op ==> of[o].Value() == old(of[o].Value()) && of[o].counts == old(of[o].counts)
    {
      if sample.Some? {
        of[op].ObserveUs(sample.value);
      } else {
        of[op].ObserveFailure();
      }
    }

    /** One sample or failure, in terms of all values. */
    method Collect(op: Op, sample: Option<real>)
      requires Valid()
      modifies Footprint()
      ensures Valid() && fresh(Footprint() - old(Footprint()))
      ensures op in old(Values()) && Values() == old(Values())[op := Collected(old(Values())[op], sample)]
    {
      ghost var was := Values();
      assert was[op] == of[op].Value();
      CollectOne(op, sample);
      assert Values() == was[op := Collected(was[op], sample)];
    }

    /** Merges the listed operations one after the other. */
    method MergeEach(ops: seq<Op>, other: LatencySet)
      requires Valid() && Apart(other) && Distinct(ops)
      modifies Footprint()
      ensures Valid() && Apart(other)
      ensures forall op :: op in ops ==> of[op].Value() == Merged(old(of[op].Value()), old(other.of[op].Value()))
      ensures forall op :: op !in ops ==> of[op].Value() == old(of[op].Value()) && of[op].counts == old(of[op].counts)
      ensures forall op :: of[op].counts == old(of[op].counts) || fresh(of[op].counts)
      ensures forall op :: other.of[op].Value() == old(other.of[op].Value())
    {
      if ops != [] {
        var n := |ops| - 1;
        assert ops == ops[..n] + [ops[n]];
        MergeEach(ops[..n], other);
        MergeOp(ops[n], other);
      }
    }

    /** Adds another set's histograms, operation by operation, and leaves the other set alone. */
    method Merge(other: LatencySet)
      requires Valid() && Apart(other)
      modifies Footprint()
      ensures Valid() && Apart(other)
      ensures forall op :: of[op].Value() == Merged(old(of[op].Value()), old(other.of[op].Value()))
      ensures forall op :: other.of[op].Value() == old(other.of[op].Value())
      ensures forall op :: of[op].counts == old(of[op].counts) || fresh(of[op].counts)
    {
      assert Distinct(OPS);
      MergeEach(OPS, other);
      forall op
        ensures op in OPS
      {
        AllOps(op);
      }
    }

    /** Histograms nobody merges into stay apart from the set when its arrays change to new ones only. */
    twostate lemma StaysApart(clone: LatencySet)
      requires old(Apart(clone)) && forall op :: clone.of[op].counts == old(clone.of[op].counts)
      requires forall op :: of[op].counts == old(of[op].counts) || fresh(of[op].counts)
      ensures Apart(clone)
    {}

    /** The same in terms of all values at once, and only while recording. */
    method MergeWhile(recording: bool, other: LatencySet)
      requires Valid() && Apart(other)
      modifies Footprint()
      ensures Valid()
      ensures Values() == if recording then MergedAll(old(Values()), old(other.Values())) else old(Values())
      ensures fresh(Footprint() - old(Footprint()))
    {
      if recording {
        Merge(other);
      }
    }

    lemma OutsideFootprint(clone: LatencySet)
      requires Apart(clone)
      ensures forall op :: clone.of[op] !in Footprint() && clone.of[op].counts !in Footprint()
    {}

    /** A clone handed out before stays apart from the set and keeps its values while the set goes on merging. */
    method MergeBeside(clone: LatencySet, other: LatencySet)
      requires Valid() && Apart(other) && clone.Valid() && Apart(clone)
      modifies Footprint()
      ensures Valid() && Apart(other) && clone.Valid() && Apart(clone)
      ensures forall op :: clone.of[op].Value() == old(clone.of[op].Value())
    {
      OutsideFootprint(clone);
      Merge(other);
      StaysApart(clone);
    }

    /** A deep copy: no histogram and no array of it is shared. */
    method Clone() returns (out: LatencySet)
      requires Valid()
      ensures out.Valid() && Apart(out)
      ensures forall op :: fresh(out.of[op]) && fresh(out.of[op].counts) && out.of[op].Value() == Fitted(of[op].Value())
    {
      var m := CloneEach(OPS);
      forall op
        ensures op in m
      {
        AllOps(op);
      }
      out := new LatencySet.Of(m);
    }

    method CloneEach(ops: seq<Op>) returns (m: map<Op, LatencyHistogram>)
      requires Complete()
      ensures Separate(m) && forall op :: op in m <==> op in ops
      ensures forall op :: op in m ==> fresh(m[op]) && fresh(m[op].counts) && m[op].Value() == Fitted(of[op].Value())
    {
      if ops == [] {
        return map[];
      }
      var n := |ops| - 1;
      assert ops == ops[..n] + [ops[n]];
      m := CloneEach(ops[..n]);
      var h := of[ops[n]].Clone();
      Added(m, ops[n], h);
      m := m[ops[n] := h];
    }
  }

  /** What a histogram becomes by a sample or a failure. */
  function Collected(h: Hist, sample: Option<real>): Hist {
    if sample.Some? then Observed(h, sample.value) else h.(failures := h.failures + 1)
  }

  /** An empty set next to one in use. */
  method NextSet(used: LatencySet) returns (next: LatencySet)
    requires used.Valid()
    ensures next.Valid() && next.Apart(used)
    ensures forall op :: fresh(next.of[op]) && fresh(next.of[op].counts) && next.of[op].Value() == Empty(ScaleOf(op))
  {
    next := new LatencySet();
  }

  datatype Counters = Counters(readOps: int, writeOps: int, createOps: int, deleteOps: int, readBytes: int,
                               writeBytes: int, gitFiles: int, untarFiles: int)

  const NO_COUNTS := Counters(0, 0, 0, 0, 0, 0, 0, 0)

  /** The counters and histograms a client collects between two reports. */
  class Stats {
    var counters: Counters
    var latencies: LatencySet

    ghost predicate Valid()
      reads this, latencies.of.Values
    {
      latencies.Valid()
    }

    constructor ()
      ensures Valid() && counters == NO_COUNTS
      ensures forall op :: fresh(latencies.of[op]) && fresh(latencies.of[op].counts)
      ensures forall op :: latencies.of[op].Value() == Empty(ScaleOf(op))
    {
      counters := NO_COUNTS;
      latencies := new LatencySet();
    }

    /** ObserveCreate, ObserveDelete and so on: one sample into the histogram of its operation. */
    method Observe(op: Op, us: real)
      requires Valid()
      modifies latencies.of[op], latencies.of[op].counts
      ensures Valid() && latencies.of[op].Value() == Observed(old(latencies.of[op].Value()), us)
      ensures latencies.of[op].counts == old(latencies.of[op].counts) || fresh(latencies.of[op].counts)
      ensures forall o :: o != op ==> latencies.of[o].Value() == old(latencies.of[o].Value())
    {
      latencies.of[op].ObserveUs(us);
    }

    /** ObserveStartupColdFailure and so on: one failure. */
    method ObserveFailure(op: Op)
      requires Valid()
      modifies latencies.of[op]
      ensures Valid() && latencies.of[op].counts == old(latencies.of[op].counts)
      ensures var h := old(latencies.of[op].Value()); latencies.of[op].Value() == h.(failures := h.failures + 1)
      ensures forall o :: o != op ==> latencies.of[o].Value() == old(latencies.of[o].Value())
    {
      latencies.of[op].ObserveFailure();
    }

    /** The same in terms of all values at once: a sample, or a failure. */
    method Collect(op: Op, sample: Option<real>)
      requires Valid()
      modifies latencies.Footprint()
      ensures Valid() && fresh(latencies.Footprint() - old(latencies.Footprint()))
      ensures op in old(latencies.Values())
      ensures latencies.Values() == old(latencies.Values())[op := Collected(old(latencies.Values())[op], sample)]
    {
      latencies.Collect(op, sample);
    }

    /** Hands over everything collected so far and starts from zero on histograms and arrays the snapshot does not
        share. */
    method SnapshotAndReset() returns (snapshot: LatencySet, counts: Counters)
      requires Valid()
      modifies this
      ensures Valid() && latencies.Apart(snapshot) && snapshot == old(latencies) && snapshot.Valid()
      ensures forall op :: fresh(latencies.of[op]) && fresh(latencies.of[op].counts)
      ensures forall op :: snapshot.of[op].Value() == old(latencies.of[op].Value())
      ensures forall op :: latencies.of[op].Value() == Empty(ScaleOf(op))
      ensures counts == old(counters) && counters == NO_COUNTS
    {
      var next := NextSet(latencies);
      snapshot, counts := latencies, counters;
      counters, latencies := NO_COUNTS, next;
    }

    /** No later observation changes a snapshot: it stays apart from the live histograms, whatever is observed, a
        sample or a failure. */
    method ObserveBeside(snapshot: LatencySet, op: Op, sample: Option<real>)
      requires Valid() && snapshot.Valid() && latencies.Apart(snapshot)
      modifies latencies.of[op], latencies.of[op].counts
      ensures Valid() && snapshot.Valid() && latencies.Apart(snapshot)
      ensures forall o :: snapshot.of[o].Value() == old(snapshot.of[o].Value())
    {
      if sample.Some? {
        Observe(op, sample.value);
      } else {
        ObserveFailure(op);
      }
    }
  }

  // ---- The percentile read-out of the web interface -----------------------------------------------

  datatype Percentile = Percentile(index: nat, us: real, overflow: bool)

  /** histogramPercentile. A histogram without samples has none; otherwise the first bucket up to which pct percent of
      the total are counted, or the overflow bucket when the counts fall short of that. */
  method HistogramPercentile(counts: seq<nat>, total: nat, edges: seq<real>, pct: real)
    returns (r: Option<Percentile>)
    ensures r.None? <==> total == 0 || edges == []
    ensures r.Some? ==> r.value.overflow == (r.value.index >= |edges|)
                        && r.value.us == edges[if r.value.overflow then |edges| - 1 else r.value.index]
    ensures r.Some? ==> forall j :: 0 < j <= r.value.index ==> 100.0 * Cum(counts, j) as real < pct * total as real
    ensures r.Some? && 100.0 * Cum(counts, r.value.index + 1) as real < pct * total as real ==>
              r.value.index == |edges|
              && forall j :: 0 < j <= |counts| || 0 < j <= |edges| + 1 ==>
                   100.0 * Cum(counts, j) as real < pct * total as real
    ensures r.Some? ==> Answers(counts, edges, total, pct, r.value.index)
  {
    if total == 0 || edges == [] {
      return None;
    }
    var target := pct / 100.0 * total as real;
    var cum := 0;
    var n := if |counts| > |edges| + 1 then |counts| else |edges| + 1;
    for i := 0 to n
      invariant cum == Cum(counts, i)
      invariant forall j :: 0 < j <= i ==> (Cum(counts, j) as real) < target
    {
      cum := cum + (if i < |counts| then counts[i] else 0);
      if cum as real >= target {
        TargetAnswers(counts, edges, total, pct, i);
        BelowPercent(counts, total, pct, i);
        if i < |edges| {
          return Some(Percentile(i, edges[i], false));
        }
        return Some(Percentile(i, edges[|edges| - 1], true));
      }
    }
    TargetAnswers(counts, edges, total, pct, |edges|);
    BelowPercent(counts, total, pct, n);
    return Some(Percentile(|edges|, edges[|edges| - 1], true));
  }

  lemma BelowPercent(counts: seq<nat>, total: nat, pct: real, i: nat)
    ensures forall j :: 0 < j <= i ==>
              ((Cum(counts, j) as real) < Target(pct, total) <==> 100.0 * Cum(counts, j) as real < pct * total as real)
    ensures Cum(counts, i + 1) as real >= Target(pct, total) <==>
            100.0 * Cum(counts, i + 1) as real >= pct * total as real
  {
    Hundredfold(pct, total, Cum(counts, i + 1));
    forall j | 0 < j <= i
      ensures (Cum(counts, j) as real) < Target(pct, total) <==> 100.0 * Cum(counts, j) as real < pct * total as real
    {
      Hundredfold(pct, total, Cum(counts, j));
    }
  }

  method ReadOut(counts: seq<nat>, total: nat, edges: seq<real>, pct: real) returns (p: Percentile)
    requires total > 0 && edges != []
    ensures Answers(counts, edges, total, pct, p.index) && p.overflow == (p.index >= |edges|)
    ensures p.us == edges[if p.overflow then |edges| - 1 else p.index]
  {
    var r := HistogramPercentile(counts, total, edges, pct);
    p := r.value;
  }

  /** On the histogram of any samples the read-out is the bucket of the k-th smallest of them, where k is pct percent of
      their number, rounded up: its edge bounds that sample from above, or the sample exceeds the last edge. So at least
      pct percent of the samples are within it unless it overflows, and fewer are within any bucket before. */
  method PercentileOfSamples(scale: Scale, samples: seq<real>, pct: real) returns (p: Percentile, ghost k: nat)
    requires samples != [] && 0.0 < pct <= 100.0
    ensures IsPercent(k, pct, |samples|)
    ensures var x := KthSmallest(samples, k);
            p.index == BucketOf(Edges(scale), x) && (if p.overflow then x > p.us else x <= p.us)
    ensures !p.overflow ==> 100.0 * AtMost(samples, p.us) as real >= pct * |samples| as real
    ensures p.overflow ==> 100.0 * AtMost(samples, p.us) as real < pct * |samples| as real
    ensures p.index <= |Edges(scale)|
    ensures p.index > 0 ==> 100.0 * AtMost(samples, Edges(scale)[p.index - 1]) as real < pct * |samples| as real
  {
    var edges := Edges(scale);
    var h := HistOf(scale, samples, 0);
    p := ReadOut(h.counts, |samples|, edges, pct);
    k := RankOfPercent(pct, |samples|);
    AnswerForSamples(edges, samples, h.counts, pct, k, p.index);
  }

  /** Three counts over one edge that fall short of their total of two: the 100th percentile lies below the 50th. No
      histogram the store hands out has this shape. */
  method LongCountsReadBackwards() returns (low: Option<Percentile>, high: Option<Percentile>)
    ensures low.Some? && high.Some? && high.value.index < low.value.index
  {
    var counts, edges := [0, 0, 1], [1.0];
    assert Cum(counts, 1) == 0;
    assert Cum(counts, 2) == 0;
    assert Cum(counts, 3) == 1;
    low := HistogramPercentile(counts, 2, edges, 50.0);
    high := HistogramPercentile(counts, 2, edges, 100.0);
    assert Target(50.0, 2) == 1.0 && Target(100.0, 2) == 2.0;
    CumOfThree(counts);
  }

  lemma CumOfThree(counts: seq<nat>)
    requires |counts| == 3
    ensures forall j :: j >= 3 ==> Cum(counts, j) == Cum(counts, 3)
  {
    forall j: nat | j >= 3
      ensures Cum(counts, j) == Cum(counts, 3)
    {
      CumConstant(counts, j);
    }
  }
}
