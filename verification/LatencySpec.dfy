/** Latency histograms as values: what the bucket counts of a collection of samples are, how observing and
    merging act on them, and what a percentile read from the buckets says about the samples. */
module LatencySpec {

  datatype Scale = IO | Long

  /** The bucket edges in microseconds: 10us to 10s, and half a second to a minute. */
  function IoEdge(i: nat): real {
    match i
    case 0 => 10.0 case 1 => 20.0 case 2 => 50.0 case 3 => 100.0 case 4 => 200.0 case 5 => 500.0
    case 6 => 1000.0 case 7 => 2000.0 case 8 => 5000.0 case 9 => 10000.0 case 10 => 20000.0 case 11 => 50000.0
    case 12 => 100000.0 case 13 => 200000.0 case 14 => 500000.0
    case 15 => 1000000.0 case 16 => 2000000.0 case 17 => 5000000.0 case _ => 10000000.0
  }

  function LongEdge(i: nat): real {
    match i
    case 0 => 500000.0 case 1 => 1000000.0 case 2 => 1500000.0 case 3 => 2000000.0 case 4 => 3000000.0
    case 5 => 4000000.0 case 6 => 5000000.0 case 7 => 7500000.0 case 8 => 10000000.0 case 9 => 12500000.0
    case 10 => 15000000.0 case 11 => 20000000.0 case 12 => 25000000.0 case 13 => 30000000.0
    case 14 => 40000000.0 case 15 => 50000000.0 case _ => 60000000.0
  }

  function Edges(scale: Scale): (edges: seq<real>)
    ensures Increasing(edges) && |edges| > 0
  {
    if scale == Long then seq(17, i requires 0 <= i => LongEdge(i)) else seq(19, i requires 0 <= i => IoEdge(i))
  }

  ghost predicate Increasing(edges: seq<real>) {
    forall i, j :: 0 <= i < j < |edges| ==> edges[i] < edges[j]
  }

  /** A histogram; the last count is the overflow bucket. */
  datatype Hist = Hist(scale: Scale, counts: seq<nat>, total: nat, sumUs: real, failures: nat)

  /** One count per edge and one for the overflow: 20 and 18. */
  function BucketCount(scale: Scale): (n: nat)
    ensures n == |Edges(scale)| + 1
  {
    if scale == Long then 18 else 20
  }

  function Zeros(n: nat): (z: seq<nat>)
    ensures |z| == n && forall i :: 0 <= i < n ==> z[i] == 0
  {
    seq(n, i => 0)
  }

  function Empty(scale: Scale): Hist { Hist(scale, Zeros(BucketCount(scale)), 0, 0.0, 0) }

  /** The first edge not below the sample, or the overflow bucket. */
  function BucketOf(edges: seq<real>, us: real): (b: nat)
    ensures b <= |edges|
    ensures b < |edges| ==> us <= edges[b]
    ensures forall i :: 0 <= i < b ==> edges[i] < us
  {
    if edges == [] || us <= edges[0] then 0 else 1 + BucketOf(edges[1..], us)
  }

  /** Negative durations count as zero. */
  function Clamp(us: real): real { if us < 0.0 then 0.0 else us }

  // ---- The histogram of a collection of samples --------------------------------------------------

  /** How many samples fall into bucket b. */
  function Tally(edges: seq<real>, samples: seq<real>, b: nat): nat {
    if samples == [] then 0
    else Tally(edges, samples[..|samples| - 1], b) + (if BucketOf(edges, samples[|samples| - 1]) == b then 1 else 0)
  }

  function Sum(samples: seq<real>): real {
    if samples == [] then 0.0 else Sum(samples[..|samples| - 1]) + samples[|samples| - 1]
  }

  /** The bucket counts of a collection of samples. */
  function Tallies(edges: seq<real>, samples: seq<real>): (t: seq<nat>)
    ensures |t| == |edges| + 1 && forall b :: 0 <= b < |t| ==> t[b] == Tally(edges, samples, b)
  {
    seq(|edges| + 1, b requires 0 <= b => Tally(edges, samples, b))
  }

  function HistOf(scale: Scale, samples: seq<real>, failures: nat): Hist {
    Hist(scale, Tallies(Edges(scale), samples), |samples|, Sum(samples), failures)
  }

  // ---- The operations ----------------------------------------------------------------------------

  function Ensured(h: Hist): Hist {
    if |h.counts| == BucketCount(h.scale) then h else h.(counts := Zeros(BucketCount(h.scale)))
  }

  /** The counts cut or filled up with zeros to the scale. */
  function Fitted(h: Hist): (f: Hist)
    ensures |h.counts| == BucketCount(h.scale) ==> f == h
  {
    h.(counts := seq(BucketCount(h.scale), i requires 0 <= i => if i < |h.counts| then h.counts[i] else 0))
  }

  /** One more sample in bucket b. */
  function Counted(h: Hist, b: nat, us: real): Hist
    requires b < |h.counts|
  {
    h.(counts := h.counts[b := h.counts[b] + 1], total := h.total + 1, sumUs := h.sumUs + us)
  }

  function Observed(h: Hist, us: real): Hist {
    Counted(Ensured(h), BucketOf(Edges(h.scale), Clamp(us)), Clamp(us))
  }

  /** Componentwise sum of the common prefix, on top of a. */
  function AddPrefix(a: seq<nat>, b: seq<nat>): (s: seq<nat>)
    ensures |s| == |a|
  {
    seq(|a|, i requires 0 <= i < |a| => if i < |b| then a[i] + b[i] else a[i])
  }

  function Merged(h: Hist, other: Hist): Hist {
    var e := Ensured(h.(scale := if h.scale == IO then other.scale else h.scale));
    Hist(e.scale, AddPrefix(e.counts, other.counts), e.total + other.total, e.sumUs + other.sumUs,
         e.failures + other.failures)
  }

  /** Any histogram gains one sample, zero for a negative one, in its own bucket; stray counts are dropped first. */
  lemma ObservedIs(h: Hist, us: real)
    ensures var after, x, n := Observed(h, us), if us < 0.0 then 0.0 else us, BucketCount(h.scale);
            after.scale == h.scale && after.failures == h.failures && after.total == h.total + 1
            && after.sumUs == h.sumUs + x && |after.counts| == n
            && forall i :: 0 <= i < n ==>
                 after.counts[i] == (if |h.counts| == n then h.counts[i] else 0)
                                    + (if i == BucketOf(Edges(h.scale), x) then 1 else 0)
  {}

  /** Merging any two adds everything up; an IO histogram takes over the other's scale, and counts of the wrong number
      are dropped first. */
  lemma MergedIs(h: Hist, other: Hist)
    ensures var after, n := Merged(h, other), BucketCount(Merged(h, other).scale);
            after.scale == (if h.scale == IO then other.scale else h.scale)
            && after.total == h.total + other.total && after.sumUs == h.sumUs + other.sumUs
            && after.failures == h.failures + other.failures && |after.counts| == n
            && forall i :: 0 <= i < n ==>
                 after.counts[i] == (if |h.counts| == n then h.counts[i] else 0)
                                    + (if i < |other.counts| then other.counts[i] else 0)
  {}

  // ---- Observing and merging are what they should be on samples -----------------------------------

  /** Observing appends the sample itself, or zero for a negative one. */
  lemma ObserveIsAppend(scale: Scale, samples: seq<real>, failures: nat, us: real)
    ensures us >= 0.0 ==>
              Observed(HistOf(scale, samples, failures), us) == HistOf(scale, samples + [us], failures)
    ensures us < 0.0 ==>
              Observed(HistOf(scale, samples, failures), us) == HistOf(scale, samples + [0.0], failures)
  {
    AppendOne(scale, samples, failures, us);
    AppendOne(scale, samples, failures, 0.0);
  }

  lemma AppendOne(scale: Scale, samples: seq<real>, failures: nat, us: real)
    ensures Observed(HistOf(scale, samples, failures), us) == HistOf(scale, samples + [Clamp(us)], failures)
  {
    TalliesAppend(Edges(scale), samples, Clamp(us));
    assert (samples + [Clamp(us)])[..|samples|] == samples;
  }

  lemma TalliesAppend(edges: seq<real>, samples: seq<real>, x: real)
    ensures var b, t := BucketOf(edges, x), Tallies(edges, samples);
            Tallies(edges, samples + [x]) == t[b := t[b] + 1]
  {
    assert (samples + [x])[..|samples|] == samples;
  }

  lemma {:induction false} TallyConcat(edges: seq<real>, xs: seq<real>, ys: seq<real>, b: nat)
    ensures Tally(edges, xs + ys, b) == Tally(edges, xs, b) + Tally(edges, ys, b)
    ensures Sum(xs + ys) == Sum(xs) + Sum(ys)
  {
    if ys == [] {
      assert xs + ys == xs;
    } else {
      TallyConcat(edges, xs, ys[..|ys| - 1], b);
      assert (xs + ys)[..|xs + ys| - 1] == xs + ys[..|ys| - 1];
    }
  }

  /** Merging concatenates the samples. */
  lemma MergeIsConcat(scale: Scale, xs: seq<real>, ys: seq<real>, f: nat, g: nat)
    ensures Merged(HistOf(scale, xs, f), HistOf(scale, ys, g)) == HistOf(scale, xs + ys, f + g)
  {
    TalliesConcat(Edges(scale), xs, ys);
  }

  lemma TalliesConcat(edges: seq<real>, xs: seq<real>, ys: seq<real>)
    ensures AddPrefix(Tallies(edges, xs), Tallies(edges, ys)) == Tallies(edges, xs + ys)
    ensures Sum(xs + ys) == Sum(xs) + Sum(ys)
  {
    forall b: nat
      ensures Tally(edges, xs + ys, b) == Tally(edges, xs, b) + Tally(edges, ys, b)
    {
      TallyConcat(edges, xs, ys, b);
    }
    TallyConcat(edges, xs, ys, 0);
  }

  /** The order in which samples arrive does not matter. */
  lemma {:induction false} OrderIrrelevant(edges: seq<real>, xs: seq<real>, ys: seq<real>, b: nat)
    requires multiset(xs) == multiset(ys)
    ensures Tally(edges, xs, b) == Tally(edges, ys, b) && Sum(xs) == Sum(ys)
    decreases |xs|
  {
    assert |multiset(xs)| == |xs| && |multiset(ys)| == |ys|;
    if xs != [] {
      var n := |xs| - 1;
      var x := xs[n];
      assert xs == xs[..n] + [x];
      assert x in multiset(ys);
      var k :| 0 <= k < |ys| && ys[k] == x;
      var rest := ys[..k] + ys[k + 1..];
      assert ys == ys[..k] + [x] + ys[k + 1..];
      assert multiset(rest) == multiset(ys) - multiset{x};
      assert multiset(xs[..n]) == multiset(xs) - multiset{x};
      OrderIrrelevant(edges, xs[..n], rest, b);
      SwapTail(edges, ys[..k], [x], ys[k + 1..], b);
      TallyConcat(edges, rest, [x], b);
      TallyConcat(edges, xs[..n], [x], b);
    }
  }

  lemma SwapTail(edges: seq<real>, a: seq<real>, x: seq<real>, c: seq<real>, b: nat)
    ensures Tally(edges, a + x + c, b) == Tally(edges, a + c + x, b)
    ensures Sum(a + x + c) == Sum(a + c + x)
  {
    TallyConcat(edges, a, x, b);
    TallyConcat(edges, a + x, c, b);
    TallyConcat(edges, a, c, b);
    TallyConcat(edges, a + c, x, b);
  }

  lemma HistOfPermutation(scale: Scale, xs: seq<real>, ys: seq<real>, failures: nat)
    requires multiset(xs) == multiset(ys)
    ensures HistOf(scale, xs, failures) == HistOf(scale, ys, failures)
  {
    var edges := Edges(scale);
    forall b: nat
      ensures Tally(edges, xs, b) == Tally(edges, ys, b)
    {
      OrderIrrelevant(edges, xs, ys, b);
    }
    OrderIrrelevant(edges, xs, ys, 0);
    assert Tallies(edges, xs) == Tallies(edges, ys);
    assert |multiset(xs)| == |xs| && |multiset(ys)| == |ys|;
  }

  // ---- Counts and total --------------------------------------------------------------------------

  /** The sum of the first k counts, missing counts being zero. */
  function Cum(counts: seq<nat>, k: nat): nat {
    if k == 0 then 0 else Cum(counts, k - 1) + (if k - 1 < |counts| then counts[k - 1] else 0)
  }

  predicate Consistent(h: Hist) {
    |h.counts| == BucketCount(h.scale) && Cum(h.counts, |h.counts|) == h.total
  }

  lemma {:induction false} CumAddPrefix(a: seq<nat>, b: seq<nat>, k: nat)
    requires k <= |a|
    ensures Cum(AddPrefix(a, b), k) == Cum(a, k) + Cum(b, k)
  {
    if k > 0 {
      CumAddPrefix(a, b, k - 1);
    }
  }

  lemma {:induction false} CumMonotone(counts: seq<nat>, j: nat, k: nat)
    requires j <= k
    ensures Cum(counts, j) <= Cum(counts, k)
    decreases k
  {
    if j < k {
      CumMonotone(counts, j, k - 1);
    }
  }

  lemma {:induction false} CumOfZeros(n: nat, k: nat)
    ensures Cum(Zeros(n), k) == 0
  {
    if k > 0 {
      CumOfZeros(n, k - 1);
    }
  }

  /** Merging keeps "the counts add up to the total" exactly when the scales agree, or the IO side is still empty
      when a long histogram arrives, or the IO histogram arriving has nothing in its last two buckets. */
  lemma MergeConsistentIff(h: Hist, other: Hist)
    requires Consistent(h) && Consistent(other)
    ensures Consistent(Merged(h, other)) <==>
            h.scale == other.scale
            || (h.scale == IO && h.total == 0)
            || (h.scale == Long && other.counts[18] == 0 && other.counts[19] == 0)
  {
    if h.scale == IO && other.scale == Long {
      var none := Zeros(|other.counts|);
      CumAddPrefix(none, other.counts, |none|);
      CumOfZeros(|none|, |none|);
    } else {
      CumAddPrefix(h.counts, other.counts, |h.counts|);
      if h.scale == Long && other.scale == IO {
        CumLastTwo(other.counts, |h.counts|);
      }
    }
  }

  /** Any long histogram merged into one that has IO samples makes it lose them. */
  lemma MixedScalesLose(xs: seq<real>, ys: seq<real>, f: nat, g: nat)
    requires xs != []
    ensures !Consistent(Merged(HistOf(IO, xs, f), HistOf(Long, ys, g)))
  {
    HistOfConsistent(IO, xs, f);
    HistOfConsistent(Long, ys, g);
    MergeConsistentIff(HistOf(IO, xs, f), HistOf(Long, ys, g));
  }

  lemma CumLastTwo(counts: seq<nat>, n: nat)
    requires |counts| == n + 2
    ensures Cum(counts, |counts|) == Cum(counts, n) + counts[n] + counts[n + 1]
  {
    assert Cum(counts, n + 1) == Cum(counts, n) + counts[n];
  }

  // ---- Percentiles -------------------------------------------------------------------------------

  /** Insertion sort: the reference order of the samples. */
  function Insert(x: real, sorted: seq<real>): seq<real> {
    if sorted == [] || x <= sorted[0] then [x] + sorted else [sorted[0]] + Insert(x, sorted[1..])
  }

  function Sort(samples: seq<real>): seq<real> {
    if samples == [] then [] else Insert(samples[|samples| - 1], Sort(samples[..|samples| - 1]))
  }

  ghost predicate Sorted(xs: seq<real>) {
    forall i, j :: 0 <= i < j < |xs| ==> xs[i] <= xs[j]
  }

  lemma {:induction false} InsertBelow(low: real, x: real, sorted: seq<real>)
    requires low <= x && forall i :: 0 <= i < |sorted| ==> low <= sorted[i]
    ensures forall i :: 0 <= i < |Insert(x, sorted)| ==> low <= Insert(x, sorted)[i]
  {
    if sorted != [] && x > sorted[0] {
      InsertBelow(low, x, sorted[1..]);
    }
  }

  lemma {:induction false} InsertSorts(x: real, sorted: seq<real>)
    requires Sorted(sorted)
    ensures Sorted(Insert(x, sorted))
  {
    if sorted != [] && x > sorted[0] {
      var rest := Insert(x, sorted[1..]);
      InsertSorts(x, sorted[1..]);
      InsertBelow(sorted[0], x, sorted[1..]);
      assert forall i :: 0 < i < |rest| + 1 ==> ([sorted[0]] + rest)[i] == rest[i - 1];
    }
  }

  lemma {:induction false} InsertKeeps(x: real, sorted: seq<real>)
    ensures multiset(Insert(x, sorted)) == multiset(sorted) + multiset{x}
  {
    if sorted != [] && x > sorted[0] {
      InsertKeeps(x, sorted[1..]);
      assert sorted == [sorted[0]] + sorted[1..];
    }
  }

  lemma {:induction false} SortSorts(samples: seq<real>)
    ensures Sorted(Sort(samples)) && multiset(Sort(samples)) == multiset(samples)
    ensures |Sort(samples)| == |samples|
  {
    if samples != [] {
      var front, x := samples[..|samples| - 1], samples[|samples| - 1];
      SortSorts(front);
      InsertSorts(x, Sort(front));
      InsertKeeps(x, Sort(front));
      assert samples == front + [x];
    }
    assert |multiset(Sort(samples))| == |Sort(samples)| && |multiset(samples)| == |samples|;
  }

  /** The k-th smallest sample. */
  function KthSmallest(samples: seq<real>, k: nat): real
    requires 1 <= k <= |samples|
  {
    SortSorts(samples);
    Sort(samples)[k - 1]
  }

  /** The least integer not below the target. */
  function Ceil(target: real): (k: int)
    ensures k as real - 1.0 < target <= k as real
  {
    if target == target.Floor as real then target.Floor else target.Floor + 1
  }

  /** The running count a percentile asks for. */
  function Target(pct: real, total: nat): real { pct / 100.0 * total as real }

  lemma TargetBounds(pct: real, total: nat)
    requires 0.0 < pct <= 100.0 && total > 0
    ensures 0.0 < Target(pct, total) <= total as real
    ensures 1 <= Ceil(Target(pct, total)) <= total
  {
    var p := pct / 100.0;
    Scaled(p, total as real);
  }

  lemma Scaled(p: real, t: real)
    requires 0.0 < p <= 1.0 && t > 0.0
    ensures 0.0 < p * t <= t
  {}

  /** i is the first bucket at which the running count reaches the target. */
  ghost predicate FirstReaching(counts: seq<nat>, target: real, i: nat) {
    Cum(counts, i + 1) as real >= target && forall j :: 0 < j <= i ==> (Cum(counts, j) as real) < target
  }

  /** How many samples fall into the first k buckets. */
  function InFirst(edges: seq<real>, samples: seq<real>, k: nat): nat {
    if samples == [] then 0
    else InFirst(edges, samples[..|samples| - 1], k) + (if BucketOf(edges, samples[|samples| - 1]) < k then 1 else 0)
  }

  lemma {:induction false} CumIsInFirst(edges: seq<real>, samples: seq<real>, k: nat)
    requires k <= |edges| + 1
    ensures Cum(Tallies(edges, samples), k) == InFirst(edges, samples, k)
    decreases k
  {
    if k == 0 {
      NoneInFirst(edges, samples);
    } else {
      CumIsInFirst(edges, samples, k - 1);
      InFirstStep(edges, samples, k - 1);
    }
  }

  lemma {:induction false} NoneInFirst(edges: seq<real>, samples: seq<real>)
    ensures InFirst(edges, samples, 0) == 0
  {
    if samples != [] {
      NoneInFirst(edges, samples[..|samples| - 1]);
    }
  }

  lemma {:induction false} InFirstStep(edges: seq<real>, samples: seq<real>, k: nat)
    ensures InFirst(edges, samples, k + 1) == InFirst(edges, samples, k) + Tally(edges, samples, k)
  {
    if samples != [] {
      InFirstStep(edges, samples[..|samples| - 1], k);
    }
  }

  lemma {:induction false} AllInFirst(edges: seq<real>, samples: seq<real>)
    ensures InFirst(edges, samples, |edges| + 1) == |samples|
  {
    if samples != [] {
      AllInFirst(edges, samples[..|samples| - 1]);
    }
  }

  /** The counts of a histogram of samples add up to its total. */
  lemma HistOfConsistent(scale: Scale, samples: seq<real>, failures: nat)
    ensures Consistent(HistOf(scale, samples, failures))
  {
    var n := |Edges(scale)| + 1;
    CumIsInFirst(Edges(scale), samples, n);
    AllInFirst(Edges(scale), samples);
  }

  /** The count of samples in the first k buckets can be read off the sorted samples. */
  lemma {:induction false} InFirstOfSorted(edges: seq<real>, sorted: seq<real>, k: nat, i: nat)
    requires Increasing(edges) && Sorted(sorted) && i < |sorted|
    ensures BucketOf(edges, sorted[i]) < k <==> i < InFirst(edges, sorted, k)
    ensures InFirst(edges, sorted, k) <= |sorted|
    decreases |sorted|
  {
    var n := |sorted| - 1;
    var front, last := sorted[..n], sorted[n];
    if n > 0 {
      var j := if i < n then i else n - 1;
      InFirstOfSorted(edges, front, k, j);
      assert BucketOf(edges, front[n - 1]) <= BucketOf(edges, last);
      InFirstOfSorted(edges, front, k, n - 1);
      if BucketOf(edges, last) < k {
        assert BucketOf(edges, sorted[i]) <= BucketOf(edges, last);
      }
    } else {
      assert front == [];
    }
  }

  /** The first k buckets hold at least r samples exactly when the r-th smallest is in one of them. */
  lemma ReachedBy(edges: seq<real>, samples: seq<real>, r: nat, k: nat)
    requires Increasing(edges) && 1 <= r <= |samples| && k <= |edges| + 1
    ensures Cum(Tallies(edges, samples), k) >= r <==> BucketOf(edges, KthSmallest(samples, r)) < k
  {
    var sorted := Sort(samples);
    SortSorts(samples);
    forall b: nat
      ensures Tally(edges, samples, b) == Tally(edges, sorted, b)
    {
      OrderIrrelevant(edges, samples, sorted, b);
    }
    assert Tallies(edges, samples) == Tallies(edges, sorted);
    CumIsInFirst(edges, sorted, k);
    InFirstOfSorted(edges, sorted, k, r - 1);
  }

  /** Percentile correctness: the bucket where the running count reaches pct percent is the bucket of the
      ceil(pct * n / 100)-th smallest sample, so its edges enclose that sample. */
  lemma PercentileIsOrderStatistic(edges: seq<real>, samples: seq<real>, pct: real, i: nat)
    requires Increasing(edges) && samples != [] && 0.0 < pct <= 100.0
    requires FirstReaching(Tallies(edges, samples), Target(pct, |samples|), i)
    ensures 1 <= Ceil(Target(pct, |samples|)) <= |samples|
    ensures var x := KthSmallest(samples, Ceil(Target(pct, |samples|)));
            i == BucketOf(edges, x)
            && (i < |edges| ==> x <= edges[i])
            && (0 < i <= |edges| ==> edges[i - 1] < x)
  {
    TargetBounds(pct, |samples|);
    var k := Ceil(Target(pct, |samples|));
    var b := BucketOf(edges, KthSmallest(samples, k));
    ReachedBy(edges, samples, k, b + 1);
    if i < b {
      ReachedBy(edges, samples, k, i + 1);
    }
  }

  /** Bucket i is what the read-out gives: the first to reach the target, or overflow when none does. */
  ghost predicate ReadsOut(counts: seq<nat>, edges: seq<real>, target: real, i: nat) {
    FirstReaching(counts, target, i)
    || (i == |edges|
        && forall j :: 0 < j <= |counts| || 0 < j <= |edges| + 1 ==> (Cum(counts, j) as real) < target)
  }

  lemma {:induction false} CumConstant(counts: seq<nat>, k: nat)
    requires k >= |counts|
    ensures Cum(counts, k) == Cum(counts, |counts|)
    decreases k
  {
    if k > |counts| {
      CumConstant(counts, k - 1);
    }
  }

  /** Counts no longer than their edges call for are read monotonically, whatever their total: a higher target never
      gives a lower bucket, the overflow for targets out of reach included. */
  lemma ReadOutMonotone(counts: seq<nat>, edges: seq<real>, low: real, high: real, i: nat, j: nat)
    requires |counts| <= |edges| + 1 && low <= high
    requires ReadsOut(counts, edges, low, i) && ReadsOut(counts, edges, high, j)
    ensures i <= j
  {
    if FirstReaching(counts, low, i) {
      ReadWithin(counts, low, i);
      if FirstReaching(counts, high, j) {
        PercentileMonotone(counts, low, high, i, j);
      }
    } else {
      StillUnreached(counts, |edges| + 1, low, high, j);
    }
  }

  lemma ReadWithin(counts: seq<nat>, target: real, i: nat)
    requires FirstReaching(counts, target, i)
    ensures i == 0 || i < |counts|
  {
    if i >= |counts| {
      CumConstant(counts, i);
      CumConstant(counts, i + 1);
    }
  }

  /** What no bucket reaches, no bucket reaches with a higher target. */
  lemma StillUnreached(counts: seq<nat>, n: nat, low: real, high: real, j: nat)
    requires low <= high && 0 < n && |counts| <= n && forall k :: 0 < k <= n ==> (Cum(counts, k) as real) < low
    ensures !FirstReaching(counts, high, j)
  {
    if j + 1 > n {
      CumConstant(counts, j + 1);
      CumConstant(counts, n);
    }
    assert (Cum(counts, if j + 1 > n then n else j + 1) as real) < low;
  }

  // ---- Percentages ---------------------------------------------------------------------------------

  /** Bucket i is the first up to which so much is counted, a hundredfold; or it is the overflow, and so much is not
      counted at all. */
  ghost predicate Reached(counts: seq<nat>, edges: seq<real>, want: real, i: nat) {
    (100.0 * Cum(counts, i + 1) as real >= want && forall j :: 0 < j <= i ==> 100.0 * Cum(counts, j) as real < want)
    || (i == |edges|
        && forall j :: 0 < j <= |counts| || 0 < j <= |edges| + 1 ==> 100.0 * Cum(counts, j) as real < want)
  }

  /** Bucket i is where pct percent of the total are reached. */
  ghost predicate Answers(counts: seq<nat>, edges: seq<real>, total: nat, pct: real, i: nat) {
    Reached(counts, edges, pct * total as real, i)
  }

  lemma Hundredfold(pct: real, total: nat, x: nat)
    ensures x as real >= Target(pct, total) <==> 100.0 * x as real >= pct * total as real
  {
    Regrouped(pct, total as real);
  }

  lemma Regrouped(pct: real, t: real)
    ensures 100.0 * (pct / 100.0 * t) == pct * t
  {
    assert 100.0 * (pct / 100.0) == pct;
  }

  /** Reading out at the target of a percentage is answering for that percentage. */
  lemma TargetAnswers(counts: seq<nat>, edges: seq<real>, total: nat, pct: real, i: nat)
    ensures ReadsOut(counts, edges, Target(pct, total), i) <==> Answers(counts, edges, total, pct, i)
  {
    forall j: nat
      ensures Cum(counts, j) as real >= Target(pct, total) <==> 100.0 * Cum(counts, j) as real >= pct * total as real
    {
      Hundredfold(pct, total, Cum(counts, j));
    }
  }

  /** The higher the percentage, the higher the bucket. */
  lemma PercentsMonotone(counts: seq<nat>, edges: seq<real>, total: nat, low: real, high: real, i: nat, j: nat)
    requires |counts| <= |edges| + 1 && low <= high
    requires Answers(counts, edges, total, low, i) && Answers(counts, edges, total, high, j)
    ensures i <= j
  {
    TargetAnswers(counts, edges, total, low, i);
    TargetAnswers(counts, edges, total, high, j);
    TargetOrder(low, high, total);
    ReadOutMonotone(counts, edges, Target(low, total), Target(high, total), i, j);
  }

  lemma TargetOrder(low: real, high: real, total: nat)
    requires low <= high
    ensures Target(low, total) <= Target(high, total)
  {
    ScaledOrder(low / 100.0, high / 100.0, total as real);
  }

  lemma ScaledOrder(low: real, high: real, t: real)
    requires low <= high && t >= 0.0
    ensures low * t <= high * t
  {}

  /** How many samples are at most x. */
  function AtMost(samples: seq<real>, x: real): nat {
    if samples == [] then 0
    else AtMost(samples[..|samples| - 1], x) + (if samples[|samples| - 1] <= x then 1 else 0)
  }

  lemma {:induction false} InFirstIsAtMost(edges: seq<real>, samples: seq<real>, k: nat)
    requires Increasing(edges) && 0 < k <= |edges|
    ensures InFirst(edges, samples, k) == AtMost(samples, edges[k - 1])
  {
    if samples != [] {
      InFirstIsAtMost(edges, samples[..|samples| - 1], k);
      var x := samples[|samples| - 1];
      assert BucketOf(edges, x) < k <==> x <= edges[k - 1];
    }
  }

  /** k is pct percent of n, rounded up. */
  ghost predicate IsPercent(k: nat, pct: real, n: nat) {
    1 <= k <= n && 100.0 * (k as real - 1.0) < pct * n as real <= 100.0 * k as real
  }

  lemma RankOfPercent(pct: real, n: nat) returns (k: nat)
    requires 0.0 < pct <= 100.0 && n > 0
    ensures IsPercent(k, pct, n) && k == Ceil(Target(pct, n))
  {
    TargetBounds(pct, n);
    k := Ceil(Target(pct, n));
    Hundredfold(pct, n, k);
    Hundredfold(pct, n, k - 1);
  }

  lemma BucketOfRank(edges: seq<real>, samples: seq<real>, pct: real, k: nat, i: nat)
    requires Increasing(edges) && samples != [] && 0.0 < pct <= 100.0
    requires 1 <= k <= |samples| && k == Ceil(Target(pct, |samples|))
    requires Answers(Tallies(edges, samples), edges, |samples|, pct, i)
    ensures i == BucketOf(edges, KthSmallest(samples, k))
  {
    TargetBounds(pct, |samples|);
    ReachedBy(edges, samples, k, |edges| + 1);
    TargetAnswers(Tallies(edges, samples), edges, |samples|, pct, i);
    PercentileIsOrderStatistic(edges, samples, pct, i);
  }

  /** What an answer says about the samples themselves. */
  lemma WithinSamples(edges: seq<real>, samples: seq<real>, want: real, i: nat)
    requires Increasing(edges) && want <= 100.0 * |samples| as real
    requires Reached(Tallies(edges, samples), edges, want, i)
    ensures i <= |edges|
    ensures i < |edges| ==> 100.0 * AtMost(samples, edges[i]) as real >= want
    ensures i > 0 ==> 100.0 * AtMost(samples, edges[i - 1]) as real < want
  {
    var counts := Tallies(edges, samples);
    CumIsInFirst(edges, samples, |edges| + 1);
    AllInFirst(edges, samples);
    assert Cum(counts, |edges| + 1) == |samples|;
    assert i <= |edges|;
    if i < |edges| {
      CumIsInFirst(edges, samples, i + 1);
      InFirstIsAtMost(edges, samples, i + 1);
    }
    if i > 0 {
      CumIsInFirst(edges, samples, i);
      InFirstIsAtMost(edges, samples, i);
    }
  }

  /** The sample of the rank is in the bucket, and so many samples are within its edge and the one before. */
  lemma AnswerForSamples(edges: seq<real>, samples: seq<real>, counts: seq<nat>, pct: real, k: nat, i: nat)
    requires Increasing(edges) && samples != [] && 0.0 < pct <= 100.0 && counts == Tallies(edges, samples)
    requires 1 <= k <= |samples| && k == Ceil(Target(pct, |samples|)) && Answers(counts, edges, |samples|, pct, i)
    ensures i <= |edges| && i == BucketOf(edges, KthSmallest(samples, k))
    ensures i < |edges| ==> 100.0 * AtMost(samples, edges[i]) as real >= pct * |samples| as real
    ensures i > 0 ==> 100.0 * AtMost(samples, edges[i - 1]) as real < pct * |samples| as real
  {
    BucketOfRank(edges, samples, pct, k, i);
    NotAbove(pct, |samples| as real);
    WithinSamples(edges, samples, pct * |samples| as real, i);
  }

  lemma NotAbove(pct: real, t: real)
    requires pct <= 100.0 && t >= 0.0
    ensures pct * t <= 100.0 * t
  {}

  // ---- When a read-out is not monotone -------------------------------------------------------------

  /** A higher target within the total gives a lower bucket. */
  ghost predicate Backwards(counts: seq<nat>, edges: seq<real>, total: nat, low: real, high: real, i: nat, j: nat) {
    0.0 < low <= high <= total as real && ReadsOut(counts, edges, low, i) && ReadsOut(counts, edges, high, j) && j < i
  }

  ghost predicate ReadsBackwards(counts: seq<nat>, edges: seq<real>, total: nat) {
    exists low, high, i, j :: Backwards(counts, edges, total, low, high, i, j)
  }

  /** The first bucket at which the running count reaches what it comes to in the end. */
  lemma {:induction false} FirstReached(counts: seq<nat>, target: real, k: nat) returns (i: nat)
    requires 0 < k && Cum(counts, k) as real >= target
    ensures i < k && FirstReaching(counts, target, i)
    decreases k
  {
    if j :| 0 < j < k && Cum(counts, j) as real >= target {
      i := FirstReached(counts, target, j);
    } else {
      i := k - 1;
    }
  }

  /** A histogram is read backwards if and only if something lies beyond the buckets its edges call for and the counts
      still fall short of the total. */
  lemma ReadsBackwardsIff(counts: seq<nat>, edges: seq<real>, total: nat)
    ensures ReadsBackwards(counts, edges, total)
            <==> Cum(counts, |edges| + 1) < Cum(counts, |counts|) < total
  {
    if ReadsBackwards(counts, edges, total) {
      var low, high, i, j :| Backwards(counts, edges, total, low, high, i, j);
      BackwardsBeyond(counts, edges, total, low, high, i, j);
    }
    if Cum(counts, |edges| + 1) < Cum(counts, |counts|) < total {
      BeyondBackwards(counts, edges, total);
    }
  }

  lemma BackwardsBeyond(counts: seq<nat>, edges: seq<real>, total: nat, low: real, high: real, i: nat, j: nat)
    requires Backwards(counts, edges, total, low, high, i, j)
    ensures Cum(counts, |edges| + 1) < Cum(counts, |counts|) < total
  {
    var n: nat := if |counts| > |edges| + 1 then |counts| else |edges| + 1;
    if FirstReaching(counts, low, i) {
      if FirstReaching(counts, high, j) {
        PercentileMonotone(counts, low, high, i, j);
      }
      ReachedByEnd(counts, i);
      assert |counts| > 0 ==> (Cum(counts, |counts|) as real) < high;
    } else {
      StillUnreached(counts, n, low, high, j);
    }
  }

  /** No running count exceeds the last one. */
  lemma ReachedByEnd(counts: seq<nat>, i: nat)
    ensures Cum(counts, i + 1) <= Cum(counts, |counts|)
  {
    if i + 1 > |counts| {
      CumConstant(counts, i + 1);
    } else {
      CumMonotone(counts, i + 1, |counts|);
    }
  }

  lemma BeyondBackwards(counts: seq<nat>, edges: seq<real>, total: nat)
    requires Cum(counts, |edges| + 1) < Cum(counts, |counts|) < total
    ensures ReadsBackwards(counts, edges, total)
  {
    var low, high := Cum(counts, |counts|) as real, total as real;
    var i := FirstReached(counts, low, |counts|);
    if i + 1 <= |edges| + 1 {
      CumMonotone(counts, i + 1, |edges| + 1);
    }
    forall j: nat | j > 0
      ensures (Cum(counts, j) as real) < high
    {
      ReachedByEnd(counts, j - 1);
    }
    assert Backwards(counts, edges, total, low, high, i, |edges|);
  }

  /** In particular no histogram is read backwards whose counts are no longer than its edges call for, nor one whose
      counts reach their total. */
  lemma ShapedReadsForwards(counts: seq<nat>, edges: seq<real>, total: nat)
    requires |counts| <= |edges| + 1 || Cum(counts, |counts|) >= total
    ensures !ReadsBackwards(counts, edges, total)
  {
    ReadsBackwardsIff(counts, edges, total);
    if |counts| <= |edges| + 1 {
      CumConstant(counts, |edges| + 1);
    }
  }

  /** Nor therefore any histogram handed out, read with the edges of its scale or with more. */
  lemma HandedOutReadsForwards(h: Hist, edges: seq<real>)
    requires |edges| >= |Edges(h.scale)|
    ensures !ReadsBackwards(Fitted(h).counts, edges, h.total)
  {
    ShapedReadsForwards(Fitted(h).counts, edges, h.total);
  }

  /** A higher percentile never reads a lower bucket. */
  lemma PercentileMonotone(counts: seq<nat>, low: real, high: real, i: nat, j: nat)
    requires low <= high && FirstReaching(counts, low, i) && FirstReaching(counts, high, j)
    ensures i <= j
  {
    if j < i {
      assert false;
    }
  }
}
