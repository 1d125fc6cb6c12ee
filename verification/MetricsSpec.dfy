/** The per-second series the controller charts, and what they must add up to.

    A sample reports what one client did during the last `windows` seconds. Whatever the store does
    with open buckets, flushed history and trimming, every second must end up with the sum of the
    slices of the samples covering it, and all seconds together with the raw counts. */
module MetricsSpec {

  /** Samples are spread over at most this many seconds. */
  const MAX_WINDOWS: int := 120

  /** The charted series. Write IOPS include creates. */
  datatype Metric = ReadIOPS | WriteIOPS | CreateIOPS | DeleteIOPS | ReadBps | WriteBps

  /** An open bucket: raw sums, creates still apart from writes. */
  datatype Bucket = Bucket(ts: int, readOps: real, writeOps: real, createOps: real, deleteOps: real,
                           readBytes: real, writeBytes: real)
  {
    function Value(m: Metric): real {
      match m
      case ReadIOPS => readOps
      case WriteIOPS => writeOps + createOps
      case CreateIOPS => createOps
      case DeleteIOPS => deleteOps
      case ReadBps => readBytes
      case WriteBps => writeBytes
    }
  }

  /** A flushed point of the history. */
  datatype Point = Point(sec: int, readIOPS: real, writeIOPS: real, readBps: real, writeBps: real,
                         createIOPS: real, deleteIOPS: real)
  {
    function Value(m: Metric): real {
      match m
      case ReadIOPS => readIOPS
      case WriteIOPS => writeIOPS
      case CreateIOPS => createIOPS
      case DeleteIOPS => deleteIOPS
      case ReadBps => readBps
      case WriteBps => writeBps
    }
  }

  datatype Sample = Sample(timestamp: int, intervalSec: real, readOps: int, writeOps: int, createOps: int,
                           deleteOps: int, readBytes: int, writeBytes: int, gitFiles: int, untarFiles: int)
  {
    /** The raw count behind a series. */
    function Raw(m: Metric): int {
      match m
      case ReadIOPS => readOps
      case WriteIOPS => writeOps + createOps
      case CreateIOPS => createOps
      case DeleteIOPS => deleteOps
      case ReadBps => readBytes
      case WriteBps => writeBytes
    }
  }

  datatype RunTotals = RunTotals(created: int, deleted: int, readBytes: int, writeBytes: int,
                                 gitFiles: int, untarFiles: int)

  const NO_TOTALS := RunTotals(0, 0, 0, 0, 0, 0)

  /** How many seconds a report covers: the interval rounded half up, kept within 1..120. */
  function Windows(intervalSec: real): (w: nat)
    ensures 1 <= w <= MAX_WINDOWS
    ensures 1.0 <= intervalSec <= 120.0 ==> -0.5 < w as real - intervalSec <= 0.5
    ensures intervalSec < 1.0 ==> w == 1
    ensures intervalSec > 120.0 ==> w == 120
  {
    var scale := if intervalSec < 1.0 then 1.0 else intervalSec;
    var w := (scale + 0.5).Floor;
    if w > MAX_WINDOWS then MAX_WINDOWS else w
  }

  // ---- The reference: a log of accepted samples --------------------------------------------------

  /** An accepted sample and the last second it was credited to. */
  datatype Credit = Credit(sample: Sample, sec: int)
  {
    function Width(): nat { Windows(sample.intervalSec) }

    predicate Covers(s: int) { sec - Width() < s <= sec }

    /** What each covered second must receive. */
    function Slice(m: Metric): real { sample.Raw(m) as real / Width() as real }

    function At(m: Metric, s: int): real { if Covers(s) then Slice(m) else 0.0 }
  }

  /** A second of the window, which ends with the second of the sample, receives its share of the count. */
  lemma AtIs(c: Credit, m: Metric, s: int)
    ensures var x, w := c.sample, Windows(c.sample.intervalSec);
            var count := match m
                         case ReadIOPS => x.readOps
                         case WriteIOPS => x.writeOps + x.createOps
                         case CreateIOPS => x.createOps
                         case DeleteIOPS => x.deleteOps
                         case ReadBps => x.readBytes
                         case WriteBps => x.writeBytes;
            w as real * c.At(m, s) == if c.sec - w < s <= c.sec then count as real else 0.0
  {
    SlicesSum(c, m);
  }

  function Credited(log: seq<Credit>, m: Metric, s: int): real {
    if log == [] then 0.0 else Credited(log[..|log| - 1], m, s) + log[|log| - 1].At(m, s)
  }

  function RawSum(log: seq<Credit>, m: Metric): int {
    if log == [] then 0 else RawSum(log[..|log| - 1], m) + log[|log| - 1].sample.Raw(m)
  }

  // ---- The store's content at one second ---------------------------------------------------------

  function PointsAt(points: seq<Point>, m: Metric, s: int): real {
    if points == [] then 0.0
    else
      var last := points[|points| - 1];
      PointsAt(points[..|points| - 1], m, s) + (if last.sec == s then last.Value(m) else 0.0)
  }

  function OpenAt(buckets: map<int, Bucket>, m: Metric, s: int): real {
    if s in buckets then buckets[s].Value(m) else 0.0
  }

  /** Everything credited to second s: trimmed, flushed or still open. */
  function Mass(trimmed: seq<Point>, history: seq<Point>, buckets: map<int, Bucket>, m: Metric, s: int): real {
    PointsAt(trimmed, m, s) + PointsAt(history, m, s) + OpenAt(buckets, m, s)
  }

  lemma {:induction false} PointsAtConcat(a: seq<Point>, b: seq<Point>, m: Metric, s: int)
    ensures PointsAt(a + b, m, s) == PointsAt(a, m, s) + PointsAt(b, m, s)
  {
    if b == [] {
      assert a + b == a;
    } else {
      PointsAtConcat(a, b[..|b| - 1], m, s);
      assert (a + b)[..|a + b| - 1] == a + b[..|b| - 1];
    }
  }

  lemma {:induction false} PointsAtPatch(points: seq<Point>, i: nat, p: Point, m: Metric, s: int)
    requires i < |points| && p.sec == points[i].sec
    ensures PointsAt(points[i := p], m, s)
         == PointsAt(points, m, s) + (if p.sec == s then p.Value(m) - points[i].Value(m) else 0.0)
  {
    var front := points[..|points| - 1];
    if i == |points| - 1 {
      assert points[i := p][..i] == front;
    } else {
      PointsAtPatch(front, i, p, m, s);
      assert points[i := p][..|points| - 1] == front[i := p];
    }
  }

  // ---- Conservation over all seconds -------------------------------------------------------------

  /** The sum of f over the seconds lo..hi. */
  ghost function SumOver(f: int -> real, lo: int, hi: int): real
    decreases hi - lo
  {
    if hi < lo then 0.0 else SumOver(f, lo, hi - 1) + f(hi)
  }

  lemma {:induction false} SumOverPlus(f: int -> real, g: int -> real, h: int -> real, lo: int, hi: int)
    requires forall s :: lo <= s <= hi ==> h(s) == f(s) + g(s)
    ensures SumOver(h, lo, hi) == SumOver(f, lo, hi) + SumOver(g, lo, hi)
    decreases hi - lo
  {
    if lo <= hi {
      SumOverPlus(f, g, h, lo, hi - 1);
    }
  }

  /** A function that is x on the k seconds first..first + k - 1 and 0 elsewhere sums to k * x. */
  lemma {:induction false} SumOfStep(f: int -> real, x: real, first: int, k: nat, lo: int, hi: int)
    requires k > 0 ==> lo <= first && first + k - 1 <= hi
    requires forall s :: lo <= s <= hi ==> f(s) == if first <= s < first + k then x else 0.0
    ensures SumOver(f, lo, hi) == k as real * x
    decreases hi - lo
  {
    if k > 0 && first + k - 1 == hi {
      SumOfStep(f, x, first, k - 1, lo, hi - 1);
      assert k as real * x == (k - 1) as real * x + x;
    } else if lo <= hi {
      SumOfStep(f, x, first, k, lo, hi - 1);
    }
  }

  ghost predicate CoveredBy(log: seq<Credit>, lo: int, hi: int) {
    forall c :: c in log ==> lo <= c.sec - c.Width() + 1 && c.sec <= hi
  }

  /** Spreading one sample over its window loses nothing. */
  lemma CreditConservation(c: Credit, m: Metric, lo: int, hi: int)
    requires lo <= c.sec - c.Width() + 1 && c.sec <= hi
    ensures SumOver(s => c.At(m, s), lo, hi) == c.sample.Raw(m) as real
  {
    SumOfStep(s => c.At(m, s), c.Slice(m), c.sec - c.Width() + 1, c.Width(), lo, hi);
    SlicesSum(c, m);
  }

  lemma SlicesSum(c: Credit, m: Metric)
    ensures c.Width() as real * c.Slice(m) == c.sample.Raw(m) as real
  {
    Undivide(c.sample.Raw(m) as real, c.Width() as real);
  }

  lemma DivideSum(x: real, y: real, d: real)
    requires d != 0.0
    ensures (x + y) / d == x / d + y / d
  {}

  lemma Undivide(x: real, d: real)
    requires d != 0.0
    ensures d * (x / d) == x
  {}

  /** Over any range of seconds containing every window, the slices of the log add up to the raw counts. */
  lemma {:induction false} LogConservation(log: seq<Credit>, m: Metric, lo: int, hi: int)
    requires CoveredBy(log, lo, hi)
    ensures SumOver(s => Credited(log, m, s), lo, hi) == RawSum(log, m) as real
  {
    if log == [] {
      SumOfStep(s => Credited(log, m, s), 0.0, lo, 0, lo, hi);
    } else {
      var front, c := log[..|log| - 1], log[|log| - 1];
      LogConservation(front, m, lo, hi);
      SumOverPlus(s => Credited(front, m, s), s => c.At(m, s), s => Credited(log, m, s), lo, hi);
      assert c in log;
      CreditConservation(c, m, lo, hi);
    }
  }

  function AddTotals(t: RunTotals, x: Sample): RunTotals {
    RunTotals(t.created + x.createOps, t.deleted + x.deleteOps, t.readBytes + x.readBytes,
              t.writeBytes + x.writeBytes, t.gitFiles + x.gitFiles, t.untarFiles + x.untarFiles)
  }

  /** The run totals of a log of accepted samples. */
  function TotalsOf(log: seq<Credit>): RunTotals {
    if log == [] then NO_TOTALS else AddTotals(TotalsOf(log[..|log| - 1]), log[|log| - 1].sample)
  }

  /** A count summed over the samples of a log. */
  function SumOf(log: seq<Credit>, f: Sample -> int): int {
    if log == [] then 0 else SumOf(log[..|log| - 1], f) + f(log[|log| - 1].sample)
  }

  /** Each total is the sum of its count. */
  lemma {:induction false} TotalsAreSums(log: seq<Credit>)
    ensures var t := TotalsOf(log);
            t.created == SumOf(log, (x: Sample) => x.createOps)
            && t.deleted == SumOf(log, (x: Sample) => x.deleteOps)
            && t.readBytes == SumOf(log, (x: Sample) => x.readBytes)
            && t.writeBytes == SumOf(log, (x: Sample) => x.writeBytes)
            && t.gitFiles == SumOf(log, (x: Sample) => x.gitFiles)
            && t.untarFiles == SumOf(log, (x: Sample) => x.untarFiles)
  {
    if log != [] {
      TotalsAreSums(log[..|log| - 1]);
    }
  }

  /** The raw sum behind a series; writes include creates. */
  lemma {:induction false} RawSumIs(log: seq<Credit>)
    ensures RawSum(log, ReadIOPS) == SumOf(log, (x: Sample) => x.readOps)
    ensures RawSum(log, WriteIOPS) == SumOf(log, (x: Sample) => x.writeOps + x.createOps)
    ensures RawSum(log, CreateIOPS) == SumOf(log, (x: Sample) => x.createOps)
    ensures RawSum(log, DeleteIOPS) == SumOf(log, (x: Sample) => x.deleteOps)
    ensures RawSum(log, ReadBps) == SumOf(log, (x: Sample) => x.readBytes)
    ensures RawSum(log, WriteBps) == SumOf(log, (x: Sample) => x.writeBytes)
  {
    if log != [] {
      RawSumIs(log[..|log| - 1]);
    }
  }

  lemma {:induction false} TotalsAreRawSums(log: seq<Credit>)
    ensures var t := TotalsOf(log);
            t.created == RawSum(log, CreateIOPS) && t.deleted == RawSum(log, DeleteIOPS)
            && t.readBytes == RawSum(log, ReadBps) && t.writeBytes == RawSum(log, WriteBps)
  {
    if log != [] {
      TotalsAreRawSums(log[..|log| - 1]);
    }
  }

  /** Conservation: when a store agrees second by second with its log, charting all seconds gives back
      the run totals, whatever was flushed, patched or trimmed in between. */
  lemma Conservation(trimmed: seq<Point>, history: seq<Point>, buckets: map<int, Bucket>, log: seq<Credit>,
                     lo: int, hi: int)
    requires forall m, s :: Mass(trimmed, history, buckets, m, s) == Credited(log, m, s)
    requires CoveredBy(log, lo, hi)
    ensures var t, all := TotalsOf(log), (m: Metric) => SumOver(s => Mass(trimmed, history, buckets, m, s), lo, hi);
            all(CreateIOPS) == t.created as real && all(DeleteIOPS) == t.deleted as real
            && all(ReadBps) == t.readBytes as real && all(WriteBps) == t.writeBytes as real
            && all(ReadIOPS) == SumOf(log, (x: Sample) => x.readOps) as real
            && all(WriteIOPS) == SumOf(log, (x: Sample) => x.writeOps + x.createOps) as real
            && forall m :: all(m) == RawSum(log, m) as real
  {
    TotalsAreRawSums(log);
    RawSumIs(log);
    forall m: Metric
      ensures SumOver(s => Mass(trimmed, history, buckets, m, s), lo, hi) == RawSum(log, m) as real
    {
      LogConservation(log, m, lo, hi);
      SumOverPlus(s => Credited(log, m, s), s => 0.0, s => Mass(trimmed, history, buckets, m, s), lo, hi);
      SumOfStep(s => 0.0, 0.0, lo, 0, lo, hi);
    }
  }

  // ---- Order -------------------------------------------------------------------------------------

  ghost predicate Ascending(points: seq<Point>) {
    forall i, j :: 0 <= i < j < |points| ==> points[i].sec < points[j].sec
  }

  ghost predicate HasSecond(points: seq<Point>, s: int) {
    exists i :: 0 <= i < |points| && points[i].sec == s
  }

  /** The history ascends and every open bucket lies after it. */
  ghost predicate Ordered(history: seq<Point>, buckets: map<int, Bucket>) {
    Ascending(history)
    && forall k, i :: k in buckets && 0 <= i < |history| ==> history[i].sec < k
  }
}
