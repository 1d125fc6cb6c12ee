/** MetricsStore: the rolling per-second history, its open buckets and the run totals, updated in place.

    Clock readings are parameters. The latency histograms the store also keeps are in Latency. */
module Metrics {
  import opened MetricsSpec
  import opened Basics

  /** HistoryRetention and the bound on catching up, both in seconds. */
  const RETENTION: real := 3600.0
  const MAX_CATCH_UP: int := 120

  ghost predicate Stamped(buckets: map<int, Bucket>) {
    forall k :: k in buckets ==> buckets[k].ts == k
  }

  ghost predicate SameSeconds(a: seq<Point>, b: seq<Point>) {
    |a| == |b| && forall i :: 0 <= i < |a| ==> a[i].sec == b[i].sec
  }

  /** The point charts the sums of the bucket; its writes include the creates. */
  ghost predicate Charts(p: Point, b: Bucket) {
    p.readIOPS == b.readOps && p.writeIOPS == b.writeOps + b.createOps && p.createIOPS == b.createOps
    && p.deleteIOPS == b.deleteOps && p.readBps == b.readBytes && p.writeBps == b.writeBytes
  }

  /** `added` lists, in time order, exactly the buckets that closed before `current`. */
  ghost predicate ClosedInOrder(added: seq<Point>, buckets: map<int, Bucket>, current: int) {
    Ascending(added)
    && (forall i :: 0 <= i < |added| ==> added[i].sec in buckets && added[i].sec < current
                                         && Charts(added[i], buckets[added[i].sec]))
    && (forall k :: k in buckets && k < current ==> HasSecond(added, k))
  }

  /** No closed bucket waits and no expired point leads the history. */
  ghost predicate Flushed(history: seq<Point>, buckets: map<int, Bucket>, current: int, cutoff: real) {
    (forall k :: k in buckets ==> k >= current)
    && (history != [] ==> history[0].sec as real >= cutoff)
  }

  /** The same while the buckets of `due` still wait. */
  ghost predicate ClosedSoFar(added: seq<Point>, buckets: map<int, Bucket>, due: set<int>, current: int) {
    Ascending(added)
    && (forall i, k :: 0 <= i < |added| && k in due ==> added[i].sec < k)
    && (forall i :: 0 <= i < |added| ==> added[i].sec in buckets && added[i].sec < current
                                         && Charts(added[i], buckets[added[i].sec]))
    && (forall k :: k in buckets && k < current && k !in due ==> HasSecond(added, k))
  }

  lemma CloseOne(added: seq<Point>, buckets: map<int, Bucket>, due: set<int>, current: int, p: Point)
    requires ClosedSoFar(added, buckets, due, current)
    requires p.sec in due && (forall k :: k in due ==> p.sec <= k)
    requires p.sec in buckets && p.sec < current && Charts(p, buckets[p.sec])
    ensures ClosedSoFar(added + [p], buckets, due - {p.sec}, current)
  {
    forall k | k in buckets && k < current && k !in due - {p.sec}
      ensures HasSecond(added + [p], k)
    {
      if k == p.sec {
        assert (added + [p])[|added|].sec == k;
      } else {
        var i :| 0 <= i < |added| && added[i].sec == k;
        assert (added + [p])[i].sec == k;
      }
    }
  }

  /** Patching a point with a slice adds the slice to its second. */
  lemma PatchMass(history: seq<Point>, i: nat, p: Point, slice: Bucket)
    requires i < |history| && p.sec == history[i].sec
    requires forall m :: p.Value(m) == history[i].Value(m) + slice.Value(m)
    ensures forall m, s :: PointsAt(history[i := p], m, s)
                        == PointsAt(history, m, s) + (if s == p.sec then slice.Value(m) else 0.0)
  {
    forall m, s
      ensures PointsAt(history[i := p], m, s) == PointsAt(history, m, s) + (if s == p.sec then slice.Value(m) else 0.0)
    {
      PointsAtPatch(history, i, p, m, s);
    }
  }

  /** Moving a bucket to the history changes no second's content. */
  lemma MoveBucket(history: seq<Point>, buckets: map<int, Bucket>, p: Point)
    requires p.sec in buckets && forall m :: p.Value(m) == buckets[p.sec].Value(m)
    ensures forall m, s :: PointsAt(history + [p], m, s) + OpenAt(buckets - {p.sec}, m, s)
                        == PointsAt(history, m, s) + OpenAt(buckets, m, s)
  {
    assert (history + [p])[..|history|] == history;
  }

  /** The sample's window does not reach back to an unexpired second the history skipped. */
  ghost predicate WindowFits(history: seq<Point>, c: Credit, cutoff: real) {
    |history| == 0 || history[|history| - 1].sec as real < cutoff
    || forall s :: c.Covers(s) && s <= history[|history| - 1].sec ==> HasSecond(history, s)
  }

  /** The seconds there are after a sample: those there were and those of its window, the ones before its second in the
      history unless expired, the others open. */
  ghost predicate AppliedSeconds(history: seq<Point>, buckets: map<int, Bucket>, c: Credit, cutoff: real,
                                 after: seq<Point>, open: map<int, Bucket>)
  {
    (forall s :: s in open <==> s >= c.sec && (s in buckets || (c.Covers(s) && !HasSecond(history, s))))
    && forall s :: s as real >= cutoff ==>
                     (HasSecond(after, s) <==>
                      HasSecond(history, s) || (s < c.sec && (s in buckets || c.Covers(s))))
  }

  /** `n` is the number of leading points older than the cutoff. */
  ghost predicate Expired(points: seq<Point>, cutoff: real, n: nat) {
    n <= |points| && (forall i :: 0 <= i < n ==> points[i].sec as real < cutoff)
    && (n < |points| ==> points[n].sec as real >= cutoff)
  }

  class MetricsStore {
    var recording: bool
    var history: seq<Point>
    var buckets: map<int, Bucket>
    var totals: RunTotals
    ghost var log: seq<Credit>      // the samples accepted since Begin
    ghost var trimmed: seq<Point>   // the points dropped since Begin

    /** Second by second and series by series the store holds what the log says; so do the totals. */
    ghost predicate Valid()
      reads this
    {
      Stamped(buckets)
      && totals == TotalsOf(log)
      && forall m, s :: Mass(trimmed, history, buckets, m, s) == Credited(log, m, s)
    }

    constructor ()
      ensures Valid() && !recording && history == [] && buckets == map[] && log == []
    {
      recording, history, buckets, totals := false, [], map[], NO_TOTALS;
      log, trimmed := [], [];
    }

    method Begin()
      modifies this
      ensures Valid() && recording && history == [] && buckets == map[] && log == [] && totals == NO_TOTALS
      ensures Ordered(history, buckets)
    {
      history, buckets, totals, recording := [], map[], NO_TOTALS, true;
      log, trimmed := [], [];
    }

    /** Adds a per-second slice to the open bucket of `sec`, or to the flushed point of that second,
        or else opens a bucket. */
    method CreditSecond(sec: int, readOps: real, writeOps: real, createOps: real, deleteOps: real,
                        readBytes: real, writeBytes: real)
      requires Stamped(buckets)
      modifies this`history, this`buckets
      ensures Stamped(buckets) && SameSeconds(history, old(history))
      ensures forall m, s :: PointsAt(history, m, s) + OpenAt(buckets, m, s)
                == old(PointsAt(history, m, s) + OpenAt(buckets, m, s))
                   + (if s == sec
                      then Bucket(sec, readOps, writeOps, createOps, deleteOps, readBytes, writeBytes).Value(m)
                      else 0.0)
      // where the slice went: the backward search finds the flushed second whenever there is one
      ensures sec in old(buckets) ==> history == old(history) && buckets.Keys == old(buckets.Keys)
      ensures sec !in old(buckets) && Ascending(old(history)) && HasSecond(old(history), sec)
              ==> buckets == old(buckets)
      ensures !HasSecond(old(history), sec) ==> history == old(history) && buckets.Keys == old(buckets.Keys) + {sec}
      // and field by field what became of it
      ensures sec in old(buckets) ==>
                var b := old(buckets)[sec];
                buckets == old(buckets)[sec := Bucket(b.ts, b.readOps + readOps, b.writeOps + writeOps,
                                                      b.createOps + createOps, b.deleteOps + deleteOps,
                                                      b.readBytes + readBytes, b.writeBytes + writeBytes)]
      ensures sec !in old(buckets) && sec in buckets ==>
                history == old(history)
                && buckets == old(buckets)[sec := Bucket(sec, readOps, writeOps, createOps, deleteOps, readBytes,
                                                         writeBytes)]
      ensures sec !in buckets ==>
                buckets == old(buckets)
                && exists i :: 0 <= i < |history| && old(history)[i].sec == sec
                     && var p := old(history)[i];
                        history == old(history)[i := Point(sec, p.readIOPS + readOps,
                                                           p.writeIOPS + (writeOps + createOps),
                                                           p.readBps + readBytes, p.writeBps + writeBytes,
                                                           p.createIOPS + createOps, p.deleteIOPS + deleteOps)]
    {
      if sec in buckets {
        var b := buckets[sec];
        buckets := buckets[sec := Bucket(b.ts, b.readOps + readOps, b.writeOps + writeOps, b.createOps + createOps,
                                         b.deleteOps + deleteOps, b.readBytes + readBytes, b.writeBytes + writeBytes)];
        return;
      }
      var found := PatchSecond(sec, readOps, writeOps, createOps, deleteOps, readBytes, writeBytes);
      if !found {
        buckets := buckets[sec := Bucket(sec, readOps, writeOps, createOps, deleteOps, readBytes, writeBytes)];
      }
    }

    /** The backward search of the history for `sec`; a point found takes the slice. */
    method PatchSecond(sec: int, readOps: real, writeOps: real, createOps: real, deleteOps: real,
                       readBytes: real, writeBytes: real) returns (found: bool)
      modifies this`history
      ensures SameSeconds(history, old(history)) && (!found ==> history == old(history))
      ensures found ==> HasSecond(old(history), sec)
      ensures Ascending(old(history)) && HasSecond(old(history), sec) ==> found
      ensures found ==>
                exists i :: 0 <= i < |history| && old(history)[i].sec == sec
                     && var p := old(history)[i];
                        history == old(history)[i := Point(sec, p.readIOPS + readOps,
                                                           p.writeIOPS + (writeOps + createOps),
                                                           p.readBps + readBytes, p.writeBps + writeBytes,
                                                           p.createIOPS + createOps, p.deleteIOPS + deleteOps)]
      ensures forall m, s :: PointsAt(history, m, s)
                == old(PointsAt(history, m, s))
                   + (if found && s == sec
                      then Bucket(sec, readOps, writeOps, createOps, deleteOps, readBytes, writeBytes).Value(m)
                      else 0.0)
    {
      var i := |history| - 1;
      while i >= 0
        invariant -1 <= i < |history|
        invariant forall j :: i < j < |history| ==> history[j].sec > sec
        invariant history == old(history)
      {
        var hs := history[i].sec;
        if hs > sec {
          i := i - 1;
          continue;
        }
        if hs == sec {
          var p := history[i];
          var patched := Point(p.sec, p.readIOPS + readOps, p.writeIOPS + (writeOps + createOps), p.readBps + readBytes,
                               p.writeBps + writeBytes, p.createIOPS + createOps, p.deleteIOPS + deleteOps);
          PatchMass(history, i, patched,
                    Bucket(sec, readOps, writeOps, createOps, deleteOps, readBytes, writeBytes));
          history := history[i := patched];
          return true;
        }
        break;
      }
      return false;
    }

    /** Promotes the buckets older than `current` into the history, oldest first. */
    method FlushClosed(current: int) returns (ghost added: seq<Point>)
      requires Stamped(buckets)
      modifies this`history, this`buckets
      ensures Stamped(buckets)
      ensures history == old(history) + added && ClosedInOrder(added, old(buckets), current)
      ensures buckets == map k | k in old(buckets) && k >= current :: old(buckets)[k]
      ensures forall m, s :: PointsAt(history, m, s) + OpenAt(buckets, m, s)
                          == old(PointsAt(history, m, s) + OpenAt(buckets, m, s))
    {
      added := [];
      var due := set k | k in buckets && k < current;
      ghost var before := buckets;
      while due != {}
        invariant Stamped(buckets) && history == old(history) + added
        invariant due <= buckets.Keys && ClosedSoFar(added, before, due, current)
        invariant buckets == map k | k in before && (k in due || k >= current) :: before[k]
        invariant forall m, s :: PointsAt(history, m, s) + OpenAt(buckets, m, s)
                              == old(PointsAt(history, m, s) + OpenAt(buckets, m, s))
        decreases due
      {
        HasLeast(due);
        var sec :| sec in due && forall k :: k in due ==> sec <= k;
        var b := buckets[sec];
        var p := Point(b.ts, b.readOps, b.writeOps + b.createOps, b.readBytes, b.writeBytes, b.createOps, b.deleteOps);
        CloseOne(added, before, due, current, p);
        MoveBucket(history, buckets, p);
        history := history + [p];
        added := added + [p];
        buckets, due := buckets - {sec}, due - {sec};
      }
    }

    /** Opens an empty bucket for every second after the last point through `now`, at most 121 of them. */
    method EnsureSecondsThrough(now: int)
      requires Stamped(buckets)
      modifies this`buckets
      ensures Stamped(buckets)
      ensures forall m, s :: OpenAt(buckets, m, s) == old(OpenAt(buckets, m, s))
      ensures forall k :: k in buckets <==>
                k in old(buckets)
                || (if history == [] then k == now
                    else history[|history| - 1].sec < k <= now && k >= now - 120)
      ensures forall k :: k in buckets <==> k in old(buckets) || FirstMissing(history, now) <= k <= now
    {
      var start := now;
      if |history| > 0 {
        start := history[|history| - 1].sec + 1;
      }
      if start > now {
        return;
      }
      if now - start > MAX_CATCH_UP {
        start := now - MAX_CATCH_UP;
      }
      for sec := start to now + 1
        invariant Stamped(buckets)
        invariant forall m, s :: OpenAt(buckets, m, s) == old(OpenAt(buckets, m, s))
        invariant forall k :: k in buckets <==> k in old(buckets) || start <= k < sec
      {
        if sec !in buckets {
          buckets := buckets[sec := Bucket(sec, 0.0, 0.0, 0.0, 0.0, 0.0, 0.0)];
        }
      }
    }

    /** Drops the leading points older than the retention. */
    method Trim(now: real) returns (ghost n: nat)
      modifies this`history, this`trimmed
      ensures Expired(old(history), now - RETENTION, n)
      ensures history == old(history)[n..] && trimmed == old(trimmed) + old(history)[..n]
      ensures forall m, s :: PointsAt(trimmed, m, s) + PointsAt(history, m, s)
                          == old(PointsAt(trimmed, m, s) + PointsAt(history, m, s))
    {
      var cutoff := now - RETENTION;
      var i := 0;
      while i < |history| && history[i].sec as real < cutoff
        invariant i <= |history|
        invariant forall j :: 0 <= j < i ==> history[j].sec as real < cutoff
      {
        i := i + 1;
      }
      n := i;
      assert history[..i] + history[i..] == history;
      forall m: Metric, s: int
        ensures PointsAt(trimmed + history[..i], m, s) + PointsAt(history[i..], m, s)
             == PointsAt(trimmed, m, s) + PointsAt(history, m, s)
      {
        PointsAtConcat(history[..i], history[i..], m, s);
        PointsAtConcat(trimmed, history[..i], m, s);
      }
      trimmed := trimmed + history[..i];
      if i > 0 {
        history := history[i..];
      }
      assert history == old(history)[i..];
    }

    /** Credits the same slice to each of the `windows` seconds ending at `sec`. */
    method CreditWindow(sec: int, windows: nat, readInc: real, writeInc: real, createInc: real, deleteInc: real,
                        readBytesInc: real, writeBytesInc: real)
      requires Stamped(buckets)
      modifies this`history, this`buckets
      ensures Stamped(buckets) && SameSeconds(history, old(history))
      ensures forall m, s :: PointsAt(history, m, s) + OpenAt(buckets, m, s)
                == old(PointsAt(history, m, s) + OpenAt(buckets, m, s))
                   + (if sec - windows < s <= sec
                      then Bucket(sec, readInc, writeInc, createInc, deleteInc, readBytesInc, writeBytesInc).Value(m)
                      else 0.0)
      ensures old(Ordered(history, buckets)) ==>
                forall k :: k in buckets <==>
                  k in old(buckets) || (sec - windows < k <= sec && !HasSecond(old(history), k))
    {
      ghost var slice := Bucket(sec, readInc, writeInc, createInc, deleteInc, readBytesInc, writeBytesInc);
      for i := 0 to windows
        invariant Stamped(buckets) && SameSeconds(history, old(history))
        invariant forall m, s :: PointsAt(history, m, s) + OpenAt(buckets, m, s)
                    == old(PointsAt(history, m, s) + OpenAt(buckets, m, s))
                       + (if sec - i < s <= sec then slice.Value(m) else 0.0)
        invariant old(Ordered(history, buckets)) ==>
                    forall k :: k in buckets <==>
                      k in old(buckets) || (sec - i < k <= sec && !HasSecond(old(history), k))
      {
        SameSecondsHas(history, old(history), sec - i);
        CreditSecond(sec - i, readInc, writeInc, createInc, deleteInc, readBytesInc, writeBytesInc);
      }
    }

    /** Flushes up to `current`, then trims. */
    method FlushAndTrim(current: int, later: real) returns (ghost added: seq<Point>, ghost n: nat)
      requires Stamped(buckets)
      modifies this`history, this`buckets, this`trimmed
      ensures Stamped(buckets)
      ensures ClosedInOrder(added, old(buckets), current)
      ensures buckets == map k | k in old(buckets) && k >= current :: old(buckets)[k]
      ensures Expired(old(history) + added, later - RETENTION, n) && history == (old(history) + added)[n..]
      ensures Flushed(history, buckets, current, later - RETENTION)
      ensures forall m, s :: Mass(trimmed, history, buckets, m, s) == old(Mass(trimmed, history, buckets, m, s))
    {
      added := FlushClosed(current);
      n := Trim(later);
    }

    /** One sample from the queue. Order survives exactly when the window fits the history. */
    method Apply(sample: Sample, now: real, later: real)
      requires Valid()
      modifies this`history, this`buckets, this`totals, this`log, this`trimmed
      ensures Valid()
      ensures !recording ==> unchanged(this)
      ensures recording ==>
                var c := Credit(sample, if sample.timestamp <= 0 then now.Floor else sample.timestamp);
                log == old(log) + [c] && Flushed(history, buckets, c.sec, later - RETENTION)
                && (old(Ordered(history, buckets)) ==>
                      (Ordered(history, buckets) <==> WindowFits(old(history), c, later - RETENTION))
                      && AppliedSeconds(old(history), old(buckets), c, later - RETENTION, history, buckets))
    {
      if !recording {
        return;
      }
      var sec := sample.timestamp;
      if sec <= 0 {
        sec := now.Floor;
      }
      CreditSample(sample, sec);
      Settle(sec, later, Credit(sample, sec), old(history), old(buckets));
    }

    /** Spreads a sample over its window, and adds its raw counts to the totals. */
    method CreditSample(sample: Sample, sec: int)
      requires Valid()
      modifies this`history, this`buckets, this`totals, this`log
      ensures Valid() && log == old(log) + [Credit(sample, sec)] && SameSeconds(history, old(history))
      ensures var c := Credit(sample, sec);
              old(Ordered(history, buckets)) ==>
                forall k :: k in buckets <==> k in old(buckets) || (c.Covers(k) && !HasSecond(old(history), k))
    {
      var windows := Windows(sample.intervalSec);
      ghost var c := Credit(sample, sec);
      var readInc, writeInc := Share(sample.readOps, windows), Share(sample.writeOps, windows);
      var createInc, deleteInc := Share(sample.createOps, windows), Share(sample.deleteOps, windows);
      var readBytesInc, writeBytesInc := Share(sample.readBytes, windows), Share(sample.writeBytes, windows);
      CreditWindow(sec, windows, readInc, writeInc, createInc, deleteInc, readBytesInc, writeBytesInc);
      totals := AddTotals(totals, sample);
      log := log + [c];
      CreditAppended(old(log), c);
    }

    /** The end of apply: flushes up to the second of the credited sample and trims. `was` and `before` are history and
        buckets as they were before crediting. */
    method Settle(sec: int, later: real, ghost c: Credit, ghost was: seq<Point>, ghost before: map<int, Bucket>)
      requires Stamped(buckets) && SameSeconds(history, was) && c.sec == sec
      requires Ordered(was, before) ==>
                 forall k :: k in buckets <==> k in before || (c.Covers(k) && !HasSecond(was, k))
      modifies this`history, this`buckets, this`trimmed
      ensures Stamped(buckets)
      ensures forall m, s :: Mass(trimmed, history, buckets, m, s) == old(Mass(trimmed, history, buckets, m, s))
      ensures Flushed(history, buckets, sec, later - RETENTION)
      ensures Ordered(was, before) ==>
                (Ordered(history, buckets) <==> WindowFits(was, c, later - RETENTION))
                && AppliedSeconds(was, before, c, later - RETENTION, history, buckets)
    {
      ghost var middle, open := history, buckets;
      ghost var added, n := FlushAndTrim(sec, later);
      if Ordered(was, before) {
        OrderAfterApply(was, before, c, middle, open, added, buckets, later - RETENTION, n);
        SecondsAfterApply(was, before, c, middle, open, added, buckets, later - RETENTION, n);
      }
    }

    /** The one-second ticker: keep the timeline going, flush, trim. */
    method Tick(now: real, later: real)
      requires Valid()
      modifies this`history, this`buckets, this`trimmed
      ensures Valid()
      ensures !recording ==> unchanged(this)
      ensures old(Ordered(history, buckets)) ==> Ordered(history, buckets)
      // the timeline reaches now: earlier seconds are flushed (or expired), the current one is open
      ensures recording ==> Flushed(history, buckets, now.Floor, later - RETENTION)
      ensures recording && (old(history) == [] || old(history)[|old(history)| - 1].sec < now.Floor) ==>
                now.Floor in buckets
      ensures recording && old(history) != [] ==>
                forall s :: old(history)[|old(history)| - 1].sec < s < now.Floor && s >= now.Floor - 120 ==>
                  HasSecond(history, s) || s as real < later - RETENTION
      // without a stall longer than the catch-up bound, the flushed timeline has no hole
      ensures recording && old(Ordered(history, buckets) && NoHole(history) && CaughtUp(history, now.Floor))
              ==> NoHole(history)
    {
      if recording {
        EnsureSecondsThrough(now.Floor);
        ghost var open := buckets;
        ghost var added, n := FlushAndTrim(now.Floor, later);
        SecondsStay(old(history), open, added, now.Floor, later - RETENTION, n);
        TickFacts(old(history), old(buckets), open, added, buckets, now.Floor, n);
      }
    }

    /** Stops recording and flushes, oldest first. Buckets of seconds still to come stay behind. */
    method Freeze(now: real) returns (ghost added: seq<Point>)
      requires Valid()
      modifies this`recording, this`history, this`buckets
      ensures Valid() && !recording
      ensures old(Ordered(history, buckets)) ==> Ordered(history, buckets)
      ensures buckets == map k | k in old(buckets) && k > now.Floor :: old(buckets)[k]
      ensures buckets == map[] <==> forall k :: k in old(buckets) ==> k <= now.Floor
      ensures history == old(history) + added && ClosedInOrder(added, old(buckets), now.Floor + 1)
    {
      recording := false;
      ghost var open := buckets;
      added := FlushClosed(now.Floor + 1);
      if Ordered(old(history), open) {
        FlushKeepsOrder(old(history), open, added, buckets, now.Floor + 1);
      }
      assert (forall k :: k in open ==> k <= now.Floor) ==> buckets == map[];
      assert forall k :: k in open && k > now.Floor ==> k in buckets;
    }

    /** What the UI charts: the history, and the current second while recording. */
    method History(now: real) returns (out: seq<Point>)
      requires Stamped(buckets)
      ensures history <= out
      ensures Ordered(history, buckets) ==> Ascending(out)
      ensures |out| == |history| + if recording && now.Floor in buckets then 1 else 0
      ensures recording && now.Floor in buckets ==>
                out[|history|].sec == now.Floor && Charts(out[|history|], buckets[now.Floor])
      ensures forall m, s :: PointsAt(out, m, s) == PointsAt(history, m, s)
                              + (if recording && s == now.Floor then OpenAt(buckets, m, s) else 0.0)
    {
      out := history;
      if recording {
        var sec := now.Floor;
        if sec in buckets {
          var b := buckets[sec];
          out := out + [Point(b.ts, b.readOps, b.writeOps + b.createOps, b.readBytes, b.writeBytes, b.createOps,
                              b.deleteOps)];
          assert out[..|out| - 1] == history;
        }
      }
    }
  }

  /** Whatever was applied, ticked, trimmed or frozen since Begin, what the store charts or has dropped adds
      up to the run totals. */
  lemma ChartEqualsTotals(store: MetricsStore, lo: int, hi: int)
    requires store.Valid() && CoveredBy(store.log, lo, hi)
    ensures var t := store.totals;
            t.created == SumOf(store.log, (x: Sample) => x.createOps)
            && t.deleted == SumOf(store.log, (x: Sample) => x.deleteOps)
            && t.readBytes == SumOf(store.log, (x: Sample) => x.readBytes)
            && t.writeBytes == SumOf(store.log, (x: Sample) => x.writeBytes)
            && t.gitFiles == SumOf(store.log, (x: Sample) => x.gitFiles)
            && t.untarFiles == SumOf(store.log, (x: Sample) => x.untarFiles)
    ensures var gone, hist, open, t := store.trimmed, store.history, store.buckets, store.totals;
            SumOver(s => Mass(gone, hist, open, CreateIOPS, s), lo, hi) == t.created as real
            && SumOver(s => Mass(gone, hist, open, DeleteIOPS, s), lo, hi) == t.deleted as real
            && SumOver(s => Mass(gone, hist, open, ReadBps, s), lo, hi) == t.readBytes as real
            && SumOver(s => Mass(gone, hist, open, WriteBps, s), lo, hi) == t.writeBytes as real
  {
    TotalsAreSums(store.log);
    Conservation(store.trimmed, store.history, store.buckets, store.log, lo, hi);
  }

  /** The first second the ticker has to open. */
  function FirstMissing(history: seq<Point>, now: int): int {
    var start := if |history| > 0 then history[|history| - 1].sec + 1 else now;
    if start <= now && now - start > MAX_CATCH_UP then now - MAX_CATCH_UP else start
  }

  /** The last point is recent enough for the ticker to open every second after it. */
  predicate CaughtUp(history: seq<Point>, now: int) {
    |history| > 0 && now <= history[|history| - 1].sec + MAX_CATCH_UP + 1
  }

  /** Consecutive points are one second apart. */
  ghost predicate NoHole(points: seq<Point>) {
    forall i :: 0 <= i < |points| - 1 ==> points[i + 1].sec == points[i].sec + 1
  }

  lemma SameSecondsHas(a: seq<Point>, b: seq<Point>, s: int)
    requires SameSeconds(a, b)
    ensures HasSecond(a, s) <==> HasSecond(b, s)
    ensures Ascending(a) <==> Ascending(b)
  {
    if HasSecond(b, s) {
      var i :| 0 <= i < |b| && b[i].sec == s;
      assert a[i].sec == s;
    }
  }

  /** The part of a count credited to each second of the window. */
  function Share(count: int, windows: nat): real
    requires windows >= 1
  {
    count as real / windows as real
  }

  /** The slice Apply spreads is what the log says each covered second receives. */
  lemma CreditAppended(log: seq<Credit>, c: Credit)
    ensures TotalsOf(log + [c]) == AddTotals(TotalsOf(log), c.sample)
    ensures var x, w := c.sample, c.Width();
            var slice := Bucket(c.sec, Share(x.readOps, w), Share(x.writeOps, w), Share(x.createOps, w),
                                Share(x.deleteOps, w), Share(x.readBytes, w), Share(x.writeBytes, w));
            forall m, s :: Credited(log + [c], m, s)
                        == Credited(log, m, s) + (if c.sec - w < s <= c.sec then slice.Value(m) else 0.0)
  {
    assert (log + [c])[..|log|] == log;
    DivideSum(c.sample.writeOps as real, c.sample.createOps as real, c.Width() as real);
  }

  /** Flushing what lies after a history without holes leaves no hole when every second is open. */
  lemma FlushKeepsNoHole(history: seq<Point>, open: map<int, Bucket>, added: seq<Point>, current: int)
    requires |history| > 0 && Ordered(history, open) && NoHole(history)
    requires forall s :: history[|history| - 1].sec < s < current ==> s in open
    requires ClosedInOrder(added, open, current)
    ensures NoHole(history + added)
  {
    var all := history + added;
    forall i | 0 <= i < |all| - 1
      ensures all[i + 1].sec == all[i].sec + 1
    {
      if i >= |history| - 1 {
        var s := all[i].sec + 1;
        var j := i + 1 - |history|;
        assert all[i + 1] == added[j];
        assert all[i].sec < added[j].sec;
        assert j > 0 ==> added[j - 1] == all[i];
        assert s in open;
        var k :| 0 <= k < |added| && added[k].sec == s;
        assert k == j;
      }
    }
  }

  lemma FlushedSecondStays(history: seq<Point>, added: seq<Point>, s: int, n: nat, cutoff: real)
    requires HasSecond(added, s) && Expired(history + added, cutoff, n)
    ensures HasSecond((history + added)[n..], s) || s as real < cutoff
  {
    var i :| 0 <= i < |added| && added[i].sec == s;
    var j := |history| + i;
    assert (history + added)[j].sec == s;
    if j >= n {
      assert (history + added)[n..][j - n].sec == s;
    }
  }

  lemma SecondsStay(history: seq<Point>, open: map<int, Bucket>, added: seq<Point>, current: int, cutoff: real, n: nat)
    requires forall k :: FirstMissing(history, current) <= k <= current ==> k in open
    requires ClosedInOrder(added, open, current) && Expired(history + added, cutoff, n)
    ensures history != [] ==>
              forall s :: history[|history| - 1].sec < s < current && s >= current - 120 ==>
                HasSecond((history + added)[n..], s) || s as real < cutoff
  {
    forall s | history != [] && history[|history| - 1].sec < s < current && s >= current - 120
      ensures HasSecond((history + added)[n..], s) || s as real < cutoff
    {
      assert s in open;
      FlushedSecondStays(history, added, s, n, cutoff);
    }
  }

  lemma TickFacts(history: seq<Point>, buckets: map<int, Bucket>, open: map<int, Bucket>, added: seq<Point>,
                  rest: map<int, Bucket>, current: int, n: nat)
    requires forall k :: k in open <==> k in buckets || FirstMissing(history, current) <= k <= current
    requires ClosedInOrder(added, open, current) && n <= |history + added|
    requires rest == map k | k in open && k >= current :: open[k]
    ensures Ordered(history, buckets) ==> Ordered((history + added)[n..], rest)
    ensures Ordered(history, buckets) && NoHole(history) && CaughtUp(history, current)
            ==> NoHole((history + added)[n..])
  {
    if Ordered(history, buckets) {
      FlushKeepsOrder(history, open, added, rest, current);
      if NoHole(history) && CaughtUp(history, current) {
        FlushKeepsNoHole(history, open, added, current);
      }
    }
    SuffixFacts(history + added, n, rest);
  }

  lemma FlushKeepsOrder(history: seq<Point>, open: map<int, Bucket>, added: seq<Point>, rest: map<int, Bucket>,
                        current: int)
    requires Ordered(history, open) && ClosedInOrder(added, open, current)
    requires rest == map k | k in open && k >= current :: open[k]
    ensures Ordered(history + added, rest)
  {
    assert forall k, i :: k in open && 0 <= i < |history| ==> history[i].sec < k;
  }

  lemma SuffixFacts(points: seq<Point>, n: nat, buckets: map<int, Bucket>)
    requires n <= |points|
    ensures Ordered(points, buckets) ==> Ordered(points[n..], buckets)
    ensures NoHole(points) ==> NoHole(points[n..])
  {
    var kept := points[n..];
    assert forall i :: 0 <= i < |kept| ==> kept[i] == points[n + i];
    if NoHole(points) {
      forall i | 0 <= i < |kept| - 1
        ensures kept[i + 1].sec == kept[i].sec + 1
      {
        assert points[n + i + 1].sec == points[n + i].sec + 1;
      }
    }
  }

  /** After crediting, flushing and trimming, order holds exactly when the window fitted. */
  lemma OrderAfterApply(history: seq<Point>, buckets: map<int, Bucket>, c: Credit, middle: seq<Point>,
                        open: map<int, Bucket>, added: seq<Point>, rest: map<int, Bucket>, cutoff: real, n: nat)
    requires Ordered(history, buckets) && SameSeconds(middle, history)
    requires forall k :: k in open <==> k in buckets || (c.Covers(k) && !HasSecond(history, k))
    requires ClosedInOrder(added, open, c.sec)
    requires rest == map k | k in open && k >= c.sec :: open[k]
    requires Expired(middle + added, cutoff, n)
    ensures Ordered((middle + added)[n..], rest) <==> WindowFits(history, c, cutoff)
  {
    if |history| > 0 && history[|history| - 1].sec as real >= cutoff {
      var last := history[|history| - 1].sec;
      if forall s :: c.Covers(s) && s <= last ==> HasSecond(history, s) {
        OrderKept(history, open, middle, added, rest, c.sec, n);
      } else {
        var s :| c.Covers(s) && s <= last && !HasSecond(history, s);
        OrderBroken(history, open, middle, added, rest, c.sec, cutoff, n, s);
      }
    } else {
      OldHistoryExpired(middle, added, cutoff, n);
    }
  }

  lemma SecondsAfterApply(history: seq<Point>, buckets: map<int, Bucket>, c: Credit, middle: seq<Point>,
                          open: map<int, Bucket>, added: seq<Point>, rest: map<int, Bucket>, cutoff: real, n: nat)
    requires SameSeconds(middle, history)
    requires forall k :: k in open <==> k in buckets || (c.Covers(k) && !HasSecond(history, k))
    requires ClosedInOrder(added, open, c.sec)
    requires rest == map k | k in open && k >= c.sec :: open[k]
    requires Expired(middle + added, cutoff, n)
    ensures AppliedSeconds(history, buckets, c, cutoff, (middle + added)[n..], rest)
  {
    forall s | s as real >= cutoff
      ensures HasSecond((middle + added)[n..], s) <==> HasSecond(history, s) || (s < c.sec && s in open)
    {
      SameSecondsHas(middle, history, s);
      UnexpiredStays(middle, added, cutoff, n, s);
      assert HasSecond(added, s) <==> s in open && s < c.sec;
    }
  }

  lemma UnexpiredStays(a: seq<Point>, b: seq<Point>, cutoff: real, n: nat, s: int)
    requires Expired(a + b, cutoff, n) && s as real >= cutoff
    ensures HasSecond((a + b)[n..], s) <==> HasSecond(a, s) || HasSecond(b, s)
  {
    var all := a + b;
    if HasSecond(all[n..], s) {
      var i :| 0 <= i < |all| - n && all[n..][i].sec == s;
      assert all[n + i].sec == s;
      assert if n + i < |a| then a[n + i].sec == s else b[n + i - |a|].sec == s;
    }
    if HasSecond(a, s) {
      var i :| 0 <= i < |a| && a[i].sec == s;
      assert all[i].sec == s;
      assert all[n..][i - n].sec == s;
    }
    if HasSecond(b, s) {
      FlushedSecondStays(a, b, s, n, cutoff);
    }
  }

  lemma OldHistoryExpired(middle: seq<Point>, added: seq<Point>, cutoff: real, n: nat)
    requires Ascending(middle) && Ascending(added) && Expired(middle + added, cutoff, n)
    requires |middle| > 0 ==> middle[|middle| - 1].sec as real < cutoff
    ensures n >= |middle| && (middle + added)[n..] == added[n - |middle|..]
    ensures Ascending((middle + added)[n..])
  {
    if n < |middle| {
      assert false;
    }
  }

  lemma OrderKept(history: seq<Point>, open: map<int, Bucket>, middle: seq<Point>, added: seq<Point>,
                  rest: map<int, Bucket>, current: int, n: nat)
    requires |history| > 0 && Ascending(history) && SameSeconds(middle, history)
    requires forall k :: k in open ==> history[|history| - 1].sec < k
    requires ClosedInOrder(added, open, current) && n <= |middle + added|
    requires rest == map k | k in open && k >= current :: open[k]
    ensures Ordered((middle + added)[n..], rest)
  {
    FlushKeepsOrder(middle, open, added, rest, current);
    SuffixFacts(middle + added, n, rest);
  }

  lemma OrderBroken(history: seq<Point>, open: map<int, Bucket>, middle: seq<Point>, added: seq<Point>,
                    rest: map<int, Bucket>, current: int, cutoff: real, n: nat, s: int)
    requires |history| > 0 && SameSeconds(middle, history)
    requires ClosedInOrder(added, open, current) && Expired(middle + added, cutoff, n)
    requires rest == map k | k in open && k >= current :: open[k]
    requires s in open && s <= history[|history| - 1].sec && history[|history| - 1].sec as real >= cutoff
    ensures !Ordered((middle + added)[n..], rest)
  {
    var all, h := middle + added, |history| - 1;
    assert all[h] == middle[h];
    assert n <= h;
    assert all[n..][h - n] == all[h];
    if s < current {
      var j :| 0 <= j < |added| && added[j].sec == s;
      assert all[n..][h + 1 + j - n] == added[j];
    } else {
      assert s in rest;
    }
  }

  /** One read reported for a second. */
  function OneRead(sec: int): Sample { Sample(sec, 1.0, 1, 0, 0, 0, 0, 0, 0, 0) }

  /** A late sample for a second the history skipped puts that second after a newer one, for good once its bucket is
      closed. */
  method LateSampleBreaksOrder() returns (store: MetricsStore)
    ensures fresh(store) && store.Valid() && !Ascending(store.history)
  {
    store := new MetricsStore();
    store.Begin();
    store.Apply(OneRead(10), 10.0, 10.0);
    store.Apply(OneRead(12), 12.0, 12.0);
    ghost var before := store.history;
    assert HasSecond(before, 10) && !HasSecond(before, 9);
    store.Apply(OneRead(9), 13.0, 13.0);
    assert Credit(OneRead(9), 9).Covers(9);
    ghost var late := store.history;
    assert 9 in store.buckets && HasSecond(late, 10);
    ghost var added := store.Freeze(13.0);
    ClosedBehind(late, added, 9);
  }

  lemma ClosedBehind(late: seq<Point>, added: seq<Point>, s: int)
    requires HasSecond(late, s + 1) && HasSecond(added, s)
    ensures !Ascending(late + added)
  {
    var all := late + added;
    var i :| 0 <= i < |late| && late[i].sec == s + 1;
    var j :| 0 <= j < |added| && added[j].sec == s;
    assert all[i].sec == s + 1 && all[|late| + j].sec == s;
  }

  /** A sample stamped ahead of the controller's clock leaves its bucket open when the recording is frozen. */
  method FreezeLeavesFutureBucket() returns (store: MetricsStore)
    ensures fresh(store) && store.Valid() && !store.recording && store.buckets != map[]
  {
    store := new MetricsStore();
    store.Begin();
    store.Apply(OneRead(20), 10.0, 10.0);
    assert Credit(OneRead(20), 20).Covers(20);
    ghost var added := store.Freeze(10.0);
    assert 20 in store.buckets;
  }
}
