/** Histograms of one operation on their way from many clients to the controller: observations, snapshots,
    deliveries and losses interleave freely, and nothing is lost or counted twice. The eight operations of a
    LatencySet move together and independently of each other, so this is the story of each (LatencyFleet). */
module LatencyFlow {
  import opened Basics
  import opened LatencySpec

  /** `live` is what each client collected since its last report, `pending` the reports under way, `merged` what
      the controller shows, and `discarded` what full queues, non-participants and new runs threw away. */
  datatype Flow = Flow(scale: Scale, live: seq<Hist>, pending: seq<Hist>, merged: Hist, discarded: Hist)

  datatype Event =
    | Observe(client: nat, us: real)
    | Failure(client: nat)
    | Report(client: nat)
    | Deliver(j: nat)
    | Discard(j: nat)
    | BeginRun

  predicate Shaped(h: Hist, scale: Scale) { h.scale == scale && |h.counts| == BucketCount(scale) }

  predicate AllShaped(hs: seq<Hist>, scale: Scale) { forall i :: 0 <= i < |hs| ==> Shaped(hs[i], scale) }

  predicate Valid(f: Flow) {
    AllShaped(f.live, f.scale) && AllShaped(f.pending, f.scale) && Shaped(f.merged, f.scale)
    && Shaped(f.discarded, f.scale)
  }

  predicate Possible(f: Flow, e: Event) {
    match e
    case Observe(c, _) => c < |f.live|
    case Failure(c) => c < |f.live|
    case Report(c) => c < |f.live|
    case Deliver(j) => j < |f.pending|
    case Discard(j) => j < |f.pending|
    case BeginRun => true
  }

  function Step(f: Flow, e: Event): Flow
    requires Possible(f, e)
  {
    match e
    case Observe(c, us) => f.(live := f.live[c := Observed(f.live[c], us)])
    case Failure(c) => f.(live := f.live[c := f.live[c].(failures := f.live[c].failures + 1)])
    case Report(c) => f.(live := f.live[c := Empty(f.scale)], pending := f.pending + [f.live[c]])
    case Deliver(j) => f.(pending := Without(f.pending, j), merged := Merged(f.merged, f.pending[j]))
    case Discard(j) => f.(pending := Without(f.pending, j), discarded := Merged(f.discarded, f.pending[j]))
    case BeginRun => f.(merged := Empty(f.scale), discarded := Merged(f.discarded, f.merged))
  }

  /** No client has observed anything and nothing is under way. */
  predicate Initial(f: Flow) {
    f.pending == [] && f.merged == f.discarded == Empty(f.scale) && AllEmpty(f.live, f.scale)
  }

  predicate AllEmpty(hs: seq<Hist>, scale: Scale) { forall i :: 0 <= i < |hs| ==> hs[i] == Empty(scale) }

  /** The state after the events, or None when one of them was not possible. */
  function Run(start: Flow, events: seq<Event>): Option<Flow> {
    if events == [] then Some(start)
    else
      var f, e := Run(start, events[..|events| - 1]), events[|events| - 1];
      if f.Some? && Possible(f.value, e) then Some(Step(f.value, e)) else None
  }

  // ---- The reference ------------------------------------------------------------------------------

  /** The samples observed, over all clients. */
  function Observations(events: seq<Event>): seq<real> {
    if events == [] then []
    else
      var rest, e := Observations(events[..|events| - 1]), events[|events| - 1];
      if e.Observe? then rest + [if e.us < 0.0 then 0.0 else e.us] else rest
  }

  function FailureCount(events: seq<Event>): nat {
    if events == [] then 0
    else FailureCount(events[..|events| - 1]) + (if events[|events| - 1].Failure? then 1 else 0)
  }

  /** Merging everything there is, wherever it is. */
  function Everything(f: Flow): Hist {
    Merged(Merged(Merged(f.merged, f.discarded), MergeAll(f.pending, f.scale)), MergeAll(f.live, f.scale))
  }

  function MergeAll(hs: seq<Hist>, scale: Scale): Hist {
    if hs == [] then Empty(scale) else Merged(MergeAll(hs[..|hs| - 1], scale), hs[|hs| - 1])
  }

  // ---- Components: a histogram is determined by its numbers ----------------------------------------

  datatype Part = Count(i: nat) | Total | SumUs | Failures

  function Get(h: Hist, p: Part): real {
    match p
    case Count(i) => if i < |h.counts| then h.counts[i] as real else 0.0
    case Total => h.total as real
    case SumUs => h.sumUs
    case Failures => h.failures as real
  }

  lemma SameParts(h: Hist, g: Hist)
    requires h.scale == g.scale && |h.counts| == |g.counts|
    requires forall p :: Get(h, p) == Get(g, p)
    ensures h == g
  {
    assert Get(h, Total) == Get(g, Total) && Get(h, SumUs) == Get(g, SumUs) && Get(h, Failures) == Get(g, Failures);
    forall i | 0 <= i < |h.counts|
      ensures h.counts[i] == g.counts[i]
    {
      assert Get(h, Count(i)) == Get(g, Count(i));
    }
  }

  lemma GetMerged(h: Hist, g: Hist, scale: Scale, p: Part)
    requires Shaped(h, scale) && Shaped(g, scale)
    ensures Shaped(Merged(h, g), scale) && Get(Merged(h, g), p) == Get(h, p) + Get(g, p)
  {}

  lemma GetEmpty(scale: Scale, p: Part)
    ensures Shaped(Empty(scale), scale) && Get(Empty(scale), p) == 0.0
  {}

  /** What one more sample adds to a component. */
  function SamplePart(scale: Scale, us: real, p: Part): real {
    match p
    case Count(i) => if i == BucketOf(Edges(scale), Clamp(us)) then 1.0 else 0.0
    case Total => 1.0
    case SumUs => Clamp(us)
    case Failures => 0.0
  }

  lemma GetObserved(h: Hist, scale: Scale, us: real, p: Part)
    requires Shaped(h, scale)
    ensures Shaped(Observed(h, us), scale) && Get(Observed(h, us), p) == Get(h, p) + SamplePart(scale, us, p)
  {}

  /** What one component adds up to. */
  function SumGet(hs: seq<Hist>, p: Part): real {
    if hs == [] then 0.0 else SumGet(hs[..|hs| - 1], p) + Get(hs[|hs| - 1], p)
  }

  lemma {:induction false} GetMergeAll(hs: seq<Hist>, scale: Scale, p: Part)
    requires AllShaped(hs, scale)
    ensures Shaped(MergeAll(hs, scale), scale) && Get(MergeAll(hs, scale), p) == SumGet(hs, p)
  {
    if hs == [] {
      GetEmpty(scale, p);
    } else {
      GetMergeAll(hs[..|hs| - 1], scale, p);
      GetMerged(MergeAll(hs[..|hs| - 1], scale), hs[|hs| - 1], scale, p);
    }
  }

  lemma {:induction false} SumGetReplace(hs: seq<Hist>, c: nat, h: Hist, p: Part)
    requires c < |hs|
    ensures SumGet(hs[c := h], p) == SumGet(hs, p) - Get(hs[c], p) + Get(h, p)
  {
    var n := |hs| - 1;
    if c == n {
      assert hs[c := h][..n] == hs[..n];
    } else {
      SumGetReplace(hs[..n], c, h, p);
      assert hs[c := h][..n] == hs[..n][c := h];
    }
  }

  lemma {:induction false} SumGetWithout(hs: seq<Hist>, j: nat, p: Part)
    requires j < |hs|
    ensures SumGet(Without(hs, j), p) == SumGet(hs, p) - Get(hs[j], p)
  {
    var n := |hs| - 1;
    if j == n {
      assert Without(hs, j) == hs[..n];
    } else {
      SumGetWithout(hs[..n], j, p);
      assert Without(hs, j)[..n - 1] == Without(hs[..n], j);
    }
  }

  lemma {:induction false} SumGetEmpty(hs: seq<Hist>, scale: Scale, p: Part)
    requires AllEmpty(hs, scale)
    ensures SumGet(hs, p) == 0.0
  {
    if hs != [] {
      SumGetEmpty(hs[..|hs| - 1], scale, p);
      GetEmpty(scale, p);
    }
  }

  function Parts(f: Flow, p: Part): real {
    Get(f.merged, p) + Get(f.discarded, p) + SumGet(f.pending, p) + SumGet(f.live, p)
  }

  /** What an event adds to a component. */
  function Added(scale: Scale, e: Event, p: Part): real {
    match e
    case Observe(_, us) => SamplePart(scale, us, p)
    case Failure(_) => if p == Failures then 1.0 else 0.0
    case _ => 0.0
  }

  lemma LiveChanges(f: Flow, c: nat, h: Hist, p: Part)
    requires Valid(f) && c < |f.live| && Shaped(h, f.scale)
    ensures Valid(f.(live := f.live[c := h]))
    ensures Parts(f.(live := f.live[c := h]), p) == Parts(f, p) - Get(f.live[c], p) + Get(h, p)
  {
    SumGetReplace(f.live, c, h, p);
  }

  lemma ReportMoves(f: Flow, c: nat, p: Part)
    requires Valid(f) && c < |f.live|
    ensures Valid(Step(f, Report(c))) && Parts(Step(f, Report(c)), p) == Parts(f, p)
  {
    var h := f.live[c];
    GetEmpty(f.scale, p);
    LiveChanges(f, c, Empty(f.scale), p);
    assert (f.pending + [h])[..|f.pending|] == f.pending;
    assert SumGet(f.pending + [h], p) == SumGet(f.pending, p) + Get(h, p);
  }

  lemma ShapedWithout(hs: seq<Hist>, scale: Scale, j: nat)
    requires AllShaped(hs, scale) && j < |hs|
    ensures Shaped(hs[j], scale) && AllShaped(Without(hs, j), scale)
  {}

  lemma DeliveryMoves(f: Flow, j: nat, p: Part)
    requires Valid(f) && j < |f.pending|
    ensures Valid(Step(f, Deliver(j))) && Parts(Step(f, Deliver(j)), p) == Parts(f, p)
  {
    ShapedWithout(f.pending, f.scale, j);
    SumGetWithout(f.pending, j, p);
    GetMerged(f.merged, f.pending[j], f.scale, p);
  }

  lemma DiscardMoves(f: Flow, j: nat, p: Part)
    requires Valid(f) && j < |f.pending|
    ensures Valid(Step(f, Discard(j))) && Parts(Step(f, Discard(j)), p) == Parts(f, p)
  {
    ShapedWithout(f.pending, f.scale, j);
    SumGetWithout(f.pending, j, p);
    GetMerged(f.discarded, f.pending[j], f.scale, p);
  }

  /** Every step adds exactly what the event observed. */
  lemma StepAdds(f: Flow, e: Event, p: Part)
    requires Valid(f) && Possible(f, e)
    ensures Valid(Step(f, e)) && Step(f, e).scale == f.scale
    ensures Parts(Step(f, e), p) == Parts(f, p) + Added(f.scale, e, p)
  {
    match e
    case Observe(c, us) =>
      GetObserved(f.live[c], f.scale, us, p);
      LiveChanges(f, c, Observed(f.live[c], us), p);
    case Failure(c) =>
      LiveChanges(f, c, f.live[c].(failures := f.live[c].failures + 1), p);
    case Report(c) =>
      ReportMoves(f, c, p);
    case Deliver(j) =>
      DeliveryMoves(f, j, p);
    case Discard(j) =>
      DiscardMoves(f, j, p);
    case BeginRun =>
      GetMerged(f.discarded, f.merged, f.scale, p);
      GetEmpty(f.scale, p);
  }

  /** What all the observations add up to. */
  function Expected(scale: Scale, events: seq<Event>, p: Part): real {
    if events == [] then 0.0
    else Expected(scale, events[..|events| - 1], p) + Added(scale, events[|events| - 1], p)
  }

  lemma {:induction false} ExpectedIsHistOf(scale: Scale, events: seq<Event>, p: Part)
    ensures Expected(scale, events, p) == Get(HistOf(scale, Observations(events), FailureCount(events)), p)
  {
    if events == [] {
      assert forall i :: 0 <= i <= |Edges(scale)| ==> Tallies(Edges(scale), [])[i] == 0;
    } else {
      var front, e := events[..|events| - 1], events[|events| - 1];
      ExpectedIsHistOf(scale, front, p);
      if e.Observe? {
        GetAppended(scale, Observations(front), FailureCount(front), e.us, p);
      }
    }
  }

  lemma GetAppended(scale: Scale, samples: seq<real>, failures: nat, us: real, p: Part)
    ensures var x := if us < 0.0 then 0.0 else us;
            Get(HistOf(scale, samples + [x], failures), p)
            == Get(HistOf(scale, samples, failures), p) + SamplePart(scale, us, p)
  {
    AppendOne(scale, samples, failures, us);
    GetObserved(HistOf(scale, samples, failures), scale, us, p);
  }

  lemma {:induction false} RunAdds(start: Flow, events: seq<Event>, end: Flow, p: Part)
    requires Initial(start) && Run(start, events) == Some(end)
    ensures Valid(end) && end.scale == start.scale
    ensures Parts(end, p) == Expected(start.scale, events, p)
    decreases |events|
  {
    if events == [] {
      SumGetEmpty(start.live, start.scale, p);
      GetEmpty(start.scale, p);
    } else {
      var front, e := events[..|events| - 1], events[|events| - 1];
      var f := Run(start, front).value;
      RunAdds(start, front, f, p);
      StepAdds(f, e, p);
    }
  }

  lemma GetEverything(f: Flow, p: Part)
    requires Valid(f)
    ensures Shaped(Everything(f), f.scale) && Get(Everything(f), p) == Parts(f, p)
  {
    var pending, live := MergeAll(f.pending, f.scale), MergeAll(f.live, f.scale);
    GetMergeAll(f.pending, f.scale, p);
    GetMergeAll(f.live, f.scale, p);
    GetMerged(f.merged, f.discarded, f.scale, p);
    GetMerged(Merged(f.merged, f.discarded), pending, f.scale, p);
    GetMerged(Merged(Merged(f.merged, f.discarded), pending), live, f.scale, p);
  }

  /** Homomorphism: after any interleaving, everything merged together is the histogram of all observations. */
  lemma NothingLost(start: Flow, events: seq<Event>, end: Flow)
    requires Initial(start) && Run(start, events) == Some(end)
    ensures Everything(end) == HistOf(start.scale, Observations(events), FailureCount(events))
  {
    var all := HistOf(start.scale, Observations(events), FailureCount(events));
    forall p
      ensures Get(Everything(end), p) == Get(all, p) && Shaped(Everything(end), start.scale)
    {
      RunAdds(start, events, end, p);
      ExpectedIsHistOf(start.scale, events, p);
      GetEverything(end, p);
    }
    assert Get(Everything(end), Total) == Get(all, Total);
    SameParts(Everything(end), all);
  }

  /** In particular, once everything is delivered, the histogram shown is that of what the clients observed. */
  lemma DeliveredIsExact(start: Flow, events: seq<Event>, end: Flow)
    requires Initial(start) && Run(start, events) == Some(end)
    requires end.pending == [] && end.discarded == Empty(end.scale) && AllEmpty(end.live, end.scale)
    ensures end.merged == HistOf(start.scale, Observations(events), FailureCount(events))
  {
    var all := HistOf(start.scale, Observations(events), FailureCount(events));
    forall p
      ensures Get(end.merged, p) == Get(all, p) && Shaped(end.merged, start.scale)
    {
      RunAdds(start, events, end, p);
      ExpectedIsHistOf(start.scale, events, p);
      SumGetEmpty(end.live, end.scale, p);
      GetEmpty(end.scale, p);
    }
    assert Get(end.merged, Total) == Get(all, Total);
    SameParts(end.merged, all);
  }

  /** Nothing is thrown away when no report is lost and a run begins, if at all, before anything else. */
  lemma {:induction false} NothingDiscarded(start: Flow, events: seq<Event>, end: Flow)
    requires Initial(start) && Run(start, events) == Some(end)
    requires Undisturbed(events)
    ensures end.discarded == Empty(start.scale)
    decreases |events|
  {
    if events != [] {
      var n := |events| - 1;
      var f := Run(start, events[..n]).value;
      NothingDiscarded(start, events[..n], f);
      if events[n].BeginRun? {
        assert f == start;
        var z := Empty(start.scale);
        assert AddPrefix(z.counts, z.counts) == z.counts;
      }
    }
  }

  predicate Undisturbed(events: seq<Event>) {
    forall i :: 0 <= i < |events| ==> !events[i].Discard? && (i > 0 ==> !events[i].BeginRun?)
  }
}
