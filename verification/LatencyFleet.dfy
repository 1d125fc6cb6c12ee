/** The statistics objects of many clients, the reports under way and the controller's store, driven through any
    events: operation by operation the objects hold what the flow of LatencyFlow says. */
module LatencyFleet {
  import opened Basics
  import opened LatencySpec
  import opened Latency
  import F = LatencyFlow
  import MS = MetricsSpec

  datatype Event =
    | Collect(client: nat, op: Op, sample: Option<real>)
    | Report(client: nat)
    | Deliver(j: nat, series: MS.Sample, now: real, later: real)
    | Discard(j: nat)
    | BeginRun
    | Freeze(now: real)

  type Hists = map<Op, Hist>

  /** All histograms as values; what was thrown away only as a record. */
  datatype World = World(recording: bool, live: seq<Hists>, pending: seq<Hists>, merged: Hists, discarded: Hists)

  function NoHists(): Hists { map op: Op | true :: Empty(ScaleOf(op)) }

  predicate Full(m: Hists) { forall op :: op in m }

  function At(m: Hists, op: Op): Hist { if op in m then m[op] else Empty(ScaleOf(op)) }

  predicate EachFull(ms: seq<Hists>) { forall i :: 0 <= i < |ms| ==> Full(ms[i]) }

  predicate AllFull(w: World) { EachFull(w.live) && EachFull(w.pending) && Full(w.merged) && Full(w.discarded) }

  predicate Possible(w: World, e: Event) {
    match e
    case Collect(c, _, _) => c < |w.live|
    case Report(c) => c < |w.live|
    case Deliver(j, _, _, _) => j < |w.pending|
    case Discard(j) => j < |w.pending|
    case BeginRun => true
    case Freeze(_) => true
  }

  function Collecting(w: World, c: nat, op: Op, sample: Option<real>): World
    requires c < |w.live|
  {
    w.(live := w.live[c := w.live[c][op := Collected(At(w.live[c], op), sample)]])
  }

  function Reporting(w: World, c: nat): World
    requires c < |w.live|
  {
    w.(live := w.live[c := NoHists()], pending := w.pending + [w.live[c]])
  }

  function Delivering(w: World, j: nat): World
    requires j < |w.pending|
  {
    w.(pending := Without(w.pending, j), merged := MergedAll(w.merged, w.pending[j]))
  }

  function Discarding(w: World, j: nat): World
    requires j < |w.pending|
  {
    w.(pending := Without(w.pending, j), discarded := MergedAll(w.discarded, w.pending[j]))
  }

  function Beginning(w: World): World {
    w.(recording := true, merged := NoHists(), discarded := MergedAll(w.discarded, w.merged))
  }

  /** A report that reaches a store not recording is thrown away. */
  function Step(w: World, e: Event): World
    requires Possible(w, e)
  {
    match e
    case Collect(c, op, sample) => Collecting(w, c, op, sample)
    case Report(c) => Reporting(w, c)
    case Deliver(j, _, _, _) => if w.recording then Delivering(w, j) else Discarding(w, j)
    case Discard(j) => Discarding(w, j)
    case BeginRun => Beginning(w)
    case Freeze(_) => w.(recording := false)
  }

  function Start(clients: nat): World {
    World(false, seq(clients, _ => NoHists()), [], NoHists(), NoHists())
  }

  /** The values after the events, if each was possible in its turn. */
  function Run(clients: nat, events: seq<Event>): Option<World> {
    if events == [] then Some(Start(clients))
    else
      var w, e := Run(clients, events[..|events| - 1]), events[|events| - 1];
      if w.Some? && Possible(w.value, e) then Some(Step(w.value, e)) else None
  }

  // ---- One operation at a time ---------------------------------------------------------------------

  function Each(ms: seq<Hists>, op: Op): (hs: seq<Hist>)
    ensures |hs| == |ms|
  {
    seq(|ms|, i requires 0 <= i < |ms| => At(ms[i], op))
  }

  /** The histograms of one operation. */
  function View(w: World, op: Op): F.Flow {
    F.Flow(ScaleOf(op), Each(w.live, op), Each(w.pending, op), At(w.merged, op), At(w.discarded, op))
  }

  /** What an event is to one operation. */
  function Project(recording: bool, e: Event, op: Op): Option<F.Event> {
    match e
    case Collect(c, o, sample) =>
      if o != op then None else Some(if sample.Some? then F.Observe(c, sample.value) else F.Failure(c))
    case Report(c) => Some(F.Report(c))
    case Deliver(j, _, _, _) => Some(if recording then F.Deliver(j) else F.Discard(j))
    case Discard(j) => Some(F.Discard(j))
    case BeginRun => Some(F.BeginRun)
    case Freeze(_) => None
  }

  /** What the events are to one operation. */
  function Projected(clients: nat, events: seq<Event>, op: Op): seq<F.Event> {
    if events == [] then []
    else
      var front := events[..|events| - 1];
      var w := Run(clients, front);
      var e := if w.Some? then Project(w.value.recording, events[|events| - 1], op) else None;
      Projected(clients, front, op) + (if e.Some? then [e.value] else [])
  }

  /** Whether the flow of an operation does what the event is to it. */
  predicate Follows(before: F.Flow, e: Option<F.Event>, after: F.Flow) {
    if e.None? then after == before else F.Possible(before, e.value) && after == F.Step(before, e.value)
  }

  lemma EachUpdated(ms: seq<Hists>, i: nat, m: Hists, op: Op)
    requires EachFull(ms) && Full(m) && i < |ms|
    ensures EachFull(ms[i := m]) && Each(ms[i := m], op) == Each(ms, op)[i := At(m, op)]
  {}

  lemma EachAppended(ms: seq<Hists>, m: Hists, op: Op)
    requires EachFull(ms) && Full(m)
    ensures EachFull(ms + [m]) && Each(ms + [m], op) == Each(ms, op) + [At(m, op)]
  {}

  lemma EachWithout(ms: seq<Hists>, j: nat, op: Op)
    requires EachFull(ms) && j < |ms|
    ensures EachFull(Without(ms, j)) && Each(Without(ms, j), op) == Without(Each(ms, op), j)
  {}

  lemma EachAt(ms: seq<Hists>, i: nat, op: Op)
    requires EachFull(ms) && i < |ms|
    ensures Full(ms[i]) && Each(ms, op)[i] == At(ms[i], op)
  {}

  lemma AtMerged(a: Hists, b: Hists, op: Op)
    requires Full(a) && Full(b)
    ensures Full(MergedAll(a, b)) && At(MergedAll(a, b), op) == Merged(At(a, op), At(b, op))
  {}

  lemma AtNoHists(op: Op)
    ensures Full(NoHists()) && At(NoHists(), op) == Empty(ScaleOf(op))
  {}

  lemma ViewCollecting(w: World, c: nat, o: Op, sample: Option<real>, op: Op)
    requires AllFull(w) && c < |w.live|
    ensures AllFull(Collecting(w, c, o, sample))
    ensures Follows(View(w, op), Project(w.recording, Collect(c, o, sample), op), View(Collecting(w, c, o, sample), op))
  {
    var m := w.live[c][o := Collected(At(w.live[c], o), sample)];
    EachAt(w.live, c, op);
    EachUpdated(w.live, c, m, op);
    if o != op {
      assert At(m, op) == At(w.live[c], op);
      assert Each(w.live, op)[c := At(m, op)] == Each(w.live, op);
    }
  }

  lemma ViewReporting(w: World, c: nat, op: Op)
    requires AllFull(w) && c < |w.live|
    ensures AllFull(Reporting(w, c)) && Follows(View(w, op), Some(F.Report(c)), View(Reporting(w, c), op))
  {
    AtNoHists(op);
    EachAt(w.live, c, op);
    EachUpdated(w.live, c, NoHists(), op);
    EachAppended(w.pending, w.live[c], op);
  }

  lemma ViewDelivering(w: World, j: nat, op: Op)
    requires AllFull(w) && j < |w.pending|
    ensures AllFull(Delivering(w, j)) && Follows(View(w, op), Some(F.Deliver(j)), View(Delivering(w, j), op))
  {
    EachAt(w.pending, j, op);
    EachWithout(w.pending, j, op);
    AtMerged(w.merged, w.pending[j], op);
  }

  lemma ViewDiscarding(w: World, j: nat, op: Op)
    requires AllFull(w) && j < |w.pending|
    ensures AllFull(Discarding(w, j)) && Follows(View(w, op), Some(F.Discard(j)), View(Discarding(w, j), op))
  {
    EachAt(w.pending, j, op);
    EachWithout(w.pending, j, op);
    AtMerged(w.discarded, w.pending[j], op);
  }

  lemma ViewBeginning(w: World, op: Op)
    requires AllFull(w)
    ensures AllFull(Beginning(w)) && Follows(View(w, op), Some(F.BeginRun), View(Beginning(w), op))
  {
    AtNoHists(op);
    AtMerged(w.discarded, w.merged, op);
  }

  /** The step of all histograms is, for each operation, the step of its flow. */
  lemma ViewStep(w: World, e: Event, op: Op)
    requires AllFull(w) && Possible(w, e)
    ensures AllFull(Step(w, e)) && Follows(View(w, op), Project(w.recording, e, op), View(Step(w, e), op))
  {
    match e
    case Collect(c, o, sample) => ViewCollecting(w, c, o, sample, op);
    case Report(c) => ViewReporting(w, c, op);
    case Deliver(j, _, _, _) =>
      ViewDelivering(w, j, op);
      ViewDiscarding(w, j, op);
    case Discard(j) => ViewDiscarding(w, j, op);
    case BeginRun => ViewBeginning(w, op);
    case Freeze(_) =>
  }

  /** So it is for whole runs, which start from nothing. */
  lemma {:induction false} ViewRun(clients: nat, events: seq<Event>, op: Op)
    requires Run(clients, events).Some?
    ensures F.Initial(View(Start(clients), op)) && AllFull(Run(clients, events).value)
    ensures F.Run(View(Start(clients), op), Projected(clients, events, op)) ==
            Some(View(Run(clients, events).value, op))
    decreases |events|
  {
    if events == [] {
      AtNoHists(op);
    } else {
      var n := |events| - 1;
      ViewRun(clients, events[..n], op);
      var w := Run(clients, events[..n]).value;
      var p := Project(w.recording, events[n], op);
      ViewStep(w, events[n], op);
      var front, all := Projected(clients, events[..n], op), Projected(clients, events, op);
      if p.Some? {
        assert all[..|all| - 1] == front;
      } else {
        assert all == front;
      }
    }
  }

  /** The samples of an operation that the clients took, negative ones as zero. */
  function SamplesOf(events: seq<Event>, op: Op): seq<real> {
    if events == [] then []
    else
      var rest, e := SamplesOf(events[..|events| - 1], op), events[|events| - 1];
      if e.Collect? && e.op == op && e.sample.Some? then rest + [if e.sample.value < 0.0 then 0.0 else e.sample.value]
      else rest
  }

  function FailuresOf(events: seq<Event>, op: Op): nat {
    if events == [] then 0
    else
      var e := events[|events| - 1];
      FailuresOf(events[..|events| - 1], op) + (if e.Collect? && e.op == op && e.sample.None? then 1 else 0)
  }

  /** The histogram of what was observed of an operation. */
  function Collection(events: seq<Event>, op: Op): Hist {
    HistOf(ScaleOf(op), SamplesOf(events, op), FailuresOf(events, op))
  }

  lemma OneMoreObserved(own: seq<F.Event>, p: Option<F.Event>)
    ensures var all := own + (if p.Some? then [p.value] else []);
            F.Observations(all) == (if p.Some? && p.value.Observe?
                                    then F.Observations(own) + [if p.value.us < 0.0 then 0.0 else p.value.us]
                                    else F.Observations(own))
            && F.FailureCount(all) == F.FailureCount(own) + (if p.Some? && p.value.Failure? then 1 else 0)
  {
    if p.Some? {
      assert (own + [p.value])[..|own|] == own;
    } else {
      assert own + [] == own;
    }
  }

  lemma OneMoreSample(events: seq<Event>, op: Op, recording: bool)
    requires events != []
    ensures var front, p := events[..|events| - 1], Project(recording, events[|events| - 1], op);
            SamplesOf(events, op) == (if p.Some? && p.value.Observe?
                                      then SamplesOf(front, op) + [if p.value.us < 0.0 then 0.0 else p.value.us]
                                      else SamplesOf(front, op))
            && FailuresOf(events, op) == FailuresOf(front, op) + (if p.Some? && p.value.Failure? then 1 else 0)
  {}

  /** An operation's flow observes what was observed of it. */
  lemma {:induction false} FlowObserves(clients: nat, events: seq<Event>, op: Op)
    requires Run(clients, events).Some?
    ensures F.Observations(Projected(clients, events, op)) == SamplesOf(events, op)
    ensures F.FailureCount(Projected(clients, events, op)) == FailuresOf(events, op)
    decreases |events|
  {
    if events != [] {
      var front := events[..|events| - 1];
      FlowObserves(clients, front, op);
      var recording := Run(clients, front).value.recording;
      OneMoreSample(events, op, recording);
      OneMoreObserved(Projected(clients, front, op), Project(recording, events[|events| - 1], op));
    }
  }

  /** The histograms of an operation are those of its flow, and all of them merged are what was observed of it. */
  predicate Flows(clients: nat, events: seq<Event>, w: World, op: Op) {
    F.Run(View(Start(clients), op), Projected(clients, events, op)) == Some(View(w, op))
    && F.Everything(View(w, op)) == Collection(events, op)
  }

  /** Whatever happens, this holds of every operation. */
  lemma NothingLost(clients: nat, events: seq<Event>)
    requires Run(clients, events).Some?
    ensures forall op :: Flows(clients, events, Run(clients, events).value, op)
  {
    var w := Run(clients, events).value;
    forall op
      ensures Flows(clients, events, w, op)
    {
      ViewRun(clients, events, op);
      FlowObserves(clients, events, op);
      F.NothingLost(View(Start(clients), op), Projected(clients, events, op), View(w, op));
    }
  }

  /** The run began first, and goes on: no report was lost, no other run began and the store was not frozen. */
  predicate OneRun(events: seq<Event>) {
    forall i :: 0 <= i < |events| ==>
                  if i == 0 then events[i].BeginRun?
                  else !events[i].Discard? && !events[i].BeginRun? && !events[i].Freeze?
  }

  /** Nothing was thrown away then, seen from any operation. */
  lemma {:induction false} OneRunFlows(clients: nat, events: seq<Event>, op: Op)
    requires Run(clients, events).Some? && OneRun(events) && events != []
    ensures Run(clients, events).value.recording
    ensures F.Undisturbed(Projected(clients, events, op)) && Projected(clients, events, op) != []
    decreases |events|
  {
    var n := |events| - 1;
    if n > 0 {
      OneRunFlows(clients, events[..n], op);
    }
  }

  /** Once such a run has delivered every report and no client holds anything back, the store shows, of every operation,
      the histogram of exactly the samples the clients took. */
  lemma RunShowsAll(clients: nat, events: seq<Event>)
    requires Run(clients, events).Some? && OneRun(events) && events != []
    requires var w := Run(clients, events).value;
             w.pending == [] && forall i :: 0 <= i < |w.live| ==> w.live[i] == NoHists()
    ensures forall op :: At(Run(clients, events).value.merged, op) == Collection(events, op)
  {
    var w := Run(clients, events).value;
    forall op
      ensures At(w.merged, op) == Collection(events, op)
    {
      ViewRun(clients, events, op);
      FlowObserves(clients, events, op);
      OneRunFlows(clients, events, op);
      var own, flow := Projected(clients, events, op), View(w, op);
      F.NothingDiscarded(View(Start(clients), op), own, flow);
      AtNoHists(op);
      F.DeliveredIsExact(View(Start(clients), op), own, flow);
    }
  }

  lemma OneMoreClient(clients: nat)
    ensures Start(clients + 1) == Start(clients).(live := Start(clients).live + [NoHists()])
  {}
}
