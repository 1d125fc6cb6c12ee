/** The objects behind LatencyFleet: the statistics of many clients, their reports, and the store of the controller.
    They share no histogram and no array, and follow the events. */
module Fleets {
  import opened Basics
  import opened Latency
  import opened LatencyFleet
  import MS = MetricsSpec
  import RM = RunMetrics

  // ---- Sets of histograms that share nothing --------------------------------------------------------

  /** A set of histograms with its value and the objects it may use. */
  datatype Piece = Piece(part: LatencySet, value: Hists, objects: set<object>)

  ghost predicate Owned(p: Piece)
    reads p.objects
  {
    p.part.of.Values <= p.objects && p.part.Footprint() <= p.objects && p.part.Valid() && p.part.Values() == p.value
  }

  ghost predicate AllOwned(ps: seq<Piece>)
    reads set p, o | p in ps && o in p.objects :: o
  {
    forall i :: 0 <= i < |ps| ==> Owned(ps[i])
  }

  ghost predicate Disjoint(ps: seq<Piece>) {
    forall i, j :: 0 <= i < |ps| && 0 <= j < |ps| && i != j ==> ps[i].objects !! ps[j].objects
  }

  /** Pieces that share nothing can be merged. */
  lemma NothingShared(p: Piece, q: Piece)
    requires Owned(p) && Owned(q) && p.objects !! q.objects
    ensures p.part.Apart(q.part)
  {
    var s, t := p.part, q.part;
    forall a, b
      ensures s.of[a] != t.of[b] && s.of[a].counts != t.of[b].counts
    {
      assert s.of[a] in s.Footprint() && s.of[a].counts in s.Footprint();
      assert t.of[b] in t.Footprint() && t.of[b].counts in t.Footprint();
    }
  }

  /** Pieces that share nothing, each with its value. */
  ghost predicate Fits(ps: seq<Piece>)
    reads set p, o | p in ps && o in p.objects :: o
  {
    AllOwned(ps) && Disjoint(ps)
  }

  lemma FitsReplaced(ps: seq<Piece>, k: nat, p: Piece)
    requires Disjoint(ps) && k < |ps| && Owned(p)
    requires forall i :: 0 <= i < |ps| && i != k ==> Owned(ps[i]) && p.objects !! ps[i].objects
    ensures Fits(ps[k := p])
  {}

  lemma FitsInserted(ps: seq<Piece>, k: nat, p: Piece)
    requires Fits(ps) && k <= |ps| && Owned(p) && forall i :: 0 <= i < |ps| ==> p.objects !! ps[i].objects
    ensures Fits(ps[..k] + [p] + ps[k..])
  {}

  /** The one replaced is kept at the end. */
  lemma FitsMoved(ps: seq<Piece>, k: nat, p: Piece)
    requires Fits(ps) && k < |ps| && Owned(p) && forall i :: 0 <= i < |ps| ==> p.objects !! ps[i].objects
    ensures Fits(ps[k := p] + [ps[k]])
  {
    FitsReplaced(ps, k, p);
    FitsInserted(ps[k := p], |ps|, ps[k]);
    assert ps[k := p] + [ps[k]] == ps[k := p][..|ps|] + [ps[k]] + ps[k := p][|ps|..];
  }

  lemma FitsWithout(ps: seq<Piece>, k: nat)
    requires Fits(ps) && k < |ps|
    ensures Fits(Without(ps, k))
  {}

  /** Everything in one list: the controller's, the live ones, the reports under way. */
  function All<T>(merged: T, live: seq<T>, pending: seq<T>): seq<T> { [merged] + live + pending }

  lemma AllLive<T>(merged: T, live: seq<T>, pending: seq<T>, c: nat, x: T)
    requires c < |live|
    ensures All(merged, live, pending)[1 + c] == live[c]
    ensures All(merged, live[c := x], pending) == All(merged, live, pending)[1 + c := x]
  {}

  lemma AllJoined<T>(merged: T, live: seq<T>, pending: seq<T>, x: T)
    ensures var all, k := All(merged, live, pending), 1 + |live|;
            All(merged, live + [x], pending) == all[..k] + [x] + all[k..]
    ensures forall y :: y in All(merged, live + [x], pending) ==> y == x || y in All(merged, live, pending)
  {}

  lemma AllReported<T>(merged: T, live: seq<T>, pending: seq<T>, c: nat, x: T)
    requires c < |live|
    ensures All(merged, live[c := x], pending + [live[c]]) == All(merged, live, pending)[1 + c := x] + [live[c]]
  {}

  lemma AllWithout<T>(merged: T, live: seq<T>, pending: seq<T>, j: nat)
    requires j < |pending|
    ensures All(merged, live, pending)[1 + |live| + j] == pending[j]
    ensures All(merged, live, Without(pending, j)) == Without(All(merged, live, pending), 1 + |live| + j)
  {}

  lemma AllMerged<T>(merged: T, live: seq<T>, pending: seq<T>, x: T)
    ensures All(x, live, pending) == All(merged, live, pending)[0 := x]
  {}

  // ---- What happens to one piece -------------------------------------------------------------------

  /** SnapshotAndReset: a client's piece becomes the report, and the client gets a new one. */
  method Snapshot(client: Stats, ghost k: nat, ghost ps: seq<Piece>) returns (report: LatencySet, ghost next: Piece)
    requires Fits(ps) && k < |ps| && ps[k].part == client.latencies && forall p :: p in ps ==> client !in p.objects
    modifies client
    ensures report == ps[k].part && next.part == client.latencies && next.value == NoHists() && fresh(next.objects)
    ensures Fits(ps[k := next] + [ps[k]])
  {
    assert Owned(ps[k]);
    var counts;
    report, counts := client.SnapshotAndReset();
    assert Fits(ps);
    next := Piece(client.latencies, NoHists(), client.latencies.Footprint());
    assert client.latencies.Values() == NoHists();
    FitsMoved(ps, k, next);
  }

  /** A client observes a sample or a failure. */
  method Sample(client: Stats, op: Op, sample: Option<real>, ghost k: nat, ghost ps: seq<Piece>)
    returns (ghost next: Piece)
    requires Fits(ps) && k < |ps| && ps[k].part == client.latencies
    modifies ps[k].objects
    ensures next.part == ps[k].part == client.latencies && fresh(next.objects - ps[k].objects)
    ensures next.value == ps[k].value[op := Collected(At(ps[k].value, op), sample)]
    ensures Fits(ps[k := next])
  {
    assert Owned(ps[k]);
    client.Collect(op, sample);
    next := Piece(client.latencies, client.latencies.Values(), ps[k].objects + client.latencies.Footprint());
    FitsReplaced(ps, k, next);
  }

  /** A report reaches the store, which merges it while recording. */
  method MergeReport(store: RM.SampleStore, series: MS.Sample, now: real, later: real, report: LatencySet, ghost k: nat,
                     ghost ps: seq<Piece>)
    returns (ghost next: Piece)
    requires Fits(ps) && 0 < k < |ps| && ps[0].part == store.latencies && ps[k].part == report && store.Valid()
    requires forall p :: p in ps ==> store !in p.objects && store.series !in p.objects
    modifies store.series, ps[0].objects
    ensures store.Valid() && store.series.recording == old(store.series.recording)
    ensures next.part == store.latencies == old(store.latencies) && fresh(next.objects - ps[0].objects)
    ensures next.value == if store.series.recording then MergedAll(ps[0].value, ps[k].value) else ps[0].value
    ensures Fits(ps[0 := next])
  {
    assert Owned(ps[0]) && Owned(ps[k]);
    NothingShared(ps[0], ps[k]);
    store.Apply(series, report, now, later);
    next := Piece(store.latencies, store.latencies.Values(), ps[0].objects + store.latencies.Footprint());
    FitsReplaced(ps, 0, next);
  }

  /** A new run starts on new histograms. */
  method StartOver(store: RM.SampleStore, ghost ps: seq<Piece>) returns (ghost next: Piece)
    requires Fits(ps) && 0 < |ps|
    requires forall p :: p in ps ==> store !in p.objects && store.series !in p.objects
    modifies store`latencies, store.series
    ensures store.Valid() && store.series.recording
    ensures next.part == store.latencies && next.value == NoHists() && fresh(next.objects) && Fits(ps[0 := next])
  {
    store.Begin();
    assert Fits(ps);
    next := Piece(store.latencies, NoHists(), store.latencies.Footprint());
    assert store.latencies.Values() == NoHists();
    FitsReplaced(ps, 0, next);
  }

  function ValuesOf(ps: seq<Piece>): (ms: seq<Hists>)
    ensures |ms| == |ps|
  {
    seq(|ps|, i requires 0 <= i < |ps| => ps[i].value)
  }

  /** A store that records nothing yet. */
  method NewStore() returns (store: RM.SampleStore, ghost first: Piece)
    ensures fresh(store) && store.series.Valid() && fresh(store.series) && !store.series.recording
    ensures first.part == store.latencies && first.value == NoHists() && fresh(first.objects)
    ensures Fits([first]) && store !in first.objects && store.series !in first.objects
  {
    store := new RM.SampleStore();
    first := Piece(store.latencies, NoHists(), store.latencies.Footprint());
    assert store.latencies.Values() == NoHists();
  }

  /** Statistics nothing has been collected in. */
  method BlankClient() returns (client: Stats, ghost next: Piece)
    ensures fresh(client) && next.part == client.latencies && next.value == NoHists() && fresh(next.objects)
    ensures client !in next.objects && Owned(next)
  {
    client := new Stats();
    next := Piece(client.latencies, NoHists(), client.latencies.Footprint());
    assert client.latencies.Values() == NoHists();
  }

  method NewClient(ghost ps: seq<Piece>, ghost k: nat) returns (client: Stats, ghost next: Piece)
    requires Fits(ps) && k <= |ps|
    ensures fresh(client) && next.part == client.latencies && next.value == NoHists() && fresh(next.objects)
    ensures client !in next.objects && Fits(ps[..k] + [next] + ps[k..])
  {
    client, next := BlankClient();
    assert Fits(ps);
    FitsInserted(ps, k, next);
  }

  /** The sets the pieces stand for. */
  ghost predicate Parts(ps: seq<Piece>, sets: seq<LatencySet>) {
    |ps| == |sets| && forall i :: 0 <= i < |ps| ==> ps[i].part == sets[i]
  }

  lemma PartsWithout(ps: seq<Piece>, sets: seq<LatencySet>, j: nat)
    requires Parts(ps, sets) && j < |ps|
    ensures Parts(Without(ps, j), Without(sets, j))
  {}

  lemma Remaining<T>(s: seq<T>, j: nat)
    requires j < |s|
    ensures forall x :: x in Without(s, j) ==> x in s
  {}

  lemma ValuesUpdated(ps: seq<Piece>, k: nat, p: Piece)
    requires k < |ps|
    ensures ValuesOf(ps[k := p]) == ValuesOf(ps)[k := p.value] && ValuesOf(ps)[k] == ps[k].value
  {}

  lemma ValuesAppended(ps: seq<Piece>, p: Piece)
    ensures ValuesOf(ps + [p]) == ValuesOf(ps) + [p.value]
  {}

  lemma ValuesWithout(ps: seq<Piece>, j: nat)
    requires j < |ps|
    ensures ValuesOf(Without(ps, j)) == Without(ValuesOf(ps), j) && ValuesOf(ps)[j] == ps[j].value
  {}

  /** A report is merged, and still listed. */
  function Merging(w: World, j: nat): World
    requires j < |w.pending|
  {
    w.(merged := MergedAll(w.merged, w.pending[j]))
  }

  // ---- The fleet -----------------------------------------------------------------------------------

  class Fleet {
    var clients: seq<Stats>
    const store: RM.SampleStore
    var reports: seq<LatencySet>
    ghost var merged: Piece
    ghost var live: seq<Piece>
    ghost var pending: seq<Piece>
    ghost var discarded: Hists
    ghost var repr: set<object>

    ghost function Pieces(): seq<Piece>
      reads this
    {
      All(merged, live, pending)
    }

    /** All histograms as values. */
    ghost function State(): World
      reads this, store, store.series
    {
      World(store.series.recording, ValuesOf(live), ValuesOf(pending), merged.value, discarded)
    }

    /** The pieces are the histograms of the store, of the clients, and of the reports, but for the one at `hole`. */
    ghost predicate LinkedBut(hole: int)
      reads this, clients, store
    {
      (hole != 0 ==> merged.part == store.latencies) && Distinct(clients) && |live| == |clients|
      && (forall c :: 0 <= c < |clients| && 1 + c != hole ==> live[c].part == clients[c].latencies)
      && Parts(pending, reports)
    }

    ghost function Others(): set<object>
      reads this, store
    {
      {this, store, store.series} + set c | c in clients
    }

    /** The objects are where they belong, and apart from everything else. */
    ghost predicate Placed(hole: int)
      reads this, clients, store, store.series
    {
      LinkedBut(hole) && store.series.Valid() && Others() <= repr
      && forall p :: p in Pieces() ==> Others() !! p.objects && p.objects <= repr
    }

    ghost predicate Valid()
      reads this, clients, store, store.series, repr
    {
      Placed(-1) && Fits(Pieces())
    }

    /** No client has registered yet. */
    constructor ()
      ensures Valid() && State() == Start(0) && clients == []
      ensures fresh(repr)
    {
      var s, first := NewStore();
      store, clients, reports, merged, live, pending, discarded := s, [], [], first, [], [], NoHists();
      repr := {this, s, s.series} + first.objects;
      new;
      assert Pieces() == [first];
    }

    method Admit(client: Stats, ghost next: Piece)
      requires Placed(-1) && client !in clients && next.part == client.latencies
      requires Others() + {client} !! next.objects && forall p :: p in Pieces() ==> client !in p.objects
      requires Fits(All(merged, live + [next], pending))
      modifies this`clients, this`live, this`repr
      ensures Valid() && clients == old(clients) + [client]
      ensures State() == old(State()).(live := old(State()).live + [next.value])
      ensures repr == old(repr) + {client} + next.objects
    {
      AllJoined(merged, live, pending, next);
      ValuesAppended(live, next);
      clients, live, repr := clients + [client], live + [next], repr + {client} + next.objects;
    }

    method JoinAt() returns (client: Stats, ghost next: Piece)
      requires Valid()
      ensures fresh(client) && next.part == client.latencies && next.value == NoHists() && fresh(next.objects)
      ensures Others() + {client} !! next.objects && forall p :: p in Pieces() ==> client !in p.objects
      ensures Fits(All(merged, live + [next], pending))
    {
      client, next := NewClient(Pieces(), 1 + |live|);
      AllJoined(merged, live, pending, next);
    }

    /** A client that has not observed anything. */
    method Join()
      requires Valid()
      modifies this`clients, this`live, this`repr
      ensures Valid() && |clients| == |old(clients)| + 1 && fresh(repr - old(repr))
      ensures State() == old(State()).(live := old(State()).live + [NoHists()])
    {
      var client, next := JoinAt();
      Admit(client, next);
    }

    ghost method ReplaceLive(c: nat, next: Piece)
      requires c < |clients| && Placed(1 + c) && next.part == clients[c].latencies && Others() !! next.objects
      requires Fits(Pieces()[1 + c := next])
      modifies this`live, this`repr
      ensures Valid() && repr == old(repr) + next.objects
      ensures State() == old(State()).(live := old(State()).live[c := next.value])
    {
      AllLive(merged, live, pending, c, next);
      ValuesUpdated(live, c, next);
      live, repr := live[c := next], repr + next.objects;
    }

    method TakeReport(c: nat) returns (report: LatencySet, ghost next: Piece)
      requires Valid() && c < |clients|
      modifies clients[c]
      ensures Placed(1 + c) && fresh(next.objects) && State() == old(State())
      ensures report == live[c].part && next.part == clients[c].latencies && next.value == NoHists()
      ensures Fits(Pieces()[1 + c := next] + [live[c]])
    {
      AllLive(merged, live, pending, c, live[c]);
      assert clients[c] in Others();
      report, next := Snapshot(clients[c], 1 + c, Pieces());
    }

    method File(c: nat, report: LatencySet, ghost next: Piece)
      requires c < |clients| && Placed(1 + c)
      requires report == live[c].part && next.part == clients[c].latencies && Others() !! next.objects
      requires Fits(Pieces()[1 + c := next] + [live[c]])
      modifies this`reports, this`live, this`pending, this`repr
      ensures Valid() && repr == old(repr) + next.objects
      ensures State() == old(State()).(live := old(State()).live[c := next.value],
                                       pending := old(State()).pending + [old(State()).live[c]])
    {
      ValuesUpdated(live, c, next);
      ValuesAppended(pending, live[c]);
      AllReported(merged, live, pending, c, next);
      AllLive(merged, live, pending, c, next);
      assert live[c] in Pieces();
      reports := reports + [report];
      live, pending, repr := live[c := next], pending + [live[c]], repr + next.objects;
    }

    method Report(c: nat)
      requires Valid() && c < |clients|
      modifies this`reports, this`live, this`pending, this`repr, clients[c]
      ensures Valid() && State() == Reporting(old(State()), c)
      ensures fresh(repr - old(repr))
    {
      var report, next := TakeReport(c);
      File(c, report, next);
    }

    method Observe(c: nat, op: Op, sample: Option<real>) returns (ghost next: Piece)
      requires Valid() && c < |clients|
      modifies live[c].objects
      ensures Placed(1 + c) && next.part == clients[c].latencies && fresh(next.objects - live[c].objects)
      ensures State() == old(State())
      ensures next.value == State().live[c][op := Collected(At(State().live[c], op), sample)]
      ensures Fits(Pieces()[1 + c := next])
    {
      AllLive(merged, live, pending, c, live[c]);
      assert live[c] in Pieces();
      next := Sample(clients[c], op, sample, 1 + c, Pieces());
    }

    method Collect(c: nat, op: Op, sample: Option<real>)
      requires Valid() && c < |clients|
      modifies this`live, this`repr, live[c].objects
      ensures Valid() && State() == Collecting(old(State()), c, op, sample)
      ensures fresh(repr - old(repr))
    {
      var next := Observe(c, op, sample);
      ReplaceLive(c, next);
    }

    lemma CanDrop(j: nat)
      requires Valid() && j < |reports|
      ensures Fits(All(merged, live, Without(pending, j))) && Parts(Without(pending, j), Without(reports, j))
      ensures forall p :: p in All(merged, live, Without(pending, j)) ==> p in Pieces()
    {
      AllWithout(merged, live, pending, j);
      FitsWithout(Pieces(), 1 + |live| + j);
      PartsWithout(pending, reports, j);
      Remaining(Pieces(), 1 + |live| + j);
    }

    method Drop(j: nat)
      requires Valid() && j < |reports|
      modifies this`reports, this`pending
      ensures Valid()
      ensures State() == old(State()).(pending := Without(old(State()).pending, j))
    {
      ValuesWithout(pending, j);
      CanDrop(j);
      reports, pending := Without(reports, j), Without(pending, j);
    }

    /** A report is lost, to a full queue, or because its client takes no part. */
    method Discard(j: nat)
      requires Valid() && j < |reports|
      modifies this`reports, this`pending, this`discarded
      ensures Valid() && State() == Discarding(old(State()), j)
    {
      ValuesWithout(pending, j);
      discarded := MergedAll(discarded, pending[j].value);
      Drop(j);
    }

    ghost method ReplaceMerged(next: Piece)
      requires Placed(0) && next.part == store.latencies && Others() !! next.objects && Fits(Pieces()[0 := next])
      modifies this`merged, this`repr
      ensures Valid() && repr == old(repr) + next.objects
      ensures State() == old(State()).(merged := next.value)
    {
      AllMerged(merged, live, pending, next);
      merged, repr := next, repr + next.objects;
    }

    /** A report reaches the store, but is still listed. */
    method Merge(j: nat, series: MS.Sample, now: real, later: real)
      requires Valid() && j < |reports|
      modifies this`merged, this`repr, store.series, merged.objects
      ensures Valid() && State() == if old(State()).recording then Merging(old(State()), j) else old(State())
      ensures fresh(repr - old(repr))
    {
      var next := MergeAt(j, series, now, later);
      ReplaceMerged(next);
    }

    method MergeAt(j: nat, series: MS.Sample, now: real, later: real) returns (ghost next: Piece)
      requires Valid() && j < |reports|
      modifies store.series, merged.objects
      ensures Placed(0) && State() == old(State())
      ensures next.part == store.latencies && fresh(next.objects - merged.objects) && Fits(Pieces()[0 := next])
      ensures next.value == if State().recording then Merging(State(), j).merged else State().merged
    {
      ValuesWithout(pending, j);
      AllWithout(merged, live, pending, j);
      assert merged in Pieces() && store in Others() && store.series in Others();
      next := MergeReport(store, series, now, later, reports[j], 1 + |live| + j, Pieces());
    }

    /** A report reaches the store, which merges it or, not recording, throws it away. */
    method Deliver(j: nat, series: MS.Sample, now: real, later: real)
      requires Valid() && j < |reports|
      modifies this`reports, this`pending, this`merged, this`discarded, this`repr, store.series, merged.objects
      ensures Valid() && fresh(repr - old(repr))
      ensures State() == if old(State()).recording then Delivering(old(State()), j) else Discarding(old(State()), j)
    {
      var recording := store.series.recording;
      Merge(j, series, now, later);
      if recording {
        Drop(j);
      } else {
        Discard(j);
      }
    }

    method BeginAt() returns (ghost next: Piece)
      requires Valid()
      modifies store`latencies, store.series
      ensures Placed(0) && store.series.recording && fresh(next.objects)
      ensures next.part == store.latencies && next.value == NoHists() && Fits(Pieces()[0 := next])
    {
      assert store in Others() && store.series in Others();
      next := StartOver(store, Pieces());
    }

    method BeginRun()
      requires Valid()
      modifies this`merged, this`discarded, this`repr, store`latencies, store.series
      ensures Valid() && State() == Beginning(old(State())) && fresh(repr - old(repr))
    {
      discarded := MergedAll(discarded, merged.value);
      var next := BeginAt();
      ReplaceMerged(next);
    }

    method Freeze(now: real)
      requires Valid()
      modifies store.series
      ensures Valid() && State() == old(State()).(recording := false)
    {
      assert store.series in Others();
      ghost var added := store.series.Freeze(now);
      assert Fits(Pieces());
    }

    /** One event, if it is possible. */
    method Perform(e: Event) returns (ok: bool)
      requires Valid()
      modifies repr
      ensures ok <==> Possible(old(State()), e)
      ensures ok <==> ((e.Collect? || e.Report?) ==> e.client < |old(clients)|)
                      && ((e.Deliver? || e.Discard?) ==> e.j < |old(reports)|)
      ensures ok ==> Valid() && State() == Step(old(State()), e)
      ensures fresh(repr - old(repr))
    {
      ok := true;
      match e
      case Collect(c, op, sample) =>
        ok := c < |clients|;
        if ok {
          assert live[c] in Pieces();
          Collect(c, op, sample);
        }
      case Report(c) =>
        ok := c < |clients|;
        if ok {
          assert clients[c] in Others();
          Report(c);
        }
      case Deliver(j, series, now, later) =>
        ok := j < |reports|;
        if ok {
          assert merged in Pieces();
          Deliver(j, series, now, later);
        }
      case Discard(j) =>
        ok := j < |reports|;
        if ok {
          Discard(j);
        }
      case BeginRun =>
        BeginRun();
      case Freeze(now) =>
        Freeze(now);
    }
  }

  /** A fleet of clients that have not observed anything. */
  method Assemble(n: nat) returns (fleet: Fleet)
    ensures fleet.Valid() && fleet.State() == Start(n) && fresh(fleet) && fresh(fleet.repr)
  {
    if n == 0 {
      fleet := new Fleet();
    } else {
      OneMoreClient(n - 1);
      fleet := Assemble(n - 1);
      fleet.Join();
    }
  }

  /** The objects, driven through the events, hold the values of the run. */
  method Follow(n: nat, events: seq<Event>) returns (fleet: Fleet, ok: bool)
    ensures fresh(fleet) && fresh(fleet.repr) && (ok <==> Run(n, events).Some?)
    ensures ok ==> fleet.Valid() && fleet.State() == Run(n, events).value
  {
    if events == [] {
      ok := true;
      fleet := Assemble(n);
    } else {
      fleet, ok := Follow(n, events[..|events| - 1]);
      if ok {
        ok := fleet.Perform(events[|events| - 1]);
      }
    }
  }

  /** So they hold, operation by operation, what its flow holds, and merging everything they hold with what was thrown
      away gives the histogram of all observations. */
  method Drive(n: nat, events: seq<Event>) returns (fleet: Fleet, ok: bool)
    ensures ok <==> Run(n, events).Some?
    ensures ok ==> fleet.Valid() && forall op :: Flows(n, events, fleet.State(), op)
  {
    fleet, ok := Follow(n, events);
    if ok {
      NothingLost(n, events);
    }
  }
}
