/** What holds of every run of the controller, whatever order its steps come in. */
module RunTheorems {
  import opened Basics
  import opened Phases
  import opened Schedule
  import opened Orchestration
  import opened RunMachine
  import opened RunSafety

  lemma InvInitial(s: Sys)
    requires Initial(s)
    ensures Inv(s)
  {
    assert s.thread.script[..0] == [];
  }

  lemma InvStep(s: Sys, now: real, e: Event)
    requires Inv(s) && Possible(s, e) && Faithful(s, e)
    ensures Inv(Step(s, now, e))
  {
    LifecycleStep(s, now, e);
    RecordedStep(s, now, e);
    UnstoppedStep(s, now, e);
    TailsStep(s, now, e);
    InterruptibleStep(s, now, e);
    PositionStep(s, now, e);
    AnnouncedStep(s, now, e);
    ScriptedStep(s, now, e);
    TracedStep(s, now, e);
    DeliveredStep(s, now, e);
    JudgedStep(s, now, e);
    SelectionStep(s, now, e);
    PlanClosedStep(s, now, e);
  }

  /** The invariant holds in every reachable state. */
  lemma {:induction false} RunInv(start: Sys, events: seq<(real, Event)>)
    requires Initial(start) && Run(start, events).Some?
    ensures Inv(Run(start, events).value)
    decreases |events|
  {
    if events == [] {
      InvInitial(start);
    } else {
      var n := |events| - 1;
      RunInv(start, events[..n]);
      InvStep(Run(start, events[..n]).value, events[n].0, events[n].1);
    }
  }

  /** Once everybody who interrupted a run has finished doing so, the run is cancelled. */
  lemma InterruptionCancels(start: Sys, events: seq<(real, Event)>)
    requires Initial(start) && Run(start, events).Some?
    requires Run(start, events).value.history.interrupted && Run(start, events).value.tails == []
    ensures Run(start, events).value.thread.cancelled
  {
    RunInv(start, events);
  }

  /** Whatever happens, the recorded spans stay disjoint and in order, and only the last may be open. */
  lemma {:induction false} RunSpans(start: Sys, events: seq<(real, Event)>)
    requires start.o.spans == [] && Run(start, events).Some?
    ensures SpansOrdered(Run(start, events).value.o.spans, if events == [] then 0.0 else events[|events| - 1].0)
    decreases |events|
  {
    if events != [] {
      var n := |events| - 1;
      RunSpans(start, events[..n]);
      var s, now := Run(start, events[..n]).value, events[n].0;
      var last := if n == 0 then now else events[n - 1].0;
      assert SpansOrdered(s.o.spans, last) by {
        assert n > 0 ==> events[..n][n - 1] == events[n - 1];
      }
      SpansStep(s, last, now, events[n].1);
    }
  }

  /** Somebody tried to stop the run, or a client was removed, at that time. */
  ghost predicate InterruptedAt(events: seq<(real, Event)>, t: real) {
    exists k :: 0 <= k < |events| && events[k].0 == t && (events[k].1.StopCall? || events[k].1.Disconnect?)
  }

  lemma InterruptedLater(events: seq<(real, Event)>, n: nat, t: real)
    requires n <= |events| && InterruptedAt(events[..n], t)
    ensures InterruptedAt(events, t)
  {
    var k :| 0 <= k < n && events[..n][k].0 == t && (events[..n][k].1.StopCall? || events[..n][k].1.Disconnect?);
    assert events[k] == events[..n][k];
  }

  /** A step leaves the spans, and does not begin or mend a run. */
  ghost predicate SpansKept(s: Sys, t: Sys) {
    t.o.spans == s.o.spans && (t.thread.runner != NoRun ==> s.thread.runner != NoRun)
    && (s.history.interrupted ==> t.history.interrupted)
  }

  /** It closes the last span, as an interruption or at the end of a run. */
  ghost predicate SpanClosed(s: Sys, now: real, e: Event, t: Sys) {
    t.o.spans == CloseSpan(s.o.spans, now)
    && (if e.StopCall? || e.Disconnect? then t.history.interrupted
        else t.thread.runner == NoRun && t.history == s.history)
  }

  /** It adds one, which begins when the one before, if still open, ends. */
  ghost predicate SpanAdded(s: Sys, now: real, t: Sys) {
    s.thread.runner != NoRun && t.history.interrupted == s.history.interrupted
    && exists p :: t.o.spans == CloseSpan(s.o.spans, now) + [Span(p, now, None)]
  }

  lemma SpanStep(s: Sys, now: real, e: Event)
    requires Possible(s, e)
    ensures var t := Step(s, now, e);
            SpansKept(s, t) || t.o.spans == [] || SpanClosed(s, now, e, t) || SpanAdded(s, now, t)
  {
    if e.RunnerStep? && s.thread.runner.Acting? && s.thread.runner.pc < |s.thread.script| {
      var p := s.thread.script[s.thread.runner.pc].phase;
      assert p != s.o.phase || s.o.spans == [] ==>
          Step(s, now, e).o.spans == CloseSpan(s.o.spans, now) + [Span(p, now, None)];
    }
  }

  /** Each span ends where the next begins, unless it ended at an interruption; the last of a run still on is open,
      unless it ended at one; and in a run nobody interrupted, none did. */
  ghost predicate Touching(events: seq<(real, Event)>, s: Sys) {
    var spans, n := s.o.spans, |s.o.spans|;
    (forall i :: 0 <= i < n - 1 ==>
       spans[i].end.Some? && (spans[i].end.value == spans[i + 1].start || InterruptedAt(events, spans[i].end.value)))
    && (n > 0 && spans[n - 1].end.Some? && s.thread.runner != NoRun ==> InterruptedAt(events, spans[n - 1].end.value))
    && (!s.history.interrupted ==>
          (forall i :: 0 <= i < n - 1 ==> spans[i].end == Some(spans[i + 1].start))
          && (n > 0 && s.thread.runner != NoRun ==> spans[n - 1].end.None?))
  }

  lemma TouchingStep(events: seq<(real, Event)>, s: Sys)
    requires events != [] && Touching(events[..|events| - 1], s)
    requires Possible(s, events[|events| - 1].1)
    ensures Touching(events, Step(s, events[|events| - 1].0, events[|events| - 1].1))
  {
    var n := |events| - 1;
    var now, e := events[n].0, events[n].1;
    var t := Step(s, now, e);
    forall x | InterruptedAt(events[..n], x)
      ensures InterruptedAt(events, x)
    {
      InterruptedLater(events, n, x);
    }
    SpanStep(s, now, e);
    if e.StopCall? || e.Disconnect? {
      assert InterruptedAt(events, now);
    }
    if SpanAdded(s, now, t) {
      var p :| t.o.spans == CloseSpan(s.o.spans, now) + [Span(p, now, None)];
    }
  }

  /** Over every run of the machine: a span that another follows ends exactly where that one begins, unless it ended at
      an interruption; so without one all of them touch, and none of a run still on but the last has ended. */
  lemma {:induction false} SpansTouch(start: Sys, events: seq<(real, Event)>)
    requires Initial(start) && Run(start, events).Some?
    ensures var s := Run(start, events).value;
            forall i :: 0 <= i < |s.o.spans| - 1 ==>
              s.o.spans[i].end.Some?
              && (s.o.spans[i].end.value == s.o.spans[i + 1].start
                  || (s.history.interrupted && InterruptedAt(events, s.o.spans[i].end.value)))
    ensures Touching(events, Run(start, events).value)
    decreases |events|
  {
    if events != [] {
      var n := |events| - 1;
      SpansTouch(start, events[..n]);
      TouchingStep(events, Run(start, events[..n]).value);
    }
  }

  // ---- A run follows the plan ----------------------------------------------------------------------

  /** Steps of one phase after steps that end in another phase collapse to that phase. */
  lemma {:induction false} CollapseOnto(a: seq<Phase>, b: seq<Phase>, p: Phase)
    requires b != [] && (forall i :: 0 <= i < |b| ==> b[i] == p) && (a != [] ==> a[|a| - 1] != p)
    ensures Collapse(a + b) == Collapse(a) + [p]
    decreases |b|
  {
    var front := b[..|b| - 1];
    assert a + b == a + front + [p];
    CollapseSnoc(a + front, p);
    if front == [] {
      assert a + front == a;
    } else {
      CollapseOnto(a, front, p);
      assert (a + front)[|a + front| - 1] == front[|front| - 1];
    }
  }

  lemma ActionPhasesConcat(a: seq<Action>, b: seq<Action>)
    ensures ActionPhases(a + b) == ActionPhases(a) + ActionPhases(b)
  {}

  /** The phases of a schedule, repeats removed, are the plan it was made from. */
  lemma {:induction false} CollapseFlatten(expand: Phase -> seq<Action>, order: seq<Phase>)
    requires Distinct(order) && Expands(expand, order)
    ensures Collapse(ActionPhases(Flatten(expand, order))) == order
    ensures var phases := ActionPhases(Flatten(expand, order));
            order != [] ==> phases != [] && phases[|phases| - 1] == order[|order| - 1]
    decreases |order|
  {
    if order == [] {
      assert ActionPhases([]) == [];
    } else {
      var front, p := order[..|order| - 1], order[|order| - 1];
      CollapseFlatten(expand, front);
      var before, here := ActionPhases(Flatten(expand, front)), ActionPhases(expand(p));
      ActionPhasesConcat(Flatten(expand, front), expand(p));
      assert front != [] ==> order[|order| - 2] != p;
      CollapseOnto(before, here, p);
      assert order == front + [p];
    }
  }

  lemma ScriptPhases(c: Config, n: int)
    ensures Collapse(ActionPhases(Script(c, n))) == ActivePhaseOrder(c)
    ensures NoRepeats(ActivePhaseOrder(c))
  {
    ActiveDistinct(c);
    ExpandsPlan(c, n);
    CollapseFlatten(p => Expand(c, n, p), ActivePhaseOrder(c));
  }

  lemma {:induction false} CommandsPrefix(script: seq<Action>, k: nat)
    requires k <= |script|
    ensures Commands(script[..k]) <= Commands(script)
    decreases |script| - k
  {
    if k == |script| {
      assert script[..k] == script;
    } else {
      CommandsPrefix(script, k + 1);
      CommandsSnoc(script, k);
    }
  }

  /** At every moment of a run, and after it: the spans, adjacent repeats removed, are a prefix of the plan it was
      started with, and the commands sent a prefix of the commands of that plan's schedule. */
  lemma RunFollowsPlan(start: Sys, events: seq<(real, Event)>)
    requires Initial(start) && Run(start, events).Some? && Run(start, events).value.thread.run > 0
    ensures var s := Run(start, events).value;
            Collapse(SpanPhases(s.o.spans)) <= ActivePhaseOrder(s.history.frozen)
    ensures var s := Run(start, events).value;
            Orders(s.sent) <= Commands(Script(s.history.frozen, |s.history.participants|))
  {
    RunInv(start, events);
    var s := Run(start, events).value;
    SpansWithin(s.o, s.thread, s.history);
    CommandsPrefix(s.thread.script, if s.thread.runner.Sending? then s.history.executed - 1 else s.history.executed);
  }

  lemma SpansWithin(o: Orch, t: Thread, h: History)
    requires Traced(o, t.script, h) && Scripted(t, h) && t.run > 0
    ensures Collapse(SpanPhases(o.spans)) <= ActivePhaseOrder(h.frozen)
    ensures !h.interrupted && h.executed == |t.script| ==> SpanPhases(o.spans) == ActivePhaseOrder(h.frozen)
  {
    var phases := ActionPhases(t.script);
    ScriptPhases(h.frozen, |h.participants|);
    CollapsePrefix(phases, h.executed);
    assert ActionPhases(t.script[..h.executed]) == phases[..h.executed];
    if !h.interrupted {
      CollapseNoRepeats(SpanPhases(o.spans));
    }
    if h.executed == |t.script| {
      assert phases[..h.executed] == phases;
    }
  }

  /** A run nobody interrupted, whose preparations succeeded, ends with one span for each phase of the plan in order,
      after sending the whole schedule, each command to all participants of the run. */
  lemma CompleteRun(start: Sys, events: seq<(real, Event)>)
    requires Initial(start) && Run(start, events).Some?
    requires var s := Run(start, events).value;
             !s.o.running && s.thread.run > 0 && !s.history.interrupted && !s.history.prepFailed && s.o.status.Ended?
    ensures var s := Run(start, events).value;
            SpanPhases(s.o.spans) == ActivePhaseOrder(s.history.frozen)
            && Orders(s.sent) == Commands(Script(s.history.frozen, |s.history.participants|))
            && s.o.status == Ended(CompletedRun)
    ensures var s := Run(start, events).value;
            forall i :: 0 <= i < |s.sent| && s.sent[i].message.Order? ==> s.sent[i].to == s.history.participants
  {
    RunInv(start, events);
    var s := Run(start, events).value;
    CompleteVerdict(s.o, s.thread, s.history);
    SpansWithin(s.o, s.thread, s.history);
    CompleteOrders(s.thread, s.history, s.sent);
  }

  lemma CompleteVerdict(o: Orch, t: Thread, h: History)
    requires Judged(o, t, h) && Position(t, h) && !h.interrupted && !h.prepFailed && !o.running && o.status.Ended?
    ensures o.status == Ended(CompletedRun) && h.executed == |t.script|
  {}

  lemma CompleteOrders(t: Thread, h: History, sent: seq<Envelope>)
    requires Delivered(t, h, sent) && t.runner == NoRun && h.executed == |t.script|
    ensures Orders(sent) == Commands(t.script)
  {
    assert t.script[..|t.script|] == t.script;
  }

  // ---- The verdict ---------------------------------------------------------------------------------

  /** Event i removes a participant of the run with this number, which is in progress. */
  ghost predicate LosesAt(start: Sys, events: seq<(real, Event)>, run: nat, i: nat) {
    i < |events| && Run(start, events[..i]).Some? && events[i].1.Disconnect?
    && var s := Run(start, events[..i]).value;
       s.o.running && s.thread.run == run && events[i].1.id in s.o.runIds
  }

  ghost predicate Loses(start: Sys, events: seq<(real, Event)>, run: nat) {
    exists i :: LosesAt(start, events, run, i)
  }

  lemma LosesSnoc(start: Sys, events: seq<(real, Event)>, run: nat)
    requires events != []
    ensures var n := |events| - 1;
            Loses(start, events, run) <==> Loses(start, events[..n], run) || LosesAt(start, events, run, n)
  {
    var n := |events| - 1;
    var front := events[..n];
    forall i: nat | i < n
      ensures LosesAt(start, events, run, i) <==> LosesAt(start, front, run, i)
    {
      assert events[..i] == front[..i];
    }
    if Loses(start, events, run) {
      var i: nat :| LosesAt(start, events, run, i);
      assert i == n || LosesAt(start, front, run, i);
    }
    if Loses(start, front, run) {
      var i: nat :| LosesAt(start, front, run, i);
      assert LosesAt(start, events, run, i);
    }
  }

  lemma StepLost(s: Sys, now: real, e: Event)
    requires Lifecycle(s) && Possible(s, e)
    ensures var t := Step(s, now, e);
            t.thread.run in {s.thread.run, s.thread.run + 1}
            && (t.thread.run > s.thread.run ==> t.history.lost == [] && !e.Disconnect?)
            && (t.thread.run == s.thread.run ==>
                  t.history.lost == if e.Disconnect? && s.o.running && e.id in s.o.runIds
                                    then s.history.lost + [LostLabel(e.id, e.hostname)] else s.history.lost)
  {}

  /** A run has lost participants exactly when a removal of one of them was processed during it. */
  lemma {:induction false} LostIffRemoved(start: Sys, events: seq<(real, Event)>, run: nat)
    requires Initial(start) && Run(start, events).Some?
    ensures run > Run(start, events).value.thread.run ==> !Loses(start, events, run)
    ensures run == Run(start, events).value.thread.run ==>
              (Run(start, events).value.history.lost != [] <==> Loses(start, events, run))
    decreases |events|
  {
    if events != [] {
      var n := |events| - 1;
      var s := Run(start, events[..n]).value;
      LostIffRemoved(start, events[..n], run);
      LosesSnoc(start, events, run);
      RunLifecycle(start, events[..n]);
      StepLost(s, events[n].0, events[n].1);
    }
  }

  lemma RunLifecycle(start: Sys, events: seq<(real, Event)>)
    requires Initial(start) && Run(start, events).Some?
    ensures Lifecycle(Run(start, events).value)
  {
    RunInv(start, events);
  }

  /** When a run has ended it is reported as failed, naming the first participant lost, exactly when some participant's
      removal was processed before the end, whatever Stop, late steps and the final checks did meanwhile. A run
      reported as stopped was interrupted; one reported as completed took every step unless a preparation failed. */
  lemma VerdictOfRun(start: Sys, events: seq<(real, Event)>)
    requires Initial(start) && Run(start, events).Some?
    requires var s := Run(start, events).value; !s.o.running && s.o.status.Ended?
    ensures var s, v := Run(start, events).value, Run(start, events).value.o.status.verdict;
            (v.Lost? <==> Loses(start, events, s.thread.run))
            && (v.Lost? ==> s.history.lost != [] && v.who == s.history.lost[0])
            && v != FailedRun
            && (v == StoppedRun ==> s.history.interrupted)
            && (v == CompletedRun ==> (s.history.finished == |s.thread.script| <==> !s.history.prepFailed))
  {
    RunInv(start, events);
    LostIffRemoved(start, events, Run(start, events).value.thread.run);
  }

  // ---- What a run is frozen to ---------------------------------------------------------------------

  /** As long as a run lasts, its configuration, participants and script stay what Start found; each run has its own
      number, and numbers only grow. */
  lemma {:induction false} FrozenDuringRun(start: Sys, events: seq<(real, Event)>, i: nat)
    requires Initial(start) && Run(start, events).Some? && i <= |events|
    ensures Run(start, events[..i]).Some?
    ensures var early, late := Run(start, events[..i]).value, Run(start, events).value;
            early.thread.run <= late.thread.run
            && (early.thread.run == late.thread.run && early.thread.run > 0 ==>
                  early.thread.script == late.thread.script && early.history.frozen == late.history.frozen
                  && early.history.participants == late.history.participants
                  && early.history.leftover == late.history.leftover
                  && (late.o.running ==> early.o.running && early.o.config == late.o.config
                                         && early.o.runIds == late.o.runIds && early.o.runSet == late.o.runSet))
    decreases |events|
  {
    var n := |events|;
    if i == n {
      assert events[..i] == events;
    } else {
      var front := events[..n - 1];
      FrozenDuringRun(start, front, i);
      assert front[..i] == events[..i];
      RunInv(start, front);
      FrozenStep(Run(start, front).value, events[n - 1].0, events[n - 1].1);
    }
  }

  lemma FrozenStep(s: Sys, now: real, e: Event)
    requires Lifecycle(s) && Possible(s, e)
    ensures var t := Step(s, now, e);
            t.thread.run >= s.thread.run
            && (t.thread.run == s.thread.run ==>
                  t.thread.script == s.thread.script && t.history.frozen == s.history.frozen
                  && t.history.participants == s.history.participants && t.history.leftover == s.history.leftover
                  && (t.o.running ==> s.o.running && t.o.config == s.o.config && t.o.runIds == s.o.runIds
                                      && t.o.runSet == s.o.runSet))
  {
    LifecycleStep(s, now, e);
    ScriptStep(s, now, e);
    assert Step(s, now, e).thread.run == s.thread.run ==> Step(s, now, e).history.leftover == s.history.leftover;
    assert Step(s, now, e).thread.run == if e.StartCall? && StartCheck(s.o, s.registered, e.active).None?
                                          then s.thread.run + 1 else s.thread.run;
  }
}
