/** Every step of the run machine keeps every part of its invariant. */
module RunSafety {
  import opened Basics
  import opened Phases
  import opened Schedule
  import opened Orchestration
  import opened RunMachine

  // ---- Each part of the invariant is kept by every step ---------------------------------------------

  lemma LifecycleStep(s: Sys, now: real, e: Event)
    requires Lifecycle(s) && Possible(s, e)
    ensures Lifecycle(Step(s, now, e))
  {
    match e
    case StartCall(order, active, script) =>
      if StartCheck(s.o, s.registered, active).None? {
        LifecycleStart(s, order, active, script);
      }
    case Disconnect(id, hostname) =>
    case StopCall =>
    case TailStep(j) =>
    case RunnerStep(ok) => LifecycleRunner(s, now, ok);
    case _ =>
  }

  lemma LifecycleStart(s: Sys, order: seq<Id>, active: seq<Phase>, script: seq<Action>)
    requires Lifecycle(s) && StartCheck(s.o, s.registered, active).None?
    requires IdSet(order) == s.o.selected * s.registered && Distinct(order)
    ensures Lifecycle(StepStart(s, order, active[0], script))
  {
    assert order == [] ==> IdSet(order) == {};
  }

  lemma LifecycleRunner(s: Sys, now: real, ok: bool)
    requires Lifecycle(s) && s.thread.runner != NoRun
    ensures Lifecycle(StepRunner(s, now, ok))
  {}

  lemma SpansStep(s: Sys, clock: real, now: real, e: Event)
    requires SpansOrdered(s.o.spans, clock) && clock <= now && Possible(s, e)
    ensures SpansOrdered(Step(s, now, e).o.spans, now)
  {
    SpansClosed(s.o.spans, clock, now);
    if e.RunnerStep? {
      SpansRunner(s, clock, now, e.ok);
    } else {
      assert Step(s, now, e).o.spans in {s.o.spans, CloseSpan(s.o.spans, now), []};
    }
  }

  lemma SpansRunner(s: Sys, clock: real, now: real, ok: bool)
    requires SpansOrdered(s.o.spans, clock) && clock <= now
    ensures SpansOrdered(StepRunner(s, now, ok).o.spans, now)
  {
    match s.thread.runner
    case Acting(pc) =>
      if pc < |s.thread.script| {
        SpansExtended(s.o, s.thread.script[pc].phase, clock, now);
      }
    case FinishingAs(_) => SpansClosed(s.o.spans, clock, now);
    case _ => assert StepRunner(s, now, ok).o == s.o;
  }

  lemma PositionStep(s: Sys, now: real, e: Event)
    requires Lifecycle(s) && Position(s.thread, s.history) && Possible(s, e)
    ensures Position(Step(s, now, e).thread, Step(s, now, e).history)
  {}

  lemma RecordedStep(s: Sys, now: real, e: Event)
    requires Lifecycle(s) && Recorded(s) && Possible(s, e)
    ensures Recorded(Step(s, now, e))
  {}

  lemma UnstoppedStep(s: Sys, now: real, e: Event)
    requires Lifecycle(s) && Unstopped(s) && Possible(s, e)
    ensures Unstopped(Step(s, now, e))
  {}

  lemma SelectionStep(s: Sys, now: real, e: Event)
    requires Lifecycle(s) && Selection(s.o, s.registered) && Possible(s, e)
    ensures Selection(Step(s, now, e).o, Step(s, now, e).registered)
  {
    if e.Choose? {
      UpdateKeepsSelection(s.o, e.update, s.registered, e.sorted);
    }
  }

  lemma TailsStep(s: Sys, now: real, e: Event)
    requires Lifecycle(s) && TailsKnown(s) && Possible(s, e)
    ensures TailsKnown(Step(s, now, e))
  {}

  lemma InterruptibleStep(s: Sys, now: real, e: Event)
    requires Lifecycle(s) && NeverStopped(s.thread.script) && Interruptible(s) && Possible(s, e)
    ensures Interruptible(Step(s, now, e))
  {
    match e
    case TailStep(j) => InterruptibleTail(s, j);
    case RunnerStep(ok) => InterruptibleRunner(s, now, ok);
    case StopCall =>
      var all := s.tails + [ToCancel(s.thread.run, s.o.cancel)];
      assert all[|s.tails|] == ToCancel(s.thread.run, s.o.cancel);
      assert forall t :: t in s.tails ==> t in all;
    case Disconnect(_, _) =>
      var all := s.tails + [ToCancel(s.thread.run, s.o.cancel)];
      assert all[|s.tails|] == ToCancel(s.thread.run, s.o.cancel);
      assert forall t :: t in s.tails ==> t in all;
    case _ =>
  }

  lemma InterruptibleTail(s: Sys, j: nat)
    requires Interruptible(s) && j < |s.tails|
    ensures Interruptible(StepTail(s, j))
  {
    var t := StepTail(s, j);
    if ToCancel(s.thread.run, true) in s.tails {
      var i :| 0 <= i < |s.tails| && s.tails[i] == ToCancel(s.thread.run, true);
      assert i != j ==> t.tails[if |t.tails| < |s.tails| && i > j then i - 1 else i] == s.tails[i];
    }
  }

  lemma InterruptibleRunner(s: Sys, now: real, ok: bool)
    requires Lifecycle(s) && NeverStopped(s.thread.script) && Interruptible(s) && s.thread.runner != NoRun
    ensures Interruptible(StepRunner(s, now, ok))
  {
    var r := s.thread.runner;
    if r.Acting? && r.pc < |s.thread.script| {
      assert s.thread.script[r.pc].phase != Stopped;
    }
  }

  // ---- Spans trace the script ----------------------------------------------------------------------

  lemma SamePhases(o: Orch, p: Orch, script: seq<Action>, h: History, k: History)
    requires Traced(o, script, h) && SpanPhases(p.spans) == SpanPhases(o.spans)
    requires k.executed == h.executed && (h.interrupted ==> k.interrupted)
    requires p.running ==> o.running && (p.phase == o.phase || (p.phase == Stopped && k.interrupted))
    ensures Traced(p, script, k)
  {}

  lemma SameTrail(o: Orch, p: Orch, script: seq<Action>, h: History)
    requires Traced(o, script, h) && p.spans == o.spans && p.phase == o.phase && p.running == o.running
    ensures Traced(p, script, h)
  {}

  lemma TracedStart(o: Orch, script: seq<Action>, h: History)
    requires o.spans == [] && h.executed == 0
    ensures Traced(o, script, h)
  {}

  /** Taking the next step of the script extends the collapsed spans exactly as it extends the collapsed script. */
  lemma NextPhase(spans: seq<Phase>, done: seq<Phase>, p: Phase, next: seq<Phase>)
    requires spans == [] <==> done == []
    requires spans != [] ==> spans[|spans| - 1] == done[|done| - 1]
    requires Collapse(spans) == Collapse(done)
    requires next == spans + [p] || (next == spans && spans != [] && spans[|spans| - 1] == p)
    ensures Collapse(next) == Collapse(done + [p])
  {
    CollapseSnoc(spans, p);
    CollapseSnoc(done, p);
  }

  lemma ActionPhasesSnoc(script: seq<Action>, pc: nat)
    requires pc < |script|
    ensures ActionPhases(script[..pc + 1]) == ActionPhases(script[..pc]) + [script[pc].phase]
  {}

  lemma TrailAct(phases: seq<Phase>, script: seq<Action>, pc: nat, next: seq<Phase>)
    requires Trail(phases, script, pc) && pc < |script|
    requires var p := script[pc].phase;
             next == phases + [p] || (next == phases && phases != [] && phases[|phases| - 1] == p)
    ensures Trail(next, script, pc + 1)
  {
    var done := ActionPhases(script[..pc]);
    ActionPhasesSnoc(script, pc);
    if pc > 0 {
      assert done[|done| - 1] == script[pc - 1].phase;
    }
    NextPhase(phases, done, script[pc].phase, next);
  }

  lemma TracedAct(o: Orch, script: seq<Action>, h: History, now: real, pc: nat)
    requires Traced(o, script, h) && o.running && pc < |script| && h.executed == pc && script[pc].phase != Stopped
    ensures Traced(SetPhaseLocked(o, script[pc].phase, now), script, h.(executed := pc + 1))
  {
    var p := script[pc].phase;
    SpanPhasesSet(o, p, now);
    TrailAct(SpanPhases(o.spans), script, pc, SpanPhases(SetPhaseLocked(o, p, now).spans));
  }

  lemma TracedRunner(s: Sys, now: real, ok: bool)
    requires s.thread.runner.Acting? ==> s.history.executed == s.thread.runner.pc
    requires NeverStopped(s.thread.script) && s.thread.runner != NoRun && s.o.running
    requires Traced(s.o, s.thread.script, s.history)
    ensures var t := StepRunner(s, now, ok); Traced(t.o, t.thread.script, t.history)
  {
    var r := s.thread.runner;
    if r.Acting? && r.pc < |s.thread.script| {
      assert s.thread.script[r.pc].phase != Stopped;
      TracedAct(s.o, s.thread.script, s.history, now, r.pc);
    } else if r.FinishingAs? {
      TracedFinish(s.o, s.thread.script, s.history, r.text, now);
    } else {
      TracedUnmoved(s, now, ok);
    }
  }

  lemma TracedUnmoved(s: Sys, now: real, ok: bool)
    requires !s.thread.runner.FinishingAs? && (s.thread.runner.Acting? ==> s.thread.runner.pc >= |s.thread.script|)
    requires Traced(s.o, s.thread.script, s.history)
    ensures var t := StepRunner(s, now, ok); Traced(t.o, t.thread.script, t.history)
  {
    RunnerUnmoved(s, now, ok);
    SamePhases(s.o, s.o, s.thread.script, s.history, StepRunner(s, now, ok).history);
  }

  lemma RunnerUnmoved(s: Sys, now: real, ok: bool)
    requires !s.thread.runner.FinishingAs? && (s.thread.runner.Acting? ==> s.thread.runner.pc >= |s.thread.script|)
    ensures var t := StepRunner(s, now, ok);
            t.o == s.o && t.thread.script == s.thread.script && t.history.executed == s.history.executed
            && t.history.interrupted == s.history.interrupted
  {}

  lemma TracedFinish(o: Orch, script: seq<Action>, h: History, text: Verdict, now: real)
    requires Traced(o, script, h)
    ensures Traced(FinishLocked(o, text, now), script, h)
  {
    assert SpanPhases(CloseSpan(o.spans, now)) == SpanPhases(o.spans);
    SamePhases(o, FinishLocked(o, text, now), script, h, h);
  }

  lemma TracedStep(s: Sys, now: real, e: Event)
    requires Lifecycle(s) && Position(s.thread, s.history) && NeverStopped(s.thread.script) && Possible(s, e)
    requires Traced(s.o, s.thread.script, s.history)
    ensures var t := Step(s, now, e); Traced(t.o, t.thread.script, t.history)
  {
    if e.RunnerStep? {
      TracedRunner(s, now, e.ok);
    } else if e.StartCall? && StartCheck(s.o, s.registered, e.active).None? {
      var t := StepStart(s, e.order, e.active[0], e.script);
      TracedStart(t.o, t.thread.script, t.history);
    } else {
      TracedElse(s, now, e);
    }
  }

  lemma TracedElse(s: Sys, now: real, e: Event)
    requires Possible(s, e) && !e.RunnerStep? && (e.StartCall? ==> StartCheck(s.o, s.registered, e.active).Some?)
    requires Traced(s.o, s.thread.script, s.history)
    ensures var t := Step(s, now, e); Traced(t.o, t.thread.script, t.history)
  {
    if e.Disconnect? {
      TracedDisconnect(s, now, e.id, e.hostname);
    } else if e.StopCall? && s.o.running && s.o.fail.None? {
      TracedStop(s, now);
    } else {
      Unmoved(s, now, e);
      SameTrail(s.o, Step(s, now, e).o, s.thread.script, s.history);
    }
  }

  lemma Unmoved(s: Sys, now: real, e: Event)
    requires Possible(s, e) && !e.RunnerStep? && !e.Disconnect? && (e.StopCall? ==> !s.o.running || s.o.fail.Some?)
    requires e.StartCall? ==> StartCheck(s.o, s.registered, e.active).Some?
    ensures var t := Step(s, now, e);
            t.o.spans == s.o.spans && t.o.phase == s.o.phase && t.o.running == s.o.running
            && t.thread.script == s.thread.script && t.history == s.history
  {}

  lemma TracedDisconnect(s: Sys, now: real, id: Id, hostname: string)
    requires Traced(s.o, s.thread.script, s.history)
    ensures var t := StepDisconnect(s, now, id, hostname); Traced(t.o, t.thread.script, t.history)
  {
    var t := StepDisconnect(s, now, id, hostname);
    assert SpanPhases(CloseSpan(s.o.spans, now)) == SpanPhases(s.o.spans);
    SamePhases(s.o, t.o, s.thread.script, s.history, t.history);
  }

  lemma TracedStop(s: Sys, now: real)
    requires Traced(s.o, s.thread.script, s.history)
    ensures var t := StepStop(s, now); Traced(t.o, t.thread.script, t.history)
  {
    var t := StepStop(s, now);
    assert SpanPhases(CloseSpan(s.o.spans, now)) == SpanPhases(s.o.spans);
    SamePhases(s.o, t.o, s.thread.script, s.history, t.history);
  }

  // ---- Commands sent -------------------------------------------------------------------------------

  lemma CommandsSnoc(script: seq<Action>, pc: nat)
    requires pc < |script|
    ensures Commands(script[..pc + 1]) == Commands(script[..pc]) + (if script[pc].Command? then [script[pc]] else [])
  {
    assert script[..pc + 1][..pc] == script[..pc];
  }

  lemma OrdersSnoc(sent: seq<Envelope>, m: Envelope)
    ensures Orders(sent + [m]) == Orders(sent) + (if m.message.Order? then [m.message.action] else [])
  {
    assert (sent + [m])[..|sent|] == sent;
  }

  lemma DeliveredStep(s: Sys, now: real, e: Event)
    requires Lifecycle(s) && Position(s.thread, s.history) && Possible(s, e)
    requires Delivered(s.thread, s.history, s.sent)
    ensures var t := Step(s, now, e); Delivered(t.thread, t.history, t.sent)
  {
    match e
    case RunnerStep(ok) => DeliveredRunner(s, now, ok);
    case TailStep(j) => DeliveredTail(s, j);
    case StartCall(_, _, _) => DeliveredStart(s, now, e);
    case _ =>
  }

  lemma DeliveredStart(s: Sys, now: real, e: Event)
    requires Possible(s, e) && e.StartCall? && Delivered(s.thread, s.history, s.sent)
    ensures var t := Step(s, now, e); Delivered(t.thread, t.history, t.sent)
  {
    assert e.script[..0] == [];
  }

  lemma DeliveredTail(s: Sys, j: nat)
    requires j < |s.tails| && Delivered(s.thread, s.history, s.sent)
    ensures var t := StepTail(s, j); Delivered(t.thread, t.history, t.sent)
  {
    OrdersSnoc(s.sent, Envelope(StopOrder(s.tails[j].run), s.o.runIds));
  }

  lemma DeliveredRunner(s: Sys, now: real, ok: bool)
    requires Lifecycle(s) && Position(s.thread, s.history) && s.thread.runner != NoRun
    requires Delivered(s.thread, s.history, s.sent)
    ensures var t := StepRunner(s, now, ok); Delivered(t.thread, t.history, t.sent)
  {
    var r := s.thread.runner;
    if r.Acting? && r.pc < |s.thread.script| {
      DeliveredAct(s, now, r.pc);
    } else if r.Sending? {
      DeliveredSend(s, r.pc);
    }
  }

  lemma DeliveredAct(s: Sys, now: real, pc: nat)
    requires s.thread.runner == Acting(pc) && pc < |s.thread.script| && s.history.executed == pc
    requires Delivered(s.thread, s.history, s.sent)
    ensures var t := StepAct(s, now, pc); Delivered(t.thread, t.history, t.sent)
  {
    CommandsSnoc(s.thread.script, pc);
  }

  lemma DeliveredSend(s: Sys, pc: nat)
    requires s.thread.runner == Sending(pc) && pc < |s.thread.script| && s.history.executed == pc + 1
    requires s.thread.script[pc].Command? && s.o.runIds == s.history.participants
    requires Delivered(s.thread, s.history, s.sent)
    ensures var t := StepSend(s, pc); Delivered(t.thread, t.history, t.sent)
  {
    CommandsSnoc(s.thread.script, pc);
    OrdersSnoc(s.sent, Envelope(Order(s.thread.script[pc]), s.o.runIds));
  }

  // ---- The verdict ---------------------------------------------------------------------------------

  lemma JudgedStep(s: Sys, now: real, e: Event)
    requires Lifecycle(s) && Position(s.thread, s.history) && TailsKnown(s) && Possible(s, e)
    requires Judged(s.o, s.thread, s.history)
    ensures var t := Step(s, now, e); Judged(t.o, t.thread, t.history)
  {
    match e
    case RunnerStep(ok) => JudgedRunner(s, now, ok);
    case Disconnect(id, hostname) => JudgedDisconnect(s, now, id, hostname);
    case TailStep(j) => JudgedTail(s, j);
    case _ =>
  }

  lemma JudgedDisconnect(s: Sys, now: real, id: Id, hostname: string)
    requires Judged(s.o, s.thread, s.history)
    ensures var t := StepDisconnect(s, now, id, hostname); Judged(t.o, t.thread, t.history)
  {}

  lemma JudgedTail(s: Sys, j: nat)
    requires j < |s.tails| && TailsKnown(s) && Judged(s.o, s.thread, s.history)
    ensures var t := StepTail(s, j); Judged(t.o, t.thread, t.history)
  {}

  lemma JudgedRunner(s: Sys, now: real, ok: bool)
    requires Lifecycle(s) && Position(s.thread, s.history) && s.thread.runner != NoRun
    requires !ok ==> MayFail(s.thread)
    requires Judged(s.o, s.thread, s.history)
    ensures var t := StepRunner(s, now, ok); Judged(t.o, t.thread, t.history)
  {}

  // ---- Configuration and script --------------------------------------------------------------------

  lemma ConfigStep(s: Sys, now: real, e: Event)
    requires Possible(s, e)
    ensures Step(s, now, e).o.config == if (e.Configure? || e.Toggle?) && !s.o.running then e.config else s.o.config
  {}

  lemma PlanClosedStep(s: Sys, now: real, e: Event)
    requires PlanClosed(s.o.config) && Possible(s, e) && Faithful(s, e)
    ensures PlanClosed(Step(s, now, e).o.config)
  {
    ConfigStep(s, now, e);
    if e.Configure? {
      NormalizeCloses(e.given);
    } else if e.Toggle? {
      SamePlan(s.o.config, e.config);
    }
  }

  lemma SamePlan(c: Config, d: Config)
    requires d == c.(disabledPhases := d.disabledPhases)
    ensures EffectivePhaseOrder(d) == EffectivePhaseOrder(c)
  {}

  lemma NormalizeCloses(c: Config)
    ensures PlanClosed(Normalize(c))
  {
    ToggleGroupsPartition();
    PlanFacts(c);
    NormalizedIsNormal(PhaseToggleGroup, EffectivePhaseOrder(c), c.disabledPhases);
    SamePlan(c, Normalize(c));
  }

  lemma ScriptStep(s: Sys, now: real, e: Event)
    requires Lifecycle(s) && Possible(s, e)
    ensures var t := Step(s, now, e);
            if e.StartCall? && StartCheck(s.o, s.registered, e.active).None?
            then t.thread.script == e.script && t.history.frozen == s.o.config && t.history.participants == e.order
            else t.thread.script == s.thread.script && t.history.frozen == s.history.frozen
                 && t.history.participants == s.history.participants && t.thread.run == s.thread.run
  {}

  lemma ScriptedStep(s: Sys, now: real, e: Event)
    requires Lifecycle(s) && Scripted(s.thread, s.history) && NeverStopped(s.thread.script) && PlanClosed(s.o.config)
    requires Possible(s, e) && Faithful(s, e)
    ensures var t := Step(s, now, e); Scripted(t.thread, t.history) && NeverStopped(t.thread.script)
  {
    ScriptStep(s, now, e);
    if e.StartCall? {
      ScriptNeverStopped(s.o.config, |e.order|);
    }
  }

  lemma {:induction false} FlattenPhases(expand: Phase -> seq<Action>, order: seq<Phase>)
    requires forall p, i :: p in order && 0 <= i < |expand(p)| ==> expand(p)[i].phase == p
    ensures forall i :: 0 <= i < |Flatten(expand, order)| ==> Flatten(expand, order)[i].phase in order
    decreases |order|
  {
    if order != [] {
      FlattenPhases(expand, order[..|order| - 1]);
    }
  }

  lemma ScriptNeverStopped(c: Config, n: int)
    ensures NeverStopped(Script(c, n))
  {
    ActiveNeverStopped(c);
    FlattenPhases(p => Expand(c, n, p), ActivePhaseOrder(c));
  }

  lemma ActiveNeverStopped(c: Config)
    ensures Stopped !in ActivePhaseOrder(c)
  {
    var plan := EffectivePhaseOrder(c);
    var d := Normalized(PhaseToggleGroup, plan, c.disabledPhases);
    KeepMembers(plan, p => p !in d);
    PlanMembers(c);
    assert !InPlan(c, Stopped);
  }

  ghost predicate Expands(expand: Phase -> seq<Action>, order: seq<Phase>) {
    forall p :: p in order ==> expand(p) != [] && forall i :: 0 <= i < |expand(p)| ==> expand(p)[i].phase == p
  }

  lemma ExpandsPlan(c: Config, n: int)
    ensures Expands(p => Expand(c, n, p), EffectivePhaseOrder(c))
  {
    PlanMembers(c);
    forall p | p in EffectivePhaseOrder(c)
      ensures Expand(c, n, p) != []
    {
      assert InPlan(c, p);
    }
  }

  lemma ActiveDistinct(c: Config)
    ensures Distinct(ActivePhaseOrder(c)) && forall p :: p in ActivePhaseOrder(c) ==> p in EffectivePhaseOrder(c)
  {
    var plan := EffectivePhaseOrder(c);
    var d := Normalized(PhaseToggleGroup, plan, c.disabledPhases);
    PlanFacts(c);
    KeepMembers(plan, p => p !in d);
  }

  lemma {:induction false} ScriptHead(expand: Phase -> seq<Action>, order: seq<Phase>)
    requires order != [] && expand(order[0]) != []
    ensures Flatten(expand, order) != [] && Flatten(expand, order)[0] == expand(order[0])[0]
    decreases |order|
  {
    if |order| == 1 {
      assert Flatten(expand, order[..0]) == [];
    } else {
      ScriptHead(expand, order[..|order| - 1]);
    }
  }

  /** A schedule begins with a step of the first active phase. */
  lemma ScriptStarts(c: Config, n: int)
    requires ActivePhaseOrder(c) != []
    ensures Script(c, n) != [] && Script(c, n)[0].phase == ActivePhaseOrder(c)[0]
    ensures ActivePhaseOrder(c)[0] == SoftwareUnpack ==> Script(c, n)[0].Prepare?
  {
    ActiveDistinct(c);
    ExpandsPlan(c, n);
    assert ActivePhaseOrder(c)[0] in EffectivePhaseOrder(c);
    ScriptHead(p => Expand(c, n, p), ActivePhaseOrder(c));
  }

  lemma AnnouncedStep(s: Sys, now: real, e: Event)
    requires Lifecycle(s) && Announced(s.o, s.thread.script) && Possible(s, e) && Faithful(s, e)
    ensures Announced(Step(s, now, e).o, Step(s, now, e).thread.script)
  {
    if e.StartCall? && StartCheck(s.o, s.registered, e.active).None? {
      ScriptStarts(s.o.config, |e.order|);
    } else {
      AnnouncedElse(s, now, e);
    }
  }

  lemma AnnouncedElse(s: Sys, now: real, e: Event)
    requires Lifecycle(s) && Announced(s.o, s.thread.script) && Possible(s, e)
    requires e.StartCall? ==> StartCheck(s.o, s.registered, e.active).Some?
    ensures Announced(Step(s, now, e).o, Step(s, now, e).thread.script)
  {
    assert CloseSpan(s.o.spans, now) == [] <==> s.o.spans == [];
  }
}
