/** The objects of the controller driven through calls in any order: registry, orchestrator and toggles, with the run
    goroutine and the unlocked tails of Stop and OnClientRemoved, do what the state machine does. */
module RunDriver {
  import opened Basics
  import opened Phases
  import opened Schedule
  import opened Orchestration
  import opened Orchestrators
  import opened RunMachine
  import RunTheorems
  import Registries
  import Toggles

  /** What reaches the controller, and the steps of its goroutines. */
  datatype Call =
    | Joins(id: Id, hostname: string, prefix: string)
    | Leaves(id: Id)
    | Selects(u: ParticipantUpdate)
    | Configures(given: Config, testName: string, prefixes: seq<string>)
    | Switches(phase: Phase, enabled: bool)
    | Starts
    | Stops
    | Unwinds(j: nat)
    | Proceeds(ok: bool)

  /** The toggle of an idle configuration is granted or refused as SetPhaseEnabled says. */
  ghost predicate Switched(c: Config, phase: Phase, enabled: bool, now: seq<Phase>) {
    exists r :: Toggles.ToggleSpec(EffectivePhaseOrder(c), c.disabledPhases, phase, PhaseToggleGroup(phase), enabled, r,
                                   now)
  }

  /** The event a call comes to. There is none exactly for a client that is not registered, for settings or a start that
      are refused, for a tail or goroutine that is not there, and for a failure that cannot happen. */
  ghost predicate Means(s: Sys, call: Call, e: Option<Event>) {
    match call
    case Joins(id, _, _) => e == Some(Connect(id))
    case Leaves(id) =>
      if id in s.registered then e.Some? && e.value.Disconnect? && e.value.id == id else e.None?
    case Selects(u) => e.Some? && e.value.Choose? && e.value.update == Decode(u)
    case Configures(given, testName, prefixes) =>
      if !s.o.running && testName != "" && prefixes != [] && Acceptable(Filled(given))
      then e.Some? && e.value.Configure? && e.value.given == Filled(given) else e.None?
    case Switches(phase, enabled) =>
      e.Some? && e.value.Toggle?
      && (!s.o.running ==> Switched(s.o.config, phase, enabled, e.value.config.disabledPhases))
    case Starts =>
      if StartCheck(s.o, s.registered, ActivePhaseOrder(s.o.config)).None? then e.Some? && e.value.StartCall?
      else e.None?
    case Stops => e == Some(StopCall)
    case Unwinds(j) => e == if j < |s.tails| then Some(TailStep(j)) else None
    case Proceeds(ok) =>
      e == if s.thread.runner != NoRun && (!ok ==> MayFail(s.thread)) then Some(RunnerStep(ok)) else None
  }

  class Controller {
    const o: Orchestrator
    const registry: Registries.Registry
    const choose: Registries.Choice
    var toggles: Toggles.PhaseToggles
    var tails: seq<Tail>
    var thread: Thread
    var sent: seq<Envelope>
    ghost var history: History

    ghost predicate Valid()
      reads this, o, toggles, toggles.backing
    {
      toggles.Valid() && toggles.plan == EffectivePhaseOrder(o.cfg) && toggles.View() == o.cfg.disabledPhases
      && (thread.runner.FreezingFor? || thread.runner.FinishingAs? ==> !thread.runner.text.Lost?)
    }

    ghost function State(): Sys
      reads this, o, registry
    {
      Sys(o.State(), registry.clients.Keys, tails, thread, history, sent)
    }

    constructor (c: Config, choose: Registries.Choice)
      ensures Valid() && Initial(State())
      ensures fresh(o) && fresh(registry) && fresh(toggles) && fresh(toggles.backing)
    {
      o := new Orchestrator(c);
      registry := new Registries.Registry();
      toggles := new Toggles.PhaseToggles(c);
      this.choose := choose;
      tails, thread, sent := [], Thread(NoRun, 0, [], false, false), [];
      history := History(Normalize(c), [], 0, 0, [], false, [], false);
      new;
      ToggleGroupsPartition();
      PlanFacts(c);
      NormalizedIsNormal(PhaseToggleGroup, EffectivePhaseOrder(c), c.disabledPhases);
    }

    // ---- The registry and its callbacks --------------------------------------------------------------

    method Join(id: Id, hostname: string, prefix: string, now: real)
      requires Valid()
      modifies registry, o`selectedIDs
      ensures Valid() && State() == Step(old(State()), now, Connect(id))
    {
      registry.Upsert(id, hostname, prefix, now);
      o.OnClientRegistered(id, old(registry.clients.Keys));
    }

    method Leave(id: Id, now: real) returns (ghost e: Option<Event>)
      requires Valid()
      modifies this`tails, this`history, registry, o
      ensures Valid() && Follows(old(State()), now, e, State()) && Means(old(State()), Leaves(id), e)
    {
      if id !in registry.clients {
        return None;
      }
      var hostname := registry.clients[id].hostname;
      e := Some(Disconnect(id, hostname));
      history := Step(State(), now, e.value).history;
      registry.Remove(id);
      var aborts, held := o.OnClientRemoved(id, hostname, now);
      if aborts {
        tails := tails + [ToCancel(thread.run, held)];
      }
    }

    // ---- Requests ------------------------------------------------------------------------------------

    method Select(u: ParticipantUpdate, now: real) returns (ghost e: Option<Event>)
      requires Valid()
      modifies o`selectedIDs, o`autoSelectNew
      ensures Valid() && Follows(old(State()), now, e, State()) && Means(old(State()), Selects(u), e)
    {
      var sorted := registry.IDsSorted();
      var busy := o.UpdateParticipants(u, registry.clients.Keys, sorted);
      e := Some(Choose(Decode(u), sorted));
    }

    method Accept(given: Config, testName: string, prefixes: seq<string>) returns (accepted: bool)
      modifies o`cfg, registry
      ensures registry.clients.Keys == old(registry.clients.Keys)
      ensures accepted <==> !o.running && testName != "" && prefixes != [] && Acceptable(Filled(given))
      ensures o.State() == if accepted then ConfigureLocked(old(o.State()), Normalize(Filled(given)))
                           else old(o.State())
    {
      var error := o.SetConfig(given, testName, prefixes, registry, choose);
      accepted := error.None?;
    }

    /** New settings bring a new plan, and with it a new list to toggle. */
    method Configure(given: Config, testName: string, prefixes: seq<string>, now: real) returns (ghost e: Option<Event>)
      requires Valid()
      modifies this`toggles, o`cfg, registry
      ensures Valid() && Follows(old(State()), now, e, State())
      ensures Means(old(State()), Configures(given, testName, prefixes), e)
      ensures toggles == old(toggles) || (fresh(toggles) && fresh(toggles.backing))
    {
      var accepted := Accept(given, testName, prefixes);
      if !accepted {
        return None;
      }
      e := Some(Event.Configure(Filled(given), Normalize(Filled(given))));
      SamePlan(Filled(given));
      toggles := new Toggles.PhaseToggles(o.cfg);
    }

    method Switch(phase: Phase, enabled: bool, now: real) returns (ghost e: Option<Event>)
      requires Valid()
      modifies o`cfg, toggles, toggles.backing
      ensures Valid() && Follows(old(State()), now, e, State()) && Means(old(State()), Switches(phase, enabled), e)
      ensures toggles.backing == old(toggles.backing) || fresh(toggles.backing)
    {
      var list := Flip(phase, enabled);
      e := Some(Toggle(o.cfg.(disabledPhases := list)));
      o.cfg := o.cfg.(disabledPhases := list);
    }

    method Flip(phase: Phase, enabled: bool) returns (list: seq<Phase>)
      requires Valid()
      modifies toggles, toggles.backing
      ensures toggles.Valid() && toggles.View() == list
      ensures if o.running then list == o.cfg.disabledPhases else Switched(o.cfg, phase, enabled, list)
      ensures toggles.backing == old(toggles.backing) || fresh(toggles.backing)
    {
      toggles.running := o.running;
      var result := toggles.SetPhaseEnabled(phase, enabled);
      list := toggles.backing[..toggles.len];
    }

    method Start(now: real) returns (ghost e: Option<Event>)
      requires Valid()
      modifies this`thread, this`sent, this`history, o
      ensures Valid() && Follows(old(State()), now, e, State()) && Means(old(State()), Starts, e)
    {
      ghost var s := State();
      var begins := Open(now);
      if !begins {
        return None;
      }
      e := Launch(s, now);
    }

    /** The goroutine is about to begin. */
    method Launch(ghost s: Sys, ghost now: real) returns (ghost e: Option<Event>)
      requires StartCheck(s.o, s.registered, ActivePhaseOrder(s.o.config)).None?
      requires State() == s.(o := StartLocked(s.o, o.runClientIDs, ActivePhaseOrder(s.o.config)[0]))
      requires IdSet(o.runClientIDs) == s.o.selected * s.registered && Distinct(o.runClientIDs)
      modifies this`thread, this`sent, this`history
      ensures Follows(s, now, e, State()) && Means(s, Starts, e) && thread.runner == Beginning
    {
      var script := Script(o.cfg, |o.runClientIDs|);
      e := Some(StartCall(o.runClientIDs, ActivePhaseOrder(o.cfg), script));
      history := History(o.cfg, o.runClientIDs, 0, 0, [], false, tails, false);
      thread, sent := Thread(Beginning, thread.run + 1, script, false, thread.recording), [];
      Begins(s, now, o.runClientIDs);
    }

    method Open(now: real) returns (begins: bool)
      modifies o
      ensures begins <==> StartCheck(old(o.State()), registry.clients.Keys, ActivePhaseOrder(old(o.cfg))).None?
      ensures o.cfg == old(o.cfg) && (!begins ==> o.State() == old(o.State()))
      ensures begins ==> o.State() == StartLocked(old(o.State()), o.runClientIDs, ActivePhaseOrder(old(o.cfg))[0])
      ensures begins ==> Distinct(o.runClientIDs)
                         && IdSet(o.runClientIDs) == old(o.selectedIDs) * registry.clients.Keys
    {
      var error := o.Start(registry.clients.Keys, now);
      begins := error.None?;
    }

    method Stop(now: real)
      requires Valid()
      modifies this`tails, this`history, o
      ensures Valid() && State() == Step(old(State()), now, StopCall)
    {
      history := Step(State(), now, StopCall).history;
      var stops, held := o.Stop(now);
      if stops {
        tails := tails + [ToCancel(thread.run, held)];
      }
    }

    /** After unlocking: cancel, broadcast, freeze. */
    method Unwind(j: nat, now: real) returns (ghost e: Option<Event>)
      requires Valid()
      modifies this`tails, this`thread, this`sent
      ensures Valid() && Follows(old(State()), now, e, State()) && Means(old(State()), Unwinds(j), e)
    {
      if j >= |tails| {
        return None;
      }
      e := Some(TailStep(j));
      match tails[j] {
        case ToCancel(run, held) =>
          if held && run == thread.run {
            thread := thread.(cancelled := true);
          }
          tails := tails[j := ToBroadcast(run)];
        case ToBroadcast(run) =>
          sent, tails := sent + [Envelope(StopOrder(run), o.runClientIDs)], tails[j := ToFreeze(run)];
        case ToFreeze(_) =>
          tails, thread := Without(tails, j), thread.(recording := false);
      }
    }

    // ---- The run goroutine ---------------------------------------------------------------------------

    method Proceed(ok: bool, now: real) returns (ghost e: Option<Event>)
      requires Valid()
      modifies this`thread, this`sent, this`history, o
      ensures Valid() && Follows(old(State()), now, e, State()) && Means(old(State()), Proceeds(ok), e)
    {
      if thread.runner.NoRun? {
        return None;
      }
      if !ok && thread.runner.Waiting? && !thread.cancelled && !IsPrepare(thread.script, thread.runner.pc) {
        return None;
      }
      e := Some(RunnerStep(ok));
      ghost var s := State();
      Work(ok, now);
      history := StepRunner(s, now, ok).history;
    }

    method Work(ok: bool, now: real)
      requires Valid()
      modifies this`thread, this`sent, o
      ensures Valid() && State() == StepRunner(old(State()), now, ok).(history := old(history))
    {
      if thread.runner.Acting? {
        Act(thread.runner.pc, now, ok);
      } else if thread.runner.FinishingAs? {
        End(thread.runner.text, now, ok);
      } else {
        MoveOn(ok, now);
      }
    }

    /** The steps that do not touch the orchestrator. */
    method MoveOn(ok: bool, ghost now: real)
      requires Valid() && !thread.runner.Acting? && !thread.runner.FinishingAs?
      modifies this`thread, this`sent
      ensures Valid() && State() == StepRunner(old(State()), now, ok).(history := old(history))
    {
      match thread.runner {
        case Beginning => thread := thread.(recording := true, runner := Acting(0));
        case Sending(pc) =>
          if pc < |thread.script| {
            sent := sent + [Envelope(Order(thread.script[pc]), o.runClientIDs)];
            thread := thread.(runner := Waiting(pc));
          }
        case Waiting(pc) => thread := thread.(runner := if ok then Acting(pc + 1) else CheckingFail);
        case CheckingFail =>
          thread := thread.(runner := if o.failMessage.Some? then FreezingFor(FailedRun) else CheckingContext);
        case CheckingContext =>
          thread := thread.(runner := FreezingFor(if thread.cancelled then StoppedRun else CompletedRun));
        case FreezingFor(text) => thread := thread.(recording := false, runner := FinishingAs(text));
        case _ =>
      }
    }

    method End(text: Verdict, now: real, ghost ok: bool)
      requires Valid() && thread.runner == FinishingAs(text)
      modifies this`thread, o
      ensures Valid() && State() == StepRunner(old(State()), now, ok).(history := old(history))
    {
      o.Finish(text, now, now);
      thread := thread.(runner := NoRun);
    }

    method Show(p: Phase, percent: int, now: real)
      modifies o
      ensures o.State() == SetPhaseLocked(old(o.State()), p, now) && o.cfg == old(o.cfg)
    {
      o.SetPhase(p, percent, now, now);
    }

    method Act(pc: nat, now: real, ghost ok: bool)
      requires Valid() && thread.runner == Acting(pc)
      modifies this`thread, o
      ensures Valid() && State() == StepRunner(old(State()), now, ok).(history := old(history))
    {
      if pc >= |thread.script| {
        thread := thread.(runner := CheckingFail);
        return;
      }
      var a := thread.script[pc];
      Show(a.phase, if a.Prepare? then 0 else a.percent, now);
      thread := thread.(runner := if a.Prepare? then Waiting(pc) else Sending(pc));
    }

    method Perform(now: real, call: Call) returns (ghost e: Option<Event>)
      requires Valid()
      modifies this, o, registry, toggles, toggles.backing
      ensures Valid() && Follows(old(State()), now, e, State()) && Means(old(State()), call, e)
      ensures toggles == old(toggles) || fresh(toggles)
      ensures toggles.backing == old(toggles.backing) || fresh(toggles.backing)
    {
      match call
      case Joins(id, hostname, prefix) =>
        Join(id, hostname, prefix, now);
        e := Some(Connect(id));
      case Leaves(id) => e := Leave(id, now);
      case Selects(u) => e := Select(u, now);
      case Configures(given, testName, prefixes) => e := Configure(given, testName, prefixes, now);
      case Switches(phase, enabled) => e := Switch(phase, enabled, now);
      case Starts => e := Start(now);
      case Stops =>
        Stop(now);
        e := Some(StopCall);
      case Unwinds(j) => e := Unwind(j, now);
      case Proceeds(ok) => e := Proceed(ok, now);
    }
  }

  /** Normalized settings have the plan and the disabled list they keep. */
  lemma SamePlan(c: Config)
    ensures EffectivePhaseOrder(Normalize(c)) == EffectivePhaseOrder(c)
    ensures Normalize(Normalize(c)).disabledPhases == Normalize(c).disabledPhases
  {
    NormalizeIdempotent(PhaseToggleGroup, EffectivePhaseOrder(c), c.disabledPhases);
  }

  lemma Begins(s: Sys, now: real, order: seq<Id>)
    requires StartCheck(s.o, s.registered, ActivePhaseOrder(s.o.config)).None?
    requires IdSet(order) == s.o.selected * s.registered && Distinct(order)
    ensures var active, script := ActivePhaseOrder(s.o.config), Script(s.o.config, |order|);
            Follows(s, now, Some(StartCall(order, active, script)), StepStart(s, order, active[0], script))
            && Means(s, Starts, Some(StartCall(order, active, script)))
  {}

  /** One possible step of the machine, or none. */
  ghost predicate Follows(s: Sys, now: real, e: Option<Event>, t: Sys) {
    if e.None? then t == s else Possible(s, e.value) && Faithful(s, e.value) && t == Step(s, now, e.value)
  }

  /** The events of the calls, in order, with the times of the calls; some calls change nothing. */
  ghost predicate EventsOf(start: Sys, calls: seq<(real, Call)>, events: seq<(real, Event)>) {
    if calls == [] then events == []
    else
      var front, (now, call) := calls[..|calls| - 1], calls[|calls| - 1];
      (EventsOf(start, front, events) && Run(start, events).Some? && Means(Run(start, events).value, call, None))
      || (events != []
          && var before, e := events[..|events| - 1], events[|events| - 1];
             e.0 == now && EventsOf(start, front, before) && Run(start, before).Some?
             && Means(Run(start, before).value, call, Some(e.1)))
  }

  lemma RunOn(start: Sys, before: seq<(real, Event)>, now: real, e: Option<Event>, t: Sys)
    requires Run(start, before).Some? && (before != [] ==> before[|before| - 1].0 <= now)
    requires Follows(Run(start, before).value, now, e, t)
    ensures Run(start, before + (if e.Some? then [(now, e.value)] else [])) == Some(t)
  {
    if e.Some? {
      RunSnoc(start, before, now, e.value);
    } else {
      assert before + [] == before;
    }
  }

  lemma RunSnoc(start: Sys, before: seq<(real, Event)>, now: real, e: Event)
    requires Run(start, before).Some? && (before != [] ==> before[|before| - 1].0 <= now)
    requires Possible(Run(start, before).value, e) && Faithful(Run(start, before).value, e)
    ensures Run(start, before + [(now, e)]) == Some(Step(Run(start, before).value, now, e))
  {
    assert (before + [(now, e)])[..|before|] == before;
  }

  lemma Noted(start: Sys, calls: seq<(real, Call)>, n: nat, before: seq<(real, Event)>, e: Option<Event>)
    requires n < |calls| && EventsOf(start, calls[..n], before) && Run(start, before).Some?
    requires Means(Run(start, before).value, calls[n].1, e)
    ensures EventsOf(start, calls[..n + 1], before + (if e.Some? then [(calls[n].0, e.value)] else []))
  {
    assert calls[..n + 1][..n] == calls[..n];
    if e.Some? {
      assert (before + [(calls[n].0, e.value)])[..|before|] == before;
    } else {
      assert before + [] == before;
    }
  }

  method Take(k: Controller, calls: seq<(real, Call)>, n: nat, ghost start: Sys, ghost before: seq<(real, Event)>)
    returns (ghost events: seq<(real, Event)>)
    requires k.Valid() && n < |calls| && (n > 0 ==> calls[n - 1].0 <= calls[n].0)
    requires Run(start, before) == Some(k.State()) && EventsOf(start, calls[..n], before)
    requires before != [] ==> n > 0 && before[|before| - 1].0 <= calls[n - 1].0
    modifies k, k.o, k.registry, k.toggles, k.toggles.backing
    ensures k.Valid() && Run(start, events) == Some(k.State()) && EventsOf(start, calls[..n + 1], events)
    ensures events != [] ==> events[|events| - 1].0 <= calls[n].0
    ensures k.toggles == old(k.toggles) || fresh(k.toggles)
    ensures k.toggles.backing == old(k.toggles.backing) || fresh(k.toggles.backing)
  {
    ghost var e := k.Perform(calls[n].0, calls[n].1);
    events := before + (if e.Some? then [(calls[n].0, e.value)] else []);
    RunOn(start, before, calls[n].0, e, k.State());
    Noted(start, calls, n, before, e);
  }

  /** Whatever calls come in whatever order, at clock readings that do not run backwards: the objects hold the state of
      a run of the machine, made up of the events of the calls, so everything shown of the machine is true of them. */
  method Drive(c: Config, choose: Registries.Choice, calls: seq<(real, Call)>)
    returns (k: Controller, ghost start: Sys, ghost events: seq<(real, Event)>)
    requires forall i, j :: 0 <= i < j < |calls| ==> calls[i].0 <= calls[j].0
    ensures Initial(start) && Run(start, events) == Some(k.State()) && EventsOf(start, calls, events)
    ensures Inv(k.State())
  {
    k := new Controller(c, choose);
    start, events := k.State(), [];
    for n := 0 to |calls|
      invariant k.Valid() && fresh(k) && fresh(k.o) && fresh(k.registry) && fresh(k.toggles) && fresh(k.toggles.backing)
      invariant Initial(start) && Run(start, events) == Some(k.State()) && EventsOf(start, calls[..n], events)
      invariant events != [] ==> n > 0 && events[|events| - 1].0 <= calls[n - 1].0
    {
      events := Take(k, calls, n, start, events);
    }
    assert calls[..|calls|] == calls;
    RunTheorems.RunInv(start, events);
  }
}
