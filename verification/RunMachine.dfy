/** The controller as a state machine: critical sections, the run goroutine and the unlocked tails of Stop and
    OnClientRemoved interleave in any order, at nondecreasing clock readings. */
module RunMachine {
  import opened Basics
  import opened Phases
  import opened Schedule
  import opened Orchestration

  /** Where the run goroutine stands. `FreezingFor` and `FinishingAs` are the two halves of finish. */
  datatype Runner =
    | NoRun
    | Beginning
    | Acting(pc: nat)
    | Sending(pc: nat)
    | Waiting(pc: nat)
    | CheckingFail
    | CheckingContext
    | FreezingFor(text: Verdict)
    | FinishingAs(text: Verdict)

  /** What Stop or OnClientRemoved still has to do after unlocking, for the run it was called in. */
  datatype Tail = ToCancel(run: nat, held: bool) | ToBroadcast(run: nat) | ToFreeze(run: nat)

  datatype Message = Order(action: Action) | StopOrder(run: nat)

  datatype Envelope = Envelope(message: Message, to: seq<Id>)

  /** The run goroutine and what it shares with the rest: its context, and whether samples are recorded. */
  datatype Thread = Thread(runner: Runner, run: nat, script: seq<Action>, cancelled: bool, recording: bool)

  /** What happened so far during the current or last run, and which tails it found unfinished when it began. */
  datatype History = History(frozen: Config, participants: seq<Id>, executed: nat, finished: nat, lost: seq<string>,
                             interrupted: bool, leftover: seq<Tail>, prepFailed: bool)

  datatype Sys = Sys(o: Orch, registered: set<Id>, tails: seq<Tail>, thread: Thread, history: History,
                     sent: seq<Envelope>)

  /** Configure and Toggle carry the configuration they arrive at, StartCall what the planner says at that moment. */
  datatype Event =
    | Connect(id: Id)
    | Disconnect(id: Id, hostname: string)
    | Choose(update: Update, sorted: seq<Id>)
    | Configure(given: Config, config: Config)
    | Toggle(config: Config)
    | StartCall(order: seq<Id>, active: seq<Phase>, script: seq<Action>)
    | StopCall
    | TailStep(j: nat)
    | RunnerStep(ok: bool)

  predicate IsPrepare(script: seq<Action>, pc: nat) { pc < |script| && script[pc].Prepare? }

  /** Waiting fails only in a cancelled run; a preparation may also fail by itself. */
  ghost predicate MayFail(t: Thread) {
    t.runner.Waiting? ==> t.cancelled || IsPrepare(t.script, t.runner.pc)
  }

  ghost predicate Possible(s: Sys, e: Event) {
    match e
    case Choose(_, sorted) => IdSet(sorted) == s.registered
    case StartCall(order, _, _) => IdSet(order) == s.o.selected * s.registered && Distinct(order)
    case TailStep(j) => j < |s.tails|
    case RunnerStep(ok) => s.thread.runner != NoRun && (!ok ==> MayFail(s.thread))
    case _ => true
  }

  /** The event carries what the planner computes. A toggle, granted or refused, leaves a normal disabled list. */
  ghost predicate Faithful(s: Sys, e: Event) {
    match e
    case Configure(given, config) => config == Normalize(given)
    case Toggle(config) =>
      config == s.o.config.(disabledPhases := config.disabledPhases)
      && Normal(PhaseToggleGroup, EffectivePhaseOrder(s.o.config), config.disabledPhases)
    case StartCall(order, active, script) =>
      active == ActivePhaseOrder(s.o.config) && script == Script(s.o.config, |order|)
    case _ => true
  }

  /** One atomic step. Each change of the registry includes its callback. */
  function Step(s: Sys, now: real, e: Event): Sys
    requires Possible(s, e)
  {
    match e
    case Connect(id) => s.(registered := s.registered + {id}, o := RegisteredLocked(s.o, id))
    case Disconnect(id, hostname) => StepDisconnect(s, now, id, hostname)
    case Choose(update, sorted) => s.(o := UpdateLocked(s.o, update, s.registered, sorted))
    case Configure(_, config) => s.(o := ConfigureLocked(s.o, config))
    case Toggle(config) => s.(o := ConfigureLocked(s.o, config))
    case StartCall(order, active, script) =>
      if StartCheck(s.o, s.registered, active).Some? then s else StepStart(s, order, active[0], script)
    case StopCall => if !s.o.running || s.o.fail.Some? then s else StepStop(s, now)
    case TailStep(j) => StepTail(s, j)
    case RunnerStep(ok) => StepRunner(s, now, ok)
  }

  function StepStart(s: Sys, order: seq<Id>, first: Phase, script: seq<Action>): Sys {
    s.(o := StartLocked(s.o, order, first),
       thread := Thread(Beginning, s.thread.run + 1, script, false, s.thread.recording),
       history := History(s.o.config, order, 0, 0, [], false, s.tails, false),
       sent := [])
  }

  function StepStop(s: Sys, now: real): Sys {
    s.(o := StopLocked(s.o, now), history := s.history.(interrupted := true),
       tails := s.tails + [ToCancel(s.thread.run, s.o.cancel)])
  }

  function StepDisconnect(s: Sys, now: real, id: Id, hostname: string): Sys {
    var registered, o := s.registered - {id}, RemovedLocked(s.o, id, hostname, now);
    var lost := if s.o.running && id in s.o.runSet then s.history.lost + [LostLabel(id, hostname)] else s.history.lost;
    if LosesParticipant(s.o, id)
    then Sys(o, registered, s.tails + [ToCancel(s.thread.run, s.o.cancel)], s.thread,
             s.history.(lost := lost, interrupted := true), s.sent)
    else Sys(o, registered, s.tails, s.thread, s.history.(lost := lost), s.sent)
  }

  function StepTail(s: Sys, j: nat): Sys
    requires j < |s.tails|
  {
    match s.tails[j]
    case ToCancel(run, held) =>
      s.(tails := s.tails[j := ToBroadcast(run)],
         thread := s.thread.(cancelled := s.thread.cancelled || (held && run == s.thread.run)))
    case ToBroadcast(run) =>
      s.(tails := s.tails[j := ToFreeze(run)], sent := s.sent + [Envelope(StopOrder(run), s.o.runIds)])
    case ToFreeze(_) =>
      s.(tails := Without(s.tails, j), thread := s.thread.(recording := false))
  }

  /** The goroutine moves on without touching the orchestrator. */
  function MoveTo(s: Sys, runner: Runner): Sys { s.(thread := s.thread.(runner := runner)) }

  function StepRunner(s: Sys, now: real, ok: bool): Sys {
    var t := s.thread;
    match t.runner
    case NoRun => s
    case Beginning => s.(thread := t.(recording := true, runner := Acting(0)))
    case Acting(pc) => if pc >= |t.script| then MoveTo(s, CheckingFail) else StepAct(s, now, pc)
    case Sending(pc) => if pc >= |t.script| then s else StepSend(s, pc)
    case Waiting(pc) => StepWait(s, pc, ok)
    case CheckingFail => MoveTo(s, if s.o.fail.Some? then FreezingFor(FailedRun) else CheckingContext)
    case CheckingContext => MoveTo(s, FreezingFor(if t.cancelled then StoppedRun else CompletedRun))
    case FreezingFor(text) => s.(thread := t.(recording := false, runner := FinishingAs(text)))
    case FinishingAs(text) => s.(o := FinishLocked(s.o, text, now), thread := t.(runner := NoRun))
  }

  function StepAct(s: Sys, now: real, pc: nat): Sys
    requires pc < |s.thread.script|
  {
    var a := s.thread.script[pc];
    MoveTo(s, if a.Prepare? then Waiting(pc) else Sending(pc))
      .(o := SetPhaseLocked(s.o, a.phase, now), history := s.history.(executed := pc + 1))
  }

  function StepSend(s: Sys, pc: nat): Sys
    requires pc < |s.thread.script|
  {
    MoveTo(s, Waiting(pc)).(sent := s.sent + [Envelope(Order(s.thread.script[pc]), s.o.runIds)])
  }

  function StepWait(s: Sys, pc: nat, ok: bool): Sys {
    if ok then MoveTo(s, Acting(pc + 1)).(history := s.history.(finished := pc + 1))
    else MoveTo(s, CheckingFail).(history := s.history.(prepFailed := IsPrepare(s.thread.script, pc)))
  }

  ghost predicate AtRest(o: Orch) {
    o.selected == {} && o.autoSelect && !o.running && o.runIds == [] && o.runSet == {} && !o.cancel && o.phase == Idle
    && o.spans == [] && o.fail.None? && o.status == Ready && PlanClosed(o.config)
  }

  ghost predicate Initial(s: Sys) {
    AtRest(s.o) && s.registered == {} && s.tails == [] && s.sent == []
    && s.thread == Thread(NoRun, 0, [], false, false)
    && s.history == History(s.o.config, [], 0, 0, [], false, [], false)
  }

  /** The state after events at the given clock readings; None when time ran backwards or an event was impossible. */
  ghost function Run(start: Sys, events: seq<(real, Event)>): Option<Sys> {
    if events == [] then Some(start)
    else
      var n := |events| - 1;
      var s, (now, e) := Run(start, events[..n]), events[n];
      if s.Some? && (n > 0 ==> events[n - 1].0 <= now) && Possible(s.value, e) && Faithful(s.value, e)
      then Some(Step(s.value, now, e))
      else None
  }

  // ---- The invariant, in parts ---------------------------------------------------------------------

  /** One run at most, its participants and configuration fixed; nothing of it left when it is over. */
  ghost predicate Lifecycle(s: Sys) {
    (s.thread.runner != NoRun <==> s.o.running)
    && (s.o.running ==> s.thread.run > 0 && Held(s.o, s.history))
    && (!s.o.running ==> Over(s.o))
    && (s.thread.recording ==> InProgress(s.thread.runner))
  }

  ghost predicate Held(o: Orch, h: History) {
    o.runIds != [] && Distinct(o.runIds) && o.runSet == IdSet(o.runIds) && o.runIds == h.participants
    && o.config == h.frozen && !o.autoSelect
  }

  predicate InProgress(r: Runner) { r != NoRun && r != Beginning && !r.FinishingAs? }

  predicate Stepping(r: Runner) { r.Beginning? || r.Acting? || r.Sending? || r.Waiting? }

  /** Samples are recorded throughout an undisturbed run that began when no earlier Stop was still unwinding. */
  ghost predicate Recorded(s: Sys) {
    s.history.leftover == [] && !s.history.interrupted && s.o.running
    ==> s.tails == [] && (s.thread.recording <==> InProgress(s.thread.runner))
  }

  ghost predicate AllFreezing(tails: seq<Tail>) { forall i :: 0 <= i < |tails| ==> tails[i].ToFreeze? }

  ghost predicate NoStopOrder(sent: seq<Envelope>) { forall i :: 0 <= i < |sent| ==> sent[i].message.Order? }

  /** No stop order goes out during an undisturbed run that began when no earlier Stop had one left to send. */
  ghost predicate Unstopped(s: Sys) {
    AllFreezing(s.history.leftover) && !s.history.interrupted ==> AllFreezing(s.tails) && NoStopOrder(s.sent)
  }

  /** The goroutine knows where in the script it stands. */
  ghost predicate Position(t: Thread, h: History) {
    h.finished <= h.executed <= |t.script|
    && match t.runner
       case Beginning => h.executed == 0 && h.finished == 0
       case Acting(pc) => h.executed == h.finished == pc
       case Sending(pc) => pc < |t.script| && t.script[pc].Command? && h.executed == pc + 1 && h.finished == pc
       case Waiting(pc) => pc < |t.script| && h.executed == pc + 1 && h.finished == pc
       case _ => t.run > 0 ==> h.executed == h.finished == |t.script| || h.executed == h.finished + 1
  }

  function ActionPhases(script: seq<Action>): seq<Phase> {
    seq(|script|, i requires 0 <= i < |script| => script[i].phase)
  }

  /** The phases, adjacent repeats removed, are those of the steps taken. */
  ghost predicate Trail(phases: seq<Phase>, script: seq<Action>, executed: nat) {
    executed <= |script| && (phases == [] <==> executed == 0)
    && (executed > 0 ==> phases[|phases| - 1] == script[executed - 1].phase)
    && Collapse(phases) == Collapse(ActionPhases(script[..executed]))
  }

  /** The spans are the trail of the run; while nobody interrupts it, none repeats the one before. */
  ghost predicate Traced(o: Orch, script: seq<Action>, h: History) {
    var phases := SpanPhases(o.spans);
    Trail(phases, script, h.executed)
    && (o.running && phases != [] ==> o.phase == phases[|phases| - 1] || (o.phase == Stopped && h.interrupted))
    && (!h.interrupted ==> NoRepeats(phases))
  }

  /** Stopped is no phase of a plan, so no step of a script carries it. */
  ghost predicate NeverStopped(script: seq<Action>) { forall i :: 0 <= i < |script| ==> script[i].phase != Stopped }

  function Commands(script: seq<Action>): seq<Action> {
    if script == [] then []
    else
      var last := script[|script| - 1];
      Commands(script[..|script| - 1]) + (if last.Command? then [last] else [])
  }

  function Orders(sent: seq<Envelope>): seq<Action> {
    if sent == [] then []
    else
      var last := sent[|sent| - 1].message;
      Orders(sent[..|sent| - 1]) + (if last.Order? then [last.action] else [])
  }

  /** The commands sent are those of the steps taken, each to exactly the frozen participants. */
  ghost predicate Delivered(t: Thread, h: History, sent: seq<Envelope>) {
    h.executed <= |t.script|
    && (t.runner.Sending? ==> h.executed > 0)
    && Orders(sent) == Commands(t.script[..if t.runner.Sending? then h.executed - 1 else h.executed])
    && forall i :: 0 <= i < |sent| && sent[i].message.Order? ==> sent[i].to == h.participants
  }

  /** What the end of a run says about it. */
  ghost predicate VerdictTrue(script: seq<Action>, h: History, v: Verdict) {
    match v
    case Lost(who) => h.lost != [] && who == h.lost[0]
    case FailedRun => false
    case StoppedRun => h.lost == [] && h.interrupted
    case CompletedRun => h.lost == [] && (h.finished == |script| <==> !h.prepFailed)
  }

  /** What the text chosen for the end already rests on. */
  ghost predicate Chosen(t: Thread, h: History, text: Verdict) {
    match text
    case Lost(_) => false
    case FailedRun => h.lost != []
    case StoppedRun => h.interrupted
    case CompletedRun => h.finished == |t.script| || h.prepFailed
  }

  ghost predicate Judged(o: Orch, t: Thread, h: History) {
    (o.running ==> o.fail == if h.lost == [] then None else Some(h.lost[0]))
    && (t.cancelled || h.lost != [] ==> h.interrupted)
    && (h.prepFailed ==> h.finished < |t.script| && !Stepping(t.runner))
    && (t.runner in {CheckingFail, CheckingContext} ==> h.finished == |t.script| || h.prepFailed || t.cancelled)
    && (t.runner.FreezingFor? || t.runner.FinishingAs? ==> Chosen(t, h, t.runner.text))
    && (!o.running && o.status.Ended? ==> VerdictTrue(t.script, h, o.status.verdict))
  }

  /** The cancel function is held exactly while nobody has interrupted the run; whoever interrupts it first takes the
      function along and has still to call it, or has done so. A stopped phase has no open span. */
  ghost predicate Interruptible(s: Sys) {
    (s.o.cancel <==> s.o.running && !s.history.interrupted)
    && (s.history.interrupted ==> s.thread.cancelled || ToCancel(s.thread.run, true) in s.tails)
    && (s.o.phase == Stopped && s.o.spans != [] ==> s.o.spans[|s.o.spans| - 1].end.Some?)
  }

  /** Until its first step, and unless stopped, a run shows the phase that step will have. */
  ghost predicate Announced(o: Orch, script: seq<Action>) {
    o.running && o.spans == [] && o.phase != Stopped ==> script != [] && o.phase == script[0].phase
  }

  /** Unfinished tails belong to this run or an earlier one, and one of this run comes from an interruption. */
  ghost predicate TailsKnown(s: Sys) {
    forall i :: 0 <= i < |s.tails| ==>
                  s.tails[i].run <= s.thread.run && (s.tails[i].run == s.thread.run ==> s.history.interrupted)
  }

  ghost predicate PlanClosed(c: Config) { Closed(PhaseToggleGroup, EffectivePhaseOrder(c), c.disabledPhases) }

  /** The script is that of the frozen configuration, whose disabled list is closed, and the number of participants. */
  ghost predicate Scripted(t: Thread, h: History) {
    t.run > 0 ==> t.script == Script(h.frozen, |h.participants|) && PlanClosed(h.frozen)
  }

  ghost predicate Inv(s: Sys) {
    Lifecycle(s) && Recorded(s) && Unstopped(s) && TailsKnown(s) && Interruptible(s)
    && Position(s.thread, s.history) && Scripted(s.thread, s.history) && NeverStopped(s.thread.script)
    && Announced(s.o, s.thread.script) && Traced(s.o, s.thread.script, s.history)
    && Delivered(s.thread, s.history, s.sent) && Judged(s.o, s.thread, s.history)
    && Selection(s.o, s.registered) && PlanClosed(s.o.config)
  }
}
