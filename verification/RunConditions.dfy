/** Where runs fall short of what one would expect: the exact conditions, and runs that show them. */
module RunConditions {
  import opened Basics
  import opened Phases
  import opened Schedule
  import opened Orchestration
  import opened RunMachine
  import opened RunSafety
  import opened RunTheorems

  // ---- Building runs -------------------------------------------------------------------------------

  /** The machine reaches s by the given events, the last of them not after `now`. */
  ghost predicate Reaches(start: Sys, events: seq<(real, Event)>, now: real, s: Sys) {
    Run(start, events) == Some(s) && (events != [] ==> events[|events| - 1].0 <= now)
  }

  /** One more event. */
  lemma Then(start: Sys, events: seq<(real, Event)>, now: real, s: Sys, e: Event)
    returns (more: seq<(real, Event)>, t: Sys)
    requires Reaches(start, events, now, s) && Possible(s, e) && Faithful(s, e)
    ensures more == events + [(now, e)] && Reaches(start, more, now, t) && t == Step(s, now, e)
  {
    more, t := events + [(now, e)], Step(s, now, e);
    assert more[..|events|] == events;
  }

  lemma ThenRunner(start: Sys, events: seq<(real, Event)>, now: real, s: Sys, ok: bool)
    returns (more: seq<(real, Event)>, t: Sys)
    requires Reaches(start, events, now, s) && s.thread.runner != NoRun && (!ok ==> MayFail(s.thread))
    ensures events <= more && Reaches(start, more, now, t) && t == StepRunner(s, now, ok)
  {
    more, t := Then(start, events, now, s, RunnerStep(ok));
  }

  lemma ThenTail(start: Sys, events: seq<(real, Event)>, now: real, s: Sys, j: nat)
    returns (more: seq<(real, Event)>, t: Sys)
    requires Reaches(start, events, now, s) && j < |s.tails|
    ensures events <= more && Reaches(start, more, now, t) && t == StepTail(s, j)
  {
    more, t := Then(start, events, now, s, TailStep(j));
  }

  /** Start with the one client that connects. */
  lemma StartOne(start: Sys, events: seq<(real, Event)>, now: real, s: Sys)
    returns (more: seq<(real, Event)>, t: Sys)
    requires Reaches(start, events, now, s) && !s.o.running && s.o.selected == s.registered == {"a"}
    requires ActivePhaseOrder(s.o.config) != []
    ensures Reaches(start, more, now, t)
    ensures t == StepStart(s, ["a"], ActivePhaseOrder(s.o.config)[0], Script(s.o.config, 1))
  {
    var active, script := ActivePhaseOrder(s.o.config), Script(s.o.config, 1);
    assert IdSet(["a"]) == {"a"};
    assert s.o.selected * s.registered == {"a"};
    more, t := Then(start, events, now, s, StartCall(["a"], active, script));
  }

  /** The goroutine after a failed wait, with nobody lost: it ends the run. */
  lemma EndRun(start: Sys, events: seq<(real, Event)>, now: real, s: Sys)
    returns (more: seq<(real, Event)>, t: Sys)
    requires Reaches(start, events, now, s) && s.thread.runner == CheckingFail && s.o.fail.None?
    ensures Reaches(start, more, now, t)
    ensures t.o == FinishLocked(s.o, if s.thread.cancelled then StoppedRun else CompletedRun, now)
    ensures t == s.(o := t.o, thread := s.thread.(runner := NoRun, recording := false))
  {
    more, t := ChooseEnd(start, events, now, s);
    more, t := ThenRunner(start, more, now, t, true);
    more, t := ThenRunner(start, more, now, t, true);
  }

  lemma ChooseEnd(start: Sys, events: seq<(real, Event)>, now: real, s: Sys)
    returns (more: seq<(real, Event)>, t: Sys)
    requires Reaches(start, events, now, s) && s.thread.runner == CheckingFail && s.o.fail.None?
    ensures Reaches(start, more, now, t)
    ensures t == MoveTo(s, FreezingFor(if s.thread.cancelled then StoppedRun else CompletedRun))
  {
    more, t := ThenRunner(start, events, now, s, true);
    more, t := ThenRunner(start, more, now, t, true);
  }

  /** The first step of the script is taken. */
  lemma TakeFirst(start: Sys, events: seq<(real, Event)>, now: real, s: Sys)
    returns (more: seq<(real, Event)>, t: Sys)
    requires Reaches(start, events, now, s) && s.thread.runner == Beginning && s.thread.script != []
    ensures Reaches(start, more, now, t)
    ensures var first := s.thread.script[0];
            t == Sys(SetPhaseLocked(s.o, first.phase, now), s.registered, s.tails,
                     s.thread.(recording := true, runner := if first.Prepare? then Waiting(0) else Sending(0)),
                     s.history.(executed := 1), s.sent)
  {
    more, t := ThenRunner(start, events, now, s, true);
    more, t := ThenRunner(start, more, now, t, true);
  }

  /** The first step of the script fails. */
  lemma FailFirst(start: Sys, events: seq<(real, Event)>, now: real, s: Sys)
    returns (more: seq<(real, Event)>, t: Sys)
    requires Reaches(start, events, now, s) && s.thread.runner == Beginning && s.thread.script != []
    requires s.thread.cancelled || s.thread.script[0].Prepare?
    ensures Reaches(start, more, now, t)
    ensures t.thread.runner == CheckingFail && t.thread.cancelled == s.thread.cancelled && t.thread.run == s.thread.run
    ensures t.registered == s.registered && t.tails == s.tails
    ensures t.o == SetPhaseLocked(s.o, s.thread.script[0].phase, now)
    ensures t.history == s.history.(executed := 1, prepFailed := s.thread.script[0].Prepare?)
    ensures s.thread.script[0].Prepare? ==> t.sent == s.sent
  {
    more, t := TakeFirst(start, events, now, s);
    if t.thread.runner.Sending? {
      more, t := ThenRunner(start, more, now, t, true);
    }
    more, t := ThenRunner(start, more, now, t, false);
  }

  /** The only client connects and takes part. */
  lemma FirstStart(start: Sys, now: real) returns (events: seq<(real, Event)>, s: Sys)
    requires Initial(start) && ActivePhaseOrder(start.o.config) != []
    ensures Reaches(start, events, now, s) && s.o.running && s.o.fail.None? && s.o.cancel
    ensures s.o.config == start.o.config
    ensures s.thread == Thread(Beginning, 1, Script(start.o.config, 1), false, false) && s.thread.script != []
    ensures s.history.lost == [] && s.history.finished == 0 && s.sent == [] && s.tails == []
    ensures s.o.selected == s.registered == {"a"}
  {
    ScriptStarts(start.o.config, 1);
    events, s := Then(start, [], now, start, Connect("a"));
    events, s := StartOne(start, events, now, s);
  }

  /** A run whose package cannot be unpacked ends right there and is still reported as completed. */
  lemma FailedPreparationCompletes(start: Sys, now: real) returns (events: seq<(real, Event)>)
    requires Initial(start) && ActivePhaseOrder(start.o.config) != []
    requires ActivePhaseOrder(start.o.config)[0] == SoftwareUnpack
    ensures Run(start, events).Some?
    ensures var s := Run(start, events).value;
            s.o.status == Ended(CompletedRun) && s.history.executed == 1 && s.history.finished == 0 && s.sent == []
  {
    ScriptStarts(start.o.config, 1);
    var s;
    events, s := FirstStart(start, now);
    events, s := FailFirst(start, events, now, s);
    events, s := EndRun(start, events, now, s);
  }

  /** Stop is called at once and has cancelled the run; whether it has told the clients is left open. */
  lemma StopAtOnce(start: Sys, now: real, told: bool) returns (events: seq<(real, Event)>, s: Sys)
    requires Initial(start) && ActivePhaseOrder(start.o.config) != []
    ensures Reaches(start, events, now, s) && s.o.running && s.o.fail.None? && s.o.config == start.o.config
    ensures s.thread == Thread(Beginning, 1, Script(start.o.config, 1), true, false) && s.thread.script != []
    ensures s.tails == [if told then ToFreeze(1) else ToBroadcast(1)] && s.o.selected == s.registered == {"a"}
  {
    events, s := FirstStart(start, now);
    events, s := Then(start, events, now, s, StopCall);
    events, s := ThenTail(start, events, now, s, 0);
    if told {
      events, s := ThenTail(start, events, now, s, 0);
    }
  }

  /** A first run is stopped and over, and the Stop has yet to end the recording, or even to tell the clients. */
  lemma StoppedButUnwinding(start: Sys, now: real, told: bool) returns (events: seq<(real, Event)>, s: Sys)
    requires Initial(start) && ActivePhaseOrder(start.o.config) != []
    ensures Reaches(start, events, now, s) && !s.o.running && s.o.config == start.o.config
    ensures s.thread.run == 1 && s.tails == [if told then ToFreeze(1) else ToBroadcast(1)]
    ensures s.o.selected == s.registered == {"a"}
  {
    events, s := StopAtOnce(start, now, told);
    events, s := FailFirst(start, events, now, s);
    events, s := EndRun(start, events, now, s);
  }

  /** A Stop that is slow to unwind ends the recording of the next run, which nobody interrupted. */
  lemma LateFreezeSilencesNextRun(start: Sys, now: real) returns (events: seq<(real, Event)>)
    requires Initial(start) && ActivePhaseOrder(start.o.config) != []
    ensures Run(start, events).Some?
    ensures var s := Run(start, events).value;
            s.thread.run == 2 && s.thread.runner == Acting(0) && !s.history.interrupted && !s.thread.recording
  {
    var s;
    events, s := StoppedButUnwinding(start, now, true);
    events, s := StartOne(start, events, now, s);
    events, s := ThenRunner(start, events, now, s, true);
    events, s := ThenTail(start, events, now, s, 0);
  }

  /** A Stop that is slower still tells the participants of the next run to stop, which nobody interrupted. */
  lemma LateOrderReachesNextRun(start: Sys, now: real) returns (events: seq<(real, Event)>)
    requires Initial(start) && ActivePhaseOrder(start.o.config) != []
    ensures Run(start, events).Some?
    ensures var s := Run(start, events).value;
            s.thread.run == 2 && s.o.running && !s.history.interrupted
            && s.sent == [Envelope(StopOrder(1), s.history.participants)]
  {
    var s;
    events, s := StoppedButUnwinding(start, now, false);
    events, s := StartOne(start, events, now, s);
    events, s := ThenTail(start, events, now, s, 0);
  }

  // ---- When a slow Stop reaches the next run ---------------------------------------------------------

  /** A successful Start at this moment. */
  ghost predicate Starts(s: Sys, e: Event) {
    e.StartCall? && Possible(s, e) && Faithful(s, e) && StartCheck(s.o, s.registered, e.active).None?
  }

  /** `more` goes on from `from` to a state of the same run, which nobody has interrupted. */
  ghost predicate Undisturbed(start: Sys, from: seq<(real, Event)>, more: seq<(real, Event)>) {
    from <= more && Run(start, from).Some? && Run(start, more).Some?
    && Run(start, more).value.thread.run == Run(start, from).value.thread.run
    && !Run(start, more).value.history.interrupted
  }

  /** Samples of an undisturbed run in progress are not recorded. */
  ghost predicate Silenced(start: Sys, from: seq<(real, Event)>, more: seq<(real, Event)>) {
    Undisturbed(start, from, more)
    && var t := Run(start, more).value.thread; InProgress(t.runner) && !t.recording
  }

  /** An order to stop has gone to the participants of an undisturbed run. */
  ghost predicate StoppedByMistake(start: Sys, from: seq<(real, Event)>, more: seq<(real, Event)>) {
    Undisturbed(start, from, more)
    && var s := Run(start, more).value;
       exists i :: 0 <= i < |s.sent| && s.sent[i].message.StopOrder? && s.sent[i].to == s.history.participants
  }

  /** What an undisturbed run found unfinished when it began is what there was at its Start. */
  lemma UndisturbedInv(start: Sys, events: seq<(real, Event)>, s: Sys, now: real, e: Event, more: seq<(real, Event)>)
    requires Initial(start) && Reaches(start, events, now, s) && Starts(s, e)
    requires Undisturbed(start, events + [(now, e)], more)
    ensures var t := Run(start, more).value;
            t.history.leftover == s.tails && Lifecycle(t) && Recorded(t) && Unstopped(t)
  {
    var from, f := Then(start, events, now, s, e);
    assert more[..|from|] == from;
    FrozenDuringRun(start, more, |from|);
    RunInv(start, more);
  }

  /** A late Freeze, if there is one to come, can end the recording of the run that starts now. */
  lemma LateFreezeSilences(start: Sys, events: seq<(real, Event)>, s: Sys, now: real, e: Event)
    returns (more: seq<(real, Event)>)
    requires Initial(start) && Reaches(start, events, now, s) && Starts(s, e) && s.tails != []
    ensures Silenced(start, events + [(now, e)], more)
  {
    var t;
    more, t := Then(start, events, now, s, e);
    more, t := ThenRunner(start, more, now, t, true);
    more, t := FreezeFirst(start, more, now, t);
  }

  /** The first unfinished tail runs to its end. */
  lemma FreezeFirst(start: Sys, events: seq<(real, Event)>, now: real, s: Sys)
    returns (more: seq<(real, Event)>, t: Sys)
    requires Reaches(start, events, now, s) && s.tails != []
    ensures events <= more && Reaches(start, more, now, t)
    ensures t.history == s.history && t.thread.run == s.thread.run && t.thread.runner == s.thread.runner
    ensures !t.thread.recording
  {
    more, t := events, s;
    if t.tails[0].ToCancel? {
      more, t := ThenTail(start, more, now, t, 0);
    }
    if t.tails[0].ToBroadcast? {
      more, t := ThenTail(start, more, now, t, 0);
    }
    more, t := ThenTail(start, more, now, t, 0);
  }

  /** A run that starts now is recorded throughout, as long as nobody interrupts it and whatever else happens, if and
      only if no Stop and no lost participant is still being dealt with. */
  lemma RecordedIffQuiet(start: Sys, events: seq<(real, Event)>, s: Sys, now: real, e: Event)
    requires Initial(start) && Reaches(start, events, now, s) && Starts(s, e)
    ensures s.tails == [] <==> !exists more :: Silenced(start, events + [(now, e)], more)
  {
    var from := events + [(now, e)];
    if s.tails != [] {
      var more := LateFreezeSilences(start, events, s, now, e);
    } else {
      forall more | Undisturbed(start, from, more)
        ensures !Silenced(start, from, more)
      {
        UndisturbedInv(start, events, s, now, e, more);
      }
    }
  }

  /** A Stop that has yet to send its order can send it to the run that starts now. */
  lemma LateOrderStops(start: Sys, events: seq<(real, Event)>, s: Sys, now: real, e: Event, j: nat)
    returns (more: seq<(real, Event)>)
    requires Initial(start) && Reaches(start, events, now, s) && Starts(s, e)
    requires j < |s.tails| && !s.tails[j].ToFreeze?
    ensures StoppedByMistake(start, events + [(now, e)], more)
  {
    var t;
    more, t := Then(start, events, now, s, e);
    if t.tails[j].ToCancel? {
      more, t := ThenTail(start, more, now, t, j);
    }
    more, t := ThenTail(start, more, now, t, j);
    assert t.sent[0].message.StopOrder? && t.sent[0].to == t.history.participants;
  }

  /** The participants of a run that starts now are told to stop without anybody having stopped it, in some
      continuation, if and only if an earlier Stop has not sent its order yet. */
  lemma NoStopOrderIffSent(start: Sys, events: seq<(real, Event)>, s: Sys, now: real, e: Event)
    requires Initial(start) && Reaches(start, events, now, s) && Starts(s, e)
    ensures AllFreezing(s.tails) <==> !exists more :: StoppedByMistake(start, events + [(now, e)], more)
  {
    var from := events + [(now, e)];
    if AllFreezing(s.tails) {
      forall more | Undisturbed(start, from, more)
        ensures !StoppedByMistake(start, from, more)
      {
        UndisturbedInv(start, events, s, now, e, more);
      }
    } else {
      var j: nat :| j < |s.tails| && !s.tails[j].ToFreeze?;
      var more := LateOrderStops(start, events, s, now, e, j);
    }
  }

  // ---- Completed runs ------------------------------------------------------------------------------

  /** A run nobody interrupted is always reported as completed; it took every step exactly when no preparation failed,
      and otherwise every step before the one that failed. */
  lemma CompletedShortIff(start: Sys, events: seq<(real, Event)>)
    requires Initial(start) && Run(start, events).Some?
    requires var s := Run(start, events).value; s.thread.run > 0 && !s.o.running && s.o.status.Ended?
    requires !Run(start, events).value.history.interrupted
    ensures var s := Run(start, events).value;
            s.o.status == Ended(CompletedRun)
            && (s.history.finished < |s.thread.script| <==> s.history.prepFailed)
            && (s.history.prepFailed ==> s.history.executed == s.history.finished + 1)
  {
    RunInv(start, events);
    var s := Run(start, events).value;
    ShortRun(s.o, s.thread, s.history);
  }

  lemma ShortRun(o: Orch, t: Thread, h: History)
    requires Judged(o, t, h) && Position(t, h) && t.runner == NoRun && t.run > 0
    requires !o.running && o.status.Ended? && !h.interrupted
    ensures o.status == Ended(CompletedRun) && (h.finished < |t.script| <==> h.prepFailed)
    ensures h.prepFailed ==> h.executed == h.finished + 1
  {}

  // ---- The branch program and the machine -----------------------------------------------------------

  /** The branch program when the first `finished` steps succeed and no other. */
  method RunBranching(c: Config, n: int, finished: nat) returns (log: seq<Action>, completed: bool)
    requires PlanClosed(c) && finished <= |Script(c, n)|
    ensures completed <==> finished == |Script(c, n)|
    ensures |log| == (if completed then finished else finished + 1) && log <= Script(c, n)
  {
    var x := new Executor(i => i < finished);
    completed := x.Run(c, n);
    log := x.log;
    assert !x.ok(finished);
    if completed {
      assert log == [] || x.ok(|log| - 1);
    }
  }

  /** For every run that is over, the branch program, given the same successes, takes exactly the steps the machine
      took, and completes exactly when the machine finished them all. */
  method BranchesTakeTheSteps(c: Config, n: int, finished: nat, ghost start: Sys, ghost events: seq<(real, Event)>)
    returns (log: seq<Action>, completed: bool)
    requires Initial(start) && Run(start, events).Some?
    requires var s := Run(start, events).value;
             s.thread.run > 0 && !s.o.running && s.history.frozen == c && |s.history.participants| == n
             && s.history.finished == finished
    ensures var s := Run(start, events).value;
            log <= s.thread.script && |log| == s.history.executed && (completed <==> finished == |s.thread.script|)
  {
    OverPosition(start, events);
    log, completed := RunBranching(c, n, finished);
  }

  lemma OverPosition(start: Sys, events: seq<(real, Event)>)
    requires Initial(start) && Run(start, events).Some?
    requires var s := Run(start, events).value; s.thread.run > 0 && !s.o.running
    ensures var t, h := Run(start, events).value.thread, Run(start, events).value.history;
            t.script == Script(h.frozen, |h.participants|) && PlanClosed(h.frozen)
            && h.finished <= |t.script|
            && h.executed == if h.finished == |t.script| then h.finished else h.finished + 1
  {
    RunInv(start, events);
    var s := Run(start, events).value;
    PositionWhenOver(s.thread, s.history);
  }

  lemma PositionWhenOver(t: Thread, h: History)
    requires Position(t, h) && Scripted(t, h) && t.run > 0 && t.runner == NoRun
    ensures t.script == Script(h.frozen, |h.participants|) && PlanClosed(h.frozen)
    ensures h.finished <= |t.script|
    ensures h.executed == if h.finished == |t.script| then h.finished else h.finished + 1
  {}
}
