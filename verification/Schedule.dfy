/** What a run does: the planner's phase list spelled out as commands, and the executor, which is written as its own
    sequence of branches and loops. */
module Schedule {
  import opened Phases

  /** A step of a run: work on the controller that may fail, or a command to all participants. */
  datatype Action =
    | Prepare(phase: Phase)
    | Command(phase: Phase, percent: int, duration: real, rate: real, readRate: real, fileSize: int, force: bool)

  const CREATE_SIZE := 4096
  const BANDWIDTH_SIZE := 64 * 1024 * 1024
  const RIOPS_SIZE := 0x4000_0000
  const COLD_TIMEOUT := 600.0
  const WARM_TIMEOUT := 300.0
  const OP_TIMEOUT := 1800.0
  const CLEANUP_TIMEOUT := 1800.0

  function PerClient(global: real, n: int): real { global / (if n < 1 then 1 else n) as real }

  function StepSeconds(c: Config): real { if c.phaseStepSeconds <= 0.0 then 30.0 else c.phaseStepSeconds }

  /** A ceiling of zero means unlimited and is passed on as zero. */
  function Ceiling(global: real, n: int): real { if global > 0.0 then PerClient(global, n) else 0.0 }

  function Send(p: Phase, percent: int, rate: real, readRate: real, fileSize: int, duration: real): Action {
    Command(p, percent, duration, rate, readRate, fileSize, false)
  }

  function Software(p: Phase, timeout: real): Action { Command(p, 100, timeout, 0.0, 0.0, 0, false) }

  // ---- The plan as commands ------------------------------------------------------------------------

  /** One rung: the rates scaled to a percentage. */
  function Rung(p: Phase, write: real, read: real, fileSize: int, step: real, pct: int): Action {
    Send(p, pct, write * pct as real / 100.0, read * pct as real / 100.0, fileSize, step)
  }

  /** The first k rungs of the ladder 10, 20, ..., 100 percent. */
  function Ladder(p: Phase, write: real, read: real, fileSize: int, step: real, k: nat): (s: seq<Action>)
    ensures |s| == k && forall i :: 0 <= i < k ==> s[i].phase == p
  {
    if k == 0 then []
    else Ladder(p, write, read, fileSize, step, k - 1)
         + [Rung(p, write, read, fileSize, step, 10 * k)]
  }

  function Ramp(p: Phase, write: real, read: real, fileSize: int, step: real): (s: seq<Action>)
    ensures |s| == 10 && forall i :: 0 <= i < 10 ==> s[i].phase == p
  {
    Ladder(p, write, read, fileSize, step, 10)
  }

  /** What a phase of the plan stands for: a ladder for the paced phases, plus a second full-rate sweep for delete
      and a forced wipe for final delete; one command for the others, after the controller prepared its files. */
  function Expand(c: Config, n: int, p: Phase): (s: seq<Action>)
    ensures forall i :: 0 <= i < |s| ==> s[i].phase == p
  {
    var step := StepSeconds(c);
    var write, read := PerClient(c.fileWriteBandwidth, n), PerClient(c.fileReadBandwidth, n);
    var erase := PerClient(c.fileDeletionRate, n);
    match p
    case SoftwareUnpack => [Prepare(SoftwareUnpack)]
    case SoftwareCold => [Software(SoftwareCold, COLD_TIMEOUT)]
    case SoftwareWarm => [Software(SoftwareWarm, WARM_TIMEOUT)]
    case GitClone => [Prepare(GitClone), Software(GitClone, OP_TIMEOUT)]
    case Untar => [Prepare(Untar), Software(Untar, OP_TIMEOUT)]
    case Create => Ramp(Create, PerClient(c.fileCreationRate, n), 0.0, CREATE_SIZE, step)
    case Delete => Ramp(Delete, erase, 0.0, 0, step) + [Send(Delete, 100, erase, 0.0, 0, step)]
    case WriteBW => Ramp(WriteBW, write, 0.0, BANDWIDTH_SIZE, step)
    case ReadBW => Ramp(ReadBW, read, 0.0, BANDWIDTH_SIZE, step)
    case ReadWrite => Ramp(ReadWrite, write, read, BANDWIDTH_SIZE, step)
    case RIOPS =>
      [Send(RIOPS, 100, Ceiling(c.randomWriteIOPS, n), Ceiling(c.randomReadIOPS, n), RIOPS_SIZE, 5.0 * step)]
    case FinalDelete => Ramp(FinalDelete, erase, 0.0, 0, step)
                        + [Command(FinalDelete, 100, CLEANUP_TIMEOUT, 0.0, 0.0, 0, true)]
    case _ => []
  }

  function Flatten(expand: Phase -> seq<Action>, order: seq<Phase>): seq<Action> {
    if order == [] then [] else Flatten(expand, order[..|order| - 1]) + expand(order[|order| - 1])
  }

  /** The schedule the planner announces. */
  function Script(c: Config, n: int): seq<Action> { Flatten(p => Expand(c, n, p), ActivePhaseOrder(c)) }

  // ---- The executor --------------------------------------------------------------------------------

  class Executor {
    var log: seq<Action>
    /** The removals of the shared software trees, which cannot fail. */
    var cleanups: seq<Cleanup>
    /** Whether the k-th step succeeds: preparations may fail, and waiting fails once the run is cancelled. */
    const ok: nat -> bool

    constructor (ok: nat -> bool)
      ensures log == [] && cleanups == [] && this.ok == ok
    {
      log, cleanups := [], [];
      this.ok := ok;
    }

    ghost predicate Clean()
      reads this`log
    {
      forall i :: 0 <= i < |log| ==> ok(i)
    }

    /** The run broke off after some steps of the target, the last of which failed. */
    ghost predicate BrokenOff(target: seq<Action>)
      reads this`log
    {
      log != [] && log <= target && !ok(|log| - 1) && forall i :: 0 <= i < |log| - 1 ==> ok(i)
    }

    method Do(a: Action) returns (good: bool)
      requires Clean()
      modifies this`log
      ensures log == old(log) + [a]
      ensures if good then Clean() else BrokenOff(old(log) + [a])
    {
      good := ok(|log|);
      log := log + [a];
    }

    method RunRamp2(p: Phase, writeBase: real, readBase: real, fileSize: int, step: real) returns (good: bool)
      requires Clean()
      modifies this`log
      ensures if good then Clean() && log == old(log) + Ramp(p, writeBase, readBase, fileSize, step)
              else BrokenOff(old(log) + Ramp(p, writeBase, readBase, fileSize, step))
    {
      for k := 0 to 10
        invariant Clean() && log == old(log) + Ladder(p, writeBase, readBase, fileSize, step, k)
      {
        var pct := 10 * (k + 1);
        var a := Rung(p, writeBase, readBase, fileSize, step, pct);
        ghost var done := Ladder(p, writeBase, readBase, fileSize, step, k);
        assert Ladder(p, writeBase, readBase, fileSize, step, k + 1) == done + [a];
        good := Do(a);
        assert old(log) + done + [a] == old(log) + (done + [a]);
        if !good {
          LadderPrefix(p, writeBase, readBase, fileSize, step, k + 1, 10);
          return;
        }
      }
      good := true;
    }

    method RunRamp(p: Phase, baseRate: real, fileSize: int, step: real) returns (good: bool)
      requires Clean()
      modifies this`log
      ensures if good then Clean() && log == old(log) + Ramp(p, baseRate, 0.0, fileSize, step)
              else BrokenOff(old(log) + Ramp(p, baseRate, 0.0, fileSize, step))
    {
      good := RunRamp2(p, baseRate, 0.0, fileSize, step);
    }

    /** A ramp followed by one more command. */
    method RunRampThen(p: Phase, baseRate: real, step: real, last: Action) returns (good: bool)
      requires Clean()
      modifies this`log
      ensures if good then Clean() && log == old(log) + (Ramp(p, baseRate, 0.0, 0, step) + [last])
              else BrokenOff(old(log) + (Ramp(p, baseRate, 0.0, 0, step) + [last]))
    {
      ghost var ramp := Ramp(p, baseRate, 0.0, 0, step);
      assert old(log) + (ramp + [last]) == old(log) + ramp + [last];
      good := RunRamp(p, baseRate, 0, step);
      if good {
        good := Do(last);
      }
    }

    /** A preparation on the controller followed by its command. */
    method RunPrepared(p: Phase) returns (good: bool)
      requires Clean()
      modifies this`log
      ensures if good then Clean() && log == old(log) + [Prepare(p), Software(p, OP_TIMEOUT)]
              else BrokenOff(old(log) + [Prepare(p), Software(p, OP_TIMEOUT)])
    {
      good := Do(Prepare(p));
      if good {
        good := Do(Software(p, OP_TIMEOUT));
      }
    }

    /** The body of one branch of run. */
    method RunBranch(c: Config, n: int, p: Phase) returns (good: bool)
      requires Clean()
      modifies this`log
      ensures if good then Clean() && log == old(log) + Expand(c, n, p) else BrokenOff(old(log) + Expand(c, n, p))
    {
      var createRate, deleteRate := PerClient(c.fileCreationRate, n), PerClient(c.fileDeletionRate, n);
      var writeBW, readBW := PerClient(c.fileWriteBandwidth, n), PerClient(c.fileReadBandwidth, n);
      var step := StepSeconds(c);
      good := true;
      match p {
        case SoftwareUnpack => good := Do(Prepare(SoftwareUnpack));
        case SoftwareCold => good := Do(Software(SoftwareCold, COLD_TIMEOUT));
        case SoftwareWarm => good := Do(Software(SoftwareWarm, WARM_TIMEOUT));
        case GitClone => good := RunPrepared(GitClone);
        case Untar => good := RunPrepared(Untar);
        case Create => good := RunRamp(Create, createRate, CREATE_SIZE, step);
        case Delete => good := RunRampThen(Delete, deleteRate, step, Send(Delete, 100, deleteRate, 0.0, 0, step));
        case WriteBW => good := RunRamp(WriteBW, writeBW, BANDWIDTH_SIZE, step);
        case ReadBW => good := RunRamp(ReadBW, readBW, BANDWIDTH_SIZE, step);
        case ReadWrite => good := RunRamp2(ReadWrite, writeBW, readBW, BANDWIDTH_SIZE, step);
        case RIOPS => good := RunRandom(c, n, step);
        case FinalDelete =>
          good := RunRampThen(FinalDelete, deleteRate, step,
                              Command(FinalDelete, 100, CLEANUP_TIMEOUT, 0.0, 0.0, 0, true));
        case _ =>
      }
    }

    method RunRandom(c: Config, n: int, step: real) returns (good: bool)
      requires Clean() && step == StepSeconds(c)
      modifies this`log
      ensures if good then Clean() && log == old(log) + Expand(c, n, RIOPS)
              else BrokenOff(old(log) + Expand(c, n, RIOPS))
    {
      var riopsWrite, riopsRead := 0.0, 0.0;
      if c.randomWriteIOPS > 0.0 {
        riopsWrite := PerClient(c.randomWriteIOPS, n);
      }
      if c.randomReadIOPS > 0.0 {
        riopsRead := PerClient(c.randomReadIOPS, n);
      }
      good := Do(Send(RIOPS, 100, riopsWrite, riopsRead, RIOPS_SIZE, 5.0 * step));
    }

    /** One branch: the commands of plan[k] if it is selected. */
    method Branch(c: Config, n: int, p: Phase, selected: bool, ghost sel: Phase -> bool, ghost plan: seq<Phase>,
                  ghost k: nat)
      returns (good: bool)
      requires k < |plan| && plan[k] == p && selected == sel(p)
      requires Clean() && log == Planned(c, n, sel, plan[..k])
      modifies this`log
      ensures if good then Clean() && log == Planned(c, n, sel, plan[..k + 1]) else BrokenOff(Planned(c, n, sel, plan))
    {
      good := true;
      PlannedNext(c, n, sel, plan, k);
      if selected {
        good := RunBranch(c, n, p);
      }
    }

    /** The optional phases: unpack, cold and warm all depend on whether cold is selected. */
    method RunSoftware(c: Config, n: int, runSoftware: bool, ghost sel: Phase -> bool, ghost plan: seq<Phase>)
      returns (good: bool)
      requires log == [] && |plan| >= 3
      requires plan[0] == SoftwareUnpack && plan[1] == SoftwareCold && plan[2] == SoftwareWarm
      requires runSoftware == sel(SoftwareUnpack) == sel(SoftwareCold) == sel(SoftwareWarm)
      modifies this`log
      ensures if good then Clean() && log == Planned(c, n, sel, plan[..3]) else BrokenOff(Planned(c, n, sel, plan))
    {
      good := Branch(c, n, SoftwareUnpack, runSoftware, sel, plan, 0);
      if good {
        good := Branch(c, n, SoftwareCold, runSoftware, sel, plan, 1);
      }
      if good {
        good := Branch(c, n, SoftwareWarm, runSoftware, sel, plan, 2);
      }
    }

    /** cleanupSoftware, or cleanupSoftwareAsync, after the steps taken so far. */
    method CleanUp(blocking: bool)
      modifies this`cleanups
      ensures cleanups == old(cleanups) + [Cleanup(|log|, blocking)]
    {
      cleanups := cleanups + [Cleanup(|log|, blocking)];
    }

    /** The software phases and the removal of their tree, which later phases must wait for if they use its place. */
    method RunSoftwareAndClean(c: Config, n: int, o: Optional, sel: Phase -> bool, ghost plan: seq<Phase>)
      returns (good: bool)
      requires log == [] && cleanups == [] && |plan| >= 3
      requires plan[0] == SoftwareUnpack && plan[1] == SoftwareCold && plan[2] == SoftwareWarm
      requires o.software && sel(SoftwareUnpack) == sel(SoftwareCold) == sel(SoftwareWarm)
      modifies this`log, this`cleanups
      ensures if good then Clean() && log == Planned(c, n, sel, plan[..3]) else BrokenOff(Planned(c, n, sel, plan))
      ensures cleanups == if good then FirstCleanup(c, n, o, sel, plan) else []
    {
      good := RunSoftware(c, n, sel(SoftwareCold), sel, plan);
      if good && sel(SoftwareCold) {
        CleanUp(UsesShared(o, sel));
      }
    }

    method RunOptional(c: Config, n: int, o: Optional, sel: Phase -> bool, ghost plan: seq<Phase>, ghost k: nat)
      returns (good: bool)
      requires log == [] && cleanups == [] && StartsWithOptional(o, sel, plan, k)
      modifies this`log, this`cleanups
      ensures if good then Clean() && log == Planned(c, n, sel, plan[..k]) else BrokenOff(Planned(c, n, sel, plan))
      ensures if good then cleanups == Cleanups(c, n, o, sel, plan, k) else cleanups <= Cleanups(c, n, o, sel, plan, k)
    {
      good := true;
      if o.software {
        good := RunSoftwareAndClean(c, n, o, sel, plan);
      }
      if good {
        good := RunTools(c, n, o, sel, plan, if o.software then 3 else 0, k);
      }
      if good && UsesShared(o, sel) {
        CleanUp(false);
      }
    }

    /** The phases that share the place of the software trees. */
    method RunTools(c: Config, n: int, o: Optional, sel: Phase -> bool, ghost plan: seq<Phase>, ghost i: nat,
                    ghost k: nat)
      returns (good: bool)
      requires StartsWithOptional(o, sel, plan, k) && i == (if o.software then 3 else 0)
      requires Clean() && log == Planned(c, n, sel, plan[..i])
      modifies this`log
      ensures if good then Clean() && log == Planned(c, n, sel, plan[..k]) else BrokenOff(Planned(c, n, sel, plan))
    {
      good := true;
      if o.git {
        good := Branch(c, n, GitClone, sel(GitClone), sel, plan, i);
      }
      if good && o.untar {
        good := Branch(c, n, Untar, sel(Untar), sel, plan, if o.git then i + 1 else i);
      }
    }

    method RunCreateToWrite(c: Config, n: int, sel: Phase -> bool, ghost plan: seq<Phase>, ghost k: nat)
      returns (good: bool)
      requires EndsWithOrder(plan, k) && Clean() && log == Planned(c, n, sel, plan[..k])
      modifies this`log
      ensures if good then Clean() && log == Planned(c, n, sel, plan[..k + 3]) else BrokenOff(Planned(c, n, sel, plan))
    {
      good := Branch(c, n, Create, sel(Create), sel, plan, k);
      if good {
        good := Branch(c, n, Delete, sel(Delete), sel, plan, k + 1);
      }
      if good {
        good := Branch(c, n, WriteBW, sel(WriteBW), sel, plan, k + 2);
      }
    }

    method RunReadToEnd(c: Config, n: int, sel: Phase -> bool, ghost plan: seq<Phase>, ghost k: nat)
      returns (good: bool)
      requires EndsWithOrder(plan, k) && Clean() && log == Planned(c, n, sel, plan[..k + 3])
      modifies this`log
      ensures if good then Clean() && log == Planned(c, n, sel, plan) else BrokenOff(Planned(c, n, sel, plan))
    {
      good := Branch(c, n, ReadBW, sel(ReadBW), sel, plan, k + 3);
      if good {
        good := Branch(c, n, ReadWrite, sel(ReadWrite), sel, plan, k + 4);
      }
      if good {
        good := Branch(c, n, RIOPS, sel(RIOPS), sel, plan, k + 5);
      }
      if good {
        good := Branch(c, n, FinalDelete, sel(FinalDelete), sel, plan, k + 6);
      }
      assert plan[..k + 7] == plan;
    }

    /** run, its conditions already evaluated. */
    method RunBranches(c: Config, n: int, o: Optional, sel: Phase -> bool, ghost plan: seq<Phase>, ghost k: nat)
      returns (completed: bool)
      requires log == [] && cleanups == [] && StartsWithOptional(o, sel, plan, k) && EndsWithOrder(plan, k)
      modifies this`log, this`cleanups
      ensures if completed then Clean() && log == Planned(c, n, sel, plan) else BrokenOff(Planned(c, n, sel, plan))
      ensures if completed then cleanups == Cleanups(c, n, o, sel, plan, k)
              else cleanups <= Cleanups(c, n, o, sel, plan, k)
    {
      completed := RunOptional(c, n, o, sel, plan, k);
      if completed {
        completed := RunCreateToWrite(c, n, sel, plan, k);
      }
      if completed {
        completed := RunReadToEnd(c, n, sel, plan, k);
      }
    }

    /** run: branch by branch it carries out the schedule of a configuration whose disabled list is closed. The shared
        trees are removed right after the software phases, before anything else uses their place, and once more after
        the phases that do. */
    method Run(c: Config, n: int) returns (completed: bool)
      requires log == [] && cleanups == []
      requires Closed(PhaseToggleGroup, EffectivePhaseOrder(c), c.disabledPhases)
      modifies this`log, this`cleanups
      ensures if completed then Clean() && log == Script(c, n) else BrokenOff(Script(c, n))
      ensures if completed then cleanups == CleanupsOf(c, n) else cleanups <= CleanupsOf(c, n)
    {
      ghost var plan, k := PlanOfRun(c, n);
      completed := RunBranches(c, n, OptionalOf(c), p => PhaseSelected(c, p), plan, k);
    }
  }

  /** A removal of the shared software trees after so many steps, and whether the run waits for it. */
  datatype Cleanup = Cleanup(after: nat, blocking: bool)

  function OptionalOf(c: Config): Optional { Optional(SoftwareEnabled(c), GitCloneEnabled(c), UntarEnabled(c)) }

  /** Git or untar will use the place of the software trees. */
  predicate UsesShared(o: Optional, sel: Phase -> bool) { (o.git && sel(GitClone)) || (o.untar && sel(Untar)) }

  /** After the software phases, if they run. */
  function FirstCleanup(c: Config, n: int, o: Optional, sel: Phase -> bool, plan: seq<Phase>): seq<Cleanup>
    requires |plan| >= 3
  {
    if o.software && sel(SoftwareCold) then [Cleanup(|Planned(c, n, sel, plan[..3])|, UsesShared(o, sel))] else []
  }

  /** And after the last of the k optional phases, if one of them used the place. */
  function Cleanups(c: Config, n: int, o: Optional, sel: Phase -> bool, plan: seq<Phase>, k: nat): seq<Cleanup>
    requires k <= |plan| && (o.software ==> |plan| >= 3)
  {
    (if o.software then FirstCleanup(c, n, o, sel, plan) else [])
    + (if UsesShared(o, sel) then [Cleanup(|Planned(c, n, sel, plan[..k])|, false)] else [])
  }

  function CleanupsOf(c: Config, n: int): seq<Cleanup> {
    var plan := EffectivePhaseOrder(c);
    Cleanups(c, n, OptionalOf(c), p => PhaseSelected(c, p), plan, |plan| - 7)
  }

  /** Which optional parts are configured. */
  datatype Optional = Optional(software: bool, git: bool, untar: bool)

  ghost predicate EndsWithOrder(plan: seq<Phase>, k: nat) {
    |plan| == k + 7 && plan[k] == Create && plan[k + 1] == Delete && plan[k + 2] == WriteBW && plan[k + 3] == ReadBW
    && plan[k + 4] == ReadWrite && plan[k + 5] == RIOPS && plan[k + 6] == FinalDelete
  }

  lemma PlanEndsWithOrder(c: Config)
    ensures |EffectivePhaseOrder(c)| >= 7 && EndsWithOrder(EffectivePhaseOrder(c), |EffectivePhaseOrder(c)| - 7)
  {}

  /** The optional phases at the start of a plan, the software phases selected together. */
  ghost predicate StartsWithOptional(o: Optional, sel: Phase -> bool, plan: seq<Phase>, k: nat) {
    var git := if o.software then 3 else 0;
    var untar := if o.git then git + 1 else git;
    k == (if o.untar then untar + 1 else untar) && k <= |plan|
    && (o.software ==> plan[0] == SoftwareUnpack && plan[1] == SoftwareCold && plan[2] == SoftwareWarm)
    && (o.software ==> sel(SoftwareUnpack) == sel(SoftwareCold) == sel(SoftwareWarm))
    && (o.git ==> plan[git] == GitClone)
    && (o.untar ==> plan[untar] == Untar)
  }

  lemma PlanOfRun(c: Config, n: int) returns (plan: seq<Phase>, k: nat)
    requires Closed(PhaseToggleGroup, EffectivePhaseOrder(c), c.disabledPhases)
    ensures plan == EffectivePhaseOrder(c) && Script(c, n) == Planned(c, n, p => PhaseSelected(c, p), plan)
    ensures StartsWithOptional(OptionalOf(c), p => PhaseSelected(c, p), plan, k)
    ensures EndsWithOrder(plan, k) && k == |plan| - 7
  {
    plan := EffectivePhaseOrder(c);
    k := |plan| - 7;
    PlanEndsWithOrder(c);
    PlanStartsWithOptional(c);
    ScriptIsPlanned(c, n);
    if SoftwareEnabled(c) {
      SoftwareTogether(c);
    }
  }

  lemma PlanStartsWithOptional(c: Config)
    ensures var o, plan := Optional(SoftwareEnabled(c), GitCloneEnabled(c), UntarEnabled(c)), EffectivePhaseOrder(c);
            |plan| >= 7 && StartsWithOptional(o, p => true, plan, |plan| - 7)
  {}

  lemma {:induction false} LadderPrefix(p: Phase, write: real, read: real, fileSize: int, step: real, j: nat, k: nat)
    requires j <= k
    ensures Ladder(p, write, read, fileSize, step, j) <= Ladder(p, write, read, fileSize, step, k)
    decreases k
  {
    if j < k {
      LadderPrefix(p, write, read, fileSize, step, j, k - 1);
    }
  }

  // ---- Selected phases of a piece of the plan ------------------------------------------------------

  /** The commands of the selected phases of `order`. */
  function Planned(c: Config, n: int, sel: Phase -> bool, order: seq<Phase>): seq<Action> {
    Flatten(p => Expand(c, n, p), Keep(order, sel))
  }

  lemma ScriptIsPlanned(c: Config, n: int)
    requires Closed(PhaseToggleGroup, EffectivePhaseOrder(c), c.disabledPhases)
    ensures Script(c, n) == Planned(c, n, p => PhaseSelected(c, p), EffectivePhaseOrder(c))
  {
    var plan := EffectivePhaseOrder(c);
    var d := Normalized(PhaseToggleGroup, plan, c.disabledPhases);
    SelectedIffActive(c);
    KeepMembers(plan, p => p !in d);
    forall p | p in plan
      ensures PhaseSelected(c, p) == (p !in d)
    {
      assert PhaseSelected(c, p) <==> p in ActivePhaseOrder(c);
    }
    KeepEqual(plan, p => PhaseSelected(c, p), p => p !in d);
  }

  lemma {:induction false} KeepConcat(a: seq<Phase>, b: seq<Phase>, f: Phase -> bool)
    ensures Keep(a + b, f) == Keep(a, f) + Keep(b, f)
    decreases |b|
  {
    if b == [] {
      assert a + b == a;
    } else {
      KeepConcat(a, b[..|b| - 1], f);
      assert (a + b)[..|a + b| - 1] == a + b[..|b| - 1];
    }
  }

  lemma {:induction false} FlattenConcat(expand: Phase -> seq<Action>, a: seq<Phase>, b: seq<Phase>)
    ensures Flatten(expand, a + b) == Flatten(expand, a) + Flatten(expand, b)
    decreases |b|
  {
    if b == [] {
      assert a + b == a;
    } else {
      FlattenConcat(expand, a, b[..|b| - 1]);
      assert (a + b)[..|a + b| - 1] == a + b[..|b| - 1];
    }
  }

  lemma PlannedConcat(c: Config, n: int, sel: Phase -> bool, a: seq<Phase>, b: seq<Phase>)
    ensures Planned(c, n, sel, a + b) == Planned(c, n, sel, a) + Planned(c, n, sel, b)
  {
    KeepConcat(a, b, sel);
    FlattenConcat(p => Expand(c, n, p), Keep(a, sel), Keep(b, sel));
  }

  lemma PlannedNext(c: Config, n: int, sel: Phase -> bool, plan: seq<Phase>, k: nat)
    requires k < |plan|
    ensures Planned(c, n, sel, plan[..k + 1])
         == if sel(plan[k]) then Planned(c, n, sel, plan[..k]) + Expand(c, n, plan[k])
            else Planned(c, n, sel, plan[..k])
    ensures Planned(c, n, sel, plan[..k + 1]) <= Planned(c, n, sel, plan)
  {
    PlannedSnoc(c, n, sel, plan[..k], plan[k]);
    assert plan[..k + 1] == plan[..k] + [plan[k]];
    PlannedConcat(c, n, sel, plan[..k + 1], plan[k + 1..]);
    assert plan == plan[..k + 1] + plan[k + 1..];
  }

  lemma PlannedSnoc(c: Config, n: int, sel: Phase -> bool, order: seq<Phase>, p: Phase)
    ensures Planned(c, n, sel, order + [p])
         == if sel(p) then Planned(c, n, sel, order) + Expand(c, n, p) else Planned(c, n, sel, order)
  {
    assert (order + [p])[..|order|] == order;
    var kept := Keep(order, sel);
    if sel(p) {
      assert (kept + [p])[..|kept|] == kept;
    } else {
      assert Keep(order + [p], sel) == kept;
    }
  }

  lemma SoftwareTogether(c: Config)
    requires Closed(PhaseToggleGroup, EffectivePhaseOrder(c), c.disabledPhases) && SoftwareEnabled(c)
    ensures PhaseSelected(c, SoftwareUnpack) == PhaseSelected(c, SoftwareCold) == PhaseSelected(c, SoftwareWarm)
  {
    var plan := EffectivePhaseOrder(c);
    assert SoftwareUnpack in plan && SoftwareCold in plan && SoftwareWarm in plan;
    assert forall d, g :: d in c.disabledPhases && g in PhaseToggleGroup(d) && g in plan ==> g in c.disabledPhases;
    var group := PhaseToggleGroup(SoftwareUnpack);
    assert PhaseToggleGroup(SoftwareCold) == group && PhaseToggleGroup(SoftwareWarm) == group;
    assert SoftwareUnpack in group && SoftwareCold in group && SoftwareWarm in group;
  }
}
