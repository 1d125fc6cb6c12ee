/** What the schedule of a run consists of: which commands each active phase stands for, in which order, and what they
    ask of the clients, in terms of the configuration. */
module PhaseSteps {
  import opened Basics
  import opened Phases
  import opened Schedule

  /** The steps that carry a phase, in order. */
  function OfPhase(script: seq<Action>, p: Phase): seq<Action> {
    if script == [] then []
    else
      var last := script[|script| - 1];
      OfPhase(script[..|script| - 1], p) + (if last.phase == p then [last] else [])
  }

  lemma {:induction false} OfPhaseConcat(a: seq<Action>, b: seq<Action>, p: Phase)
    ensures OfPhase(a + b, p) == OfPhase(a, p) + OfPhase(b, p)
    decreases |b|
  {
    if b == [] {
      assert a + b == a;
    } else {
      OfPhaseConcat(a, b[..|b| - 1], p);
      assert (a + b)[..|a + b| - 1] == a + b[..|b| - 1];
    }
  }

  lemma {:induction false} AllOfPhase(s: seq<Action>, q: Phase, p: Phase)
    requires forall i :: 0 <= i < |s| ==> s[i].phase == q
    ensures OfPhase(s, p) == if p == q then s else []
  {
    if s != [] {
      AllOfPhase(s[..|s| - 1], q, p);
      assert s == s[..|s| - 1] + [s[|s| - 1]];
    }
  }

  lemma {:induction false} OfPhaseFlatten(c: Config, n: int, order: seq<Phase>, p: Phase)
    requires Distinct(order)
    ensures OfPhase(Flatten(q => Expand(c, n, q), order), p) == if p in order then Expand(c, n, p) else []
  {
    if order != [] {
      var front, last := order[..|order| - 1], order[|order| - 1];
      assert order == front + [last];
      OfPhaseFlatten(c, n, front, p);
      OfPhaseConcat(Flatten(q => Expand(c, n, q), front), Expand(c, n, last), p);
      AllOfPhase(Expand(c, n, last), last, p);
    }
  }

  lemma ActiveDistinct(c: Config)
    ensures Distinct(ActivePhaseOrder(c)) && forall p :: p in ActivePhaseOrder(c) ==> p in EffectivePhaseOrder(c)
  {
    PlanFacts(c);
    var plan := EffectivePhaseOrder(c);
    var d := Normalized(PhaseToggleGroup, plan, c.disabledPhases);
    KeepMembers(plan, p => p !in d);
  }

  lemma OwnSteps(c: Config, n: int, p: Phase)
    ensures OfPhase(Script(c, n), p) == if p in ActivePhaseOrder(c) then Expand(c, n, p) else []
  {
    ActiveDistinct(c);
    OfPhaseFlatten(c, n, ActivePhaseOrder(c), p);
  }

  // ---- Which commands ------------------------------------------------------------------------------

  /** k commands at 10, 20, 30, ... percent. */
  ghost predicate Climbs(s: seq<Action>, k: nat) {
    k <= |s| && forall i :: 0 <= i < k ==> s[i].Command? && s[i].percent == 10 * (i + 1)
  }

  /** What each active phase stands for, and that the others have no step. */
  lemma StepsOfPhase(c: Config, n: int, p: Phase)
    ensures var own, active := OfPhase(Script(c, n), p), ActivePhaseOrder(c);
            (p !in active ==> own == [])
            && (p in active && p in {Create, WriteBW, ReadBW, ReadWrite} ==> |own| == 10 && Climbs(own, 10))
            && (p in active && p in {Delete, FinalDelete} ==>
                  |own| == 11 && Climbs(own, 10) && own[10].Command? && own[10].percent == 100)
            && (p in active && p in {SoftwareCold, SoftwareWarm, RIOPS} ==>
                  |own| == 1 && own[0].Command? && own[0].percent == 100)
            && (p in active && p in {GitClone, Untar} ==>
                  |own| == 2 && own[0] == Prepare(p) && own[1].Command? && own[1].percent == 100)
            && (p in active && p == SoftwareUnpack ==> own == [Prepare(p)])
  {
    OwnSteps(c, n, p);
    if p in {Create, WriteBW, ReadBW, ReadWrite, Delete, FinalDelete} {
      ExpandClimbs(c, n, p);
    }
  }

  lemma ExpandClimbs(c: Config, n: int, p: Phase)
    requires p in {Create, WriteBW, ReadBW, ReadWrite, Delete, FinalDelete}
    ensures var s, extra := Expand(c, n, p), p in {Delete, FinalDelete};
            |s| == (if extra then 11 else 10) && Climbs(s, 10) && (extra ==> s[10].Command? && s[10].percent == 100)
  {
    var write, read := PerClient(c.fileWriteBandwidth, n), PerClient(c.fileReadBandwidth, n);
    var step := StepSeconds(c);
    if p == Create {
      LadderClimbs(p, PerClient(c.fileCreationRate, n), 0.0, CREATE_SIZE, step, 10);
    } else if p == WriteBW {
      LadderClimbs(p, write, 0.0, BANDWIDTH_SIZE, step, 10);
    } else if p == ReadBW {
      LadderClimbs(p, read, 0.0, BANDWIDTH_SIZE, step, 10);
    } else if p == ReadWrite {
      LadderClimbs(p, write, read, BANDWIDTH_SIZE, step, 10);
    } else {
      LadderClimbs(p, PerClient(c.fileDeletionRate, n), 0.0, 0, step, 10);
    }
  }

  lemma {:induction false} LadderClimbs(p: Phase, write: real, read: real, fileSize: int, step: real, k: nat)
    ensures var s := Ladder(p, write, read, fileSize, step, k);
            |s| == k && forall i :: 0 <= i < k ==> s[i] == Rung(p, write, read, fileSize, step, 10 * (i + 1))
  {
    if k > 0 {
      LadderClimbs(p, write, read, fileSize, step, k - 1);
    }
  }

  // ---- What they ask -------------------------------------------------------------------------------

  /** Each step is one of those of an active phase, next to the others of that phase. */
  lemma {:induction false} FromAPhase(c: Config, n: int, order: seq<Phase>, i: nat) returns (q: Phase, k: nat)
    requires i < |Flatten(p => Expand(c, n, p), order)|
    ensures q in order && k < |Expand(c, n, q)| && Flatten(p => Expand(c, n, p), order)[i] == Expand(c, n, q)[k]
    ensures var s, e := Flatten(p => Expand(c, n, p), order), Expand(c, n, q);
            k < |e| && (k + 1 < |e| ==> i + 1 < |s| && s[i + 1] == e[k + 1])
            && (k > 0 ==> i > 0 && s[i - 1] == e[k - 1])
    decreases |order|
  {
    var front, last := order[..|order| - 1], order[|order| - 1];
    var done := Flatten(p => Expand(c, n, p), front);
    if i < |done| {
      q, k := FromAPhase(c, n, front, i);
    } else {
      q, k := last, i - |done|;
    }
  }

  lemma LadderRates(p: Phase, write: real, read: real, fileSize: int, step: real, k: nat)
    requires k < 10
    ensures var a := Ramp(p, write, read, fileSize, step)[k];
            a == Command(p, 10 * (k + 1), step, write * (10 * (k + 1)) as real / 100.0,
                         read * (10 * (k + 1)) as real / 100.0, fileSize, false)
  {
    LadderClimbs(p, write, read, fileSize, step, 10);
  }

  /** Percent of a rate, over n clients, is that percent of the whole. */
  lemma Share(global: real, n: int, pct: int)
    requires n >= 1
    ensures n as real * (PerClient(global, n) * pct as real / 100.0) * 100.0 == pct as real * global
    ensures n as real * PerClient(global, n) == global
  {
    assert n as real * PerClient(global, n) == global;
    Regroup(n as real, PerClient(global, n), pct as real);
  }

  lemma Regroup(n: real, share: real, pct: real)
    ensures n * (share * pct / 100.0) * 100.0 == pct * (n * share)
  {
    assert share * pct / 100.0 * 100.0 == share * pct;
    assert n * (share * pct / 100.0) * 100.0 == n * (share * pct / 100.0 * 100.0);
    assert n * (share * pct) == pct * (n * share);
  }

  /** Together n clients are asked for these rates; the lengths of the commands, and the sizes of their files. */
  ghost predicate Asks(a: Action, n: int, write: real, read: real, fileSize: int, duration: real) {
    a.Command? && n as real * a.rate * 100.0 == a.percent as real * write
    && n as real * a.readRate * 100.0 == a.percent as real * read && a.fileSize == fileSize && a.duration == duration
  }

  lemma RungAsks(p: Phase, write: real, read: real, n: int, fileSize: int, step: real, k: nat)
    requires k < 10 && n >= 1
    ensures var a := Ramp(p, PerClient(write, n), PerClient(read, n), fileSize, step)[k];
            Asks(a, n, write, read, fileSize, step) && !a.force && a.phase == p
  {
    LadderRates(p, PerClient(write, n), PerClient(read, n), fileSize, step, k);
    Share(write, n, 10 * (k + 1));
    Share(read, n, 10 * (k + 1));
  }

  /** The rates of phase p, as the configuration gives them. */
  lemma PhaseAsks(c: Config, n: int, p: Phase, k: nat)
    requires n >= 1 && k < |Expand(c, n, p)| && Expand(c, n, p)[k].Command?
    ensures var a, step := Expand(c, n, p)[k], if c.phaseStepSeconds <= 0.0 then 30.0 else c.phaseStepSeconds;
            a.phase == p && Demanded(c, n, a, step) && (a.force <==> p == FinalDelete && k == 10)
  {
    assert PerClient(0.0, n) == 0.0;
    if p == Create {
      RungAsks(p, c.fileCreationRate, 0.0, n, CREATE_SIZE, StepSeconds(c), k);
    } else if p == WriteBW {
      RungAsks(p, c.fileWriteBandwidth, 0.0, n, BANDWIDTH_SIZE, StepSeconds(c), k);
    } else if p == ReadBW {
      RungAsks(p, c.fileReadBandwidth, 0.0, n, BANDWIDTH_SIZE, StepSeconds(c), k);
    } else if p == ReadWrite {
      RungAsks(p, c.fileWriteBandwidth, c.fileReadBandwidth, n, BANDWIDTH_SIZE, StepSeconds(c), k);
    } else if p == Delete || p == FinalDelete {
      DeletionAsks(c, n, p, k);
    } else if p == RIOPS {
      CeilingAsks(c, n);
    }
  }

  /** What a command of each phase asks for. */
  ghost predicate Demanded(c: Config, n: int, a: Action, step: real)
    requires a.Command?
  {
    match a.phase
    case Create => Asks(a, n, c.fileCreationRate, 0.0, 4096, step)
    case Delete => Asks(a, n, c.fileDeletionRate, 0.0, 0, step)
    case WriteBW => Asks(a, n, c.fileWriteBandwidth, 0.0, 0x400_0000, step)
    case ReadBW => Asks(a, n, c.fileReadBandwidth, 0.0, 0x400_0000, step)
    case ReadWrite => Asks(a, n, c.fileWriteBandwidth, c.fileReadBandwidth, 0x400_0000, step)
    case RIOPS =>
      Asks(a, n, if c.randomWriteIOPS > 0.0 then c.randomWriteIOPS else 0.0,
           if c.randomReadIOPS > 0.0 then c.randomReadIOPS else 0.0, 0x4000_0000, 5.0 * step)
    case FinalDelete =>
      if a.force then Asks(a, n, 0.0, 0.0, 0, 1800.0) else Asks(a, n, c.fileDeletionRate, 0.0, 0, step)
    case SoftwareCold => Asks(a, n, 0.0, 0.0, 0, 600.0)
    case SoftwareWarm => Asks(a, n, 0.0, 0.0, 0, 300.0)
    case _ => Asks(a, n, 0.0, 0.0, 0, 1800.0)
  }

  lemma DeletionAsks(c: Config, n: int, p: Phase, k: nat)
    requires n >= 1 && p in {Delete, FinalDelete} && k < 11
    ensures |Expand(c, n, p)| == 11 && Expand(c, n, p)[k].Command?
    ensures Demanded(c, n, Expand(c, n, p)[k], StepSeconds(c))
    ensures Expand(c, n, p)[k].force <==> p == FinalDelete && k == 10
  {
    assert PerClient(0.0, n) == 0.0;
    if k < 10 {
      RungAsks(p, c.fileDeletionRate, 0.0, n, 0, StepSeconds(c), k);
    } else {
      Share(c.fileDeletionRate, n, 100);
    }
  }

  lemma CeilingAsks(c: Config, n: int)
    requires n >= 1
    ensures Demanded(c, n, Expand(c, n, RIOPS)[0], StepSeconds(c))
  {
    Share(c.randomWriteIOPS, n, 100);
    Share(c.randomReadIOPS, n, 100);
  }

  /** What every command of a schedule asks for. */
  lemma CommandAsks(c: Config, n: int, i: nat)
    requires n >= 1 && i < |Script(c, n)| && Script(c, n)[i].Command?
    ensures Demanded(c, n, Script(c, n)[i], if c.phaseStepSeconds <= 0.0 then 30.0 else c.phaseStepSeconds)
  {
    var q, k := FromAPhase(c, n, ActivePhaseOrder(c), i);
    PhaseAsks(c, n, q, k);
  }

  // ---- Where they stand ----------------------------------------------------------------------------

  lemma FinalDeleteLast(c: Config)
    ensures FinalDelete in ActivePhaseOrder(c) ==>
              |ActivePhaseOrder(c)| > 0 && ActivePhaseOrder(c)[|ActivePhaseOrder(c)| - 1] == FinalDelete
  {
    var plan := EffectivePhaseOrder(c);
    var d := Normalized(PhaseToggleGroup, plan, c.disabledPhases);
    PlanFacts(c);
    assert plan[|plan| - 3..][2] == plan[|plan| - 1];
    KeepMembers(plan, p => p !in d);
  }

  /** A forced wipe is asked for exactly by the last command of a run whose final delete is active. */
  lemma ForcedIsLast(c: Config, n: int, i: nat)
    requires n >= 1 && i < |Script(c, n)| && Script(c, n)[i].Command?
    ensures Script(c, n)[i].force <==> FinalDelete in ActivePhaseOrder(c) && i == |Script(c, n)| - 1
  {
    var order := ActivePhaseOrder(c);
    var front, last := order[..|order| - 1], order[|order| - 1];
    var done := Flatten(p => Expand(c, n, p), front);
    ActiveDistinct(c);
    FinalDeleteLast(c);
    if i < |done| {
      var q, k := FromAPhase(c, n, front, i);
      PhaseAsks(c, n, q, k);
      assert q != last;
    } else {
      PhaseAsks(c, n, last, i - |done|);
      if last == FinalDelete {
        DeletionAsks(c, n, last, i - |done|);
      }
    }
  }

  /** The software phases are active together, before all others. */
  lemma SoftwareFirst(c: Config)
    requires SoftwareUnpack in ActivePhaseOrder(c) || SoftwareCold in ActivePhaseOrder(c)
    ensures |ActivePhaseOrder(c)| >= 3 && ActivePhaseOrder(c)[..3] == [SoftwareUnpack, SoftwareCold, SoftwareWarm]
  {
    var plan := EffectivePhaseOrder(c);
    var d := Normalized(PhaseToggleGroup, plan, c.disabledPhases);
    var f := (p: Phase) => p !in d;
    PlanFacts(c);
    ToggleGroupsPartition();
    NormalizedIsNormal(PhaseToggleGroup, plan, c.disabledPhases);
    KeepMembers(plan, f);
    PlanMembers(c);
    assert SoftwareEnabled(c);
    var group := PhaseToggleGroup(SoftwareUnpack);
    assert group == PhaseToggleGroup(SoftwareCold) == PhaseToggleGroup(SoftwareWarm);
    assert SoftwareUnpack in group && SoftwareCold in group && SoftwareWarm in group;
    assert SoftwareUnpack in d <==> SoftwareCold in d;
    assert SoftwareUnpack in d <==> SoftwareWarm in d;
    var head := [SoftwareUnpack, SoftwareCold, SoftwareWarm];
    assert plan[..3] == head;
    assert plan == head + plan[3..];
    KeepConcat(head, plan[3..], f);
    KeepAll(head, f);
    assert Keep(plan, f) == head + Keep(plan[3..], f);
  }

  lemma {:induction false} StartsWith(c: Config, n: int, order: seq<Phase>)
    requires |order| >= 3 && order[..3] == [SoftwareUnpack, SoftwareCold, SoftwareWarm]
    ensures Expand(c, n, SoftwareUnpack) + Expand(c, n, SoftwareCold) <= Flatten(p => Expand(c, n, p), order)
  {
    var f := p => Expand(c, n, p);
    var head := [SoftwareUnpack, SoftwareCold];
    assert head + order[2..] == order;
    FlattenConcat(f, head, order[2..]);
    assert head[..1] == [SoftwareUnpack];
    assert Flatten(f, head[..1]) == Flatten(f, head[..1][..0]) + f(SoftwareUnpack);
    assert Flatten(f, head) == f(SoftwareUnpack) + f(SoftwareCold);
  }

  /** A preparation stands directly before the command it is for, and such a command directly behind it. */
  lemma PreparedDirectly(c: Config, n: int, i: nat)
    requires i < |Script(c, n)|
    ensures var s := Script(c, n);
            (s[i].Prepare? ==>
               i + 1 < |s| && s[i + 1].Command?
               && s[i + 1].phase == (if s[i].phase == SoftwareUnpack then SoftwareCold else s[i].phase))
            && (s[i].Command? && s[i].phase == SoftwareCold ==> i == 1 && s[0] == Prepare(SoftwareUnpack))
            && (s[i].Command? && s[i].phase in {GitClone, Untar} ==> i > 0 && s[i - 1] == Prepare(s[i].phase))
  {
    var order, s := ActivePhaseOrder(c), Script(c, n);
    var q, k := FromAPhase(c, n, order, i);
    assert s[i].phase == q;
    if q in {SoftwareUnpack, SoftwareCold} {
      SoftwareFirst(c);
      StartsWith(c, n, order);
      assert s[0] == Prepare(SoftwareUnpack) && s[1] == Software(SoftwareCold, COLD_TIMEOUT);
      if q == SoftwareUnpack {
        OnceOnly(c, n, q, i, 0);
      } else {
        OnceOnly(c, n, q, i, 1);
      }
    } else {
      OneOfTwo(c, n, q, k);
    }
  }

  /** Of the other phases only the shared tools are prepared, with their command next. */
  lemma OneOfTwo(c: Config, n: int, q: Phase, k: nat)
    requires q !in {SoftwareUnpack, SoftwareCold} && k < |Expand(c, n, q)|
    ensures var e := Expand(c, n, q);
            (e[k].Prepare? ==> k == 0 && |e| == 2 && e[1].Command? && e[1].phase == q)
            && (q in {GitClone, Untar} && e[k].Command? ==> k == 1 && e[0] == Prepare(q))
  {
    var write, read := PerClient(c.fileWriteBandwidth, n), PerClient(c.fileReadBandwidth, n);
    if k < 10 {
      LadderRates(q, PerClient(c.fileCreationRate, n), 0.0, CREATE_SIZE, StepSeconds(c), k);
      LadderRates(q, PerClient(c.fileDeletionRate, n), 0.0, 0, StepSeconds(c), k);
      LadderRates(q, write, 0.0, BANDWIDTH_SIZE, StepSeconds(c), k);
      LadderRates(q, read, 0.0, BANDWIDTH_SIZE, StepSeconds(c), k);
      LadderRates(q, write, read, BANDWIDTH_SIZE, StepSeconds(c), k);
    }
  }

  /** A phase of one step has it in one place. */
  lemma OnceOnly(c: Config, n: int, q: Phase, i: nat, j: nat)
    requires i < |Script(c, n)| && j < |Script(c, n)| && Script(c, n)[i].phase == Script(c, n)[j].phase == q
    requires |Expand(c, n, q)| == 1
    ensures i == j
  {
    OwnSteps(c, n, q);
    if i != j {
      CountOf(Script(c, n), q, if i < j then i else j, if i < j then j else i);
    }
  }

  lemma {:induction false} CountOf(s: seq<Action>, q: Phase, i: nat, j: nat)
    requires i < j < |s| && s[i].phase == s[j].phase == q
    ensures |OfPhase(s, q)| >= 2
  {
    var n := |s| - 1;
    if j < n {
      CountOf(s[..n], q, i, j);
    } else {
      Counted(s[..n], q, i);
    }
  }

  lemma {:induction false} Counted(s: seq<Action>, q: Phase, i: nat)
    requires i < |s| && s[i].phase == q
    ensures |OfPhase(s, q)| >= 1
  {
    if i < |s| - 1 {
      Counted(s[..|s| - 1], q, i);
    }
  }

  // ---- The removals of the shared trees ------------------------------------------------------------

  /** How many steps the first phases of a plan come to. */
  function Steps(c: Config, n: int, sel: Phase -> bool, plan: seq<Phase>, k: nat): nat
    requires k <= |plan|
  {
    |Planned(c, n, sel, plan[..k])|
  }

  /** One more phase of the plan, if it is an optional one. */
  lemma OptionalStep(c: Config, n: int, sel: Phase -> bool, plan: seq<Phase>, k: nat, p: Phase, steps: nat)
    requires k < |plan| && plan[k] == p && |Expand(c, n, p)| == steps
    ensures Steps(c, n, sel, plan, k + 1) == Steps(c, n, sel, plan, k) + (if sel(p) then steps else 0)
  {
    PlannedNext(c, n, sel, plan, k);
  }

  lemma SoftwareSteps(c: Config, n: int, sel: Phase -> bool, plan: seq<Phase>)
    requires |plan| >= 3 && plan[0] == SoftwareUnpack && plan[1] == SoftwareCold && plan[2] == SoftwareWarm
    requires sel(SoftwareUnpack) == sel(SoftwareCold) == sel(SoftwareWarm)
    ensures Steps(c, n, sel, plan, 3) == if sel(SoftwareCold) then 3 else 0
  {
    OptionalStep(c, n, sel, plan, 0, SoftwareUnpack, 1);
    OptionalStep(c, n, sel, plan, 1, SoftwareCold, 1);
    OptionalStep(c, n, sel, plan, 2, SoftwareWarm, 1);
    NoSteps(c, n, sel, plan);
  }

  lemma NoSteps(c: Config, n: int, sel: Phase -> bool, plan: seq<Phase>)
    ensures Steps(c, n, sel, plan, 0) == 0
  {}

  lemma ToolStep(c: Config, n: int, sel: Phase -> bool, plan: seq<Phase>, i: nat, on: bool, p: Phase) returns (j: nat)
    requires (p == GitClone || p == Untar) && i <= |plan| && (on ==> i < |plan| && plan[i] == p)
    ensures j == (if on then i + 1 else i) && j <= |plan|
    ensures Steps(c, n, sel, plan, j) == Steps(c, n, sel, plan, i) + (if on && sel(p) then 2 else 0)
  {
    j := i;
    if on {
      OptionalStep(c, n, sel, plan, i, p, 2);
      j := i + 1;
    }
  }

  lemma ToolsFrom(c: Config, n: int, git: bool, untar: bool, sel: Phase -> bool, plan: seq<Phase>, i: nat)
    returns (k: nat)
    requires i + (if git then 1 else 0) + (if untar then 1 else 0) <= |plan|
    requires git ==> plan[i] == GitClone
    requires untar ==> plan[if git then i + 1 else i] == Untar
    ensures k == i + (if git then 1 else 0) + (if untar then 1 else 0)
    ensures Steps(c, n, sel, plan, k) == Steps(c, n, sel, plan, i) + (if git && sel(GitClone) then 2 else 0)
                                         + (if untar && sel(Untar) then 2 else 0)
  {
    var j := ToolStep(c, n, sel, plan, i, git, GitClone);
    k := ToolStep(c, n, sel, plan, j, untar, Untar);
  }

  /** How many steps the optional phases come to. */
  lemma ToolSteps(c: Config, n: int, o: Optional, sel: Phase -> bool, plan: seq<Phase>, k: nat)
    requires StartsWithOptional(o, sel, plan, k)
    ensures Steps(c, n, sel, plan, k)
         == (if o.software && sel(SoftwareCold) then 3 else 0) + (if o.git && sel(GitClone) then 2 else 0)
            + (if o.untar && sel(Untar) then 2 else 0)
    ensures o.software ==> |plan| >= 3 && Steps(c, n, sel, plan, 3) == if sel(SoftwareCold) then 3 else 0
  {
    if o.software {
      SoftwareSteps(c, n, sel, plan);
      var l := ToolsFrom(c, n, o.git, o.untar, sel, plan, 3);
    } else {
      NoSteps(c, n, sel, plan);
      var l := ToolsFrom(c, n, o.git, o.untar, sel, plan, 0);
    }
  }

  /** Of a completed run: one after the three steps of the software phases, which the run waits for exactly when git or
      untar follows, and one it does not wait for after the steps of those. */
  lemma CleanupsOfRun(c: Config, n: int)
    requires Closed(PhaseToggleGroup, EffectivePhaseOrder(c), c.disabledPhases)
    ensures var a := ActivePhaseOrder(c);
            var first := if SoftwareCold in a then 3 else 0;
            var later := (if GitClone in a then 2 else 0) + (if Untar in a then 2 else 0);
            var one := if first > 0 then [Cleanup(first, later > 0)] else [];
            CleanupsOf(c, n) == one + if later > 0 then [Cleanup(first + later, false)] else []
  {
    var plan, k := PlanOfRun(c, n);
    var o, sel := OptionalOf(c), (p: Phase) => PhaseSelected(c, p);
    SelectedIffActive(c);
    OptionalInPlan(c);
    ToolSteps(c, n, o, sel, plan, k);
    CleanupsFrom(c, n, o, sel, plan, k);
  }

  lemma OptionalInPlan(c: Config)
    ensures SoftwareCold in EffectivePhaseOrder(c) <==> SoftwareEnabled(c)
    ensures GitClone in EffectivePhaseOrder(c) <==> GitCloneEnabled(c)
    ensures Untar in EffectivePhaseOrder(c) <==> UntarEnabled(c)
  {
    PlanMembers(c);
  }

  lemma CleanupsFrom(c: Config, n: int, o: Optional, sel: Phase -> bool, plan: seq<Phase>, k: nat)
    requires StartsWithOptional(o, sel, plan, k)
    requires sel(SoftwareCold) ==> o.software
    requires sel(GitClone) ==> o.git
    requires sel(Untar) ==> o.untar
    ensures var first := if sel(SoftwareCold) then 3 else 0;
            var later := (if sel(GitClone) then 2 else 0) + (if sel(Untar) then 2 else 0);
            var one := if first > 0 then [Cleanup(first, later > 0)] else [];
            Cleanups(c, n, o, sel, plan, k) == one + if later > 0 then [Cleanup(first + later, false)] else []
  {
    ToolSteps(c, n, o, sel, plan, k);
  }
}
