/** The phase plan: which phases a configuration runs, which are switched off, and how toggles keep that consistent. */
module Phases {
  import opened Basics

  datatype Phase = Idle | SoftwareUnpack | SoftwareCold | SoftwareWarm | GitClone | Untar | Create | Delete | WriteBW
                 | ReadBW | ReadWrite | RIOPS | FinalDelete | Stopped | Other(name: string)

  datatype Config = Config(fileCreationRate: real, fileDeletionRate: real, fileWriteBandwidth: real,
                           fileReadBandwidth: real, phaseStepSeconds: real, randomWriteIOPS: real,
                           randomReadIOPS: real, packageURL: string, startupCommand: string, gitCloneURL: string,
                           untarURL: string, disabledPhases: seq<Phase>)

  /** The characters TrimSpace strips. */
  predicate IsSpace(c: char) {
    c in {'\t', '\n', '\U{000B}', '\U{000C}', '\r', ' ', '\U{0085}', '\U{00A0}', '\U{1680}', '\U{2028}', '\U{2029}',
          '\U{202F}', '\U{205F}', '\U{3000}'}
    || '\U{2000}' <= c <= '\U{200A}'
  }

  /** TrimSpace leaves nothing. */
  predicate Blank(s: string) { forall i :: 0 <= i < |s| ==> IsSpace(s[i]) }

  predicate SoftwareEnabled(c: Config) { !Blank(c.packageURL) && !Blank(c.startupCommand) }

  predicate GitCloneEnabled(c: Config) { !Blank(c.gitCloneURL) }

  predicate UntarEnabled(c: Config) { !Blank(c.untarURL) }

  const PHASE_ORDER := [Create, Delete, WriteBW, ReadBW, ReadWrite, RIOPS, FinalDelete]

  function EffectivePhaseOrder(c: Config): seq<Phase> {
    (if SoftwareEnabled(c) then [SoftwareUnpack, SoftwareCold, SoftwareWarm] else [])
    + (if GitCloneEnabled(c) then [GitClone] else [])
    + (if UntarEnabled(c) then [Untar] else [])
    + PHASE_ORDER
  }

  function PhaseToggleGroup(p: Phase): (g: seq<Phase>)
    ensures p in g && Distinct(g) && |g| <= 3
  {
    match p
    case SoftwareUnpack => [SoftwareUnpack, SoftwareCold, SoftwareWarm]
    case SoftwareCold => [SoftwareUnpack, SoftwareCold, SoftwareWarm]
    case SoftwareWarm => [SoftwareUnpack, SoftwareCold, SoftwareWarm]
    case Create => [Create, Delete]
    case Delete => [Create, Delete]
    case _ => [p]
  }

  /** A way to partition the phases into short lists. Normalization works for any. */
  type Grouping = Phase -> seq<Phase>

  ghost predicate Partition(group: Grouping) {
    forall p :: p in group(p) && Distinct(group(p)) && forall q :: q in group(p) ==> group(q) == group(p)
  }

  lemma ToggleGroupsPartition()
    ensures Partition(PhaseToggleGroup)
  {}

  /** Phases that are toggled together: the three software phases, and create with delete. */
  ghost predicate Together(p: Phase, q: Phase) {
    p == q || (p in {SoftwareUnpack, SoftwareCold, SoftwareWarm} && q in {SoftwareUnpack, SoftwareCold, SoftwareWarm})
    || (p in {Create, Delete} && q in {Create, Delete})
  }

  lemma GroupIsTogether(p: Phase)
    ensures forall q :: q in PhaseToggleGroup(p) <==> Together(p, q)
  {}

  predicate PhaseDisabled(c: Config, p: Phase) { p in c.disabledPhases }

  predicate PhaseSelected(c: Config, p: Phase) { p in EffectivePhaseOrder(c) && !PhaseDisabled(c, p) }

  /** The members of `order` that satisfy the test, in order. */
  function Keep(order: seq<Phase>, f: Phase -> bool): seq<Phase> {
    if order == [] then []
    else Keep(order[..|order| - 1], f) + (if f(order[|order| - 1]) then [order[|order| - 1]] else [])
  }

  // ---- Normalization ------------------------------------------------------------------------------

  /** Appends the members of the group that are in the plan and not there yet. */
  function Extend(plan: seq<Phase>, acc: seq<Phase>, group: seq<Phase>): seq<Phase> {
    if group == [] then acc
    else
      var rest, g := Extend(plan, acc, group[..|group| - 1]), group[|group| - 1];
      if g in plan && g !in rest then rest + [g] else rest
  }

  /** The disabled list with unknown phases dropped and toggle groups completed. */
  function Normalized(group: Grouping, plan: seq<Phase>, disabled: seq<Phase>): seq<Phase> {
    if disabled == [] then []
    else Extend(plan, Normalized(group, plan, disabled[..|disabled| - 1]), group(disabled[|disabled| - 1]))
  }

  function Normalize(c: Config): Config {
    c.(disabledPhases := Normalized(PhaseToggleGroup, EffectivePhaseOrder(c), c.disabledPhases))
  }

  /** The plan minus the disabled phases, toggle groups completed. */
  function Active(plan: seq<Phase>, disabled: seq<Phase>): seq<Phase> {
    var d := Normalized(PhaseToggleGroup, plan, disabled);
    Keep(plan, p => p !in d)
  }

  function ActivePhaseOrder(c: Config): seq<Phase> { Active(EffectivePhaseOrder(c), c.disabledPhases) }

  /** NormalizeDisabledPhases, with its loops and its set of phases seen. */
  method NormalizeDisabledPhases(plan: seq<Phase>, disabled: seq<Phase>) returns (out: seq<Phase>)
    ensures out == Normalized(PhaseToggleGroup, plan, disabled)
  {
    var allowed := set p | p in plan;
    var seen: set<Phase> := {};
    out := [];
    for i := 0 to |disabled|
      invariant out == Normalized(PhaseToggleGroup, plan, disabled[..i])
      invariant seen == set p | p in out
    {
      var group := PhaseToggleGroup(disabled[i]);
      ghost var acc := out;
      for j := 0 to |group|
        invariant out == Extend(plan, acc, group[..j])
        invariant seen == set p | p in out
      {
        var g := group[j];
        assert group[..j + 1][..j] == group[..j];
        if g !in allowed || g in seen {
          continue;
        }
        seen, out := seen + {g}, out + [g];
      }
      assert group[..|group|] == group;
      assert disabled[..i + 1][..i] == disabled[..i];
    }
    assert disabled[..|disabled|] == disabled;
  }

  // ---- What normalization means --------------------------------------------------------------------

  lemma {:induction false} ExtendMembers(plan: seq<Phase>, acc: seq<Phase>, group: seq<Phase>)
    requires Distinct(acc)
    ensures Distinct(Extend(plan, acc, group))
    ensures forall p :: p in Extend(plan, acc, group) <==> p in acc || (p in plan && p in group)
    decreases |group|
  {
    if group != [] {
      var front, g := group[..|group| - 1], group[|group| - 1];
      assert group == front + [g];
      ExtendMembers(plan, acc, front);
    }
  }

  /** Some listed phase has p in its group. */
  ghost predicate Hit(group: Grouping, disabled: seq<Phase>, p: Phase) {
    exists i :: 0 <= i < |disabled| && p in group(disabled[i])
  }

  lemma HitSnoc(group: Grouping, front: seq<Phase>, last: Phase, p: Phase)
    ensures Hit(group, front + [last], p) <==> Hit(group, front, p) || p in group(last)
  {
    var all := front + [last];
    if Hit(group, front, p) {
      var i :| 0 <= i < |front| && p in group(front[i]);
      assert all[i] == front[i];
    }
    if p in group(last) {
      assert all[|front|] == last;
    }
  }

  /** Exactly the plan's members of the disabled groups, each once. */
  lemma {:induction false} NormalizedMembers(group: Grouping, plan: seq<Phase>, disabled: seq<Phase>)
    ensures Distinct(Normalized(group, plan, disabled))
    ensures forall p :: p in Normalized(group, plan, disabled) <==> p in plan && Hit(group, disabled, p)
    decreases |disabled|
  {
    if disabled != [] {
      var front, last := disabled[..|disabled| - 1], disabled[|disabled| - 1];
      assert disabled == front + [last];
      NormalizedMembers(group, plan, front);
      ExtendMembers(plan, Normalized(group, plan, front), group(last));
      forall p
        ensures Hit(group, disabled, p) <==> Hit(group, front, p) || p in group(last)
      {
        HitSnoc(group, front, last, p);
      }
    }
  }

  /** Normalization disables a phase of the plan exactly when it is listed, or a software phase beside a listed software
      phase, or the partner of a listed create or delete. */
  lemma NormalizedIff(plan: seq<Phase>, disabled: seq<Phase>, p: Phase)
    ensures p in Normalized(PhaseToggleGroup, plan, disabled) <==>
            p in plan
            && (p in disabled
                || (p in {SoftwareUnpack, SoftwareCold, SoftwareWarm}
                    && (SoftwareUnpack in disabled || SoftwareCold in disabled || SoftwareWarm in disabled))
                || (p in {Create, Delete} && (Create in disabled || Delete in disabled)))
  {
    NormalizedMembers(PhaseToggleGroup, plan, disabled);
    HitIff(disabled, p);
    TogetherIn(disabled, p);
  }

  lemma HitIff(disabled: seq<Phase>, p: Phase)
    ensures Hit(PhaseToggleGroup, disabled, p) <==> exists q :: q in disabled && Together(q, p)
  {
    if q :| q in disabled && Together(q, p) {
      GroupIsTogether(q);
      var i :| 0 <= i < |disabled| && disabled[i] == q;
      assert p in PhaseToggleGroup(disabled[i]);
    }
    if Hit(PhaseToggleGroup, disabled, p) {
      var i :| 0 <= i < |disabled| && p in PhaseToggleGroup(disabled[i]);
      GroupIsTogether(disabled[i]);
      assert disabled[i] in disabled && Together(disabled[i], p);
    }
  }

  lemma TogetherIn(disabled: seq<Phase>, p: Phase)
    ensures (exists q :: q in disabled && Together(q, p)) <==>
            p in disabled
            || (p in {SoftwareUnpack, SoftwareCold, SoftwareWarm}
                && (SoftwareUnpack in disabled || SoftwareCold in disabled || SoftwareWarm in disabled))
            || (p in {Create, Delete} && (Create in disabled || Delete in disabled))
  {
    assert p in disabled ==> Together(p, p);
    assert p in {Create, Delete} ==> Together(Create, p) && Together(Delete, p);
    assert p in {SoftwareUnpack, SoftwareCold, SoftwareWarm} ==>
        Together(SoftwareUnpack, p) && Together(SoftwareCold, p) && Together(SoftwareWarm, p);
  }

  /** Every group is in the plan as a whole or not at all. */
  ghost predicate WholeGroups(group: Grouping, plan: seq<Phase>) {
    forall p, q :: p in plan && q in group(p) ==> q in plan
  }

  /** All-or-nothing: the list disables whole groups. */
  ghost predicate Closed(group: Grouping, plan: seq<Phase>, disabled: seq<Phase>) {
    forall d, g :: d in disabled && g in group(d) && g in plan ==> g in disabled
  }

  /** A list normalization could have produced, up to order. */
  ghost predicate Normal(group: Grouping, plan: seq<Phase>, disabled: seq<Phase>) {
    Distinct(disabled) && Closed(group, plan, disabled) && forall d :: d in disabled ==> d in plan
  }

  lemma NormalizedIsNormal(group: Grouping, plan: seq<Phase>, disabled: seq<Phase>)
    requires Partition(group) && WholeGroups(group, plan)
    ensures Normal(group, plan, Normalized(group, plan, disabled))
  {
    NormalizedMembers(group, plan, disabled);
    var out := Normalized(group, plan, disabled);
    forall d, g | d in out && g in group(d) && g in plan
      ensures g in out
    {
      var i :| 0 <= i < |disabled| && d in group(disabled[i]);
      assert group(d) == group(disabled[i]);
    }
  }

  /** Normalizing twice is normalizing once: the same list, in the same order. */
  lemma {:induction false} NormalizeIdempotent(group: Grouping, plan: seq<Phase>, disabled: seq<Phase>)
    requires Partition(group) && WholeGroups(group, plan)
    ensures Normalized(group, plan, Normalized(group, plan, disabled)) == Normalized(group, plan, disabled)
    decreases |disabled|
  {
    if disabled != [] {
      var front, last := disabled[..|disabled| - 1], disabled[|disabled| - 1];
      NormalizeIdempotent(group, plan, front);
      NormalizedIsNormal(group, plan, front);
      RenormalizeGroup(group, plan, Normalized(group, plan, front), last);
    }
  }

  /** Completing a group and normalizing the result changes nothing. */
  lemma RenormalizeGroup(group: Grouping, plan: seq<Phase>, acc: seq<Phase>, p: Phase)
    requires Partition(group) && WholeGroups(group, plan)
    requires Normal(group, plan, acc) && Normalized(group, plan, acc) == acc
    ensures Normalized(group, plan, Extend(plan, acc, group(p))) == Extend(plan, acc, group(p))
  {
    if p in plan && p !in acc {
      assert forall q :: q in group(p) ==> p in group(q);
      ExtendNew(plan, acc, group(p));
      AppendGroup(group, plan, acc, group(p), |group(p)|);
      assert group(p)[..|group(p)|] == group(p);
    } else {
      assert forall q :: q in group(p) ==> p in group(q);
      ExtendOld(plan, acc, group(p));
    }
  }

  lemma {:induction false} ExtendNew(plan: seq<Phase>, acc: seq<Phase>, group: seq<Phase>)
    requires Distinct(group) && forall q :: q in group ==> q in plan && q !in acc
    ensures Extend(plan, acc, group) == acc + group
    decreases |group|
  {
    if group != [] {
      ExtendNew(plan, acc, group[..|group| - 1]);
      assert group == group[..|group| - 1] + [group[|group| - 1]];
    }
  }

  lemma {:induction false} ExtendOld(plan: seq<Phase>, acc: seq<Phase>, group: seq<Phase>)
    requires forall q :: q in group && q in plan ==> q in acc
    ensures Extend(plan, acc, group) == acc
    decreases |group|
  {
    if group != [] {
      ExtendOld(plan, acc, group[..|group| - 1]);
    }
  }

  lemma NormalizedSnoc(group: Grouping, plan: seq<Phase>, front: seq<Phase>, last: Phase)
    ensures Normalized(group, plan, front + [last]) == Extend(plan, Normalized(group, plan, front), group(last))
  {
    assert (front + [last])[..|front|] == front;
  }

  /** The first phase of a new group brings in the whole group, the others nothing. */
  lemma {:induction false} AppendGroup(group: Grouping, plan: seq<Phase>, acc: seq<Phase>, members: seq<Phase>, k: nat)
    requires 1 <= k <= |members| && Distinct(members) && Normalized(group, plan, acc) == acc
    requires forall q :: q in members ==> q in plan && q !in acc && group(q) == members
    ensures Normalized(group, plan, acc + members[..k]) == acc + members
    decreases k
  {
    var front := acc + members[..k - 1];
    assert acc + members[..k] == front + [members[k - 1]];
    NormalizedSnoc(group, plan, front, members[k - 1]);
    if k == 1 {
      assert front == acc;
      ExtendNew(plan, acc, members);
    } else {
      AppendGroup(group, plan, acc, members, k - 1);
      ExtendOld(plan, acc + members, members);
    }
  }

  predicate InPlan(c: Config, p: Phase) {
    match p
    case SoftwareUnpack => SoftwareEnabled(c)
    case SoftwareCold => SoftwareEnabled(c)
    case SoftwareWarm => SoftwareEnabled(c)
    case GitClone => GitCloneEnabled(c)
    case Untar => UntarEnabled(c)
    case _ => p in PHASE_ORDER
  }

  lemma PlanMembers(c: Config)
    ensures forall p :: p in EffectivePhaseOrder(c) <==> InPlan(c, p)
  {}

  function Rank(p: Phase): int {
    match p
    case SoftwareUnpack => 0
    case SoftwareCold => 1
    case SoftwareWarm => 2
    case GitClone => 3
    case Untar => 4
    case Create => 5
    case Delete => 6
    case WriteBW => 7
    case ReadBW => 8
    case ReadWrite => 9
    case RIOPS => 10
    case _ => 11
  }

  ghost predicate Ranked(s: seq<Phase>, low: int, high: int) {
    forall i :: 0 <= i < |s| ==> low <= Rank(s[i]) < high && forall j :: i < j < |s| ==> Rank(s[i]) < Rank(s[j])
  }

  lemma RankedConcat(a: seq<Phase>, b: seq<Phase>, low: int, middle: int, high: int)
    requires Ranked(a, low, middle) && Ranked(b, middle, high) && low <= middle <= high
    ensures Ranked(a + b, low, high)
  {}

  /** What every plan looks like: no repeats, whole groups, and the same last three phases. */
  ghost predicate PlanShape(plan: seq<Phase>) {
    Distinct(plan) && WholeGroups(PhaseToggleGroup, plan)
    && |plan| >= 7 && plan[|plan| - 3..] == [ReadWrite, RIOPS, FinalDelete]
  }

  lemma PlanFacts(c: Config)
    ensures PlanShape(EffectivePhaseOrder(c))
  {
    PlanRanked(c);
    PlanMembers(c);
    var plan := EffectivePhaseOrder(c);
    forall p, q | p in plan && q in PhaseToggleGroup(p)
      ensures q in plan
    {
      assert InPlan(c, p) && InPlan(c, q);
    }
  }

  lemma PlanRanked(c: Config)
    ensures Ranked(EffectivePhaseOrder(c), 0, 12)
  {
    var a := if SoftwareEnabled(c) then [SoftwareUnpack, SoftwareCold, SoftwareWarm] else [];
    var b := if GitCloneEnabled(c) then [GitClone] else [];
    var d := if UntarEnabled(c) then [Untar] else [];
    RankedConcat(a, b, 0, 3, 4);
    RankedConcat(a + b, d, 0, 4, 5);
    PhaseOrderRanked();
    RankedConcat(a + b + d, PHASE_ORDER, 0, 5, 12);
  }

  lemma PhaseOrderRanked()
    ensures Ranked(PHASE_ORDER, 5, 12)
  {}

  lemma {:induction false} KeepMembers(order: seq<Phase>, f: Phase -> bool)
    ensures forall p :: p in Keep(order, f) <==> p in order && f(p)
    ensures Distinct(order) ==> Distinct(Keep(order, f))
    ensures |Keep(order, f)| <= |order|
    decreases |order|
  {
    if order != [] {
      var front, last := order[..|order| - 1], order[|order| - 1];
      assert order == front + [last];
      KeepMembers(front, f);
    }
  }

  lemma {:induction false} KeepEqual(order: seq<Phase>, f: Phase -> bool, g: Phase -> bool)
    requires forall p :: p in order ==> f(p) == g(p)
    ensures Keep(order, f) == Keep(order, g)
    decreases |order|
  {
    if order != [] {
      KeepEqual(order[..|order| - 1], f, g);
    }
  }

  lemma {:induction false} KeepAll(order: seq<Phase>, f: Phase -> bool)
    requires forall p :: p in order ==> f(p)
    ensures Keep(order, f) == order
    decreases |order|
  {
    if order != [] {
      KeepAll(order[..|order| - 1], f);
      assert order == order[..|order| - 1] + [order[|order| - 1]];
    }
  }

  /** The two ways the code asks whether a phase runs agree on all phases exactly when the disabled list is closed;
      in particular on every normalized configuration. */
  lemma SelectedIffActive(c: Config)
    ensures (forall p :: PhaseSelected(c, p) <==> p in ActivePhaseOrder(c))
            <==> Closed(PhaseToggleGroup, EffectivePhaseOrder(c), c.disabledPhases)
  {
    var plan := EffectivePhaseOrder(c);
    var d := Normalized(PhaseToggleGroup, plan, c.disabledPhases);
    KeepMembers(plan, p => p !in d);
    NormalizedMembers(PhaseToggleGroup, plan, c.disabledPhases);
    ToggleGroupsPartition();
    forall p | p in c.disabledPhases
      ensures Hit(PhaseToggleGroup, c.disabledPhases, p)
    {
      var i :| 0 <= i < |c.disabledPhases| && c.disabledPhases[i] == p;
    }
    if forall p :: PhaseSelected(c, p) <==> p in ActivePhaseOrder(c) {
      forall x, g | x in c.disabledPhases && g in PhaseToggleGroup(x) && g in plan
        ensures g in c.disabledPhases
      {
        var i :| 0 <= i < |c.disabledPhases| && c.disabledPhases[i] == x;
        assert Hit(PhaseToggleGroup, c.disabledPhases, g);
        assert PhaseSelected(c, g) <==> g in ActivePhaseOrder(c);
      }
    }
  }

  // ---- Which phases run, and in which order --------------------------------------------------------

  /** The configured parts of a run, by the strings that configure them. */
  lemma PlanContents(c: Config, p: Phase)
    ensures p in EffectivePhaseOrder(c) <==>
            (p in {Create, Delete, WriteBW, ReadBW, ReadWrite, RIOPS, FinalDelete}
             || (p in {SoftwareUnpack, SoftwareCold, SoftwareWarm}
                 && (exists i :: 0 <= i < |c.packageURL| && !IsSpace(c.packageURL[i]))
                 && (exists i :: 0 <= i < |c.startupCommand| && !IsSpace(c.startupCommand[i])))
             || (p == GitClone && exists i :: 0 <= i < |c.gitCloneURL| && !IsSpace(c.gitCloneURL[i]))
             || (p == Untar && exists i :: 0 <= i < |c.untarURL| && !IsSpace(c.untarURL[i])))
  {
    PlanMembers(c);
  }

  /** A phase of the plan is active unless it or a phase toggled with it is listed as disabled. */
  lemma ActiveIff(c: Config, p: Phase)
    ensures p in ActivePhaseOrder(c) <==>
            p in EffectivePhaseOrder(c) && p !in c.disabledPhases
            && (p in {SoftwareUnpack, SoftwareCold, SoftwareWarm} ==>
                  SoftwareUnpack !in c.disabledPhases && SoftwareCold !in c.disabledPhases
                  && SoftwareWarm !in c.disabledPhases)
            && (p in {Create, Delete} ==> Create !in c.disabledPhases && Delete !in c.disabledPhases)
  {
    var plan := EffectivePhaseOrder(c);
    var d := Normalized(PhaseToggleGroup, plan, c.disabledPhases);
    KeepMembers(plan, q => q !in d);
    NormalizedIff(plan, c.disabledPhases, p);
  }

  /** The active phases stand in this order, whichever of them there are. */
  lemma ActiveInOrder(c: Config, i: nat, j: nat)
    requires i < j < |ActivePhaseOrder(c)|
    ensures var all := [SoftwareUnpack, SoftwareCold, SoftwareWarm, GitClone, Untar, Create, Delete, WriteBW, ReadBW,
                        ReadWrite, RIOPS, FinalDelete];
            exists x, y :: 0 <= x < y < |all| && all[x] == ActivePhaseOrder(c)[i] && all[y] == ActivePhaseOrder(c)[j]
  {
    var all := [SoftwareUnpack, SoftwareCold, SoftwareWarm, GitClone, Untar, Create, Delete, WriteBW, ReadBW,
                ReadWrite, RIOPS, FinalDelete];
    var plan := EffectivePhaseOrder(c);
    var d := Normalized(PhaseToggleGroup, plan, c.disabledPhases);
    var a, b := KeepOrder(plan, p => p !in d, i, j);
    PlanRanked(c);
    PlanMembers(c);
    assert InPlan(c, plan[a]) && InPlan(c, plan[b]);
    assert all[Rank(plan[a])] == plan[a] && all[Rank(plan[b])] == plan[b];
  }

  /** Keep leaves the order as it is. */
  lemma {:induction false} KeepOrder(order: seq<Phase>, f: Phase -> bool, i: nat, j: nat) returns (a: nat, b: nat)
    requires i < j < |Keep(order, f)|
    ensures a < b < |order| && order[a] == Keep(order, f)[i] && order[b] == Keep(order, f)[j]
    decreases |order|
  {
    var n := |order| - 1;
    var front := Keep(order[..n], f);
    if j < |front| {
      a, b := KeepOrder(order[..n], f, i, j);
    } else {
      b := n;
      KeepMembers(order[..n], f);
      assert front[i] in front;
      a :| 0 <= a < n && order[..n][a] == front[i];
    }
  }
}
