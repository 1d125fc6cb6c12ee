/** SetPhaseEnabled, which rebuilds the disabled list inside the backing array of the old one. */
module Toggles {
  import opened Basics
  import opened Phases

  datatype ToggleResult = Done | Running | NotInPlan | NothingLeft

  /** The disabled set a toggle asks for. */
  function Toggled(disabled: seq<Phase>, group: seq<Phase>, enabled: bool): set<Phase> {
    if enabled then (set d | d in disabled) - (set g | g in group) else (set d | d in disabled) + (set g | g in group)
  }

  /** What a toggle of an idle configuration answers, and what it leaves disabled. */
  ghost predicate ToggleSpec(plan: seq<Phase>, was: seq<Phase>, phase: Phase, group: seq<Phase>, enabled: bool,
                             r: ToggleResult, now: seq<Phase>)
  {
    var s := Toggled(was, group, enabled);
    if phase !in plan then r == NotInPlan && now == was
    else if AllOf(plan, s) then r == NothingLeft && |was| <= |plan| && now == plan[..|was|]
    else r == Done && forall p :: p in now <==> p in plan && p in s
  }

  ghost predicate AllOf(plan: seq<Phase>, s: set<Phase>) { forall p :: p in plan ==> p in s }

  /** The disabled list as a Go slice: the first `len` cells of a backing array that may be longer. The rest of the
      configuration fixes the plan. */
  class PhaseToggles {
    const plan: seq<Phase>
    var running: bool
    var backing: array<Phase>
    var len: nat

    ghost predicate Valid()
      reads this, backing
    {
      len <= backing.Length && PlanShape(plan) && Normal(PhaseToggleGroup, plan, View())
    }

    ghost function View(): seq<Phase>
      reads this, backing
    {
      if len <= backing.Length then backing[..len] else []
    }

    constructor (c: Config)
      ensures Valid() && fresh(backing) && !running
      ensures plan == EffectivePhaseOrder(c) && View() == Normalize(c).disabledPhases
    {
      plan, running := EffectivePhaseOrder(c), false;
      var d := NormalizeDisabledPhases(EffectivePhaseOrder(c), c.disabledPhases);
      backing := new Phase[|d|](i requires 0 <= i < |d| => d[i]);
      len := |d|;
      new;
      PlanFacts(c);
      ToggleGroupsPartition();
      NormalizedIsNormal(PhaseToggleGroup, plan, c.disabledPhases);
      assert backing[..len] == d;
    }

    /** On success exactly the phase is switched, with the other software phases if it is one of them, and with its
        partner if it is create or delete. A toggle that would leave no phase enabled is refused, but not before the
        rebuilt list has overwritten the old one's cells: what is disabled from then on is the start of the plan, as
        many phases as before. */
    method SetPhaseEnabled(phase: Phase, enabled: bool) returns (r: ToggleResult)
      requires Valid()
      modifies this, backing
      ensures Valid() && running == old(running) && (backing == old(backing) || fresh(backing))
      ensures r == Running <==> running
      ensures r == NotInPlan <==> !running && phase !in plan
      ensures r == NothingLeft <==>
                !running && phase in plan
                && forall q :: q in plan ==>
                     if q == phase
                        || (phase in {SoftwareUnpack, SoftwareCold, SoftwareWarm}
                            && q in {SoftwareUnpack, SoftwareCold, SoftwareWarm})
                        || (phase in {Create, Delete} && q in {Create, Delete})
                     then !enabled else q in old(View())
      ensures r == Done ==>
                forall q :: q in plan ==>
                  (q in View() <==>
                   if q == phase
                      || (phase in {SoftwareUnpack, SoftwareCold, SoftwareWarm}
                          && q in {SoftwareUnpack, SoftwareCold, SoftwareWarm})
                      || (phase in {Create, Delete} && q in {Create, Delete})
                   then !enabled else q in old(View()))
      ensures r == NothingLeft ==> |old(View())| <= |plan| && View() == plan[..|old(View())|]
      ensures r == Running || r == NotInPlan ==> View() == old(View())
      ensures !running ==> ToggleSpec(plan, old(View()), phase, PhaseToggleGroup(phase), enabled, r, View())
    {
      if running {
        return Running;
      }
      GroupIsTogether(phase);
      r := ToggleGroup(phase, PhaseToggleGroup(phase), enabled);
    }

    method ToggleGroup(phase: Phase, group: seq<Phase>, enabled: bool) returns (r: ToggleResult)
      requires Valid() && IsGroupOf(group, phase)
      modifies this, backing
      ensures Valid() && running == old(running) && (backing == old(backing) || fresh(backing))
      ensures ToggleSpec(plan, old(View()), phase, group, enabled, r, View())
    {
      GroupInPlan(plan, phase, group);
      if forall g :: g in group ==> g !in plan {
        return NotInPlan;
      }
      ghost var was := View();
      var disabled := CollectToggled(group, enabled);
      var rebuilt := RebuildInPlace(disabled);
      var d := NormalizeDisabledPhases(plan, rebuilt);
      ToggleOutcome(plan, was, phase, group, enabled, rebuilt);
      if |Active(plan, d)| == 0 {
        return NothingLeft;
      }
      Adopt(d);
      r := Done;
    }

    /** o.cfg = cfg with a list of its own. */
    method Adopt(d: seq<Phase>)
      modifies this
      ensures fresh(backing) && len <= backing.Length && View() == d && running == old(running)
    {
      backing := new Phase[|d|](i requires 0 <= i < |d| => d[i]);
      len := |d|;
      assert backing[..len] == d;
    }

    /** The disabled phases as a set, with the group added or taken out. */
    method CollectToggled(group: seq<Phase>, enabled: bool) returns (disabled: set<Phase>)
      requires len <= backing.Length
      ensures disabled == Toggled(View(), group, enabled)
    {
      disabled := {};
      for i := 0 to len
        invariant disabled == set d | d in backing[..i]
      {
        disabled := disabled + {backing[i]};
      }
      if enabled {
        disabled := disabled - (set g | g in group);
      } else {
        disabled := disabled + (set g | g in group);
      }
    }

    /** cfg.DisabledPhases[:0] and append: writes through to the old cells until the backing array is full. */
    method RebuildInPlace(disabled: set<Phase>) returns (rebuilt: seq<Phase>)
      requires len <= backing.Length
      modifies backing
      ensures rebuilt == Keep(plan, p => p in disabled)
      ensures forall k :: 0 <= k < backing.Length ==>
                backing[k] == if k < |rebuilt| then rebuilt[k] else old(backing[k])
      ensures len <= |rebuilt| ==> View() == rebuilt[..len]
    {
      var slice, n := backing, 0;
      ghost var f := (p: Phase) => p in disabled;
      for i := 0 to |plan|
        invariant n <= slice.Length && slice[..n] == Keep(plan[..i], f)
        invariant slice == backing || (fresh(slice) && n >= backing.Length)
        invariant forall k :: 0 <= k < backing.Length ==>
                    backing[k] == if k < n then slice[k] else old(backing[k])
      {
        assert plan[..i + 1][..i] == plan[..i];
        if plan[i] in disabled {
          if n == slice.Length {
            slice := Grow(slice);
          }
          slice[n] := plan[i];
          n := n + 1;
        }
      }
      assert plan[..|plan|] == plan;
      rebuilt := slice[..n];
    }
  }

  /** append on a full slice moves it to a larger array. */
  method Grow(a: array<Phase>) returns (b: array<Phase>)
    ensures fresh(b) && b.Length > a.Length && b[..a.Length] == a[..]
  {
    b := new Phase[2 * a.Length + 1](i => Idle);
    for i := 0 to a.Length
      invariant b[..i] == a[..i]
    {
      b[i] := a[i];
    }
  }

  /** A list without repeats drawn from the plan is no longer than the plan. */
  lemma {:induction false} DistinctIsShort(d: seq<Phase>, plan: seq<Phase>)
    requires Distinct(d) && Distinct(plan) && forall p :: p in d ==> p in plan
    ensures |d| <= |plan|
    ensures |d| == |plan| ==> forall p :: p in plan ==> p in d
  {
    SizeOfDistinct(d);
    SizeOfDistinct(plan);
    var a, b := set p | p in d, set p | p in plan;
    assert a <= b && b == a + (b - a);
    assert |b| == |a| + |b - a|;
    if |d| == |plan| {
      assert b - a == {};
      forall p | p in plan
        ensures p in d
      {
        assert p in b;
      }
    }
  }

  lemma {:induction false} SizeOfDistinct(d: seq<Phase>)
    requires Distinct(d)
    ensures |set p | p in d| == |d|
  {
    if d != [] {
      var front, last := d[..|d| - 1], d[|d| - 1];
      SizeOfDistinct(front);
      assert d == front + [last];
      assert (set p | p in d) == (set p | p in front) + {last};
    }
  }

  ghost predicate IsGroupOf(group: seq<Phase>, phase: Phase) { group == PhaseToggleGroup(phase) }

  lemma GroupInPlan(plan: seq<Phase>, phase: Phase, group: seq<Phase>)
    requires WholeGroups(PhaseToggleGroup, plan) && IsGroupOf(group, phase)
    ensures phase in plan <==> exists g :: g in group && g in plan
  {
    ToggleGroupsPartition();
    assert phase in PhaseToggleGroup(phase);
  }

  /** What becomes of the rebuilt list: refused when it holds the whole plan, accepted as normal otherwise. */
  lemma ToggleOutcome(plan: seq<Phase>, was: seq<Phase>, phase: Phase, group: seq<Phase>, enabled: bool,
                      rebuilt: seq<Phase>)
    requires PlanShape(plan) && Normal(PhaseToggleGroup, plan, was) && phase in plan && IsGroupOf(group, phase)
    requires var s := Toggled(was, group, enabled); rebuilt == Keep(plan, p => p in s)
    ensures var n := Normalized(PhaseToggleGroup, plan, rebuilt);
            if |Active(plan, n)| == 0
            then rebuilt == plan && |was| <= |plan| && Normal(PhaseToggleGroup, plan, plan[..|was|])
                 && ToggleSpec(plan, was, phase, group, enabled, NothingLeft, plan[..|was|])
            else Normal(PhaseToggleGroup, plan, n) && ToggleSpec(plan, was, phase, group, enabled, Done, n)
  {
    var s, n := Toggled(was, group, enabled), Normalized(PhaseToggleGroup, plan, rebuilt);
    ToggleGroupsPartition();
    ToggledIsNormal(plan, was, phase, group, enabled, rebuilt);
    NormalizedMembersOfNormal(plan, rebuilt);
    NormalizedIsNormal(PhaseToggleGroup, plan, rebuilt);
    ActiveOfNormal(plan, n);
    if AllOf(plan, s) {
      KeepAll(plan, p => p in s);
      AllToggledOff(plan, was, group, enabled);
      PrefixIsNormal(plan, was, group);
    }
  }

  /** A toggle that switches everything off leaves nothing outside the old list and the group. */
  lemma AllToggledOff(plan: seq<Phase>, was: seq<Phase>, group: seq<Phase>, enabled: bool)
    requires AllOf(plan, Toggled(was, group, enabled))
    ensures forall p :: p in plan ==> p in was || p in group
  {}

  lemma ToggledIsNormal(plan: seq<Phase>, was: seq<Phase>, phase: Phase, group: seq<Phase>, enabled: bool,
                        rebuilt: seq<Phase>)
    requires Distinct(plan) && Normal(PhaseToggleGroup, plan, was) && Partition(PhaseToggleGroup)
    requires IsGroupOf(group, phase) && rebuilt == Keep(plan, p => p in Toggled(was, group, enabled))
    ensures Normal(PhaseToggleGroup, plan, rebuilt)
    ensures forall p :: p in rebuilt <==> p in plan && p in Toggled(was, group, enabled)
  {
    var s := Toggled(was, group, enabled);
    KeepMembers(plan, p => p in s);
    forall d, g | d in rebuilt && g in PhaseToggleGroup(d) && g in plan
      ensures g in rebuilt
    {
      assert PhaseToggleGroup(g) == PhaseToggleGroup(d);
      assert g in group <==> d in group;
      assert g in was <==> d in was;
    }
  }

  lemma NormalizedMembersOfNormal(plan: seq<Phase>, list: seq<Phase>)
    requires Normal(PhaseToggleGroup, plan, list) && Partition(PhaseToggleGroup)
    ensures forall p :: p in Normalized(PhaseToggleGroup, plan, list) <==> p in list
  {
    NormalizedMembers(PhaseToggleGroup, plan, list);
    forall p | p in list
      ensures Hit(PhaseToggleGroup, list, p)
    {
      var i :| 0 <= i < |list| && list[i] == p;
      assert p in PhaseToggleGroup(list[i]);
    }
  }

  /** No phase stays active exactly when the disabled list holds the whole plan. */
  lemma ActiveOfNormal(plan: seq<Phase>, list: seq<Phase>)
    requires Normal(PhaseToggleGroup, plan, list) && Partition(PhaseToggleGroup)
    ensures |Active(plan, list)| == 0 <==> forall p :: p in plan ==> p in list
  {
    var d := Normalized(PhaseToggleGroup, plan, list);
    KeepMembers(plan, p => p !in d);
    NormalizedMembersOfNormal(plan, list);
    if |Active(plan, list)| != 0 {
      assert Active(plan, list)[0] in Active(plan, list);
    }
  }

  /** What a refused toggle leaves disabled: all but the last phases of the plan, as many as were enabled. */
  lemma PrefixIsNormal(plan: seq<Phase>, was: seq<Phase>, group: seq<Phase>)
    requires PlanShape(plan) && Normal(PhaseToggleGroup, plan, was) && Distinct(group) && |group| <= 3
    requires forall p :: p in plan ==> p in was || p in group
    ensures |plan| - 3 <= |was| <= |plan| && Normal(PhaseToggleGroup, plan, plan[..|was|])
  {
    DistinctIsShort(was, plan);
    EnabledFew(plan, was, group);
    var kept, n := plan[..|was|], |plan|;
    assert plan[n - 3..][0] == plan[n - 3] && plan[n - 3..][1] == plan[n - 2] && plan[n - 3..][2] == plan[n - 1];
    forall d, g | d in kept && g in PhaseToggleGroup(d) && g in plan
      ensures g in kept
    {
      if g in [ReadWrite, RIOPS, FinalDelete] {
        TailGroups(d, g);
      }
      var i :| 0 <= i < n && plan[i] == g;
      if g != d {
        assert i < n - 3;
        assert kept[i] == g;
      }
    }
  }

  lemma TailGroups(d: Phase, g: Phase)
    requires g in PhaseToggleGroup(d) && g in [ReadWrite, RIOPS, FinalDelete]
    ensures g == d
  {}

  lemma EnabledFew(plan: seq<Phase>, was: seq<Phase>, group: seq<Phase>)
    requires Distinct(plan) && Distinct(was) && Distinct(group)
    requires forall p :: p in plan ==> p in was || p in group
    requires forall p :: p in was ==> p in plan
    ensures |plan| <= |was| + |group|
  {
    SizeOfDistinct(plan);
    SizeOfDistinct(was);
    SizeOfDistinct(group);
    var a, b, g := set p | p in plan, set p | p in was, set p | p in group;
    assert a <= b + g;
    assert |b + g| == |b| + |g - b|;
    assert |g - b| <= |g|;
    Subset(a, b + g);
  }

  lemma Subset(a: set<Phase>, b: set<Phase>)
    requires a <= b
    ensures |a| <= |b|
  {
    assert b == a + (b - a);
  }

  /** A refused toggle leaves the same phases enabled exactly when none was, or when it was final delete that it
      tried to switch off. */
  lemma RefusalHarmlessIff(plan: seq<Phase>, was: seq<Phase>, phase: Phase)
    requires PlanShape(plan) && Normal(PhaseToggleGroup, plan, was) && phase in plan
    requires forall p :: p in plan ==> p in was || p in PhaseToggleGroup(phase)
    ensures |was| <= |plan|
    ensures (forall p :: p in plan[..|was|] <==> p in was) <==> |was| == |plan| || phase == FinalDelete
  {
    PrefixIsNormal(plan, was, PhaseToggleGroup(phase));
    DistinctIsShort(was, plan);
    var last := |plan| - 1;
    assert plan[last] == plan[last - 2..][2];
    if |was| == |plan| {
      assert plan[..|was|] == plan;
    } else {
      assert FinalDelete !in plan[..|was|];
      if phase == FinalDelete {
        EnabledFew(plan, was, [FinalDelete]);
        assert plan == plan[..last] + [FinalDelete];
        if FinalDelete in was {
          DistinctIsShort(plan, was);
        }
      } else if FinalDelete in PhaseToggleGroup(phase) {
        TailGroups(phase, FinalDelete);
      }
    }
  }

  /** With everything but create and delete switched off, trying to switch those off too is refused, and from then
      on random I/O and final delete are the enabled phases instead. */
  lemma RefusalExample()
    ensures var plan, was := PHASE_ORDER, [WriteBW, ReadBW, ReadWrite, RIOPS, FinalDelete];
            AllOf(plan, Toggled(was, PhaseToggleGroup(Create), false))
            && Create !in was && Create in plan[..|was|] && FinalDelete in was && FinalDelete !in plan[..|was|]
  {
    var plan, was := PHASE_ORDER, [WriteBW, ReadBW, ReadWrite, RIOPS, FinalDelete];
    assert PhaseToggleGroup(Create) == [Create, Delete];
    assert plan[..|was|] == [Create, Delete, WriteBW, ReadBW, ReadWrite];
  }

  /** Switching off an enabled group and on again restores the disabled set, and something stays enabled throughout. */
  method DisableThenEnable(t: PhaseToggles, phase: Phase)
    requires t.Valid() && !t.running && phase in t.plan
    requires forall g :: g in PhaseToggleGroup(phase) ==> g !in t.View()
    requires exists p :: p in t.plan && p !in t.View() && p !in PhaseToggleGroup(phase)
    modifies t, t.backing
    ensures t.Valid() && forall p :: p in t.View() <==> p in old(t.View())
  {
    ghost var p :| p in t.plan && p !in t.View() && p !in PhaseToggleGroup(phase);
    var off := ToggleIdle(t, phase, false);
    assert off == Done && p in t.plan && p !in t.View();
    var on := ToggleIdle(t, phase, true);
    assert on == Done;
  }

  method ToggleIdle(t: PhaseToggles, phase: Phase, enabled: bool) returns (r: ToggleResult)
    requires t.Valid() && !t.running
    modifies t, t.backing
    ensures t.Valid() && !t.running && (t.backing == old(t.backing) || fresh(t.backing))
    ensures ToggleSpec(t.plan, old(t.View()), phase, PhaseToggleGroup(phase), enabled, r, t.View())
  {
    r := t.SetPhaseEnabled(phase, enabled);
  }
}
