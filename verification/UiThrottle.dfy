/** The throttle between state changes and browsers: requests set a flag, one flusher pushes at most twice a second. */
module UiThrottle {
  import opened Basics

  const GAP := 0.5

  /** Where a flusher stands: before its first locked region, before the snapshot, before its second locked region,
      or asleep. */
  datatype Flusher = Top | Snapping | Writing | Sleeping(since: real)

  /** The flags guarded by the mutex. */
  datatype Flags = Flags(pending: bool, flushing: bool, lastPush: Option<real>)

  /** `pushes`, `requests`, `requestedAt` and `seen` record the push times, how many requests there were, the time of
      the last one, and how many preceded the last snapshot. */
  datatype Ui = Ui(flags: Flags, flushers: seq<Flusher>, pushes: seq<real>, requests: nat, requestedAt: real, seen: nat)

  datatype Event = Request | Flush(i: nat)

  // ---- Locked regions ------------------------------------------------------------------------------

  predicate Recent(f: Flags, now: real) { f.lastPush.Some? && now - f.lastPush.value < GAP }

  /** requestUI: the flags afterwards, and whether a flusher is started. */
  function Requested(f: Flags, now: real): (Flags, bool) {
    if f.flushing || Recent(f, now) then (f.(pending := true), false)
    else (f.(pending := true, flushing := true), true)
  }

  /** The first region of flushUI: the flags afterwards, and whether it goes on to push. */
  function Begun(f: Flags, now: real): (Flags, bool) {
    if !f.pending then (f.(flushing := false), false)
    else (f.(pending := false, lastPush := Some(now)), true)
  }

  /** The second region: the flags afterwards, and whether it goes round again. */
  function Ended(f: Flags): (Flags, bool) { if f.pending then (f, true) else (f.(flushing := false), false) }

  // ---- All interleavings ---------------------------------------------------------------------------

  predicate Possible(s: Ui, now: real, e: Event) {
    match e
    case Request => true
    case Flush(i) => i < |s.flushers| && (s.flushers[i].Sleeping? ==> now >= s.flushers[i].since + GAP)
  }

  function Step(s: Ui, now: real, e: Event): Ui
    requires Possible(s, now, e)
  {
    match e
    case Request =>
      var (flags, spawn) := Requested(s.flags, now);
      s.(flags := flags, flushers := if spawn then s.flushers + [Top] else s.flushers,
         requests := s.requests + 1, requestedAt := now)
    case Flush(i) =>
      match s.flushers[i]
      case Top =>
        var (flags, push) := Begun(s.flags, now);
        if push then s.(flags := flags, flushers := s.flushers[i := Snapping], pushes := s.pushes + [now])
        else s.(flags := flags, flushers := Without(s.flushers, i))
      case Snapping => s.(flushers := s.flushers[i := Writing], seen := s.requests)
      case Writing =>
        var (flags, again) := Ended(s.flags);
        s.(flags := flags, flushers := if again then s.flushers[i := Sleeping(now)] else Without(s.flushers, i))
      case Sleeping(_) => s.(flushers := s.flushers[i := Top])
  }

  const START := Ui(Flags(false, false, None), [], [], 0, 0.0, 0)

  ghost function Run(events: seq<(real, Event)>): Option<Ui> {
    if events == [] then Some(START)
    else
      var n := |events| - 1;
      var s, (now, e) := Run(events[..n]), events[n];
      if s.Some? && (n > 0 ==> events[n - 1].0 <= now) && Possible(s.value, now, e) then Some(Step(s.value, now, e))
      else None
  }

  ghost predicate Spaced(pushes: seq<real>) {
    forall j, k :: 0 <= j < k < |pushes| ==> pushes[k] - pushes[j] >= GAP
  }

  /** One flusher at most, and the flag says whether there is one; its position fits the flags. */
  ghost predicate OneFlusher(s: Ui, clock: real) {
    |s.flushers| <= 1 && (s.flags.flushing <==> s.flushers != [])
    && (s.flushers != [] ==>
          match s.flushers[0]
          case Top => s.flags.pending && !Recent(s.flags, clock)
          case Sleeping(since) =>
            s.flags.pending && since <= clock && s.flags.lastPush.Some? && s.flags.lastPush.value <= since
          case _ => s.flags.lastPush.Some? && s.flags.lastPush.value <= clock)
  }

  ghost predicate PushesSpaced(s: Ui, clock: real) {
    Spaced(s.pushes)
    && s.flags.lastPush == (if s.pushes == [] then None else Some(s.pushes[|s.pushes| - 1]))
    && (s.pushes != [] ==> s.pushes[|s.pushes| - 1] <= clock)
  }

  /** Without a pending request the last snapshot is newer than every request, or is about to be taken. A request stays
      pending with no flusher only if it came within half a second of a push. */
  ghost predicate Caught(s: Ui) {
    s.seen <= s.requests
    && (!s.flags.pending ==> s.seen == s.requests || s.flushers == [Snapping])
    && (s.flags.pending && s.flushers == [] ==> Recent(s.flags, s.requestedAt))
  }

  ghost predicate Inv(s: Ui, clock: real) { OneFlusher(s, clock) && PushesSpaced(s, clock) && Caught(s) }

  lemma InvStep(s: Ui, clock: real, now: real, e: Event)
    requires Inv(s, clock) && clock <= now && Possible(s, now, e)
    ensures Inv(Step(s, now, e), now)
  {
    if e.Flush? {
      assert s.flushers == [s.flushers[0]];
      if s.flushers[0].Top? {
        assert forall j :: 0 <= j < |s.pushes| ==> now - s.pushes[j] >= GAP by {
          assert s.pushes != [] ==> now - s.pushes[|s.pushes| - 1] >= GAP;
        }
      }
    }
  }

  /** Over every interleaving: at most one flusher, which the flag tells, pushes at least half a second apart, and when
      neither flag is set the last snapshot was taken after the last request. A flusher never finds nothing to do. */
  lemma {:induction false} ThrottleSafe(events: seq<(real, Event)>)
    requires Run(events).Some?
    ensures var s := Run(events).value;
            |s.flushers| <= 1 && (s.flags.flushing <==> s.flushers != []) && Spaced(s.pushes)
            && (!s.flags.pending && !s.flags.flushing ==> s.seen == s.requests)
            && (s.flushers == [Top] ==> s.flags.pending)
    ensures Inv(Run(events).value, if events == [] then 0.0 else events[|events| - 1].0)
    decreases |events|
  {
    if events != [] {
      var n := |events| - 1;
      ThrottleSafe(events[..n]);
      var s, now := Run(events[..n]).value, events[n].0;
      var clock := if n == 0 then now else events[n - 1].0;
      assert Inv(s, clock);
      InvStep(s, clock, now, events[n].1);
    }
  }

  /** A request is left pending with nobody to push it exactly when it comes within half a second of the last push
      and no flusher is at work. */
  lemma StrandsIff(s: Ui, clock: real, now: real)
    requires Inv(s, clock) && clock <= now
    ensures var t := Step(s, now, Request);
            (t.flags.pending && t.flushers == []) <==> (!s.flags.flushing && Recent(s.flags, now))
  {}

  /** So it is in every run of the throttle. */
  lemma RequestStrandsIff(events: seq<(real, Event)>, now: real)
    requires Run(events).Some? && (events != [] ==> events[|events| - 1].0 <= now)
    ensures var s := Run(events).value;
            var t := Step(s, now, Request);
            (t.flags.pending && t.flushers == []) <==> (!s.flags.flushing && Recent(s.flags, now))
  {
    ThrottleSafe(events);
    if events == [] {
      assert Inv(START, now);
    }
    StrandsIff(Run(events).value, if events == [] then now else events[|events| - 1].0, now);
  }

  /** The next request after the half second rescues a stranded one. */
  lemma NextRequestFlushes(events: seq<(real, Event)>, now: real)
    requires Run(events).Some?
    requires var s := Run(events).value; s.flags.pending && s.flushers == [] && !Recent(s.flags, now)
    ensures Step(Run(events).value, now, Request).flushers == [Top]
  {
    ThrottleSafe(events);
  }

  lemma Then(events: seq<(real, Event)>, s: Ui, now: real, e: Event) returns (more: seq<(real, Event)>, t: Ui)
    requires Run(events) == Some(s) && Possible(s, now, e) && (events != [] ==> events[|events| - 1].0 <= now)
    ensures more == events + [(now, e)] && t == Step(s, now, e) && Run(more) == Some(t)
  {
    more, t := events + [(now, e)], Step(s, now, e);
    assert more[..|events|] == events;
  }

  /** Until then it can be stranded: pending, not shown, and nobody on the way to show it. */
  lemma Stranded() returns (events: seq<(real, Event)>)
    ensures Run(events).Some?
    ensures var s := Run(events).value; s.flags.pending && s.flushers == [] && s.seen < s.requests
  {
    var s;
    events, s := Then([], START, 1.0, Request);
    assert s.flushers == [Top];
    events, s := Then(events, s, 1.0, Flush(0));
    events, s := Then(events, s, 1.0, Flush(0));
    events, s := Then(events, s, 1.0, Flush(0));
    assert s.flushers == [];
    events, s := Then(events, s, 1.1, Request);
  }

  // ---- The object --------------------------------------------------------------------------------

  class Throttle {
    var uiPending: bool
    var uiFlushing: bool
    var lastUIPush: Option<real>

    function State(): Flags
      reads this
    {
      Flags(uiPending, uiFlushing, lastUIPush)
    }

    constructor ()
      ensures State() == Flags(false, false, None)
    {
      uiPending, uiFlushing, lastUIPush := false, false, None;
    }

    method RequestUI(now: real) returns (spawn: bool)
      modifies this
      ensures (State(), spawn) == Requested(old(State()), now)
      ensures spawn <==> !old(uiFlushing) && (lastUIPush.Some? ==> now - lastUIPush.value >= 0.5)
      ensures uiPending && uiFlushing == (old(uiFlushing) || spawn) && lastUIPush == old(lastUIPush)
    {
      uiPending := true;
      if uiFlushing {
        return false;
      }
      if lastUIPush.Some? && now - lastUIPush.value < GAP {
        return false;
      }
      uiFlushing := true;
      spawn := true;
    }

    method BeginFlush(now: real) returns (push: bool)
      modifies this
      ensures (State(), push) == Begun(old(State()), now)
      ensures push == old(uiPending) && !uiPending && uiFlushing == (old(uiFlushing) && push)
      ensures lastUIPush == if push then Some(now) else old(lastUIPush)
    {
      if !uiPending {
        uiFlushing := false;
        return false;
      }
      uiPending, lastUIPush := false, Some(now);
      push := true;
    }

    method EndFlush() returns (again: bool)
      modifies this
      ensures (State(), again) == Ended(old(State()))
      ensures again == uiPending == old(uiPending) && uiFlushing == (old(uiFlushing) && again)
      ensures lastUIPush == old(lastUIPush)
    {
      if uiPending {
        return true;
      }
      uiFlushing := false;
      again := false;
    }

    /** Drives the object through requests and flusher segments in the given order and at the given times, as the
        goroutines would: whatever the order, the flags are those of the machine, one flusher at most is left, and the
        pushes are at least half a second apart. Stops at the first event that is impossible or out of time. */
    method Drive(events: seq<(real, Event)>) returns (ok: bool, flushers: seq<Flusher>, pushes: seq<real>)
      requires State() == Flags(false, false, None)
      modifies this
      ensures ok <==> Run(events).Some?
      ensures ok ==> var s := Run(events).value;
                     State() == s.flags && flushers == s.flushers && pushes == s.pushes
                     && |flushers| <= 1 && (uiFlushing <==> flushers != []) && Spaced(pushes)
                     && (!uiPending && !uiFlushing ==> s.seen == s.requests)
    {
      flushers, pushes, ok := [], [], true;
      for k := 0 to |events|
        invariant Run(events[..k]).Some?
        invariant State() == Run(events[..k]).value.flags
        invariant flushers == Run(events[..k]).value.flushers && pushes == Run(events[..k]).value.pushes
      {
        RunPrefix(events, k);
        var (now, e) := events[k];
        if k > 0 && events[k - 1].0 > now {
          NoRun(events, k + 1);
          return false, flushers, pushes;
        }
        ok, flushers, pushes := Perform(now, e, flushers, pushes, Run(events[..k]).value);
        if !ok {
          NoRun(events, k + 1);
          return;
        }
      }
      assert events[..|events|] == events;
      ThrottleSafe(events);
    }

    /** One event: a request, or the next segment of a flusher. */
    method Perform(now: real, e: Event, flushers: seq<Flusher>, pushes: seq<real>, ghost s: Ui)
      returns (ok: bool, left: seq<Flusher>, pushed: seq<real>)
      requires State() == s.flags && flushers == s.flushers && pushes == s.pushes
      modifies this
      ensures ok <==> Possible(s, now, e)
      ensures ok ==> var t := Step(s, now, e); State() == t.flags && left == t.flushers && pushed == t.pushes
    {
      ok, left, pushed := true, flushers, pushes;
      match e {
        case Request =>
          var spawn := RequestUI(now);
          if spawn {
            left := flushers + [Top];
          }
        case Flush(i) =>
          if i >= |flushers| {
            return false, left, pushed;
          }
          match flushers[i] {
            case Top =>
              var push := BeginFlush(now);
              if push {
                left, pushed := flushers[i := Snapping], pushes + [now];
              } else {
                left := Without(flushers, i);
              }
            case Snapping => left := flushers[i := Writing];
            case Writing =>
              var again := EndFlush();
              left := if again then flushers[i := Sleeping(now)] else Without(flushers, i);
            case Sleeping(since) =>
              if now < since + GAP {
                return false, left, pushed;
              }
              left := flushers[i := Top];
          }
      }
    }
  }

  lemma RunPrefix(events: seq<(real, Event)>, k: nat)
    requires k < |events| && Run(events[..k]).Some?
    ensures var s, now, e := Run(events[..k]).value, events[k].0, events[k].1;
            Run(events[..k + 1]) == if (k > 0 ==> events[k - 1].0 <= now) && Possible(s, now, e)
                                    then Some(Step(s, now, e)) else None
  {
    assert events[..k + 1][..k] == events[..k];
  }

  /** A run that breaks off does not recover. */
  lemma {:induction false} NoRun(events: seq<(real, Event)>, k: nat)
    requires k <= |events| && Run(events[..k]).None?
    ensures Run(events).None?
    decreases |events|
  {
    if k == |events| {
      assert events[..k] == events;
    } else {
      var n := |events| - 1;
      assert events[..n][..k] == events[..k];
      NoRun(events[..n], k);
    }
  }
}
