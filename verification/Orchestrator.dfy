/** The orchestrator's methods: each locked region updates the fields in place as the matching function of
    Orchestration says. Clock readings and the registry's contents at that moment are parameters. */
module Orchestrators {
  import opened Basics
  import opened Phases
  import opened Orchestration
  import R = ReportInterval
  import Registries

  const DEFAULT_PACKAGE := "https://root.cern/download/root_v6.40.02.Linux-almalinux9.8-x86_64-gcc11.5.tar.gz"

  datatype ConfigError = NoTestName | NoPrefix | BadRate | BadBandwidth | BadIOPS | BadStep | Busy

  /** A participant update as it arrives. */
  datatype ParticipantUpdate = ParticipantUpdate(mode: string, n: int, ids: seq<Id>, add: seq<Id>, remove: seq<Id>)

  /** ToLower as far as it can matter here: no other character becomes a letter of a mode. */
  function Lower(c: char): char {
    if 'A' <= c <= 'Z' then c + ' ' else if c == '\U{0130}' then 'i' else if c == '\U{212A}' then 'k' else c
  }

  function ToLower(s: string): (t: string)
    ensures |t| == |s|
    ensures forall i :: 0 <= i < |s| ==>
              (if 'A' <= s[i] <= 'Z' then t[i] as int == s[i] as int + 32
               else s[i] as int < 128 ==> t[i] == s[i])
  {
    seq(|s|, i requires 0 <= i < |s| => Lower(s[i]))
  }

  datatype Mode = EveryOne | NoOne | First | Explicit

  function ModeOf(mode: string): Mode {
    var m := ToLower(TrimSpace(mode));
    if m == "all" then EveryOne else if m == "none" then NoOne else if m == "first_n" then First else Explicit
  }

  function Decode(u: ParticipantUpdate): Update { DecodeAs(ModeOf(u.mode), u) }

  function DecodeAs(mode: Mode, u: ParticipantUpdate): Update {
    match mode
    case EveryOne => All
    case NoOne => Nobody
    case First => FirstN(u.n)
    case Explicit => if u.add != [] || u.remove != [] then AddRemove(u.add, u.remove) else Replace(u.ids)
  }

  /** The defaults SetConfig fills in. */
  function Filled(c: Config): Config {
    c.(phaseStepSeconds := if c.phaseStepSeconds <= 0.0 then 30.0 else c.phaseStepSeconds,
       packageURL := if Blank(c.packageURL) then DEFAULT_PACKAGE else c.packageURL)
  }

  ghost predicate Acceptable(c: Config) {
    c.fileCreationRate > 0.0 && c.fileDeletionRate > 0.0 && c.fileWriteBandwidth > 0.0 && c.fileReadBandwidth > 0.0
    && c.randomWriteIOPS >= 0.0 && c.randomReadIOPS >= 0.0 && c.phaseStepSeconds >= 1.0
  }

  class Orchestrator {
    var cfg: Config
    var selectedIDs: set<Id>
    var autoSelectNew: bool
    var running: bool
    var runClientIDs: seq<Id>
    var runClientSet: set<Id>
    var cancel: bool
    var phase: Phase
    var phaseSpans: seq<Span>
    var failMessage: Option<string>
    var status: Status
    var gauge: Gauge

    ghost function State(): Orch
      reads this
    {
      Orch(cfg, selectedIDs, autoSelectNew, running, runClientIDs, runClientSet, cancel, phase, phaseSpans, failMessage,
           status)
    }

    constructor (c: Config)
      ensures State() == Orch(Normalize(c), {}, true, false, [], {}, false, Idle, [], None, Ready)
    {
      cfg, selectedIDs, autoSelectNew, running := c, {}, true, false;
      runClientIDs, runClientSet, cancel, phase := [], {}, false, Idle;
      phaseSpans, failMessage, status, gauge := [], None, Ready, Gauge(0, None, 0.0, 0, 0);
      new;
      cfg := Normalized(c);
    }

    method Normalized(c: Config) returns (out: Config)
      ensures out == Normalize(c)
    {
      var d := NormalizeDisabledPhases(EffectivePhaseOrder(c), c.disabledPhases);
      out := c.(disabledPhases := d);
    }

    /** Accepts exactly acceptable settings while idle, with the defaults filled in, the disabled list normalized and
        the clients moved to the new prefixes. */
    method SetConfig(given: Config, testName: string, prefixes: seq<string>, registry: Registries.Registry,
                     choose: Registries.Choice)
      returns (error: Option<ConfigError>)
      modifies this`cfg, registry
      ensures error.None? <==>
                !running && testName != "" && prefixes != []
                && given.fileCreationRate > 0.0 && given.fileDeletionRate > 0.0
                && given.fileWriteBandwidth > 0.0 && given.fileReadBandwidth > 0.0
                && given.randomWriteIOPS >= 0.0 && given.randomReadIOPS >= 0.0
                && (given.phaseStepSeconds <= 0.0 || given.phaseStepSeconds >= 1.0)
      ensures error.Some? ==> State() == old(State())
      ensures error.None? ==>
                State() == old(State()).(config := cfg)
                && cfg == given.(phaseStepSeconds := if given.phaseStepSeconds <= 0.0 then 30.0
                                                     else given.phaseStepSeconds,
                                 packageURL := if exists i :: 0 <= i < |given.packageURL|
                                                              && !IsSpace(given.packageURL[i])
                                               then given.packageURL else DEFAULT_PACKAGE,
                                 disabledPhases := cfg.disabledPhases)
                && Distinct(cfg.disabledPhases)
                && forall p :: p in cfg.disabledPhases <==>
                     p in EffectivePhaseOrder(cfg)
                     && (p in given.disabledPhases
                         || (p in {SoftwareUnpack, SoftwareCold, SoftwareWarm}
                             && (SoftwareUnpack in given.disabledPhases || SoftwareCold in given.disabledPhases
                                 || SoftwareWarm in given.disabledPhases))
                         || (p in {Create, Delete}
                             && (Create in given.disabledPhases || Delete in given.disabledPhases)))
      ensures State() == if error.None? then ConfigureLocked(old(State()), Normalize(Filled(given))) else old(State())
      ensures registry.clients == if error.None? then Registries.Reassigned(old(registry.clients), choose, prefixes)
                                  else old(registry.clients)
    {
      if testName == "" { return Some(NoTestName); }
      if |prefixes| == 0 { return Some(NoPrefix); }
      if given.fileCreationRate <= 0.0 || given.fileDeletionRate <= 0.0 { return Some(BadRate); }
      if given.fileWriteBandwidth <= 0.0 || given.fileReadBandwidth <= 0.0 { return Some(BadBandwidth); }
      if given.randomWriteIOPS < 0.0 || given.randomReadIOPS < 0.0 { return Some(BadIOPS); }
      var c := given;
      if c.phaseStepSeconds <= 0.0 { c := c.(phaseStepSeconds := 30.0); }
      if c.phaseStepSeconds < 1.0 { return Some(BadStep); }
      if Blank(c.packageURL) { c := c.(packageURL := DEFAULT_PACKAGE); }
      NormalizedMembers(PhaseToggleGroup, EffectivePhaseOrder(c), c.disabledPhases);
      forall p {
        NormalizedIff(EffectivePhaseOrder(c), c.disabledPhases, p);
      }
      c := Normalized(c);
      if running { return Some(Busy); }
      cfg := c;
      registry.ReassignPrefixes(choose, prefixes);
      error := None;
    }

    /** The registry has taken the client in. While newcomers join by themselves everybody registered stays selected,
        and in any case only registered clients are. */
    method OnClientRegistered(id: Id, ghost registered: set<Id>)
      modifies this`selectedIDs
      ensures State() == RegisteredLocked(old(State()), id)
      ensures selectedIDs - {id} == old(selectedIDs) - {id}
      ensures id in selectedIDs <==> id in old(selectedIDs) || (autoSelectNew && !running)
      ensures old(Selection(State(), registered)) && !(running && autoSelectNew)
              ==> Selection(State(), registered + {id})
    {
      if running || !autoSelectNew { return; }
      selectedIDs := selectedIDs + {id};
    }

    method ClosePhaseSpan(at: real)
      modifies this`phaseSpans
      ensures phaseSpans == CloseSpan(old(phaseSpans), at) && |phaseSpans| == |old(phaseSpans)|
      ensures forall i :: 0 <= i < |phaseSpans| ==>
                phaseSpans[i] == if i == |phaseSpans| - 1 && old(phaseSpans)[i].end.None?
                                 then Span(old(phaseSpans)[i].phase, old(phaseSpans)[i].start, Some(at))
                                 else old(phaseSpans)[i]
    {
      var n := |phaseSpans|;
      if n > 0 && phaseSpans[n - 1].end.None? {
        phaseSpans := phaseSpans[n - 1 := phaseSpans[n - 1].(end := Some(at))];
      }
    }

    /** The locked part; `aborts` says whether the caller goes on to cancel, broadcast and freeze. The client is
        deselected in any case. A participant of a run not failing yet makes it fail, under its host name or the start
        of its id: the cancel function is handed over, and an open span ends now. */
    method OnClientRemoved(id: Id, hostname: string, now: real) returns (aborts: bool, held: bool)
      modifies this
      ensures aborts <==> old(running) && old(failMessage).None? && id in old(runClientSet)
      ensures !aborts ==> State() == old(State()).(selected := old(selectedIDs) - {id}) && gauge == old(gauge)
      ensures aborts ==>
                held == old(cancel) && failMessage.Some?
                && failMessage.value == (if TrimSpace(hostname) != "" then TrimSpace(hostname)
                                         else if |id| > 8 then id[..8] else id)
                && State() == old(State()).(selected := old(selectedIDs) - {id}, cancel := false, fail := failMessage,
                                            status := Failing(failMessage.value), phase := Stopped,
                                            spans := phaseSpans)
      ensures |phaseSpans| == |old(phaseSpans)|
      ensures forall i :: 0 <= i < |phaseSpans| ==>
                phaseSpans[i] == if aborts && i == |phaseSpans| - 1 && old(phaseSpans)[i].end.None?
                                 then Span(old(phaseSpans)[i].phase, old(phaseSpans)[i].start, Some(now))
                                 else old(phaseSpans)[i]
      ensures aborts ==>
                gauge == old(gauge).(percent := 0, elapsed := if old(gauge).startedAt.Some?
                                                              then now - old(gauge).startedAt.value
                                                              else old(gauge).elapsed)
      ensures State() == RemovedLocked(old(State()), id, hostname, now)
    {
      held := false;
      selectedIDs := selectedIDs - {id};
      if !running || failMessage.Some? {
        return false, false;
      }
      if id !in runClientSet {
        return false, false;
      }
      var name := TrimSpace(hostname);
      if name == "" {
        name := id;
        if |name| > 8 {
          name := name[..8];
        }
      }
      held := cancel;
      Abort(name, now);
      aborts := true;
    }

    method Abort(name: string, now: real)
      modifies this
      ensures State() == old(State()).(cancel := false, fail := Some(name), status := Failing(name), phase := Stopped,
                                       spans := phaseSpans)
      ensures phaseSpans == CloseSpan(old(phaseSpans), now) && |phaseSpans| == |old(phaseSpans)|
      ensures forall i :: 0 <= i < |phaseSpans| ==>
                phaseSpans[i] == if i == |phaseSpans| - 1 && old(phaseSpans)[i].end.None?
                                 then Span(old(phaseSpans)[i].phase, old(phaseSpans)[i].start, Some(now))
                                 else old(phaseSpans)[i]
      ensures gauge == Halted(old(gauge), now)
    {
      failMessage, status, phase, cancel := Some(name), Failing(name), Stopped, false;
      gauge := Halted(gauge, now);
      ClosePhaseSpan(now);
    }

    /** The selected clients that are registered, in the order the map is walked. */
    method ConnectedSelected(registered: set<Id>) returns (out: seq<Id>)
      ensures IdSet(out) == selectedIDs * registered && Distinct(out)
    {
      out := [];
      var left := selectedIDs;
      while |left| > 0
        invariant left <= selectedIDs && Distinct(out)
        invariant IdSet(out) == (selectedIDs - left) * registered
        decreases |left|
      {
        var id :| id in left;
        assert id !in IdSet(out);
        IdSetSnoc(out, id);
        DistinctSnoc(out, id);
        ConnectedNext(selectedIDs, left, id, registered);
        left := left - {id};
        if id in registered {
          out := out + [id];
        }
      }
    }

    static method AsSet(ids: seq<Id>) returns (out: set<Id>)
      ensures out == IdSet(ids)
    {
      out := {};
      for i := 0 to |ids|
        invariant out == IdSet(ids[..i])
      {
        out := out + {ids[i]};
      }
      assert ids[..|ids|] == ids;
    }

    /** The locked part of Start: refuses for the first obstacle; otherwise every registered selected client takes part,
        each once, and the run opens in its first phase, with no span yet. */
    method Start(registered: set<Id>, now: real) returns (error: Option<StartError>)
      modifies this
      ensures error == if old(running) then Some(AlreadyRunning)
                       else if registered == {} then Some(NoClients)
                       else if old(selectedIDs) * registered == {} then Some(NoneSelected)
                       else if ActivePhaseOrder(old(cfg)) == [] then Some(NoPhases)
                       else None
      ensures error.Some? ==> State() == old(State()) && gauge == old(gauge)
      ensures error.None? ==> gauge == Gauge(0, Some(now), 0.0, R.Seconds(|runClientIDs|) * R.SECOND, 0)
      ensures error.None? ==>
                Distinct(runClientIDs)
                && (forall id :: id in runClientIDs <==> id in old(selectedIDs) && id in registered)
                && State() == old(State()).(running := true, runIds := runClientIDs,
                                            runSet := old(selectedIDs) * registered, cancel := true,
                                            autoSelect := false, fail := None,
                                            phase := ActivePhaseOrder(old(cfg))[0], spans := [], status := Starting)
      ensures error == StartCheck(old(State()), registered, ActivePhaseOrder(old(cfg)))
      ensures error.None? ==>
                IdSet(runClientIDs) == old(selectedIDs) * registered
                && State() == StartLocked(old(State()), runClientIDs, ActivePhaseOrder(old(cfg))[0])
    {
      if running { return Some(AlreadyRunning); }
      if |registered| == 0 { return Some(NoClients); }
      var participants := ConnectedSelected(registered);
      if |participants| == 0 {
        assert IdSet(participants) == {};
        return Some(NoneSelected);
      }
      assert participants[0] in IdSet(participants);
      var active := ActivePhaseOrder(cfg);
      if |active| == 0 { return Some(NoPhases); }
      var ids := AsSet(participants);
      Freeze(participants, ids, active[0]);
      StartGauge(|participants|, now);
      error := None;
      assert forall id :: id in runClientIDs <==> id in IdSet(runClientIDs);
    }

    method StartGauge(n: nat, now: real)
      modifies this`gauge
      ensures gauge == Gauge(0, Some(now), 0.0, R.Seconds(n) * R.SECOND, 0)
    {
      var interval := R.MetricsIntervalForClients(n);
      gauge := Gauge(0, Some(now), 0.0, interval, 0);
    }

    method Freeze(participants: seq<Id>, ids: set<Id>, first: Phase)
      requires ids == IdSet(participants)
      modifies this
      ensures State() == StartLocked(old(State()), participants, first) && gauge == old(gauge)
    {
      cancel, running, runClientIDs, runClientSet := true, true, participants, ids;
      autoSelectNew, failMessage, phase, phaseSpans, status := false, None, first, [], Starting;
    }

    /** The locked part of Stop, without effect unless a run is on that is not failing. The cancel function is handed
        over, and an open span ends now. */
    method Stop(now: real) returns (stops: bool, held: bool)
      modifies this
      ensures stops <==> old(running) && old(failMessage).None?
      ensures !stops ==> State() == old(State()) && gauge == old(gauge)
      ensures stops ==>
                held == old(cancel)
                && State() == old(State()).(cancel := false, phase := Stopped, status := CleaningUp,
                                            spans := phaseSpans)
      ensures |phaseSpans| == |old(phaseSpans)|
      ensures forall i :: 0 <= i < |phaseSpans| ==>
                phaseSpans[i] == if stops && i == |phaseSpans| - 1 && old(phaseSpans)[i].end.None?
                                 then Span(old(phaseSpans)[i].phase, old(phaseSpans)[i].start, Some(now))
                                 else old(phaseSpans)[i]
      ensures stops ==>
                gauge == old(gauge).(percent := 0, elapsed := if old(gauge).startedAt.Some?
                                                              then now - old(gauge).startedAt.value
                                                              else old(gauge).elapsed)
      ensures State() == StopLocked(old(State()), now)
    {
      if !running { return false, false; }
      if failMessage.Some? { return false, false; }
      held, cancel := cancel, false;
      phase, status := Stopped, CleaningUp;
      ClosePhaseSpan(now);
      gauge := Halted(gauge, now);
      stops := true;
    }

    /** A change of phase, or the first phase of a run, adds exactly one open span, which begins now; the one before, if
        it was open, ends now, and all others are as they were. The spans stay ordered and disjoint in time. */
    method SetPhase(p: Phase, percent: int, now: real, ghost clock: real)
      modifies this
      ensures gauge == old(gauge).(percent := percent)
      ensures State() == old(State()).(phase := p, status := Working, spans := phaseSpans)
      ensures p == old(phase) && old(phaseSpans) != [] ==> phaseSpans == old(phaseSpans)
      ensures p != old(phase) || old(phaseSpans) == [] ==>
                var n := |old(phaseSpans)|;
                |phaseSpans| == n + 1 && phaseSpans[n] == Span(p, now, None)
                && forall i :: 0 <= i < n ==>
                     phaseSpans[i] == if i == n - 1 && old(phaseSpans)[i].end.None?
                                      then Span(old(phaseSpans)[i].phase, old(phaseSpans)[i].start, Some(now))
                                      else old(phaseSpans)[i]
      ensures State() == SetPhaseLocked(old(State()), p, now)
      ensures old(SpansOrdered(phaseSpans, clock)) && clock <= now ==> SpansOrdered(phaseSpans, now)
    {
      if SpansOrdered(phaseSpans, clock) && clock <= now {
        SpansExtended(State(), p, clock, now);
      }
      if p != phase || |phaseSpans| == 0 {
        ClosePhaseSpan(now);
        phaseSpans := phaseSpans + [Span(p, now, None)];
      }
      phase, status, gauge := p, Working, gauge.(percent := percent);
    }

    /** The fields of the run are cleared. */
    method Release(verdict: Verdict)
      modifies this
      ensures State() == old(State()).(running := false, runIds := [], runSet := {}, fail := None, phase := Idle,
                                       status := Ended(verdict), cancel := false)
      ensures gauge == old(gauge)
    {
      running, runClientIDs, runClientSet := false, [], {};
      failMessage, phase, status, cancel := None, Idle, Ended(verdict), false;
    }

    /** The locked part of finish. Nothing of the run is left and no span is open, each phase it went through keeps its
        span, and a run reads as lost exactly when a loss was noted before. */
    method Finish(text: Verdict, now: real, ghost clock: real)
      requires !text.Lost?
      modifies this
      ensures State() == old(State()).(running := false, runIds := [], runSet := {}, fail := None, phase := Idle,
                                       status := Ended(if old(failMessage).Some? then Lost(old(failMessage).value)
                                                       else text),
                                       cancel := false, spans := phaseSpans)
      ensures |phaseSpans| == |old(phaseSpans)|
      ensures forall i :: 0 <= i < |phaseSpans| ==>
                phaseSpans[i] == if i == |phaseSpans| - 1 && old(phaseSpans)[i].end.None?
                                 then Span(old(phaseSpans)[i].phase, old(phaseSpans)[i].start, Some(now))
                                 else old(phaseSpans)[i]
      ensures gauge == old(gauge).(percent := 0, interval := 0, elapsed := if old(gauge).startedAt.Some?
                                                                           then now - old(gauge).startedAt.value
                                                                           else old(gauge).elapsed)
      ensures State() == FinishLocked(old(State()), text, now) && Over(State())
      ensures old(SpansOrdered(phaseSpans, clock)) && clock <= now ==> SpansOrdered(phaseSpans, now)
    {
      FinishLeavesSpans(State(), text, clock, now);
      ClosePhaseSpan(now);
      var verdict := text;
      if failMessage.Some? {
        verdict := Lost(failMessage.value);
      }
      gauge := Halted(gauge, now).(interval := 0);
      Release(verdict);
    }

    /** UpdateParticipants; `sorted` is the registry's list by host name. Refused while a run is on. Otherwise `all` and
        `none` say what they select, `first_n` selects from the front of the list, and any other mode adds and removes
        the listed clients, or without any to add or remove selects exactly those of `ids`; ids are trimmed, and unknown
        ones ignored. */
    method UpdateParticipants(u: ParticipantUpdate, known: set<Id>, sorted: seq<Id>) returns (busy: bool)
      modifies this`selectedIDs, this`autoSelectNew
      ensures busy == running
      ensures State() == old(State()).(selected := selectedIDs, autoSelect := autoSelectNew)
      ensures running ==> selectedIDs == old(selectedIDs) && autoSelectNew == old(autoSelectNew)
      ensures !running && ToLower(TrimSpace(u.mode)) == "all" ==>
                selectedIDs == known && (autoSelectNew <==> known != {})
      ensures !running && ToLower(TrimSpace(u.mode)) == "none" ==> selectedIDs == {} && !autoSelectNew
      ensures !running && ToLower(TrimSpace(u.mode)) == "first_n" ==>
                var k := if u.n < 0 then 0 else if u.n > |sorted| then |sorted| else u.n;
                (forall id :: id in selectedIDs <==> id in sorted[..k]) && !autoSelectNew
      ensures !running && ToLower(TrimSpace(u.mode)) !in {"all", "none", "first_n"} ==>
                (if u.add != [] || u.remove != []
                 then forall id :: id in selectedIDs <==>
                        (id in old(selectedIDs) || (id in known && exists a :: a in u.add && TrimSpace(a) == id))
                        && !exists r :: r in u.remove && TrimSpace(r) == id
                 else forall id :: id in selectedIDs <==>
                        id != "" && id in known && exists a :: a in u.ids && TrimSpace(a) == id)
                && (autoSelectNew <==> selectedIDs != {} && |selectedIDs| == |known|)
      ensures State() == UpdateLocked(old(State()), Decode(u), known, sorted)
    {
      busy := running;
      if !running {
        UpdateSelection(ModeOf(u.mode), u, known, sorted);
      }
    }

    method UpdateSelection(mode: Mode, u: ParticipantUpdate, known: set<Id>, sorted: seq<Id>)
      modifies this`selectedIDs, this`autoSelectNew
      ensures selectedIDs == Selected(old(selectedIDs), DecodeAs(mode, u), known, sorted)
      ensures autoSelectNew == AutoSelects(DecodeAs(mode, u), selectedIDs, known)
    {
      match mode {
        case EveryOne => selectedIDs, autoSelectNew := known, |known| > 0;
        case NoOne => selectedIDs, autoSelectNew := {}, false;
        case First => SelectFirst(u.n, sorted);
        case Explicit =>
          if |u.add| > 0 || |u.remove| > 0 {
            AddAndRemove(u.add, u.remove, known);
          } else {
            ReplaceSelection(u.ids, known);
          }
      }
    }

    method SelectFirst(wanted: int, sorted: seq<Id>)
      modifies this`selectedIDs, this`autoSelectNew
      ensures selectedIDs == IdSet(sorted[..Clip(wanted, |sorted|)]) && !autoSelectNew
    {
      var n := wanted;
      if n < 0 { n := 0; }
      if n > |sorted| { n := |sorted|; }
      selectedIDs := AsSet(sorted[..n]);
      autoSelectNew := false;
    }

    method AddAndRemove(add: seq<Id>, remove: seq<Id>, known: set<Id>)
      modifies this`selectedIDs, this`autoSelectNew
      ensures selectedIDs == old(selectedIDs) + KnownOf(add, known) - (set i | i in remove :: TrimSpace(i))
      ensures autoSelectNew == (|selectedIDs| > 0 && |selectedIDs| == |known|)
    {
      for k := 0 to |add|
        invariant selectedIDs == old(selectedIDs) + KnownOf(add[..k], known)
      {
        var id := TrimSpace(add[k]);
        KnownOfSnoc(add, k, known);
        if id in known {
          selectedIDs := selectedIDs + {id};
        }
      }
      assert add[..|add|] == add;
      ghost var added := selectedIDs;
      for k := 0 to |remove|
        invariant selectedIDs == added - set i | i in remove[..k] :: TrimSpace(i)
      {
        assert remove[..k + 1] == remove[..k] + [remove[k]];
        selectedIDs := selectedIDs - {TrimSpace(remove[k])};
      }
      assert remove[..|remove|] == remove;
      autoSelectNew := |selectedIDs| > 0 && |selectedIDs| == |known|;
    }

    /** SetSelectedClients, too. */
    method ReplaceSelection(ids: seq<Id>, known: set<Id>)
      modifies this`selectedIDs, this`autoSelectNew
      ensures selectedIDs == KnownOf(ids, known) - {""}
      ensures autoSelectNew == (|selectedIDs| > 0 && |selectedIDs| == |known|)
    {
      var next: set<Id> := {};
      for k := 0 to |ids|
        invariant next == KnownOf(ids[..k], known) - {""}
      {
        var id := TrimSpace(ids[k]);
        KnownOfSnoc(ids, k, known);
        if id == "" || id !in known {
          continue;
        }
        next := next + {id};
      }
      assert ids[..|ids|] == ids;
      selectedIDs, autoSelectNew := next, |next| > 0 && |next| == |known|;
    }
  }

  lemma DistinctSnoc(ids: seq<Id>, id: Id)
    requires Distinct(ids) && id !in IdSet(ids)
    ensures Distinct(ids + [id])
  {
    assert forall k :: 0 <= k < |ids| ==> ids[k] in IdSet(ids);
  }

  lemma ConnectedNext(selected: set<Id>, left: set<Id>, id: Id, registered: set<Id>)
    requires left <= selected && id in left
    ensures (selected - (left - {id})) * registered
         == (selected - left) * registered + (if id in registered then {id} else {})
  {}

  lemma KnownOfSnoc(ids: seq<Id>, k: nat, known: set<Id>)
    requires k < |ids|
    ensures KnownOf(ids[..k + 1], known)
         == KnownOf(ids[..k], known) + (if TrimSpace(ids[k]) in known then {TrimSpace(ids[k])} else {})
  {
    assert ids[..k + 1] == ids[..k] + [ids[k]];
  }
}
