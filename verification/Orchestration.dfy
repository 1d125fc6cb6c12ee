/** What the orchestrator does inside its mutex: each function is one critical section. */
module Orchestration {
  import opened Basics
  import opened Phases

  type Id = string

  datatype Span = Span(phase: Phase, start: real, end: Option<real>)

  /** How a run ends, as shown to the user. */
  datatype Verdict = Lost(who: string) | FailedRun | StoppedRun | CompletedRun

  datatype Status = Ready | Starting | Working | CleaningUp | Failing(who: string) | Ended(verdict: Verdict)

  /** The fields guarded by the mutex. */
  datatype Orch = Orch(config: Config, selected: set<Id>, autoSelect: bool, running: bool, runIds: seq<Id>,
                       runSet: set<Id>, cancel: bool, phase: Phase, spans: seq<Span>, fail: Option<string>,
                       status: Status)

  /** What the display shows of the progress, and how often clients are to report, in nanoseconds. */
  datatype Gauge = Gauge(percent: int, startedAt: Option<real>, elapsed: real, interval: int, files: int)

  /** The display of a run that has come to a halt: its time stands still. */
  function Halted(g: Gauge, now: real): Gauge {
    g.(percent := 0, elapsed := if g.startedAt.Some? then now - g.startedAt.value else g.elapsed)
  }

  datatype StartError = AlreadyRunning | NoClients | NoneSelected | NoPhases

  function IdSet(ids: seq<Id>): set<Id> { set i | i in ids }

  lemma IdSetSnoc(ids: seq<Id>, id: Id)
    ensures IdSet(ids + [id]) == IdSet(ids) + {id}
  {}

  // ---- Strings -------------------------------------------------------------------------------------

  function TrimLeft(s: string): string { if s != [] && IsSpace(s[0]) then TrimLeft(s[1..]) else s }

  function TrimRight(s: string): string {
    if s != [] && IsSpace(s[|s| - 1]) then TrimRight(s[..|s| - 1]) else s
  }

  function TrimSpace(s: string): string { TrimRight(TrimLeft(s)) }

  /** Only spaces are taken off, and only at the ends, but all of them. */
  lemma TrimSpaceIs(s: string) returns (i: nat, j: nat)
    ensures i <= j <= |s| && TrimSpace(s) == s[i..j]
    ensures forall k :: 0 <= k < i || j <= k < |s| ==> IsSpace(s[k])
    ensures i < j ==> !IsSpace(s[i]) && !IsSpace(s[j - 1])
  {
    i := TrimLeftIs(s);
    j := TrimRightIs(s[i..]);
    assert s[i..][..j] == s[i..i + j];
    assert forall k :: i + j <= k < |s| ==> s[k] == s[i..][k - i];
    j := i + j;
  }

  lemma {:induction false} TrimLeftIs(s: string) returns (i: nat)
    ensures i <= |s| && TrimLeft(s) == s[i..] && (i < |s| ==> !IsSpace(s[i]))
    ensures forall k :: 0 <= k < i ==> IsSpace(s[k])
  {
    i := 0;
    if s != [] && IsSpace(s[0]) {
      i := TrimLeftIs(s[1..]);
      assert s[1..][i..] == s[i + 1..];
      assert forall k :: 0 < k < i + 1 ==> s[k] == s[1..][k - 1];
      i := i + 1;
    }
  }

  lemma {:induction false} TrimRightIs(s: string) returns (j: nat)
    ensures j <= |s| && TrimRight(s) == s[..j] && (j > 0 ==> !IsSpace(s[j - 1]))
    ensures forall k :: j <= k < |s| ==> IsSpace(s[k])
  {
    j := |s|;
    if s != [] && IsSpace(s[|s| - 1]) {
      j := TrimRightIs(s[..|s| - 1]);
      assert s[..|s| - 1][..j] == s[..j];
      assert forall k :: j <= k < |s| - 1 ==> s[k] == s[..|s| - 1][k];
    }
  }

  /** How a lost participant is named: its host, or the start of its id. */
  function LostLabel(id: Id, hostname: string): string {
    var host := TrimSpace(hostname);
    if host != "" then host else if |id| > 8 then id[..8] else id
  }

  // ---- Spans ---------------------------------------------------------------------------------------

  function CloseSpan(spans: seq<Span>, at: real): seq<Span> {
    if spans != [] && spans[|spans| - 1].end.None? then
      spans[|spans| - 1 := spans[|spans| - 1].(end := Some(at))]
    else spans
  }

  function SpanPhases(spans: seq<Span>): seq<Phase> { seq(|spans|, i requires 0 <= i < |spans| => spans[i].phase) }

  /** Only the last span may be open; spans follow each other in time. */
  ghost predicate SpansOrdered(spans: seq<Span>, clock: real) {
    (forall i :: 0 <= i < |spans| - 1 ==> spans[i].end.Some? && spans[i].end.value <= spans[i + 1].start)
    && (forall i :: 0 <= i < |spans| ==> spans[i].start <= clock)
    && (forall i :: 0 <= i < |spans| && spans[i].end.Some? ==> spans[i].start <= spans[i].end.value <= clock)
  }

  /** Nothing of a run is left. */
  ghost predicate Over(o: Orch) {
    o.runIds == [] && o.runSet == {} && o.fail.None? && !o.cancel && o.phase == Idle
    && (o.spans != [] ==> o.spans[|o.spans| - 1].end.Some?)
  }

  // ---- Critical sections ---------------------------------------------------------------------------

  /** Start, given the active phases. `order` is the order in which the map of selected ids happens to be walked. */
  function StartCheck(o: Orch, registered: set<Id>, active: seq<Phase>): Option<StartError> {
    if o.running then Some(AlreadyRunning)
    else if registered == {} then Some(NoClients)
    else if o.selected * registered == {} then Some(NoneSelected)
    else if active == [] then Some(NoPhases)
    else None
  }

  function StartLocked(o: Orch, order: seq<Id>, first: Phase): Orch {
    o.(running := true, runIds := order, runSet := IdSet(order), cancel := true, autoSelect := false, fail := None,
       phase := first, spans := [], status := Starting)
  }

  function StopLocked(o: Orch, now: real): Orch {
    if !o.running || o.fail.Some? then o
    else o.(cancel := false, phase := Stopped, spans := CloseSpan(o.spans, now), status := CleaningUp)
  }

  predicate LosesParticipant(o: Orch, id: Id) { o.running && o.fail.None? && id in o.runSet }

  function RemovedLocked(o: Orch, id: Id, hostname: string, now: real): Orch {
    var p := o.(selected := o.selected - {id});
    if !LosesParticipant(o, id) then p
    else p.(cancel := false, fail := Some(LostLabel(id, hostname)), status := Failing(LostLabel(id, hostname)),
            phase := Stopped, spans := CloseSpan(o.spans, now))
  }

  function RegisteredLocked(o: Orch, id: Id): Orch {
    if o.running || !o.autoSelect then o else o.(selected := o.selected + {id})
  }

  function SetPhaseLocked(o: Orch, p: Phase, now: real): Orch {
    var spans := if p != o.phase || o.spans == [] then CloseSpan(o.spans, now) + [Span(p, now, None)] else o.spans;
    o.(phase := p, spans := spans, status := Working)
  }

  function FinishLocked(o: Orch, text: Verdict, now: real): Orch {
    o.(spans := CloseSpan(o.spans, now), running := false, runIds := [], runSet := {}, fail := None, phase := Idle,
       status := Ended(if o.fail.Some? then Lost(o.fail.value) else text), cancel := false)
  }

  function ConfigureLocked(o: Orch, c: Config): Orch { if o.running then o else o.(config := c) }

  // ---- What becomes of the spans ---------------------------------------------------------------------

  lemma SpansClosed(spans: seq<Span>, clock: real, now: real)
    requires SpansOrdered(spans, clock) && clock <= now
    ensures SpansOrdered(CloseSpan(spans, now), now)
    ensures SpanPhases(CloseSpan(spans, now)) == SpanPhases(spans)
  {}

  lemma SpansExtended(o: Orch, p: Phase, clock: real, now: real)
    requires SpansOrdered(o.spans, clock) && clock <= now
    ensures SpansOrdered(SetPhaseLocked(o, p, now).spans, now)
    ensures SpanPhases(SetPhaseLocked(o, p, now).spans)
         == if p != o.phase || o.spans == [] then SpanPhases(o.spans) + [p] else SpanPhases(o.spans)
  {
    SpansClosed(o.spans, clock, now);
  }

  lemma SpanPhasesSet(o: Orch, p: Phase, now: real)
    ensures SpanPhases(SetPhaseLocked(o, p, now).spans)
         == if p != o.phase || o.spans == [] then SpanPhases(o.spans) + [p] else SpanPhases(o.spans)
  {
    assert SpanPhases(CloseSpan(o.spans, now)) == SpanPhases(o.spans);
  }

  /** The end of a run leaves nothing of it but its spans, all of them closed. */
  lemma FinishLeavesSpans(o: Orch, text: Verdict, clock: real, now: real)
    ensures var p := FinishLocked(o, text, now);
            Over(p) && SpanPhases(p.spans) == SpanPhases(o.spans)
            && (SpansOrdered(o.spans, clock) && clock <= now ==> SpansOrdered(p.spans, now))
  {
    assert SpanPhases(CloseSpan(o.spans, now)) == SpanPhases(o.spans);
    if SpansOrdered(o.spans, clock) && clock <= now {
      SpansClosed(o.spans, clock, now);
    }
  }

  // ---- Choosing participants ------------------------------------------------------------------------

  datatype Update =
    | All
    | Nobody
    | FirstN(n: int)
    | AddRemove(add: seq<Id>, remove: seq<Id>)
    | Replace(ids: seq<Id>)

  /** The listed ids that are known, trimmed. */
  function KnownOf(ids: seq<Id>, known: set<Id>): set<Id> { set i | i in ids && TrimSpace(i) in known :: TrimSpace(i) }

  function Clip(n: int, high: nat): (k: nat)
    ensures k <= high
  {
    if n < 0 then 0 else if n > high then high else n
  }

  /** Who is selected after an update; `sorted` lists the registered ids by host name. */
  function Selected(was: set<Id>, u: Update, known: set<Id>, sorted: seq<Id>): set<Id> {
    match u
    case All => known
    case Nobody => {}
    case FirstN(n) => IdSet(sorted[..Clip(n, |sorted|)])
    case AddRemove(add, remove) => was + KnownOf(add, known) - (set i | i in remove :: TrimSpace(i))
    case Replace(ids) => KnownOf(ids, known) - {""}
  }

  /** Whether newcomers join by themselves after an update that selects `next`. */
  function AutoSelects(u: Update, next: set<Id>, known: set<Id>): bool {
    match u
    case All => |next| > 0
    case Nobody => false
    case FirstN(_) => false
    case _ => |next| > 0 && |next| == |known|
  }

  /** UpdateParticipants. */
  function UpdateLocked(o: Orch, u: Update, known: set<Id>, sorted: seq<Id>): Orch {
    if o.running then o
    else
      var next := Selected(o.selected, u, known, sorted);
      o.(selected := next, autoSelect := AutoSelects(u, next, known))
  }

  /** Only registered clients are selected, and while newcomers join by themselves all of them are. */
  ghost predicate Selection(o: Orch, registered: set<Id>) {
    o.selected <= registered && (o.autoSelect ==> o.selected == registered)
  }

  /** The comparison of sizes in UpdateParticipants is equality of sets, and the update keeps the selection sound. */
  lemma UpdateKeepsSelection(o: Orch, u: Update, known: set<Id>, sorted: seq<Id>)
    requires Selection(o, known) && IdSet(sorted) == known
    ensures Selection(UpdateLocked(o, u, known, sorted), known)
    ensures !o.running && (u.AddRemove? || u.Replace?) ==>
              var p := UpdateLocked(o, u, known, sorted);
              p.autoSelect <==> p.selected != {} && p.selected == known
  {
    var next := UpdateLocked(o, u, known, sorted).selected;
    if !o.running {
      match u
      case FirstN(n) =>
        var k := Clip(n, |sorted|);
        forall i | i in IdSet(sorted[..k])
          ensures i in known
        {
          assert i in IdSet(sorted);
        }
      case All =>
      case Nobody =>
      case AddRemove(_, _) =>
        SubsetOfSameSize(next, known);
      case Replace(_) =>
        SubsetOfSameSize(next, known);
    }
  }

  // ---- Phase sequences without repeats ---------------------------------------------------------------

  /** Adjacent repeats removed. */
  function Collapse(s: seq<Phase>): seq<Phase> {
    if |s| <= 1 then s
    else
      var front := Collapse(s[..|s| - 1]);
      if s[|s| - 2] == s[|s| - 1] then front else front + [s[|s| - 1]]
  }

  ghost predicate NoRepeats(s: seq<Phase>) { forall i :: 0 <= i < |s| - 1 ==> s[i] != s[i + 1] }

  lemma CollapseSnoc(s: seq<Phase>, p: Phase)
    ensures Collapse(s + [p]) == if s != [] && s[|s| - 1] == p then Collapse(s) else Collapse(s) + [p]
  {
    assert (s + [p])[..|s|] == s;
  }

  lemma {:induction false} CollapsePrefix(s: seq<Phase>, k: nat)
    requires k <= |s|
    ensures Collapse(s[..k]) <= Collapse(s)
    decreases |s|
  {
    if k == |s| {
      assert s[..k] == s;
    } else {
      var front := s[..|s| - 1];
      CollapsePrefix(front, k);
      assert front[..k] == s[..k];
      CollapseSnoc(front, s[|s| - 1]);
      assert s == front + [s[|s| - 1]];
    }
  }

  lemma {:induction false} CollapseNoRepeats(s: seq<Phase>)
    requires NoRepeats(s)
    ensures Collapse(s) == s
  {
    if |s| > 1 {
      CollapseNoRepeats(s[..|s| - 1]);
      assert s[|s| - 2] != s[|s| - 2 + 1];
      assert s == s[..|s| - 1] + [s[|s| - 1]];
    }
  }
}
