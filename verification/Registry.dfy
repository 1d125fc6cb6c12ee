/** The registry of connected clients, and the barrier that waits until all participants of a run are idle. */
module Registries {
  import opened Basics
  import opened Orchestration

  datatype Client = Client(hostname: string, prefix: string, status: string, lastSeen: real)

  /** How a prefix is picked for a host name: a hash of the name. */
  type Choice = (string, seq<string>) -> string

  /** Every client gets the prefix picked for its host. */
  function Reassigned(clients: map<Id, Client>, choose: Choice, prefixes: seq<string>): map<Id, Client> {
    map id | id in clients :: clients[id].(prefix := choose(clients[id].hostname, prefixes))
  }

  // ---- The order of the client list ----------------------------------------------------------------

  predicate StringLess(a: string, b: string) {
    if b == "" then false
    else if a == "" then true
    else if a[0] != b[0] then a[0] < b[0]
    else StringLess(a[1..], b[1..])
  }

  /** a comes first in the dictionary: it runs out, or has the smaller character, where the two first differ. */
  ghost predicate LessAt(a: string, b: string, k: nat) {
    k <= |a| && k < |b| && a[..k] == b[..k] && (k == |a| || a[k] < b[k])
  }

  lemma {:induction false} StringLessIff(a: string, b: string)
    ensures StringLess(a, b) <==> exists k: nat :: LessAt(a, b, k)
    decreases |a|
  {
    if a == "" || b == "" || a[0] != b[0] {
      assert b != "" && (a == "" || a[0] < b[0]) ==> LessAt(a, b, 0);
      assert forall k: nat :: LessAt(a, b, k) && k > 0 ==> a[..k][0] == b[..k][0];
    } else {
      StringLessIff(a[1..], b[1..]);
      forall k: nat | LessAt(a[1..], b[1..], k)
        ensures LessAt(a, b, k + 1)
      {
        assert a[..k + 1] == [a[0]] + a[1..][..k] && b[..k + 1] == [b[0]] + b[1..][..k];
      }
      forall k: nat | LessAt(a, b, k)
        ensures k > 0 && LessAt(a[1..], b[1..], k - 1)
      {
        assert a[1..][..k - 1] == a[..k][1..] && b[1..][..k - 1] == b[..k][1..];
      }
    }
  }

  lemma {:induction false} StringLessTotal(a: string, b: string)
    ensures StringLess(a, b) || StringLess(b, a) || a == b
    ensures !(StringLess(a, b) && StringLess(b, a)) && !StringLess(a, a)
    decreases |a|
  {
    if a != "" {
      StringLessTotal(a[1..], a[1..]);
      if b != "" {
        StringLessTotal(a[1..], b[1..]);
        assert a[0] == b[0] && a[1..] == b[1..] ==> a == [a[0]] + a[1..] == b;
      }
    }
  }

  lemma {:induction false} StringLessTransitive(a: string, b: string, c: string)
    requires StringLess(a, b) && StringLess(b, c)
    ensures StringLess(a, c)
    decreases |a|
  {
    if a != "" && a[0] == b[0] == c[0] {
      StringLessTransitive(a[1..], b[1..], c[1..]);
    }
  }

  /** By host name, then by id. */
  predicate Before(clients: map<Id, Client>, i: Id, j: Id)
    requires i in clients && j in clients
  {
    var a, b := clients[i].hostname, clients[j].hostname;
    if a != b then StringLess(a, b) else StringLess(i, j)
  }

  lemma BeforeTotal(clients: map<Id, Client>, i: Id, j: Id)
    requires i in clients && j in clients && i != j
    ensures Before(clients, i, j) <==> !Before(clients, j, i)
  {
    StringLessTotal(i, j);
    StringLessTotal(clients[i].hostname, clients[j].hostname);
  }

  lemma BeforeTransitive(clients: map<Id, Client>, i: Id, j: Id, k: Id)
    requires i in clients && j in clients && k in clients && Before(clients, i, j) && Before(clients, j, k)
    ensures Before(clients, i, k)
  {
    var a, b, c := clients[i].hostname, clients[j].hostname, clients[k].hostname;
    if a != b && b != c {
      StringLessTransitive(a, b, c);
      StringLessTotal(a, b);
    } else if a == b == c {
      StringLessTransitive(i, j, k);
    }
  }

  ghost predicate Sorted(clients: map<Id, Client>, ids: seq<Id>) {
    (forall i :: 0 <= i < |ids| ==> ids[i] in clients)
    && forall i, j :: 0 <= i < j < |ids| ==> Before(clients, ids[i], ids[j])
  }

  /** The first n clients of the sorted list come before all others. */
  lemma FirstNPrecede(clients: map<Id, Client>, sorted: seq<Id>, wanted: int, i: Id, j: Id)
    requires Sorted(clients, sorted) && IdSet(sorted) == clients.Keys
    requires i in Selected({}, FirstN(wanted), clients.Keys, sorted) && j in clients
    requires j !in Selected({}, FirstN(wanted), clients.Keys, sorted)
    ensures Before(clients, i, j)
  {
    var n := Clip(wanted, |sorted|);
    assert forall c :: 0 <= c < n ==> sorted[..n][c] == sorted[c] && sorted[c] in IdSet(sorted[..n]);
    assert j in IdSet(sorted);
    var a :| 0 <= a < n && sorted[..n][a] == i;
    var b :| 0 <= b < |sorted| && sorted[b] == j;
  }

  lemma InsertKeepsOrder(clients: map<Id, Client>, ids: seq<Id>, id: Id, k: nat)
    requires Sorted(clients, ids) && id in clients && id !in ids && k <= |ids|
    requires k > 0 ==> !Before(clients, id, ids[k - 1])
    requires forall i :: k <= i < |ids| ==> Before(clients, id, ids[i])
    ensures Sorted(clients, ids[..k] + [id] + ids[k..]) && IdSet(ids[..k] + [id] + ids[k..]) == IdSet(ids) + {id}
  {
    forall i | 0 <= i < k
      ensures Before(clients, ids[i], id)
    {
      BeforeTotal(clients, ids[k - 1], id);
      if i < k - 1 {
        BeforeTransitive(clients, ids[i], ids[k - 1], id);
      }
    }
    assert ids == ids[..k] + ids[k..];
  }

  function StaleKeys(clients: map<Id, Client>, among: set<Id>, cutoff: real): set<Id> {
    set id | id in among && id in clients && clients[id].lastSeen < cutoff
  }

  lemma StaleKeysNext(clients: map<Id, Client>, among: set<Id>, id: Id, cutoff: real)
    requires id in clients
    ensures StaleKeys(clients, among + {id}, cutoff)
         == StaleKeys(clients, among, cutoff) + (if clients[id].lastSeen < cutoff then {id} else {})
  {}

  lemma MinusBoth(clients: map<Id, Client>, gone: set<Id>, id: Id)
    ensures clients - gone - {id} == clients - (gone + {id})
  {}

  // ---- The registry --------------------------------------------------------------------------------

  class Registry {
    var clients: map<Id, Client>

    constructor ()
      ensures clients == map[]
    {
      clients := map[];
    }

    method Upsert(id: Id, hostname: string, prefix: string, now: real)
      modifies this
      ensures clients == old(clients)[id := Client(hostname, prefix, "registered", now)]
    {
      clients := clients[id := Client(hostname, prefix, "registered", now)];
    }

    method Touch(id: Id, now: real)
      modifies this
      ensures clients == if id in old(clients)
                         then old(clients)[id := old(clients)[id].(lastSeen := now)] else old(clients)
    {
      if id in clients {
        clients := clients[id := clients[id].(lastSeen := now)];
      }
    }

    method SetStatus(id: Id, status: string, now: real)
      modifies this
      ensures clients == if id in old(clients)
                         then old(clients)[id := old(clients)[id].(status := status, lastSeen := now)] else old(clients)
    {
      if id in clients {
        clients := clients[id := clients[id].(status := status, lastSeen := now)];
      }
    }

    /** Nothing but the prefixes changes, and each is picked for its client's host. */
    method ReassignPrefixes(choose: Choice, prefixes: seq<string>)
      modifies this
      ensures clients == Reassigned(old(clients), choose, prefixes)
    {
      var all, left := clients, clients.Keys;
      while |left| > 0
        invariant left <= all.Keys
        invariant clients == map id | id in all ::
                    if id in left then all[id] else all[id].(prefix := choose(all[id].hostname, prefixes))
        decreases |left|
      {
        var id :| id in left;
        left := left - {id};
        clients := clients[id := clients[id].(prefix := choose(clients[id].hostname, prefixes))];
      }
    }

    method Remove(id: Id)
      modifies this
      ensures clients == old(clients) - {id}
    {
      clients := clients - {id};
    }

    /** The statuses of the listed clients at one moment; those not connected are left out. */
    method Statuses(ids: seq<Id>) returns (out: map<Id, string>)
      ensures out == map id | id in IdSet(ids) && id in clients :: clients[id].status
    {
      out := map[];
      for k := 0 to |ids|
        invariant out == map id | id in IdSet(ids[..k]) && id in clients :: clients[id].status
      {
        assert ids[..k + 1] == ids[..k] + [ids[k]];
        if ids[k] in clients {
          out := out[ids[k] := clients[ids[k]].status];
        }
      }
      assert ids[..|ids|] == ids;
    }

    /** Removes exactly the clients not seen since the cutoff and reports each of them once. */
    method Prune(now: real, ttl: real) returns (gone: seq<Id>)
      modifies this
      ensures IdSet(gone) == StaleKeys(old(clients), old(clients).Keys, now - ttl) && Distinct(gone)
      ensures clients == old(clients) - IdSet(gone)
      ensures forall id :: id in clients <==> id in old(clients) && old(clients)[id].lastSeen >= now - ttl
      ensures forall id :: id in gone <==> id in old(clients) && old(clients)[id].lastSeen < now - ttl
    {
      gone := [];
      var cutoff, left := now - ttl, clients.Keys;
      ghost var all := clients;
      while |left| > 0
        invariant left <= all.Keys && Distinct(gone)
        invariant IdSet(gone) == StaleKeys(all, all.Keys - left, cutoff)
        invariant clients == all - IdSet(gone)
        decreases |left|
      {
        var id :| id in left;
        StaleKeysNext(all, all.Keys - left, id, cutoff);
        assert all.Keys - (left - {id}) == (all.Keys - left) + {id};
        assert id !in IdSet(gone);
        left := left - {id};
        if clients[id].lastSeen < cutoff {
          gone := Drop(all, gone, id);
        }
      }
      assert all.Keys - left == all.Keys;
      assert forall id :: id in gone <==> id in IdSet(gone);
    }

    method Drop(ghost all: map<Id, Client>, gone: seq<Id>, id: Id) returns (more: seq<Id>)
      requires clients == all - IdSet(gone) && Distinct(gone) && id !in IdSet(gone)
      modifies this
      ensures clients == all - IdSet(more) && more == gone + [id] && IdSet(more) == IdSet(gone) + {id} && Distinct(more)
    {
      IdSetSnoc(gone, id);
      MinusBoth(all, IdSet(gone), id);
      more, clients := gone + [id], clients - {id};
    }

    /** All ids, by host name and id. */
    method IDsSorted() returns (out: seq<Id>)
      ensures Sorted(clients, out) && IdSet(out) == clients.Keys
      ensures forall i, j :: 0 <= i < j < |out| ==>
                var a, b := clients[out[i]].hostname, clients[out[j]].hostname;
                StringLess(a, b) || (a == b && StringLess(out[i], out[j]))
    {
      out := [];
      var left := clients.Keys;
      while |left| > 0
        invariant left <= clients.Keys && Sorted(clients, out)
        invariant IdSet(out) == clients.Keys - left
        decreases |left|
      {
        var id :| id in left;
        left := left - {id};
        assert id !in IdSet(out);
        out := Insert(out, id);
      }
    }

    method Insert(ids: seq<Id>, id: Id) returns (out: seq<Id>)
      requires Sorted(clients, ids) && id in clients && id !in ids
      ensures Sorted(clients, out) && IdSet(out) == IdSet(ids) + {id}
    {
      var k := |ids|;
      while k > 0 && Before(clients, id, ids[k - 1])
        invariant 0 <= k <= |ids|
        invariant forall i :: k <= i < |ids| ==> Before(clients, id, ids[i])
      {
        k := k - 1;
      }
      out := ids[..k] + [id] + ids[k..];
      InsertKeepsOrder(clients, ids, id, k);
    }
  }
}

/** waitClientsIdle, poll by poll. */
module Barrier {
  import opened Basics
  import opened Orchestration

  /** What a turn of the loop meets: the cancelled run, or a tick with its clock readings and a status snapshot. */
  datatype Poll = Cancellation | Tick(at: real, statuses: map<Id, string>, middle: real, last: real)

  datatype Outcome = Idle(poll: nat) | TimedOut(poll: nat) | Cancelled(poll: nat) | Waiting

  /** Every participant is present and idle in this one snapshot. */
  ghost predicate AllIdle(want: set<Id>, statuses: map<Id, string>) {
    forall id :: id in want ==> id in statuses && statuses[id] == "idle"
  }

  ghost predicate SomeRunning(want: set<Id>, statuses: map<Id, string>) {
    exists id :: id in want && id in statuses && statuses[id] == "running"
  }

  /** Some participant was running in one of the first k polls. */
  ghost predicate SawRunning(want: set<Id>, polls: seq<Poll>, k: nat) {
    exists j :: 0 <= j < k && j < |polls| && polls[j].Tick? && SomeRunning(want, polls[j].statuses)
  }

  /** Poll k finds everybody idle and believes it: somebody was seen running before, or 3.5 seconds have passed. */
  ghost predicate Done(want: set<Id>, grace: real, polls: seq<Poll>, k: nat)
    requires k < |polls|
  {
    polls[k].Tick? && AllIdle(want, polls[k].statuses)
    && (SawRunning(want, polls, k) || (polls[k].middle > grace && polls[k].last - grace > 2.0))
  }

  ghost predicate Undecided(want: set<Id>, deadline: real, grace: real, polls: seq<Poll>, k: nat)
    requires k < |polls|
  {
    polls[k].Tick? && polls[k].at <= deadline && !Done(want, grace, polls, k)
  }

  /** Somebody is missing or busy in poll k, or nothing has run before it and 3.5 seconds have not passed. */
  ghost predicate TooSoon(want: set<Id>, graceStart: real, polls: seq<Poll>, k: nat)
    requires k < |polls|
  {
    polls[k].Tick?
    && ((exists id :: id in want && (id !in polls[k].statuses || polls[k].statuses[id] != "idle"))
        || ((forall i, id :: 0 <= i < k && polls[i].Tick? && id in want && id in polls[i].statuses ==>
               polls[i].statuses[id] != "running")
            && (polls[k].middle <= graceStart + 1.5 || polls[k].last - graceStart <= 3.5)))
  }

  lemma UndecidedIsTooSoon(want: set<Id>, deadline: real, graceStart: real, polls: seq<Poll>, k: nat)
    requires k < |polls| && Undecided(want, deadline, graceStart + 1.5, polls, k)
    ensures TooSoon(want, graceStart, polls, k)
  {
    if AllIdle(want, polls[k].statuses) {
      forall i, id | 0 <= i < k && polls[i].Tick? && id in want && id in polls[i].statuses
        ensures polls[i].statuses[id] != "running"
      {
        assert !SomeRunning(want, polls[i].statuses);
      }
    }
  }

  datatype Survey = Survey(allIdle: bool, anyRunning: bool, present: nat)

  /** The loop over the participants, in whatever order the map is walked. */
  method Look(want: set<Id>, statuses: map<Id, string>) returns (s: Survey)
    ensures s.anyRunning == SomeRunning(want, statuses)
    ensures s.present == |set id | id in want && id in statuses|
    ensures s.allIdle == forall id :: id in want && id in statuses ==> statuses[id] == "idle"
  {
    var allIdle, anyRunning, present := true, false, 0;
    var left := want;
    while |left| > 0
      invariant left <= want
      invariant anyRunning == SomeRunning(want - left, statuses)
      invariant present == |set id | id in want - left && id in statuses|
      invariant allIdle == forall id :: id in want - left && id in statuses ==> statuses[id] == "idle"
      decreases |left|
    {
      var id :| id in left;
      assert want - (left - {id}) == (want - left) + {id};
      left := left - {id};
      if id in statuses {
        ghost var before := set i | i in want - left - {id} && i in statuses;
        assert (set i | i in want - left && i in statuses) == before + {id};
        present := present + 1;
        if statuses[id] == "running" {
          anyRunning, allIdle := true, false;
        } else if statuses[id] != "idle" {
          allIdle := false;
        }
      } else {
        assert (set i | i in want - left && i in statuses) == set i | i in want - left - {id} && i in statuses;
      }
    }
    assert want - left == want;
    s := Survey(allIdle, anyRunning, present);
  }

  lemma PresentIffAll(want: set<Id>, statuses: map<Id, string>)
    ensures var present := set id | id in want && id in statuses;
            |present| <= |want| && (|present| == |want| <==> forall id :: id in want ==> id in statuses)
  {
    var present := set id | id in want && id in statuses;
    SubsetOfSameSize(present, want);
    assert |want - present| == |want| - |present| by {
      assert want == present + (want - present);
    }
  }

  /** The exact poll at which the wait ends and why. Success needs everybody present and idle in one snapshot: a missing
      participant always blocks it. A wait that times out is reported to the caller like a success. */
  method WaitClientsIdle(want: set<Id>, start: real, graceStart: real, timeout: real, polls: seq<Poll>)
    returns (r: Outcome)
    ensures var deadline, grace := start + timeout, graceStart + 1.5;
            match r
            case Idle(k) =>
              k < |polls| && polls[k].Tick? && polls[k].at <= deadline && Done(want, grace, polls, k)
              && forall j :: 0 <= j < k ==> Undecided(want, deadline, grace, polls, j)
            case TimedOut(k) =>
              k < |polls| && polls[k].Tick? && polls[k].at > deadline
              && forall j :: 0 <= j < k ==> Undecided(want, deadline, grace, polls, j)
            case Cancelled(k) =>
              k < |polls| && polls[k].Cancellation?
              && forall j :: 0 <= j < k ==> Undecided(want, deadline, grace, polls, j)
            case Waiting => forall j :: 0 <= j < |polls| ==> Undecided(want, deadline, grace, polls, j)
    // a success means idle everywhere at once, after something ran or 3.5 seconds after the wait began ...
    ensures r.Idle? ==>
              (forall id :: id in want ==> id in polls[r.poll].statuses && polls[r.poll].statuses[id] == "idle")
              && ((exists j, id :: 0 <= j < r.poll && polls[j].Tick? && id in want && id in polls[j].statuses
                                   && polls[j].statuses[id] == "running")
                  || (polls[r.poll].middle > graceStart + 1.5 && polls[r.poll].last - graceStart > 3.5))
    // ... and no earlier poll was one
    ensures forall j :: 0 <= j < |polls| && (r.Waiting? || j < r.poll) ==> TooSoon(want, graceStart, polls, j)
  {
    var deadline, grace := start + timeout, graceStart + 1.5;
    var sawRunning := false;
    for k := 0 to |polls|
      invariant sawRunning == SawRunning(want, polls, k)
      invariant forall j :: 0 <= j < k ==> Undecided(want, deadline, grace, polls, j)
      invariant forall j :: 0 <= j < k ==> TooSoon(want, graceStart, polls, j)
    {
      if polls[k].Cancellation? {
        return Cancelled(k);
      }
      if polls[k].at > deadline {
        return TimedOut(k);
      }
      var s := Look(want, polls[k].statuses);
      PresentIffAll(want, polls[k].statuses);
      ghost var before := sawRunning;
      sawRunning := sawRunning || s.anyRunning;
      if s.present < |want| {
        UndecidedIsTooSoon(want, deadline, graceStart, polls, k);
        continue;
      }
      if sawRunning && s.allIdle && !s.anyRunning {
        return Idle(k);
      }
      if s.allIdle && !s.anyRunning && polls[k].middle > grace && (sawRunning || polls[k].last - grace > 2.0) {
        return Idle(k);
      }
      UndecidedIsTooSoon(want, deadline, graceStart, polls, k);
    }
    r := Waiting;
  }
}
