/** The paced create and delete loops of a client. The environment of a loop is a sequence of turns: the clock
    readings of one iteration, whether the command was cancelled by then, and how a file operation would go. */
module Workers {
  import opened Basics
  import opened Paths
  import opened Ledgers
  import opened Schedule

  datatype Outcome = NoParent | Failed(partial: bool) | Done

  datatype Turn = Turn(now: real, cancelled: bool, at: real, outcome: Outcome)

  datatype End = AtDeadline | Cancelled | Unfinished

  // ---- Pacing --------------------------------------------------------------------------------------

  /** The clock does not run backwards. */
  ghost predicate Ticking(start: real, turns: seq<Turn>) {
    (forall k :: 0 <= k < |turns| ==> start <= turns[k].now <= turns[k].at)
    && forall j, k :: 0 <= j < k < |turns| ==> turns[j].at <= turns[k].now
  }

  /** After these many turns, fewer operations are done than the rate allows for the time gone by, plus one. */
  ghost predicate Paced(done: int, rate: real, start: real, turns: seq<Turn>, used: nat)
    requires used <= |turns|
  {
    if used == 0 then done <= 0 else done as real < rate * (turns[used - 1].at - start) + 1.0
  }

  lemma Scale(rate: real, a: real, b: real)
    requires rate >= 0.0 && a <= b
    ensures rate * a <= rate * b
  {}

  /** Waiting keeps the pace, and so does one more operation begun below target. */
  lemma PacedTurn(done: int, rate: real, start: real, turns: seq<Turn>, used: nat)
    requires rate > 0.0 && Ticking(start, turns) && used < |turns| && Paced(done, rate, start, turns, used)
    ensures Paced(done, rate, start, turns, used + 1)
    ensures (done as real) < rate * (turns[used].at - start) ==> Paced(done + 1, rate, start, turns, used + 1)
  {
    if used == 0 {
      Scale(rate, 0.0, turns[0].at - start);
      assert rate * 0.0 == 0.0;
    } else {
      Scale(rate, turns[used - 1].at - start, turns[used].at - start);
    }
  }

  /** All turns but the last were within the window. */
  ghost predicate Within(turns: seq<Turn>, deadline: real, used: nat, end: End)
    requires used <= |turns|
  {
    (forall k :: 0 <= k < used - (if end.Unfinished? then 0 else 1) ==> turns[k].now <= deadline && !turns[k].cancelled)
    && match end
       case AtDeadline => used > 0 && turns[used - 1].now > deadline
       case Cancelled => used > 0 && turns[used - 1].now <= deadline && turns[used - 1].cancelled
       case Unfinished => used == |turns|
  }

  /** A turn performs one operation, counted on top of n, exactly when it falls into the window before any
      cancellation, fewer are done than the rate allows for the time gone by, something is left, and the file operation
      succeeds. */
  predicate Takes(t: Turn, n: nat, after: nat, rate: real, start: real, deadline: real, supply: Option<nat>) {
    after == if t.now <= deadline && !t.cancelled && n as real < rate * (t.at - start) && t.outcome.Done?
                && (supply.None? || n < supply.value) then n + 1 else n
  }

  /** `log` counts the operations turn by turn. */
  ghost predicate TurnByTurn(log: seq<nat>, turns: seq<Turn>, rate: real, start: real, deadline: real,
                             supply: Option<nat>)
  {
    0 < |log| <= |turns| + 1 && log[0] == 0
    && forall k {:trigger turns[k]} :: 0 <= k < |log| - 1 ==>
         Takes(turns[k], log[k], log[k + 1], rate, start, deadline, supply)
  }

  lemma OneMoreTurn(log: seq<nat>, n: nat, turns: seq<Turn>, rate: real, start: real, deadline: real,
                    supply: Option<nat>)
    requires TurnByTurn(log, turns, rate, start, deadline, supply) && |log| <= |turns|
    requires Takes(turns[|log| - 1], log[|log| - 1], n, rate, start, deadline, supply)
    ensures TurnByTurn(log + [n], turns, rate, start, deadline, supply)
  {}

  /** Operations done only when due keep the pace. */
  lemma {:induction false} TurnsPaced(log: seq<nat>, turns: seq<Turn>, rate: real, start: real, deadline: real,
                                      supply: Option<nat>)
    requires rate > 0.0 && Ticking(start, turns) && TurnByTurn(log, turns, rate, start, deadline, supply)
    ensures Paced(log[|log| - 1], rate, start, turns, |log| - 1)
    decreases |log|
  {
    var k := |log| - 1;
    if k > 0 {
      TurnsPaced(log[..k], turns, rate, start, deadline, supply);
      PacedTurn(log[k - 1], rate, start, turns, k - 1);
      assert Takes(turns[k - 1], log[k - 1], log[k], rate, start, deadline, supply);
    }
  }

  /** An operation is due, and all there were are done. */
  predicate RunsDry(t: Turn, n: nat, rate: real, start: real, deadline: real, supply: nat) {
    t.now <= deadline && !t.cancelled && n as real < rate * (t.at - start) && n == supply
  }

  ghost predicate RanDry(log: seq<nat>, turns: seq<Turn>, rate: real, start: real, deadline: real, supply: nat)
    requires 0 < |log| <= |turns| + 1
  {
    exists k {:trigger turns[k]} :: 0 <= k < |log| - 1 && RunsDry(turns[k], log[k], rate, start, deadline, supply)
  }

  lemma OneMoreDry(log: seq<nat>, n: nat, turns: seq<Turn>, rate: real, start: real, deadline: real, supply: nat)
    requires 0 < |log| <= |turns|
    ensures RanDry(log + [n], turns, rate, start, deadline, supply) <==>
            RanDry(log, turns, rate, start, deadline, supply)
            || RunsDry(turns[|log| - 1], log[|log| - 1], rate, start, deadline, supply)
  {
    var k := |log| - 1;
    assert (log + [n])[k] == log[k] && turns[k] == turns[k];
    if RanDry(log, turns, rate, start, deadline, supply) {
      var j :| 0 <= j < k && RunsDry(turns[j], log[j], rate, start, deadline, supply);
      assert (log + [n])[j] == log[j];
    }
  }

  /** A worker and the regular files under its host directory. */
  class Worker {
    const root: string
    const ledger: FileLedger
    var files: set<string>
    var createOps: nat
    var deleteOps: nat
    var writeBytes: nat

    constructor (root: string, files: set<string>)
      ensures fresh(ledger) && ledger.State() == EMPTY_LEDGER && this.root == root && this.files == files
      ensures createOps == deleteOps == writeBytes == 0
    {
      this.root, this.files := root, files;
      ledger := new FileLedger();
      createOps, deleteOps, writeBytes := 0, 0, 0;
    }

    // ---- Deleting ----------------------------------------------------------------------------------

    method NextOnDisk() returns (path: Option<string>)
      ensures path.None? <==> files == {}
      ensures path.Some? ==> path.value in files
    {
      if |files| == 0 {
        return None;
      }
      var p :| p in files;
      path := Some(p);
    }

    /** Ledger first, then the disk: in both modes nothing is found exactly when no file is left at all. */
    method NextVictim(remove: bool) returns (path: Option<string>)
      requires ledger.State().Shape()
      modifies ledger
      ensures ledger.State().Shape() && ledger.next == old(ledger.next)
      ensures path.None? <==> files == {}
      ensures path.Some? ==> path.value in files
      ensures !remove ==> ledger.indices == old(ledger.indices)
    {
      var r, f := root, files;
      var found := ledger.NextExisting((i: nat) => FilePath(r, i) in f, remove);
      if found.Some? {
        return Some(FilePath(root, found.value));
      }
      path := NextOnDisk();
    }

    /** runDelete. Without a positive rate it sleeps out the window, unless cancelled. Otherwise every deletion removes
        one of the files there were, so the directory is empty exactly when as many files have been deleted as there
        were; a turn deletes a file exactly when it is due, the removal succeeds and a file is left; the loop never gets
        ahead of its pace, stays within its window, and runs dry only when nothing is left. */
    method RunDelete(rate: real, remove: bool, began: real, start: real, duration: real, turns: seq<Turn>, woken: bool)
      returns (end: End, deleted: nat, used: nat, dry: bool, ghost log: seq<nat>)
      requires ledger.State().Shape() && began <= start && Ticking(start, turns)
      modifies this, ledger
      ensures ledger.State().Shape() && (!remove ==> ledger.indices == old(ledger.indices))
      ensures files <= old(files) && |files| == |old(files)| - deleted && deleteOps == old(deleteOps) + deleted
      ensures createOps == old(createOps) && writeBytes == old(writeBytes)
      ensures dry ==> files == {}
      ensures used <= |turns| && |log| == used + 1 && log[used] == deleted
      ensures TurnByTurn(log, turns, rate, start, began + duration, Some(|old(files)|))
      ensures dry <==> RanDry(log, turns, rate, start, began + duration, |old(files)|)
      ensures rate <= 0.0 ==>
                used == 0 && end == (if woken then Cancelled else AtDeadline) && ledger.State() == old(ledger.State())
      ensures rate > 0.0 ==>
                Paced(deleted, rate, start, turns, used) && Within(turns, began + duration, used, end)
    {
      if rate <= 0.0 {
        return if woken then Cancelled else AtDeadline, 0, 0, false, [0];
      }
      end, deleted, used, dry, log := DeleteLoop(rate, remove, began, start, duration, turns);
      TurnsPaced(log, turns, rate, start, began + duration, Some(|old(files)|));
    }

    method DeleteLoop(rate: real, remove: bool, began: real, start: real, duration: real, turns: seq<Turn>)
      returns (end: End, deleted: nat, used: nat, dry: bool, ghost log: seq<nat>)
      requires ledger.State().Shape()
      modifies this, ledger
      ensures Removed(old(Now()), old(ledger.indices), remove, deleted) && (dry ==> files == {})
      ensures used <= |turns| && Within(turns, began + duration, used, end) && |log| == used + 1 && log[used] == deleted
      ensures TurnByTurn(log, turns, rate, start, began + duration, Some(|old(files)|))
      ensures dry <==> RanDry(log, turns, rate, start, began + duration, |old(files)|)
    {
      var deadline := began + duration;
      deleted, used, dry, end, log := 0, 0, false, Unfinished, [0];
      ghost var totals, indices := Now(), ledger.indices;
      while used < |turns|
        invariant used <= |turns| && |log| == used + 1 && log[used] == deleted && end.Unfinished?
        invariant Removed(totals, indices, remove, deleted) && (dry ==> files == {})
        invariant TurnByTurn(log, turns, rate, start, deadline, Some(|totals.files|))
        invariant dry <==> RanDry(log, turns, rate, start, deadline, |totals.files|)
        invariant forall k :: 0 <= k < used ==> turns[k].now <= deadline && !turns[k].cancelled
      {
        var stop, done, nothing := DeleteTurn(turns[used], rate, remove, start, deadline, deleted, totals, indices);
        dry, used, end := dry || nothing, used + 1, stop;
        if done {
          deleted := deleted + 1;
        }
        OneMoreTurn(log, deleted, turns, rate, start, deadline, Some(|totals.files|));
        OneMoreDry(log, deleted, turns, rate, start, deadline, |totals.files|);
        log := log + [deleted];
        if !end.Unfinished? {
          break;
        }
      }
    }

    /** One turn of the loop, which may be its last. */
    method DeleteTurn(t: Turn, rate: real, remove: bool, start: real, deadline: real, deleted: nat, ghost was: Totals,
                      ghost indices: seq<nat>) returns (end: End, done: bool, nothing: bool)
      requires Removed(was, indices, remove, deleted)
      modifies this, ledger
      ensures Removed(was, indices, remove, if done then deleted + 1 else deleted) && files <= old(files)
      ensures Takes(t, deleted, if done then deleted + 1 else deleted, rate, start, deadline, Some(|was.files|))
      ensures nothing <==> RunsDry(t, deleted, rate, start, deadline, |was.files|)
      ensures nothing ==> files == {}
      ensures end == if t.now > deadline then AtDeadline else if t.cancelled then Cancelled else Unfinished
    {
      end, done, nothing := Unfinished, false, false;
      if t.now > deadline {
        end := AtDeadline;
        return;
      }
      if t.cancelled {
        end := Cancelled;
        return;
      }
      if deleted as real >= rate * (t.at - start) {
        return;
      }
      done, nothing := DeleteOne(remove, t.outcome, was, indices, deleted);
    }

    /** What so many deletions leave: as many files fewer, and the rest as it was. */
    ghost predicate Removed(was: Totals, indices: seq<nat>, remove: bool, deleted: nat)
      reads this, ledger
    {
      ledger.State().Shape() && (!remove ==> ledger.indices == indices)
      && files <= was.files && |files| == |was.files| - deleted && deleteOps == was.deleteOps + deleted
      && createOps == was.createOps && writeBytes == was.writeBytes
    }

    /** One file: found in the ledger or on the disk, if there is any, and removed if that succeeds. */
    method DeleteOne(remove: bool, outcome: Outcome, ghost was: Totals, ghost indices: seq<nat>, ghost deleted: nat)
      returns (done: bool, nothing: bool)
      requires Removed(was, indices, remove, deleted)
      modifies this, ledger
      ensures nothing <==> old(files) == {}
      ensures done <==> old(files) != {} && outcome.Done?
      ensures files <= old(files) && Removed(was, indices, remove, if done then deleted + 1 else deleted)
    {
      done := false;
      var path := NextVictim(remove);
      nothing := path.None?;
      if path.Some? && outcome.Done? {
        files, deleteOps, done := files - {path.value}, deleteOps + 1, true;
      }
    }

    // ---- Creating ----------------------------------------------------------------------------------

    /** The list starts as it was; each later one is new, in the order taken, and its file is on disk. */
    ghost predicate Fresh(was: seq<nat>, floor: nat)
      reads this, ledger
    {
      was <= ledger.indices && floor <= ledger.next
      && (forall k :: |was| <= k < |ledger.indices| ==>
            floor <= ledger.indices[k] < ledger.next && FilePath(root, ledger.indices[k]) in files)
      && forall j, k :: |was| <= j < k < |ledger.indices| ==> ledger.indices[j] < ledger.indices[k]
    }

    /** Every file that was not there before lies under an index taken since. */
    ghost predicate OnlyTaken(was: set<string>, floor: nat)
      reads this, ledger
    {
      forall p :: p in files && p !in was ==> exists i: nat :: floor <= i < ledger.next && p == FilePath(root, i)
    }

    /** Files created by so many operations. */
    ghost predicate Counted(was: Totals, size: nat, created: nat)
      reads this
    {
      createOps == was.createOps + created && writeBytes == was.writeBytes + Times(created, size)
      && deleteOps == was.deleteOps && was.files <= files
    }

    ghost function Now(): Totals
      reads this
    {
      Totals(files, createOps, deleteOps, writeBytes)
    }

    /** runCreate. Without a positive rate it sleeps out the window, unless cancelled. Otherwise a file enters the
        ledger at exactly those turns at which one is due and is written completely, under an index no earlier entry
        has; counters, bytes and ledger agree, and the loop keeps its pace and its window. */
    method RunCreate(rate: real, size: nat, began: real, start: real, duration: real, turns: seq<Turn>, woken: bool)
      returns (end: End, created: nat, used: nat, ghost log: seq<nat>)
      requires ledger.State().Shape() && began <= start && Ticking(start, turns)
      modifies this, ledger
      ensures ledger.State().Shape() && |ledger.indices| == |old(ledger.indices)| + created
      ensures Fresh(old(ledger.indices), old(ledger.next)) && Counted(old(Now()), size, created)
      ensures OnlyTaken(old(files), old(ledger.next))
      ensures Distinct(old(ledger.indices)) ==> Distinct(ledger.indices)
      ensures ledger.bwIndices == old(ledger.bwIndices) && ledger.delPos == old(ledger.delPos)
      ensures used <= |turns| && |log| == used + 1 && log[used] == created
      ensures TurnByTurn(log, turns, rate, start, began + duration, None)
      ensures rate <= 0.0 ==> used == 0 && end == if woken then Cancelled else AtDeadline
      ensures rate > 0.0 ==>
                Paced(created, rate, start, turns, used) && Within(turns, began + duration, used, end)
    {
      if rate <= 0.0 {
        return if woken then Cancelled else AtDeadline, 0, 0, [0];
      }
      end, created, used, log := CreateLoop(rate, size, began, start, duration, turns);
      assert Kept(old(ledger.State()), old(Now()), size, created);
      TurnsPaced(log, turns, rate, start, began + duration, None);
    }

    method CreateLoop(rate: real, size: nat, began: real, start: real, duration: real, turns: seq<Turn>)
      returns (end: End, created: nat, used: nat, ghost log: seq<nat>)
      requires ledger.State().Shape()
      modifies this, ledger
      ensures Kept(old(ledger.State()), old(Now()), size, created)
      ensures used <= |turns| && Within(turns, began + duration, used, end) && |log| == used + 1 && log[used] == created
      ensures TurnByTurn(log, turns, rate, start, began + duration, None)
    {
      var deadline := began + duration;
      created, used, end, log := 0, 0, Unfinished, [0];
      ghost var before, totals := ledger.State(), Now();
      while used < |turns|
        invariant used <= |turns| && |log| == used + 1 && log[used] == created && end.Unfinished?
        invariant Kept(before, totals, size, created)
        invariant TurnByTurn(log, turns, rate, start, deadline, None)
        invariant forall k :: 0 <= k < used ==> turns[k].now <= deadline && !turns[k].cancelled
      {
        var stop, done := CreateTurn(turns[used], rate, size, start, deadline, created, before, totals);
        used, end := used + 1, stop;
        if done {
          created := created + 1;
        }
        OneMoreTurn(log, created, turns, rate, start, deadline, None);
        log := log + [created];
        if !end.Unfinished? {
          break;
        }
      }
    }

    /** One turn of the loop, which may be its last. */
    method CreateTurn(t: Turn, rate: real, size: nat, start: real, deadline: real, created: nat, ghost before: Ledger,
                      ghost totals: Totals) returns (end: End, done: bool)
      requires Kept(before, totals, size, created)
      modifies this, ledger
      ensures Kept(before, totals, size, if done then created + 1 else created)
      ensures Takes(t, created, if done then created + 1 else created, rate, start, deadline, None)
      ensures end == if t.now > deadline then AtDeadline else if t.cancelled then Cancelled else Unfinished
    {
      end, done := Unfinished, false;
      if t.now > deadline {
        end := AtDeadline;
        return;
      }
      if t.cancelled {
        end := Cancelled;
        return;
      }
      if created as real >= rate * (t.at - start) {
        return;
      }
      done := CreateOne(size, t.outcome, before, totals, created);
    }

    /** What so many creations leave: as many new entries, files and counts, and the rest as it was. */
    ghost predicate Kept(before: Ledger, totals: Totals, size: nat, created: nat)
      reads this, ledger
    {
      ledger.State().Shape() && |ledger.indices| == |before.indices| + created && Fresh(before.indices, before.next)
      && ledger.bwIndices == before.bw && ledger.delPos == before.cursor && Counted(totals, size, created)
      && OnlyTaken(totals.files, before.next)
    }

    /** One file: an index is taken in any case, and recorded only if the whole payload was written. */
    method CreateOne(size: nat, outcome: Outcome, ghost before: Ledger, ghost totals: Totals, ghost created: nat)
      returns (done: bool)
      requires Kept(before, totals, size, created)
      modifies this, ledger
      ensures done == outcome.Done? && Kept(before, totals, size, if done then created + 1 else created)
      ensures var l := old(ledger.State()).Take(); ledger.State() == if done then l.Add(old(ledger.next)) else l
    {
      var i := ledger.NextIndex();
      done := outcome.Done?;
      match outcome {
        case NoParent =>
        case Failed(partial) =>
          if partial {
            files := files + {FilePath(root, i)};
          }
        case Done => Record(i, size, before, totals, created);
      }
    }

    /** The file is written and recorded under the index just taken. */
    method Record(i: nat, size: nat, ghost before: Ledger, ghost totals: Totals, ghost created: nat)
      requires Kept(before, totals, size, created) && before.next <= i && i + 1 == ledger.next
      requires forall k :: |before.indices| <= k < |ledger.indices| ==> ledger.indices[k] < i
      modifies this, ledger
      ensures Kept(before, totals, size, created + 1) && ledger.State() == old(ledger.State()).Add(i)
    {
      files := files + {FilePath(root, i)};
      ledger.Add(i);
      createOps, writeBytes := createOps + 1, writeBytes + size;
    }
  }

  datatype Totals = Totals(files: set<string>, createOps: nat, deleteOps: nat, writeBytes: nat)

  function Times(n: nat, size: nat): (t: nat)
    ensures t == n * size
  {
    if n == 0 then 0 else Times(n - 1, size) + size
  }

  // ---- The fleet -----------------------------------------------------------------------------------

  function Sum(counts: seq<nat>): nat {
    if counts == [] then 0 else Sum(counts[..|counts| - 1]) + counts[|counts| - 1]
  }

  lemma {:induction false} SumBelow(counts: seq<nat>, each: real, slack: real)
    requires forall k :: 0 <= k < |counts| ==> counts[k] as real < each + slack
    ensures Sum(counts) as real <= |counts| as real * each + |counts| as real * slack
    ensures counts != [] ==> Sum(counts) as real < |counts| as real * each + |counts| as real * slack
    decreases |counts|
  {
    if counts != [] {
      var n := |counts|;
      SumBelow(counts[..n - 1], each, slack);
      OneMore(n, each);
      OneMore(n, slack);
    }
  }

  lemma OneMore(n: nat, x: real)
    requires n > 0
    ensures (n - 1) as real * x + x == n as real * x
  {}

  lemma ShareOfRung(global: real, pct: int, n: nat, elapsed: real)
    requires n >= 1
    ensures n as real * (PerClient(global, n) * pct as real / 100.0 * elapsed) == global * pct as real / 100.0 * elapsed
  {
    assert n as real * PerClient(global, n) == global;
  }

  /** On a rung of a ramp each of n clients paces itself by its share, allowing itself some slack; together they stay
      below the global rate of that rung by less than n times the slack over. */
  lemma FleetBelow(global: real, pct: int, elapsed: real, slack: real, counts: seq<nat>)
    requires counts != []
    requires forall k :: 0 <= k < |counts| ==>
               counts[k] as real < PerClient(global, |counts|) * pct as real / 100.0 * elapsed + slack
    ensures Sum(counts) as real < global * pct as real / 100.0 * elapsed + |counts| as real * slack
  {
    SumBelow(counts, PerClient(global, |counts|) * pct as real / 100.0 * elapsed, slack);
    ShareOfRung(global, pct, |counts|, elapsed);
  }

  /** A slack of one operation each. */
  lemma FleetPaced(global: real, pct: int, elapsed: real, counts: seq<nat>)
    requires counts != []
    requires forall k :: 0 <= k < |counts| ==>
               counts[k] as real < PerClient(global, |counts|) * pct as real / 100.0 * elapsed + 1.0
    ensures Sum(counts) as real < global * pct as real / 100.0 * elapsed + |counts| as real
  {
    FleetBelow(global, pct, elapsed, 1.0, counts);
  }
}
