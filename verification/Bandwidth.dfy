/** The bandwidth-write loop of a client: files are filled chunk by chunk with aligned writes, paced by bytes. */
module Bandwidth {
  import opened Basics
  import opened Ledgers
  import S = Schedule
  import W = Workers

  const ALIGN := 4096
  const BUFFER := 0x10_0000
  const DEFAULT_SIZE := 0x400_0000

  /** The size of each file for a requested size. */
  function FileSize(requested: int): (size: nat)
    ensures size > 0 && Aligned(size)
    ensures requested >= ALIGN ==> size <= requested < size + ALIGN
    ensures 0 < requested < ALIGN ==> size == 4096
    ensures requested <= 0 ==> size == 64 * 1024 * 1024
  {
    var wanted := if requested <= 0 then DEFAULT_SIZE else requested;
    if wanted / ALIGN == 0 then ALIGN else wanted / ALIGN * ALIGN
  }

  /** One write as it reached the file: what was asked for and what came back. */
  datatype Chunk = Chunk(index: nat, offset: nat, len: nat, n: nat, err: bool)

  /** What another goroutine does to the ledger meanwhile: the one that reads takes an index for the file it seeds and
      records it when that is written. */
  datatype Other = Takes | Records(index: nat)

  /** One iteration: clock readings before and after, whether opening the next file would work, how a write of the
      whole chunk would go, and what others do first, and between opening and writing. */
  datatype Step = Step(now: real, cancelled: bool, at: real, until: real, opens: bool, wrote: nat, fails: bool,
                       after: real, cancelledAfter: bool, first: seq<Other>, between: seq<Other>)

  /** The Go writer contract: at most the chunk, and an error whenever less. */
  ghost predicate Contract(c: Chunk) { c.n <= c.len && (c.n < c.len ==> c.err) }

  /** Bytes that reached file i. */
  function Bytes(log: seq<Chunk>, i: nat): nat {
    if log == [] then 0
    else Bytes(log[..|log| - 1], i) + (if log[|log| - 1].index == i then log[|log| - 1].n else 0)
  }

  function AllBytes(log: seq<Chunk>): nat {
    if log == [] then 0 else AllBytes(log[..|log| - 1]) + log[|log| - 1].n
  }

  lemma BytesSnoc(log: seq<Chunk>, c: Chunk)
    ensures AllBytes(log + [c]) == AllBytes(log) + c.n
    ensures forall i :: Bytes(log + [c], i) == Bytes(log, i) + (if c.index == i then c.n else 0)
  {
    assert (log + [c])[..|log|] == log;
  }

  ghost predicate Clean(log: seq<Chunk>, i: nat) { forall k :: 0 <= k < |log| && log[k].index == i ==> !log[k].err }

  /** All bytes of file i were written, and no write to it failed. */
  ghost predicate Whole(log: seq<Chunk>, i: nat, size: nat) { Bytes(log, i) == size && Clean(log, i) }

  predicate Aligned(n: nat) { n % ALIGN == 0 }

  /** An aligned, nonempty write inside its file. */
  ghost predicate Proper(c: Chunk, size: nat) {
    Contract(c) && c.len > 0 && Aligned(c.len) && Aligned(c.offset) && c.offset + c.len <= size
  }

  /** Such a write, starting where the bytes so far end. */
  ghost predicate InPlace(log: seq<Chunk>, k: nat, size: nat)
    requires k < |log|
  {
    Proper(log[k], size) && log[k].offset == Bytes(log[..k], log[k].index)
  }

  ghost predicate Orderly(log: seq<Chunk>, size: nat) { forall k: nat :: k < |log| ==> InPlace(log, k, size) }

  lemma OrderlySnoc(log: seq<Chunk>, size: nat, c: Chunk)
    requires Orderly(log, size) && Proper(c, size) && c.offset == Bytes(log, c.index)
    ensures Orderly(log + [c], size)
  {
    var all := log + [c];
    forall k: nat | k < |all|
      ensures InPlace(all, k, size)
    {
      assert all[..k] == if k < |log| then log[..k] else log;
      assert k < |log| ==> InPlace(log, k, size);
    }
  }

  /** No file the ledger will hand out later was written to. */
  ghost predicate Below(log: seq<Chunk>, next: nat) { forall k :: 0 <= k < |log| ==> log[k].index < next }

  lemma {:induction false} NoBytes(log: seq<Chunk>, i: nat)
    requires Below(log, i)
    ensures Bytes(log, i) == 0 && Clean(log, i)
    decreases |log|
  {
    if log != [] {
      NoBytes(log[..|log| - 1], i);
    }
  }

  ghost predicate Ticking(start: real, steps: seq<Step>) {
    (forall k :: 0 <= k < |steps| ==> start <= steps[k].now <= steps[k].at)
    && forall j, k :: 0 <= j < k < |steps| ==> steps[j].at <= steps[k].now
  }

  /** Elapsed seconds, at least a millisecond. */
  function Elapsed(at: real, start: real): real { if at - start < 0.001 then 0.001 else at - start }

  /** The bytes moved are behind the pace by less than one buffer. */
  ghost predicate Paced(bytes: nat, rate: real, start: real, steps: seq<Step>, used: nat)
    requires used <= |steps|
  {
    if used == 0 then bytes == 0 else bytes as real < rate * Elapsed(steps[used - 1].at, start) + BUFFER as real
  }

  predicate Behind(bytes: nat, rate: real, at: real, start: real) { (bytes as real) < rate * Elapsed(at, start) }

  lemma StillBelow(bytes: nat, after: nat, was: real, now: real)
    requires was <= now && (bytes as real) < was + BUFFER as real
    requires after <= bytes || (after <= bytes + BUFFER && (bytes as real) < now)
    ensures (after as real) < now + BUFFER as real
  {}

  /** Moving at most a buffer, and only when behind, keeps the pace. */
  lemma PacedReal(bytes: nat, after: nat, rate: real, was: real, now: real)
    requires rate > 0.0 && 0.0 <= was <= now && (bytes as real) < rate * was + BUFFER as real
    requires after <= bytes || (after <= bytes + BUFFER && (bytes as real) < rate * now)
    ensures (after as real) < rate * now + BUFFER as real
  {
    W.Scale(rate, was, now);
    StillBelow(bytes, after, rate * was, rate * now);
  }

  lemma PacedStep(bytes: nat, after: nat, rate: real, start: real, steps: seq<Step>, used: nat)
    requires rate > 0.0 && Ticking(start, steps) && used < |steps| && Paced(bytes, rate, start, steps, used)
    requires after <= bytes || (after <= bytes + BUFFER && Behind(bytes, rate, steps[used].at, start))
    ensures Paced(after, rate, start, steps, used + 1)
  {
    var was := if used == 0 then 0.0 else Elapsed(steps[used - 1].at, start);
    assert rate * 0.0 == 0.0;
    PacedReal(bytes, after, rate, was, Elapsed(steps[used].at, start));
  }

  /** On a rung of a ramp n writers at their shares together stay below the global rate by less than n buffers over. */
  lemma FleetWrites(global: real, pct: int, at: real, start: real, bytes: seq<nat>)
    requires bytes != []
    requires forall k :: 0 <= k < |bytes| ==>
               bytes[k] as real
               < S.PerClient(global, |bytes|) * pct as real / 100.0 * Elapsed(at, start) + BUFFER as real
    ensures W.Sum(bytes) as real
            < global * pct as real / 100.0 * Elapsed(at, start) + |bytes| as real * BUFFER as real
  {
    W.FleetBelow(global, pct, Elapsed(at, start), BUFFER as real, bytes);
  }

  /** The file being written, if any. */
  datatype Open = Closed | Writing(index: nat, offset: nat)

  // ---- What the writes really did --------------------------------------------------------------------

  /** One write of up to a mebibyte, of which `wrote` bytes would go through before it fails or ends. */
  ghost predicate Attempted(c: Chunk, size: nat, wrote: nat, fails: bool) {
    c.offset <= size
    && c.len == (if size - c.offset < 0x10_0000 then size - c.offset else 0x10_0000)
    && c.n == (if wrote < c.len then wrote else c.len)
    && (c.err <==> fails || wrote < c.len)
  }

  /** The last write left its file open: it did not fail, and the file is not full. */
  ghost predicate StillOpen(log: seq<Chunk>, size: nat) {
    log != [] && !log[|log| - 1].err && log[|log| - 1].offset + log[|log| - 1].n < size
  }

  /** A write to this place goes on where the last one left its file, or starts a file nothing was written to. */
  ghost predicate GoesOn(before: seq<Chunk>, index: nat, offset: nat, size: nat) {
    if StillOpen(before, size)
    then index == before[|before| - 1].index && offset == before[|before| - 1].offset + before[|before| - 1].n
    else offset == 0 && forall k :: 0 <= k < |before| ==> before[k].index != index
  }

  /** The step is inside its window and the bytes so far are behind the rate. */
  ghost predicate Due(s: Step, bytes: nat, rate: real, start: real, deadline: real) {
    s.now <= deadline && !s.cancelled
    && (bytes as real) < rate * (if s.at - start < 0.001 then 0.001 else s.at - start)
  }

  /** It is, not in the last 20 ms, and there is a file to write to. */
  ghost predicate Writes(s: Step, before: seq<Chunk>, size: nat, rate: real, start: real, deadline: real) {
    Due(s, AllBytes(before), rate, start, deadline) && deadline - s.until >= 0.02
    && (StillOpen(before, size) || s.opens)
  }

  /** A step that writes adds one chunk, which is what its write came to; another step adds nothing. */
  ghost predicate StepWrites(s: Step, before: seq<Chunk>, after: seq<Chunk>, size: nat, rate: real, start: real,
                             deadline: real)
  {
    if Writes(s, before, size, rate, start, deadline)
    then |after| == |before| + 1 && before == after[..|before|]
         && Attempted(after[|before|], size, s.wrote, s.fails)
         && GoesOn(before, after[|before|].index, after[|before|].offset, size)
    else after == before
  }

  /** How a step ends the loop, if it does: past the deadline, cancelled, too late to begin another write, or after a
      failed write once the time is up or the command cancelled. */
  ghost predicate StepEnds(s: Step, before: seq<Chunk>, after: seq<Chunk>, rate: real, start: real, deadline: real,
                           end: Option<W.End>)
  {
    if s.now > deadline then end == Some(W.AtDeadline)
    else if s.cancelled then end == Some(W.Cancelled)
    else if Due(s, AllBytes(before), rate, start, deadline) && deadline - s.until < 0.02 then end == Some(W.AtDeadline)
    else if |after| > |before| && after[|before|].err && s.cancelledAfter then end == Some(W.Cancelled)
    else if |after| > |before| && after[|before|].err && s.after > deadline then end == Some(W.AtDeadline)
    else end == None
  }

  /** Step k took the log from one entry of `logs` to the next, and ended the loop or not. */
  ghost predicate Taken(logs: seq<seq<Chunk>>, steps: seq<Step>, k: nat, size: nat, rate: real, start: real,
                        deadline: real, end: Option<W.End>)
    requires k < |steps| && k + 1 < |logs|
  {
    StepWrites(steps[k], logs[k], logs[k + 1], size, rate, start, deadline)
    && StepEnds(steps[k], logs[k], logs[k + 1], rate, start, deadline, end)
  }

  /** `logs` is the log before and after each step, none of which ended the loop. */
  ghost predicate Accounted(logs: seq<seq<Chunk>>, steps: seq<Step>, used: nat, size: nat, rate: real, start: real,
                            deadline: real)
  {
    used <= |steps| && used < |logs| && logs[0] == []
    && forall k: nat :: k < used ==> Taken(logs, steps, k, size, rate, start, deadline, None)
  }

  /** The same of a loop that has ended: with the steps, or by the last one used. */
  ghost predicate Concluded(logs: seq<seq<Chunk>>, steps: seq<Step>, used: nat, size: nat, rate: real, start: real,
                            deadline: real, end: W.End)
  {
    |logs| == used + 1
    && if end.Unfinished? then used == |steps| && Accounted(logs, steps, used, size, rate, start, deadline)
       else
         0 < used <= |steps| && Accounted(logs, steps, used - 1, size, rate, start, deadline)
         && Taken(logs, steps, used - 1, size, rate, start, deadline, Some(end))
  }

  /** A write to one file says nothing about whether another is whole. */
  lemma WholeSnoc(log: seq<Chunk>, c: Chunk, size: nat)
    ensures forall i :: i != c.index ==> (Whole(log + [c], i, size) <==> Whole(log, i, size))
    ensures Whole(log + [c], c.index, size) <==> Bytes(log, c.index) + c.n == size && Clean(log, c.index) && !c.err
  {
    BytesSnoc(log, c);
    var all := log + [c];
    assert all[|log|] == c;
    forall i
      ensures Clean(all, i) <==> Clean(log, i) && (c.index == i ==> !c.err)
    {
      if Clean(all, i) {
        assert forall k :: 0 <= k < |log| ==> all[k] == log[k];
      }
    }
  }

  /** An entry made in the ledger while a write command runs, by its writer or by somebody else. */
  datatype Entry = Entry(mine: bool, index: nat)

  function Listed(entries: seq<Entry>): seq<nat> {
    seq(|entries|, i requires 0 <= i < |entries| => entries[i].index)
  }

  /** The writer's own entries. */
  function Own(entries: seq<Entry>): seq<nat> {
    if entries == [] then []
    else
      var last := entries[|entries| - 1];
      Own(entries[..|entries| - 1]) + (if last.mine then [last.index] else [])
  }

  lemma EntrySnoc(entries: seq<Entry>, e: Entry)
    ensures Listed(entries + [e]) == Listed(entries) + [e.index]
    ensures Own(entries + [e]) == Own(entries) + (if e.mine then [e.index] else [])
  {
    assert (entries + [e])[..|entries|] == entries;
  }

  /** The writer's indices and those of others stay apart. */
  ghost predicate Separate(taken: set<nat>, held: set<nat>, entries: seq<Entry>, log: seq<Chunk>, file: Open,
                           next: nat)
  {
    (forall i :: i in taken ==> i < next) && (forall i :: i in held ==> i < next && i !in taken)
    && (forall k :: 0 <= k < |entries| ==> (entries[k].mine <==> entries[k].index in taken))
    && (forall k :: 0 <= k < |entries| ==> entries[k].index < next)
    && (forall k :: 0 <= k < |log| ==> log[k].index in taken)
    && (file.Writing? ==> file.index in taken)
  }

  lemma SeparateLogged(taken: set<nat>, held: set<nat>, entries: seq<Entry>, log: seq<Chunk>, file: Open, next: nat,
                       c: Chunk)
    requires Separate(taken, held, entries, log, file, next) && file.Writing? && c.index == file.index
    ensures Separate(taken, held, entries, log + [c], After(c), next)
  {}

  /** One write command under way, on a ledger that others may use at the same time. */
  class Writer {
    const ledger: FileLedger
    const size: nat
    var writeOps: nat
    var writeBytes: nat
    var file: Open
    /** Every write so far. */
    var log: seq<Chunk>
    /** The indices others have taken and not recorded yet. */
    var held: set<nat>
    /** The indices this writer has taken, the files it recorded, and all entries since the command began. */
    ghost var taken: set<nat>
    ghost var recorded: seq<nat>
    ghost var entries: seq<Entry>
    ghost const before: Ledger

    constructor (ledger: FileLedger, requested: int)
      requires ledger.State().Shape()
      ensures this.ledger == ledger && size == FileSize(requested) && before == ledger.State()
      ensures Valid() && file == Closed && log == [] && recorded == [] && entries == []
    {
      this.ledger, size, writeOps, writeBytes, file, log := ledger, FileSize(requested), 0, 0, Closed, [];
      held, taken, recorded, entries, before := {}, {}, [], [], ledger.State();
    }

    /** What holds between two iterations. The files this writer recorded are, once each, exactly those all of whose
        bytes were written without an error; the ledger has grown by them and by what others recorded, under indices
        of their own; and the counters agree with the writes. */
    ghost predicate Valid()
      reads this, ledger
    {
      size > 0 && Aligned(size) && ledger.State().Shape() && before.next <= ledger.next
      && Grown() && Separate(taken, held, entries, log, file, ledger.next)
      && Orderly(log, size) && Below(log, ledger.next) && Exact(recorded, log, size)
      && writeOps == |recorded| && writeBytes == AllBytes(log)
      && (file.Writing? ==> Active(log, size, ledger.next, file))
    }

    /** Between two iterations a file is open exactly when the last write left it so. */
    ghost predicate Settled()
      reads this
    {
      file == if StillOpen(log, size) then Writing(log[|log| - 1].index, log[|log| - 1].offset + log[|log| - 1].n)
              else Closed
    }

    ghost predicate Grown()
      reads this, ledger
    {
      ledger.bwIndices == before.bw + Listed(entries) && ledger.indices == before.indices + Listed(entries)
      && Own(entries) == recorded
    }

    /** openNextWrite: an index is used up even if the file cannot be opened. */
    method OpenNext(opens: bool)
      requires Valid() && file == Closed
      modifies this`file, this`taken, ledger
      ensures Valid() && file == if opens then Writing(old(ledger.next), 0) else Closed
      ensures taken == old(taken) + {old(ledger.next)} && ledger.next == old(ledger.next) + 1
    {
      NoBytes(log, ledger.next);
      var i := ledger.NextIndex();
      taken := taken + {i};
      if opens {
        file := Writing(i, 0);
      }
    }

    /** What others do to the ledger. An index nobody holds cannot be recorded. */
    method Meanwhile(others: seq<Other>)
      requires Valid()
      modifies this`held, this`entries, ledger
      ensures Valid()
    {
      for k := 0 to |others|
        invariant Valid()
      {
        match others[k] {
          case Takes =>
            var i := ledger.NextIndex();
            held := held + {i};
          case Records(i) =>
            if i in held {
              RecordOther(i);
            }
        }
      }
    }

    method RecordOther(i: nat)
      requires Valid() && i in held
      modifies this`held, this`entries, ledger
      ensures Valid()
    {
      EntrySnoc(entries, Entry(false, i));
      ledger.AddBW(i);
      held, entries := held - {i}, entries + [Entry(false, i)];
    }

    /** One write of up to a buffer, and what follows from its result: exactly this write is logged, with what went
        through of it; an error closes the file, and a full file is recorded and closed. */
    method WriteChunk(wrote: nat, fails: bool) returns (n: nat, err: bool)
      requires Valid() && file.Writing?
      modifies this, ledger
      ensures Valid()
      ensures var f := old(file);
              var len := if size - f.offset < 0x10_0000 then size - f.offset else 0x10_0000;
              n == (if wrote < len then wrote else len) && (err <==> fails || wrote < len)
              && log == old(log) + [Chunk(f.index, f.offset, len, n, err)]
              && file == (if err || f.offset + n >= size then Closed else Writing(f.index, f.offset + n))
              && recorded == old(recorded) + (if !err && f.offset + n >= size then [f.index] else [])
      ensures writeBytes == old(writeBytes) + n
    {
      var chunk := ChunkSize(size, file.offset);
      n := if wrote < chunk then wrote else chunk;
      err := fails || n < chunk;
      Note(Chunk(file.index, file.offset, chunk, n, err));
    }

    /** After a write, before the test whether its file is full. */
    ghost predicate Written()
      reads this, ledger
    {
      size > 0 && Aligned(size) && ledger.State().Shape() && before.next <= ledger.next
      && Grown() && Separate(taken, held, entries, log, file, ledger.next)
      && Orderly(log, size) && Below(log, ledger.next) && writeOps == |recorded| && writeBytes == AllBytes(log)
      && Between(log, size, ledger.next, file, recorded)
    }

    method Note(c: Chunk)
      requires Valid() && file.Writing? && Fits(c, size, file)
      modifies this, ledger
      ensures Valid() && log == old(log) + [c] && writeBytes == old(writeBytes) + c.n
      ensures file == if c.err || c.offset + c.n >= size then Closed else Writing(c.index, c.offset + c.n)
      ensures recorded == old(recorded) + (if !c.err && c.offset + c.n >= size then [c.index] else [])
    {
      Append(c);
      Close();
    }

    method Append(c: Chunk)
      requires Valid() && file.Writing? && Fits(c, size, file)
      modifies this`log, this`writeBytes, this`file
      ensures Written() && log == old(log) + [c] && writeBytes == old(writeBytes) + c.n
      ensures file == After(c)
    {
      Logged(log, size, ledger.next, file, c);
      LoggedBetween(log, size, ledger.next, file, recorded, c);
      SeparateLogged(taken, held, entries, log, file, ledger.next, c);
      log, writeBytes := log + [c], writeBytes + c.n;
      file := After(c);
    }

    method Close()
      requires Written()
      modifies this`file, this`recorded, this`entries, this`writeOps, ledger
      ensures Valid()
      ensures var f := old(file);
              file == (if f.Writing? && f.offset >= size then Closed else f)
              && recorded == old(recorded) + (if f.Writing? && f.offset >= size then [f.index] else [])
    {
      if file.Writing? && file.offset >= size {
        Record(file.index);
      }
    }

    /** The file is full: it is recorded, counted and closed. */
    method Record(i: nat)
      requires ledger.State().Shape() && Grown() && Separate(taken, held, entries, log, file, ledger.next)
      requires file == Writing(i, size)
      modifies this`file, this`recorded, this`entries, this`writeOps, ledger
      ensures ledger.State().Shape() && Grown() && Separate(taken, held, entries, log, file, ledger.next)
      ensures file == Closed && recorded == old(recorded) + [i] && writeOps == old(writeOps) + 1
      ensures ledger.next == old(ledger.next)
    {
      EntrySnoc(entries, Entry(true, i));
      ledger.AddBW(i);
      recorded, entries := recorded + [i], entries + [Entry(true, i)];
      writeOps, file := writeOps + 1, Closed;
    }

    /** One turn of the loop. */
    method Turn(s: Step, rate: real, start: real, deadline: real) returns (end: Option<W.End>)
      requires Valid() && Settled()
      modifies this, ledger
      ensures Valid() && Settled()
      ensures StepWrites(s, old(log), log, size, rate, start, deadline)
      ensures StepEnds(s, old(log), log, rate, start, deadline, end)
    {
      Meanwhile(s.first);
      if s.now > deadline {
        return Some(W.AtDeadline);
      }
      if s.cancelled {
        return Some(W.Cancelled);
      }
      if !Behind(writeBytes, rate, s.at, start) {
        return None;
      }
      if deadline - s.until < 0.02 {
        return Some(W.AtDeadline);
      }
      var err := WriteNext(s);
      end := if !err || !(s.after > deadline || s.cancelledAfter) then None
             else Some(if s.cancelledAfter then W.Cancelled else W.AtDeadline);
    }

    /** The write of a turn, to the file that is open or to the next one, if that can be opened. */
    method WriteNext(s: Step) returns (err: bool)
      requires Valid() && Settled()
      modifies this, ledger
      ensures Valid() && Settled()
      ensures if StillOpen(old(log), size) || s.opens
              then |log| == |old(log)| + 1 && old(log) == log[..|old(log)|] && err == log[|old(log)|].err
                   && Attempted(log[|old(log)|], size, s.wrote, s.fails)
                   && GoesOn(old(log), log[|old(log)|].index, log[|old(log)|].offset, size)
              else log == old(log) && !err
    {
      var ready := Prepare(s);
      if !ready {
        return false;
      }
      var n;
      n, err := WriteChunk(s.wrote, s.fails);
    }

    /** The file that is open, or the next one, and what others do before the write. */
    method Prepare(s: Step) returns (ready: bool)
      requires Valid() && Settled()
      modifies this`file, this`taken, this`held, this`entries, ledger
      ensures Valid() && (ready <==> StillOpen(log, size) || s.opens)
      ensures if ready then file.Writing? && GoesOn(log, file.index, file.offset, size) else Settled()
    {
      if file.Closed? {
        OpenNext(s.opens);
        if file.Closed? {
          return false;
        }
      }
      Meanwhile(s.between);
      ready := true;
    }

    /** runBandwidth writing. Without a positive rate it sleeps out the window, unless cancelled, and writes nothing.
        Otherwise the log is made up, step by step, of what the writes came to that were due, and the step that ends the
        loop is the first to give a reason to; the bytes never get ahead of their pace by a whole buffer. In every case,
        whatever others do to the ledger meanwhile, its own records are exact. */
    method Run(rate: real, began: real, start: real, duration: real, steps: seq<Step>, woken: bool)
      returns (end: W.End, used: nat, ghost logs: seq<seq<Chunk>>)
      requires Valid() && Settled() && log == [] && began <= start && Ticking(start, steps)
      modifies this, ledger
      ensures Valid() && used <= |steps|
      ensures rate <= 0.0 ==> log == [] && ledger.State() == old(ledger.State()) && used == 0
                              && end == if woken then W.Cancelled else W.AtDeadline
      ensures rate > 0.0 ==> Concluded(logs, steps, used, size, rate, start, began + duration, end) && log == logs[used]
      ensures rate > 0.0 && used > 0 ==>
                var t := steps[used - 1].at - start;
                writeBytes as real < rate * (if t < 0.001 then 0.001 else t) + 1048576.0
    {
      if rate <= 0.0 {
        return if woken then W.Cancelled else W.AtDeadline, 0, [];
      }
      end, used, logs := WriteLoop(rate, began, start, duration, steps);
    }

    method WriteLoop(rate: real, began: real, start: real, duration: real, steps: seq<Step>)
      returns (end: W.End, used: nat, ghost logs: seq<seq<Chunk>>)
      requires rate > 0.0 && Valid() && Settled() && log == [] && began <= start && Ticking(start, steps)
      modifies this, ledger
      ensures Valid() && used <= |steps| && Paced(writeBytes, rate, start, steps, used)
      ensures Concluded(logs, steps, used, size, rate, start, began + duration, end) && log == logs[used]
    {
      end, used, logs := W.Unfinished, 0, [[]];
      while used < |steps|
        invariant Valid() && Settled() && used <= |steps| && Paced(AllBytes(log), rate, start, steps, used)
        invariant Accounted(logs, steps, used, size, rate, start, began + duration)
        invariant |logs| == used + 1 && log == logs[used] && end.Unfinished?
      {
        var stop;
        stop, logs := TakeStep(steps, used, logs, rate, start, began + duration);
        used := used + 1;
        if stop.Some? {
          return stop.value, used, logs;
        }
      }
    }

    /** One turn, and the books kept about it. */
    method TakeStep(steps: seq<Step>, used: nat, ghost logs: seq<seq<Chunk>>, rate: real, start: real, deadline: real)
      returns (stop: Option<W.End>, ghost more: seq<seq<Chunk>>)
      requires rate > 0.0 && Valid() && Settled() && Ticking(start, steps) && used < |steps|
      requires Paced(AllBytes(log), rate, start, steps, used)
      requires Accounted(logs, steps, used, size, rate, start, deadline) && |logs| == used + 1 && log == logs[used]
      modifies this, ledger
      ensures Valid() && Settled() && Paced(AllBytes(log), rate, start, steps, used + 1)
      ensures |more| == used + 2 && log == more[used + 1]
      ensures stop.None? ==> Accounted(more, steps, used + 1, size, rate, start, deadline)
      ensures stop.Some? ==> !stop.value.Unfinished?
      ensures stop.Some? ==> Concluded(more, steps, used + 1, size, rate, start, deadline, stop.value)
    {
      ghost var before := log;
      stop := Turn(steps[used], rate, start, deadline);
      OneMoreStep(logs, log, steps, used, size, rate, start, deadline, stop);
      StepPaced(steps[used], before, log, size, rate, start, deadline);
      PacedStep(AllBytes(before), AllBytes(log), rate, start, steps, used);
      more := logs + [log];
    }
  }

  lemma OneMoreStep(logs: seq<seq<Chunk>>, log: seq<Chunk>, steps: seq<Step>, used: nat, size: nat, rate: real,
                    start: real, deadline: real, end: Option<W.End>)
    requires Accounted(logs, steps, used, size, rate, start, deadline) && used < |steps| && |logs| == used + 1
    requires StepWrites(steps[used], logs[used], log, size, rate, start, deadline)
    requires StepEnds(steps[used], logs[used], log, rate, start, deadline, end)
    ensures end.None? ==> Accounted(logs + [log], steps, used + 1, size, rate, start, deadline)
    ensures end.Some? ==> !end.value.Unfinished?
    ensures end.Some? ==> Concluded(logs + [log], steps, used + 1, size, rate, start, deadline, end.value)
  {
    var all := logs + [log];
    forall k: nat | k < used
      ensures Taken(all, steps, k, size, rate, start, deadline, None)
    {
      assert Taken(logs, steps, k, size, rate, start, deadline, None);
    }
  }

  lemma StepPaced(s: Step, before: seq<Chunk>, after: seq<Chunk>, size: nat, rate: real, start: real, deadline: real)
    requires StepWrites(s, before, after, size, rate, start, deadline)
    ensures AllBytes(before) <= AllBytes(after) <= AllBytes(before) + BUFFER
    ensures AllBytes(after) > AllBytes(before) ==> Behind(AllBytes(before), rate, s.at, start)
  {
    if Writes(s, before, size, rate, start, deadline) {
      assert after == before + [after[|before|]];
      BytesSnoc(before, after[|before|]);
    }
  }

  /** The recorded files are, once each, exactly the whole ones. */
  ghost predicate Exact(recorded: seq<nat>, log: seq<Chunk>, size: nat) {
    (forall j, k :: 0 <= j < k < |recorded| ==> recorded[j] != recorded[k])
    && forall i :: i in recorded <==> Whole(log, i, size)
  }

  ghost predicate Active(log: seq<Chunk>, size: nat, next: nat, file: Open) {
    file.Writing? && file.index < next && file.offset < size && Aligned(file.offset)
    && Bytes(log, file.index) == file.offset && Clean(log, file.index)
  }

  /** A nonempty aligned write at the end of the open file, obeying the contract. */
  ghost predicate Fits(c: Chunk, size: nat, file: Open) {
    file.Writing? && c.index == file.index && c.offset == file.offset && Proper(c, size)
  }

  /** How much to write next. Neither the test for a full file nor the rounding down ever applies. */
  method ChunkSize(size: nat, offset: nat) returns (chunk: nat)
    requires offset < size && Aligned(size) && Aligned(offset)
    ensures 0 < chunk <= BUFFER && Aligned(chunk) && offset + chunk <= size
    ensures chunk == if size - offset < 0x10_0000 then size - offset else 0x10_0000
  {
    var remain := size - offset;
    chunk := BUFFER;
    if remain <= 0 {
      assert false;
    }
    if chunk > remain {
      chunk := remain;
    }
    if chunk % ALIGN != 0 {
      assert false;
    }
  }

  /** A write to the open file keeps the log orderly. */
  lemma Logged(log: seq<Chunk>, size: nat, next: nat, file: Open, c: Chunk)
    requires Orderly(log, size) && Below(log, next) && Active(log, size, next, file) && Fits(c, size, file)
    ensures AllBytes(log + [c]) == AllBytes(log) + c.n
    ensures Orderly(log + [c], size) && Below(log + [c], next)
  {
    BytesSnoc(log, c);
    OrderlySnoc(log, size, c);
  }

  lemma StaysActive(log: seq<Chunk>, size: nat, next: nat, file: Open, c: Chunk)
    requires Active(log, size, next, file) && Fits(c, size, file) && !c.err
    ensures c.offset + c.n < size ==> Active(log + [c], size, next, Writing(c.index, c.offset + c.n))
  {
    BytesSnoc(log, c);
    CleanSnoc(log, c);
    AlignedSum(c.offset, c.n);
  }

  lemma AlignedSum(a: nat, b: nat)
    requires Aligned(a) && Aligned(b)
    ensures Aligned(a + b)
  {}

  lemma CleanSnoc(log: seq<Chunk>, c: Chunk)
    requires Clean(log, c.index) && !c.err
    ensures Clean(log + [c], c.index)
  {}

  /** A write makes the open file whole exactly when it fills it without error. */
  lemma LoggedExact(log: seq<Chunk>, size: nat, next: nat, file: Open, recorded: seq<nat>, c: Chunk)
    requires Exact(recorded, log, size) && Active(log, size, next, file) && Fits(c, size, file)
    ensures c.err || c.offset + c.n < size ==> Exact(recorded, log + [c], size)
    ensures !c.err && c.offset + c.n >= size ==> Exact(recorded + [c.index], log + [c], size)
  {
    WholeSnoc(log, c, size);
    assert c.index !in recorded;
    assert forall i :: i in recorded + [c.index] <==> i in recorded || i == c.index;
  }

  /** The file after a write: closed by an error, otherwise further on. */
  function After(c: Chunk): Open { if c.err then Closed else Writing(c.index, c.offset + c.n) }

  /** An open file is not full, or about to be recorded. */
  ghost predicate Between(log: seq<Chunk>, size: nat, next: nat, file: Open, recorded: seq<nat>) {
    if file.Writing? && file.offset >= size then file.offset == size && Exact(recorded + [file.index], log, size)
    else Exact(recorded, log, size) && (file.Writing? ==> Active(log, size, next, file))
  }

  lemma LoggedBetween(log: seq<Chunk>, size: nat, next: nat, file: Open, recorded: seq<nat>, c: Chunk)
    requires Exact(recorded, log, size) && Active(log, size, next, file) && Fits(c, size, file)
    ensures Between(log + [c], size, next, After(c), recorded)
  {
    LoggedExact(log, size, next, file, recorded, c);
    if !c.err {
      StaysActive(log, size, next, file, c);
    }
  }

  /** The bytes still to write, rounded down to the alignment, at most a buffer. */
  method DirectChunk(remain: nat) returns (chunk: nat)
    requires remain > 0
    ensures chunk <= BUFFER && chunk <= remain && Aligned(chunk)
    ensures chunk == 0 <==> remain < ALIGN
    ensures chunk == if remain < 0x10_0000 then remain / 4096 * 4096 else 0x10_0000
  {
    chunk := BUFFER;
    if remain < chunk {
      chunk := remain;
    }
    if chunk % ALIGN != 0 {
      chunk := chunk / ALIGN * ALIGN;
    }
  }

  /** All writes so far went to the one file, and this many bytes reached it. */
  ghost predicate Direct(log: seq<Chunk>, size: nat, written: nat) {
    Orderly(log, size) && Bytes(log, 0) == written && forall k :: 0 <= k < |log| ==> log[k].index == 0
  }

  /** Write k goes on where the one before ended, asks for the rest rounded down to the alignment, at most a mebibyte,
      and comes to what the k-th answer says. */
  ghost predicate DirectAt(log: seq<Chunk>, k: nat, size: nat, wrote: nat -> nat, fails: nat -> bool)
    requires k < |log|
  {
    var c := log[k];
    c.offset == (if k == 0 then 0 else log[k - 1].offset + log[k - 1].n) && c.offset <= size
    && c.len == (if size - c.offset < 0x10_0000 then (size - c.offset) / 4096 * 4096 else 0x10_0000)
    && c.n == (if wrote(k) < c.len then wrote(k) else c.len)
    && (c.err <==> fails(k) || wrote(k) < c.len)
  }

  /** writeFileDirect: each write comes to what its answer says, only the last one may fail, and when none does, the
      bytes written are the size rounded down to the alignment, hence all of an aligned size. */
  method WriteFileDirect(size: nat, wrote: nat -> nat, fails: nat -> bool)
    returns (ok: bool, written: nat, log: seq<Chunk>)
    ensures Direct(log, size, written) && (ok <==> Clean(log, 0))
    ensures forall k: nat :: k < |log| ==> DirectAt(log, k, size, wrote, fails)
    ensures forall k :: 0 <= k < |log| - 1 ==> !log[k].err
    ensures ok ==> written == size - size % 4096
  {
    log, written := [], 0;
    while written < size
      invariant DirectSoFar(log, size, written, wrote, fails) && Clean(log, 0) && Aligned(written)
      decreases size - written
    {
      var chunk := DirectChunk(size - written);
      if chunk == 0 {
        break;
      }
      var c := DirectWrite(log, size, written, chunk, wrote, fails);
      log, written := log + [c], written + c.n;
      if c.err {
        return false, written, log;
      }
    }
    RoundedDown(size, written);
    ok := true;
  }

  /** The writes so far, and where they ended. */
  ghost predicate DirectSoFar(log: seq<Chunk>, size: nat, written: nat, wrote: nat -> nat, fails: nat -> bool) {
    written <= size && Direct(log, size, written)
    && written == (if log == [] then 0 else log[|log| - 1].offset + log[|log| - 1].n)
    && (forall k: nat :: k < |log| ==> DirectAt(log, k, size, wrote, fails))
    && (forall k :: 0 <= k < |log| - 1 ==> !log[k].err)
  }

  /** One more of them. */
  method DirectWrite(log: seq<Chunk>, size: nat, written: nat, chunk: nat, wrote: nat -> nat, fails: nat -> bool)
    returns (c: Chunk)
    requires DirectSoFar(log, size, written, wrote, fails) && Clean(log, 0) && Aligned(written) && written < size
    requires 0 < chunk <= size - written && Aligned(chunk)
    requires chunk == if size - written < 0x10_0000 then (size - written) / 4096 * 4096 else 0x10_0000
    ensures DirectSoFar(log + [c], size, written + c.n, wrote, fails) && (Clean(log + [c], 0) <==> !c.err)
    ensures !c.err ==> Aligned(written + c.n) && c.n > 0
  {
    c := Attempt(written, chunk, wrote(|log|), fails(|log|));
    DirectSnoc(log, size, written, c);
    DirectAtSnoc(log, size, wrote, fails, c);
    assert forall k :: 0 <= k < |log| ==> !log[k].err;
  }

  /** What a write under the Go contract can do. */
  function Attempt(offset: nat, chunk: nat, wrote: nat, fails: bool): (c: Chunk)
    ensures Contract(c) && c.index == 0 && c.offset == offset && c.len == chunk && (!c.err ==> c.n == chunk)
  {
    var n := if wrote < chunk then wrote else chunk;
    Chunk(0, offset, chunk, n, fails || n < chunk)
  }

  lemma DirectSnoc(log: seq<Chunk>, size: nat, written: nat, c: Chunk)
    requires Direct(log, size, written) && Proper(c, size) && c.offset == written && c.index == 0 && Clean(log, 0)
    ensures Direct(log + [c], size, written + c.n) && (!c.err ==> Aligned(written + c.n))
    ensures Clean(log + [c], 0) <==> !c.err
  {
    BytesSnoc(log, c);
    OrderlySnoc(log, size, c);
    if !c.err {
      AlignedSum(written, c.n);
    }
    assert (log + [c])[|log|] == c;
  }

  lemma DirectAtSnoc(log: seq<Chunk>, size: nat, wrote: nat -> nat, fails: nat -> bool, c: Chunk)
    requires forall k: nat :: k < |log| ==> DirectAt(log, k, size, wrote, fails)
    requires c.offset == (if log == [] then 0 else log[|log| - 1].offset + log[|log| - 1].n) && c.offset <= size
    requires c.len == (if size - c.offset < 0x10_0000 then (size - c.offset) / 4096 * 4096 else 0x10_0000)
    requires c == Attempt(c.offset, c.len, wrote(|log|), fails(|log|))
    ensures forall k: nat :: k <= |log| ==> DirectAt(log + [c], k, size, wrote, fails)
  {
    forall k: nat | k < |log|
      ensures DirectAt(log + [c], k, size, wrote, fails)
    {
      assert DirectAt(log, k, size, wrote, fails);
    }
  }

  lemma RoundedDown(size: nat, written: nat)
    requires written <= size < written + ALIGN && Aligned(written)
    ensures written == size - size % ALIGN
  {}
}
