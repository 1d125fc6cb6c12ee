/** The client's file ledger: the list of files it created, handed out indices, and a cursor for deleting. */
module Ledgers {
  import opened Basics

  datatype Ledger = Ledger(indices: seq<nat>, bw: seq<nat>, next: nat, cursor: nat) {
    function Add(i: nat): Ledger {
      this.(indices := indices + [i], next := if i >= next then i + 1 else next)
    }

    function AddBW(i: nat): Ledger {
      this.(indices := indices + [i], bw := bw + [i], next := if i >= next then i + 1 else next)
    }

    function Take(): Ledger { this.(next := next + 1) }

    ghost predicate Shape() {
      cursor <= |indices| && (forall k :: 0 <= k < |indices| ==> indices[k] < next)
      && forall k :: 0 <= k < |bw| ==> bw[k] < next
    }
  }

  const EMPTY_LEDGER := Ledger([], [], 0, 0)

  // ---- The two ways to scan ------------------------------------------------------------------------

  /** The list as a keep-mode scan walks it from the cursor. */
  function Rotation(s: seq<nat>, pos: nat): seq<nat>
    requires pos <= |s|
  {
    s[pos..] + s[..pos]
  }

  /** Where the cursor stands k steps on. */
  function Advance(len: nat, pos: nat, k: nat): int { if pos + k <= len then pos + k else pos + k - len }

  /** How many entries from the cursor a remove-mode scan looks at: each missing one is dropped and counted, so the
      bound shrinks while the count grows. */
  function Reach(len: nat, pos: nat): nat
    requires pos <= len
  {
    if len - pos < (len + 1) / 2 then len - pos else (len + 1) / 2
  }

  lemma InReach(len: nat, pos: nat, k: nat)
    requires pos <= len
    ensures k < Reach(len, pos) <==> pos + k < len && k < len - k
    ensures Reach(len, pos) <= len - pos
  {}

  /** None of the entries from a up to b exists. */
  ghost predicate Missing(present: nat -> bool, s: seq<nat>, a: nat, b: nat)
    requires b <= |s|
  {
    forall k :: a <= k < b ==> !present(s[k])
  }

  /** A keep-mode scan finds the first existing file in cyclic order after k missing ones and leaves the list alone. */
  ghost predicate KeepOutcome(s: seq<nat>, pos: nat, present: nat -> bool, found: Option<nat>, k: nat, t: seq<nat>,
                              at: nat)
    requires pos <= |s|
  {
    t == s && k <= |s| && Missing(present, Rotation(s, pos), 0, k)
    && match found
       case None => k == |s| && at == Advance(|s|, pos, k)
       case Some(i) => k < |s| && i == Rotation(s, pos)[k] && present(i) && at == Advance(|s|, pos, k + 1)
  }

  /** The list without k entries from the cursor. */
  function Dropped(s: seq<nat>, pos: nat, k: nat): (t: seq<nat>)
    requires pos + k <= |s|
    ensures |t| == |s| - k
  {
    s[..pos] + s[pos + k..]
  }

  /** The first k entries from the cursor are missing and dropped. */
  ghost predicate Passed(present: nat -> bool, s: seq<nat>, pos: nat, k: nat, t: seq<nat>) {
    pos + k <= |s| && Missing(present, s, pos, pos + k) && t == Dropped(s, pos, k)
  }

  lemma PassedOn(present: nat -> bool, s: seq<nat>, pos: nat, k: nat, t: seq<nat>)
    requires pos + k < |s| && Missing(present, s, pos, pos + k) && !present(s[pos + k]) && t == Dropped(s, pos, k + 1)
    ensures Passed(present, s, pos, k + 1, t)
  {}

  /** A remove-mode scan drops k missing files at the cursor and the existing one it returns, and nothing else. */
  ghost predicate RemoveOutcome(s: seq<nat>, pos: nat, present: nat -> bool, found: Option<nat>, k: nat, t: seq<nat>,
                                at: nat)
    requires pos <= |s|
  {
    at == pos && k <= Reach(|s|, pos) && Missing(present, s, pos, pos + k)
    && match found
       case None => k == Reach(|s|, pos) && t == Dropped(s, pos, k)
       case Some(i) => k < Reach(|s|, pos) && i == s[pos + k] && present(i) && t == Dropped(s, pos, k + 1)
  }

  /** The cursor ends up behind the file found, and between where it was and there, past the end of the list if need be,
      no file exists. A search in vain ends where it began; from the start of the list, at its end. */
  ghost predicate FindsNext(s: seq<nat>, pos: nat, present: nat -> bool, found: Option<nat>, at: nat) {
    if found.None? then at == if pos == 0 then |s| else pos
    else
      0 < at <= |s| && s[at - 1] == found.value
      && forall j :: 0 <= j < |s| && (if pos < at then pos <= j < at - 1 else pos <= j || j < at - 1) ==> !present(s[j])
  }

  lemma FoundNext(s: seq<nat>, pos: nat, present: nat -> bool, found: Option<nat>, k: nat, at: nat)
    requires pos <= |s| && KeepOutcome(s, pos, present, found, k, s, at)
    ensures FindsNext(s, pos, present, found, at)
  {
    var r := Rotation(s, pos);
    if found.Some? {
      forall j | 0 <= j < |s| && (if pos < at then pos <= j < at - 1 else pos <= j || j < at - 1)
        ensures !present(s[j])
      {
        assert s[j] == if j < pos then r[|s| - pos + j] else r[j - pos];
      }
    }
  }

  /** The removed entries are those from the cursor on, up to the file found or, in vain, half of the list, rounded up,
      but not past its end; none of them but the last exists. */
  ghost predicate RemovesNearest(s: seq<nat>, pos: nat, present: nat -> bool, found: Option<nat>, t: seq<nat>) {
    var n := |s| - |t|;
    0 <= pos <= pos + n <= |s| && t == s[..pos] + s[pos + n..]
    && (forall j :: pos <= j < pos + n - (if found.Some? then 1 else 0) ==> !present(s[j]))
    && if found.Some? then 0 < n <= (|s| + 1) / 2 && s[pos + n - 1] == found.value
       else n == (|s| + 1) / 2 || (pos + n == |s| && n < (|s| + 1) / 2)
  }

  lemma RemovedNearest(s: seq<nat>, pos: nat, present: nat -> bool, found: Option<nat>, k: nat, t: seq<nat>, at: nat)
    requires pos <= |s| && RemoveOutcome(s, pos, present, found, k, t, at)
    ensures RemovesNearest(s, pos, present, found, t)
  {}

  lemma RotationMissing(s: seq<nat>, pos: nat, present: nat -> bool)
    requires pos <= |s| && Missing(present, Rotation(s, pos), 0, |s|)
    ensures Missing(present, s, 0, |s|)
  {
    forall k | 0 <= k < |s|
      ensures !present(s[k])
    {
      var r := Rotation(s, pos);
      assert s[k] == if k < pos then r[|s| - pos + k] else r[k - pos];
    }
  }

  class FileLedger {
    var indices: seq<nat>
    var bwIndices: seq<nat>
    var next: nat
    var delPos: nat

    ghost function State(): Ledger
      reads this
    {
      Ledger(indices, bwIndices, next, delPos)
    }

    constructor ()
      ensures State() == EMPTY_LEDGER
    {
      indices, bwIndices, next, delPos := [], [], 0, 0;
    }

    method Add(i: nat)
      modifies this
      ensures State() == old(State()).Add(i)
      ensures indices == old(indices) + [i] && bwIndices == old(bwIndices) && delPos == old(delPos)
      ensures next == if i < old(next) then old(next) else i + 1
      ensures old(State().Shape()) ==> State().Shape()
    {
      indices := indices + [i];
      if i >= next {
        next := i + 1;
      }
    }

    method AddBW(i: nat)
      modifies this
      ensures State() == old(State()).AddBW(i)
      ensures indices == old(indices) + [i] && bwIndices == old(bwIndices) + [i] && delPos == old(delPos)
      ensures next == if i < old(next) then old(next) else i + 1
      ensures old(State().Shape()) ==> State().Shape()
    {
      indices, bwIndices := indices + [i], bwIndices + [i];
      if i >= next {
        next := i + 1;
      }
    }

    method NextIndex() returns (i: nat)
      modifies this`next
      ensures i == old(next) && next == i + 1 && State() == old(State()).Take()
      ensures old(State().Shape()) ==> State().Shape()
    {
      i := next;
      next := next + 1;
    }

    method ClearBW()
      modifies this`bwIndices
      ensures bwIndices == []
    {
      bwIndices := bwIndices[..0];
    }

    method ResetDeleteCursor()
      modifies this`delPos
      ensures delPos == 0
    {
      delPos := 0;
    }

    method Clear()
      modifies this
      ensures State() == EMPTY_LEDGER
    {
      indices, bwIndices, next, delPos := indices[..0], bwIndices[..0], 0, 0;
    }

    /** NextExistingPath. Keeping, it fails exactly when no listed file exists; removing, exactly when none of the
        entries within reach of the cursor does. */
    method NextExisting(present: nat -> bool, remove: bool) returns (found: Option<nat>)
      requires State().Shape()
      modifies this`indices, this`delPos
      ensures State().Shape()
      ensures found.Some? ==> found.value in old(indices) && present(found.value)
      ensures remove ==>
                var s, pos := old(indices), old(delPos);
                (found.None? <==> Missing(present, s, pos, pos + Reach(|s|, pos)))
                && exists k :: RemoveOutcome(s, pos, present, found, k, indices, delPos)
      ensures !remove ==>
                (found.None? <==> Missing(present, indices, 0, |indices|))
                && exists k :: KeepOutcome(old(indices), old(delPos), present, found, k, indices, delPos)
      ensures remove ==> delPos == old(delPos) && RemovesNearest(old(indices), delPos, present, found, indices)
      ensures !remove ==> indices == old(indices) && FindsNext(indices, old(delPos), present, found, delPos)
    {
      ghost var k;
      if remove {
        found, k := ScanRemoving(present);
        RemovedNearest(old(indices), delPos, present, found, k, indices, delPos);
        DroppedFrom(old(indices), delPos, if found.Some? then k + 1 else k);
      } else {
        found, k := ScanKeeping(present);
        FoundNext(indices, old(delPos), present, found, k, delPos);
        ghost var r := Rotation(old(indices), old(delPos));
        if found.None? {
          RotationMissing(old(indices), old(delPos), present);
        } else {
          assert r[k] in old(indices);
        }
      }
    }

    /** The loop of NextExistingPath with removeFromLedger unset. */
    method ScanKeeping(present: nat -> bool) returns (found: Option<nat>, ghost k: nat)
      requires State().Shape()
      modifies this`delPos
      ensures KeepOutcome(indices, old(delPos), present, found, k, indices, delPos) && State().Shape()
    {
      k := 0;
      if |indices| == 0 {
        return None, 0;
      }
      ghost var r := Rotation(indices, delPos);
      var scanned := 0;
      while scanned < |indices|
        invariant scanned == k <= |indices| && Missing(present, r, 0, k)
        invariant delPos == Advance(|indices|, old(delPos), k)
      {
        if delPos >= |indices| {
          delPos := 0;
        }
        var i := indices[delPos];
        assert i == r[k];
        delPos := delPos + 1;
        if present(i) {
          return Some(i), k;
        }
        scanned, k := scanned + 1, k + 1;
      }
      found := None;
    }

    /** The loop of NextExistingPath with removeFromLedger set. */
    method ScanRemoving(present: nat -> bool) returns (found: Option<nat>, ghost k: nat)
      requires State().Shape()
      modifies this`indices
      ensures RemoveOutcome(old(indices), delPos, present, found, k, indices, delPos)
    {
      ghost var s, reach := indices, Reach(|indices|, delPos);
      k := 0;
      var scanned := 0;
      InReach(|s|, delPos, 0);
      while scanned < |indices|
        invariant scanned == k <= reach && k + |indices| == |s|
        invariant Passed(present, s, delPos, k, indices)
        decreases |indices|
      {
        InReach(|s|, delPos, k);
        if delPos >= |indices| {
          return None, k;
        }
        var i := RemoveNext(s, k);
        if present(i) {
          return Some(i), k;
        }
        PassedOn(present, s, delPos, k, indices);
        scanned, k := scanned + 1, k + 1;
      }
      InReach(|s|, delPos, k);
      found := None;
    }

    /** append(l[:pos], l[pos+1:]...), after k entries of s were dropped. */
    method RemoveNext(ghost s: seq<nat>, ghost k: nat) returns (i: nat)
      requires delPos + k < |s| && indices == Dropped(s, delPos, k)
      modifies this`indices
      ensures i == s[delPos + k] && indices == Dropped(s, delPos, k + 1)
    {
      DropAt(s, delPos, k);
      i := indices[delPos];
      indices := indices[..delPos] + indices[delPos + 1..];
    }
  }

  lemma DroppedFrom(s: seq<nat>, pos: nat, k: nat)
    requires pos + k <= |s|
    ensures forall j :: 0 <= j < |s| - k ==> Dropped(s, pos, k)[j] == s[if j < pos then j else j + k]
  {}

  lemma DropAt(s: seq<nat>, pos: nat, k: nat)
    requires pos + k < |s|
    ensures var t := Dropped(s, pos, k);
            t[pos] == s[pos + k] && t[..pos] + t[pos + 1..] == Dropped(s, pos, k + 1)
  {}

  /** Of two files listed the removing scan from the start looks at the first only. */
  lemma SecondMissed(s: seq<nat>, present: nat -> bool, found: Option<nat>, k: nat, t: seq<nat>, at: nat)
    requires |s| == 2 && !present(s[0]) && RemoveOutcome(s, 0, present, found, k, t, at)
    ensures found.None? && t == [s[1]]
  {
    assert Reach(2, 0) == 1;
  }

  /** So it gives up when only the second still exists. */
  method RemovingMissesOne() returns (ledger: FileLedger, found: Option<nat>)
    ensures found.None? && ledger.indices == [1]
  {
    ledger := new FileLedger();
    ledger.Add(0);
    ledger.Add(1);
    var present: nat -> bool := i => i == 1;
    ghost var s := ledger.indices;
    assert s == [0, 1];
    found := ledger.NextExisting(present, true);
    ghost var k :| RemoveOutcome(s, 0, present, found, k, ledger.indices, ledger.delPos);
    SecondMissed(s, present, found, k, ledger.indices, ledger.delPos);
  }

  // ---- Indices handed out concurrently -------------------------------------------------------------

  /** The ledger's lock-held operations as seen by goroutines that each take an index, write its file and record it.
      `Drop` gives up after a failed write; `Shrink` is a scan that removes entries. */
  datatype Op = TakeBy(g: nat) | RecordBy(g: nat, bw: bool) | Drop(g: nat) | Shrink(kept: seq<nat>, at: nat) | ClearAll

  datatype Shared = Shared(ledger: Ledger, held: map<nat, nat>)

  ghost predicate Subsequence(t: seq<nat>, s: seq<nat>) {
    (forall x :: x in t ==> x in s) && (Distinct(s) ==> Distinct(t))
  }

  ghost predicate Can(s: Shared, op: Op) {
    match op
    case TakeBy(g) => g !in s.held
    case RecordBy(g, _) => g in s.held
    case Drop(g) => true
    case Shrink(kept, at) => Subsequence(kept, s.ledger.indices) && at <= |kept|
    case ClearAll => true
  }

  function Do(s: Shared, op: Op): Shared
    requires Can(s, op)
  {
    match op
    case TakeBy(g) => Shared(s.ledger.Take(), s.held[g := s.ledger.next])
    case RecordBy(g, bw) =>
      Shared(if bw then s.ledger.AddBW(s.held[g]) else s.ledger.Add(s.held[g]), s.held - {g})
    case Drop(g) => s.(held := s.held - {g})
    case Shrink(kept, at) => s.(ledger := s.ledger.(indices := kept, cursor := at))
    case ClearAll => s.(ledger := EMPTY_LEDGER)
  }

  /** The state after the operations, if each could be done in its turn. */
  ghost function DoAll(ops: seq<Op>): Option<Shared> {
    if ops == [] then Some(Shared(EMPTY_LEDGER, map[]))
    else
      var s := DoAll(ops[..|ops| - 1]);
      if s.Some? && Can(s.value, ops[|ops| - 1]) then Some(Do(s.value, ops[|ops| - 1])) else None
  }

  /** No Clear happens while some goroutine still holds an index it took before. */
  ghost predicate ClearsAtRest(ops: seq<Op>) {
    forall k :: 0 <= k < |ops| && ops[k].ClearAll? && DoAll(ops[..k]).Some? ==> DoAll(ops[..k]).value.held == map[]
  }

  /** Nothing is listed twice, and what is still held is neither listed nor held twice. */
  ghost predicate Unique(s: Shared) {
    s.ledger.Shape() && Distinct(s.ledger.indices) && Distinct(s.ledger.bw)
    && (forall g :: g in s.held ==>
          s.held[g] < s.ledger.next && s.held[g] !in s.ledger.indices && s.held[g] !in s.ledger.bw)
    && forall g, h :: g in s.held && h in s.held && g != h ==> s.held[g] != s.held[h]
  }

  lemma UniqueStep(s: Shared, op: Op)
    requires Unique(s) && Can(s, op) && (op.ClearAll? ==> s.held == map[])
    ensures Unique(Do(s, op))
  {
    match op
    case RecordBy(g, bw) =>
      var i := s.held[g];
      assert forall x :: x in s.ledger.indices + [i] <==> x in s.ledger.indices || x == i;
      assert forall x :: x in s.ledger.bw + [i] <==> x in s.ledger.bw || x == i;
    case Shrink(kept, at) =>
      assert forall k :: 0 <= k < |kept| ==> kept[k] in s.ledger.indices;
    case _ =>
  }

  /** With any number of goroutines sharing the ledger in any order, no index is recorded twice as long as the ledger
      is only cleared while none is under way. */
  lemma {:induction false} UniqueAlways(ops: seq<Op>)
    requires DoAll(ops).Some? && ClearsAtRest(ops)
    ensures Unique(DoAll(ops).value)
    decreases |ops|
  {
    if ops != [] {
      var n := |ops| - 1;
      assert forall k :: 0 <= k < n ==> ops[..n][..k] == ops[..k];
      assert ClearsAtRest(ops[..n]) by {
        forall k | 0 <= k < n && ops[..n][k].ClearAll? && DoAll(ops[..n][..k]).Some?
          ensures DoAll(ops[..n][..k]).value.held == map[]
        {
          assert ops[k].ClearAll?;
        }
      }
      UniqueAlways(ops[..n]);
      UniqueStep(DoAll(ops[..n]).value, ops[n]);
    }
  }

  /** Without that condition two files can get the same index. */
  lemma ClearInFlight() returns (ops: seq<Op>)
    ensures DoAll(ops).Some? && DoAll(ops).value.ledger.indices == [0, 0]
  {
    ops := [TakeBy(0), ClearAll, TakeBy(1), RecordBy(0, true), RecordBy(1, true)];
    var e := EMPTY_LEDGER;
    assert DoAll(ops[..0]) == Some(Shared(e, map[]));
    assert ops[..1][..0] == ops[..0];
    assert DoAll(ops[..1]) == Some(Shared(e.Take(), map[0 := 0]));
    assert ops[..2][..1] == ops[..1];
    assert DoAll(ops[..2]) == Some(Shared(e, map[0 := 0]));
    assert ops[..3][..2] == ops[..2];
    assert DoAll(ops[..3]) == Some(Shared(e.Take(), map[0 := 0, 1 := 0]));
    assert ops[..4][..3] == ops[..3];
    assert map[0 := 0, 1 := 0] - {0} == map[1 := 0];
    assert DoAll(ops[..4]) == Some(Shared(e.Take().AddBW(0), map[1 := 0]));
    assert ops[..5][..4] == ops[..4];
    assert ops[..5] == ops;
  }

  lemma DoSnoc(ops: seq<Op>, s: Shared, op: Op)
    requires DoAll(ops) == Some(s) && Can(s, op)
    ensures DoAll(ops + [op]) == Some(Do(s, op))
  {
    assert (ops + [op])[..|ops|] == ops;
  }

  /** Taking an index and giving it up, so many times. */
  lemma {:induction false} TakeAndDrop(ops: seq<Op>, s: Shared, h: nat, k: nat) returns (more: seq<Op>)
    requires DoAll(ops) == Some(s) && h !in s.held
    ensures ops <= more && NoClear(more[|ops|..])
    ensures DoAll(more) == Some(s.(ledger := s.ledger.(next := s.ledger.next + k)))
    decreases k
  {
    if k == 0 {
      more := ops;
    } else {
      DoSnoc(ops, s, TakeBy(h));
      var t := Do(s, TakeBy(h));
      DoSnoc(ops + [TakeBy(h)], t, Drop(h));
      assert t.held - {h} == s.held;
      more := TakeAndDrop(ops + [TakeBy(h)] + [Drop(h)], Do(t, Drop(h)), h, k - 1);
      assert more[|ops|..] == [TakeBy(h), Drop(h)] + more[|ops| + 2..];
    }
  }

  ghost predicate NoClear(ops: seq<Op>) { forall k :: 0 <= k < |ops| ==> !ops[k].ClearAll? }

  lemma SomeoneElse(held: map<nat, nat>) returns (h: nat)
    ensures h !in held
  {
    h := Above(held.Keys);
  }

  lemma {:induction false} Above(s: set<nat>) returns (h: nat)
    ensures forall x :: x in s ==> x < h
    decreases s
  {
    h := 0;
    if x :| x in s {
      var rest := Above(s - {x});
      h := if rest > x then rest else x + 1;
      assert forall y :: y in s ==> y == x || y in s - {x};
    }
  }

  /** Two files come to share an index after these operations and a clear, without another clear. */
  ghost predicate Clashes(ops: seq<Op>, more: seq<Op>) {
    ops + [ClearAll] <= more && NoClear(more[|ops| + 1..]) && DoAll(more).Some?
    && !Distinct(DoAll(more).value.ledger.indices)
  }

  /** Clearing while goroutine g holds an index lets somebody else be handed the same one. */
  lemma ClearClashes(ops: seq<Op>, s: Shared, g: nat) returns (more: seq<Op>)
    requires DoAll(ops) == Some(s) && g in s.held
    ensures Clashes(ops, more)
  {
    var i := s.held[g];
    var h := SomeoneElse(s.held);
    var cleared := ops + [ClearAll];
    DoSnoc(ops, s, ClearAll);
    var first := TakeAndDrop(cleared, Do(s, ClearAll), h, i);
    var t := DoAll(first).value;
    BothRecord(t, g, h);
    more, t := ThenDo(cleared, first, t, TakeBy(h));
    more, t := ThenDo(cleared, more, t, RecordBy(g, false));
    more, t := ThenDo(cleared, more, t, RecordBy(h, false));
    assert t.ledger.indices[0] == t.ledger.indices[1];
  }

  /** Handed out again, the index is recorded twice. */
  lemma BothRecord(s: Shared, g: nat, h: nat)
    requires g in s.held && h !in s.held && s.ledger.indices == [] && s.ledger.next == s.held[g]
    ensures var t := Do(s, TakeBy(h));
            Can(t, RecordBy(g, false)) && Can(Do(t, RecordBy(g, false)), RecordBy(h, false))
            && Do(Do(t, RecordBy(g, false)), RecordBy(h, false)).ledger.indices == [s.held[g], s.held[g]]
  {}

  lemma ThenDo(from: seq<Op>, ops: seq<Op>, s: Shared, op: Op) returns (more: seq<Op>, t: Shared)
    requires DoAll(ops) == Some(s) && Can(s, op) && !op.ClearAll?
    requires from <= ops && NoClear(ops[|from|..])
    ensures t == Do(s, op) && DoAll(more) == Some(t)
    ensures from <= more && NoClear(more[|from|..])
  {
    DoSnoc(ops, s, op);
    more, t := ops + [op], Do(s, op);
    assert more[|from|..] == ops[|from|..] + [op];
  }

  /** From a state without duplicates, and without clears, none arise. */
  lemma {:induction false} UniqueFrom(ops: seq<Op>, more: seq<Op>)
    requires ops <= more && DoAll(more).Some? && NoClear(more[|ops|..])
    requires DoAll(ops).Some? ==> Unique(DoAll(ops).value)
    ensures DoAll(ops).Some? && Unique(DoAll(more).value)
    decreases |more|
  {
    var n := |more| - 1;
    if |more| == |ops| {
      assert more == ops;
    } else {
      assert more[..n][|ops|..] == more[|ops|..][..n - |ops|];
      assert more[n] == more[|ops|..][n - |ops|];
      UniqueFrom(ops, more[..n]);
      UniqueStep(DoAll(more[..n]).value, more[n]);
    }
  }

  /** A clear is safe, whatever follows until the next one, if and only if nobody holds an index. */
  lemma ClearSafeIff(ops: seq<Op>, s: Shared)
    requires DoAll(ops) == Some(s)
    ensures s.held == map[] <==> !exists more :: Clashes(ops, more)
  {
    var cleared := ops + [ClearAll];
    if s.held == map[] {
      forall more | cleared <= more && NoClear(more[|ops| + 1..]) && DoAll(more).Some?
        ensures !Clashes(ops, more)
      {
        DoSnoc(ops, s, ClearAll);
        UniqueFrom(cleared, more);
      }
    } else {
      assert s.held.Keys != {};
      var g :| g in s.held;
      var more := ClearClashes(ops, s, g);
    }
  }
}
