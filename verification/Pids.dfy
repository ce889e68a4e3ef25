// src/pid.rs: generational pids and the slab allocator that issues them.
module Pids {
  /** A `u64`. */
  type Pid = nat

  /** 2^32. */
  const WORD: nat := 0x1_0000_0000

  function BitOr(a: nat, b: nat): nat
    decreases a + b
  {
    if a == 0 && b == 0 then 0
    else 2 * BitOr(a / 2, b / 2) + (if a % 2 == 1 || b % 2 == 1 then 1 else 0)
  }

  /** `(generation << 32) | index`: an index of more than 32 bits runs into the generation. */
  function MakePid(index: nat, generation: nat): Pid {
    BitOr(generation, index / WORD) * WORD + index % WORD
  }

  function SplitPid(pid: Pid): (nat, nat) {
    (pid % WORD, (pid / WORD) % WORD)
  }

  lemma {:induction false} BitOrZero(a: nat)
    ensures BitOr(a, 0) == a
  {
    if a != 0 {
      BitOrZero(a / 2);
    }
  }

  lemma MakeSmall(index: nat, generation: nat)
    requires index < WORD
    ensures MakePid(index, generation) == generation * WORD + index
  {
    BitOrZero(generation);
  }

  lemma Digits(hi: nat, lo: nat)
    requires lo < 0x1_0000_0000
    ensures (hi * 0x1_0000_0000 + lo) % 0x1_0000_0000 == lo && (hi * 0x1_0000_0000 + lo) / 0x1_0000_0000 == hi
  {
  }

  lemma SplitOf(pid: Pid, index: nat, generation: nat)
    requires index < WORD && generation < WORD && pid == generation * WORD + index
    ensures SplitPid(pid) == (index, generation)
  {
    Digits(generation, index);
  }

  lemma SplitSmall(pid: Pid)
    ensures SplitPid(pid).0 < WORD
  {
  }

  /** Splitting inverts making exactly for indices of at most 32 bits. */
  lemma SplitInvertsMake(index: nat, generation: nat)
    requires generation < WORD
    ensures SplitPid(MakePid(index, generation)) == (index, generation) <==> index < WORD
  {
    var pid := MakePid(index, generation);
    SplitSmall(pid);
    if index < WORD {
      MakeSmall(index, generation);
      SplitOf(pid, index, generation);
    }
  }

  /** The sentinel 0 is a pid of slot 0 in generation 0 only. */
  lemma ZeroPid(index: nat, generation: nat)
    requires index < WORD
    ensures MakePid(index, generation) == 0 <==> index == 0 && generation == 0
  {
    MakeSmall(index, generation);
  }

  // The slab.

  datatype Entry = Entry(generation: nat, occupied: bool)

  datatype Slab = Slab(entries: seq<Entry>, free: seq<nat>)

  const NEW_SLAB := Slab([], [])

  /** The free list holds each unoccupied index exactly once and nothing else. */
  ghost predicate Wf(s: Slab) {
    && (forall a, b :: 0 <= a < b < |s.free| ==> s.free[a] != s.free[b])
    && (forall i: nat :: i in s.free <==> i < |s.entries| && !s.entries[i].occupied)
    && (forall i :: 0 <= i < |s.entries| ==> s.entries[i].generation < WORD)
  }

  predicate IsValid(s: Slab, pid: Pid) {
    var (i, g) := SplitPid(pid);
    i < |s.entries| && s.entries[i].occupied && s.entries[i].generation == g
  }

  function Slot(s: Slab): nat {
    if s.free != [] then s.free[|s.free| - 1] else |s.entries|
  }

  function AllocateF(s: Slab): (Pid, Slab)
    requires Wf(s)
  {
    if s.free != [] then
      var i := s.free[|s.free| - 1];
      assert i in s.free;
      var e := s.entries[i];
      (MakePid(i, e.generation), Slab(s.entries[i := e.(occupied := true)], s.free[..|s.free| - 1]))
    else
      (MakePid(|s.entries|, 1), Slab(s.entries + [Entry(1, true)], []))
  }

  function DeallocateF(s: Slab, pid: Pid): (bool, Slab) {
    if !IsValid(s, pid) then (false, s)
    else
      var (i, g) := SplitPid(pid);
      (true, Slab(s.entries[i := Entry((g + 1) % WORD, false)], s.free + [i]))
  }

  lemma AllocateKeepsWf(s: Slab)
    requires Wf(s)
    ensures Wf(AllocateF(s).1)
  {
    var s' := AllocateF(s).1;
    if s.free != [] {
      var n := |s.free| - 1;
      assert s.free == s.free[..n] + [s.free[n]];
      assert forall i: nat :: i in s.free[..n] <==> i in s.free && i != s.free[n];
      assert forall i: nat :: i in s'.free <==> i < |s'.entries| && !s'.entries[i].occupied;
    }
  }

  lemma DeallocateKeepsWf(s: Slab, pid: Pid)
    requires Wf(s)
    ensures Wf(DeallocateF(s, pid).1)
    ensures !IsValid(DeallocateF(s, pid).1, pid)
  {
    var s' := DeallocateF(s, pid).1;
    var i := SplitPid(pid).0;
    if IsValid(s, pid) {
      assert i !in s.free;
      assert forall j: nat :: j in s'.free <==> j in s.free || j == i;
    }
  }

  class SlabAllocator {
    var entries: seq<Entry>
    var freeList: seq<nat>

    ghost function View(): Slab
      reads this
    {
      Slab(entries, freeList)
    }

    constructor ()
      ensures View() == NEW_SLAB && Wf(View())
    {
      entries, freeList := [], [];
    }

    method Allocate() returns (pid: Pid)
      requires Wf(View())
      modifies this
      ensures Wf(View()) && (pid, View()) == AllocateF(old(View()))
    {
      AllocateKeepsWf(View());
      if freeList != [] {
        var idx := freeList[|freeList| - 1];
        assert idx in freeList;
        freeList := freeList[..|freeList| - 1];
        entries := entries[idx := entries[idx].(occupied := true)];
        pid := MakePid(idx, entries[idx].generation);
      } else {
        var idx := |entries|;
        entries := entries + [Entry(1, true)];
        pid := MakePid(idx, 1);
      }
    }

    /** Frees a valid pid, which is invalid from then on; refuses any other. */
    method Deallocate(pid: Pid) returns (freed: bool)
      requires Wf(View())
      modifies this
      ensures Wf(View()) && (freed, View()) == DeallocateF(old(View()), pid)
      ensures freed == IsValid(old(View()), pid) && !IsValid(View(), pid)
    {
      DeallocateKeepsWf(View(), pid);
      var (idx, gen) := SplitPid(pid);
      if idx >= |entries| {
        return false;
      }
      if !entries[idx].occupied || entries[idx].generation != gen {
        return false;
      }
      entries := entries[idx := entries[idx].(occupied := false)];
      entries := entries[idx := entries[idx].(generation := (entries[idx].generation + 1) % WORD)];
      freeList := freeList + [idx];
      assert entries == old(entries)[idx := Entry((gen + 1) % WORD, false)];
      return true;
    }
  }

  // Whole runs.

  datatype SlabOp = Alloc | Free(pid: Pid)

  /** An allocation: the pid issued, its slot, and how often the slot had been freed. */
  datatype Issue = Issue(pid: Pid, index: nat, stamp: nat)

  datatype SlabHistory = SlabHistory(slab: Slab, frees: seq<nat>, log: seq<Issue>)

  const NO_HISTORY := SlabHistory(NEW_SLAB, [], [])

  function Apply(h: SlabHistory, op: SlabOp): SlabHistory
    requires Wf(h.slab)
  {
    match op
    case Alloc =>
      var (pid, s') := AllocateF(h.slab);
      var i := Slot(h.slab);
      var frees := if i < |h.frees| then h.frees else h.frees + [0];
      SlabHistory(s', frees, h.log + [Issue(pid, i, if i < |frees| then frees[i] else 0)])
    case Free(pid) =>
      var (ok, s') := DeallocateF(h.slab, pid);
      var i := SplitPid(pid).0;
      h.(slab := s', frees := if ok && i < |h.frees| then h.frees[i := h.frees[i] + 1] else h.frees)
  }

  /** Generations count the frees of a slot modulo 2^32; stamps only grow; a slot that is
      free has been freed since it was last issued. */
  ghost predicate Inv(h: SlabHistory) {
    var es := h.slab.entries;
    && Wf(h.slab) && |h.frees| == |es|
    && (forall i :: 0 <= i < |es| ==> es[i].generation == (1 + h.frees[i]) % WORD)
    && (forall a :: 0 <= a < |h.log| ==> Recorded(h, h.log[a]))
    && (forall a, b :: 0 <= a < b < |h.log| && h.log[a].index == h.log[b].index ==> h.log[a].stamp < h.log[b].stamp)
  }

  predicate Recorded(h: SlabHistory, l: Issue) {
    && l.index < |h.slab.entries| && l.index < |h.frees|
    && l.pid == MakePid(l.index, (1 + l.stamp) % WORD)
    && l.stamp <= h.frees[l.index]
    && (l.stamp == h.frees[l.index] ==> h.slab.entries[l.index].occupied)
  }

  lemma AllocKeepsInv(h: SlabHistory)
    requires Inv(h)
    ensures Inv(Apply(h, Alloc))
  {
    var h', i := Apply(h, Alloc), Slot(h.slab);
    AllocateKeepsWf(h.slab);
    if h.slab.free != [] {
      assert i in h.slab.free;
    }
    assert Recorded(h', h'.log[|h.log|]);
    forall a | 0 <= a < |h.log|
      ensures Recorded(h', h'.log[a])
      ensures h.log[a].index == i ==> h.log[a].stamp < h'.log[|h.log|].stamp
    {
      assert Recorded(h, h.log[a]);
    }
  }

  lemma FreeKeepsInv(h: SlabHistory, pid: Pid)
    requires Inv(h)
    ensures Inv(Apply(h, Free(pid)))
  {
    var h', i := Apply(h, Free(pid)), SplitPid(pid).0;
    DeallocateKeepsWf(h.slab, pid);
    forall a | 0 <= a < |h.log|
      ensures Recorded(h', h'.log[a])
    {
      assert Recorded(h, h.log[a]);
    }
    if IsValid(h.slab, pid) {
      GenerationStep(h.frees[i]);
    }
  }

  lemma GenerationStep(n: nat)
    ensures ((1 + n) % WORD + 1) % WORD == (2 + n) % WORD
  {
  }

  ghost function Run(ops: seq<SlabOp>): (h: SlabHistory)
    ensures Inv(h)
  {
    if ops == [] then NO_HISTORY
    else
      var h, op := Run(ops[..|ops| - 1]), ops[|ops| - 1];
      assert Inv(Apply(h, op)) by {
        if op.Alloc? { AllocKeepsInv(h); } else { FreeKeepsInv(h, op.pid); }
      }
      Apply(h, op)
  }

  lemma SameResidue(x: nat, y: nat)
    requires x % WORD == y % WORD && x <= y
    ensures (y - x) % WORD == 0
  {
  }

  predicate Names(l: Issue) {
    l.index < WORD && l.pid == MakePid(l.index, (1 + l.stamp) % WORD)
  }

  lemma EqualPids(x: Issue, y: Issue)
    requires Names(x) && Names(y) && x.pid == y.pid
    ensures x.index == y.index && (1 + x.stamp) % WORD == (1 + y.stamp) % WORD
  {
    SplitInvertsMake(x.index, (1 + x.stamp) % WORD);
    SplitInvertsMake(y.index, (1 + y.stamp) % WORD);
  }

  /** Between the two, the slot was freed a positive multiple of 2^32 times. */
  predicate WrapsBetween(x: Issue, y: Issue) {
    x.index == y.index && x.stamp < y.stamp && (y.stamp - x.stamp) % WORD == 0
  }

  lemma ReissueNeedsWrap(h: SlabHistory, a: nat, b: nat)
    requires Inv(h) && a < b < |h.log| && |h.slab.entries| <= WORD && h.log[a].pid == h.log[b].pid
    ensures WrapsBetween(h.log[a], h.log[b])
  {
    var x, y := h.log[a], h.log[b];
    assert Names(x) && Names(y) by {
      assert Recorded(h, x) && Recorded(h, y);
    }
    EqualPids(x, y);
    SameResidue(1 + x.stamp, 1 + y.stamp);
  }

  lemma WholeTurns(x: nat, y: nat)
    requires x <= y && (y - x) % WORD == 0
    ensures (1 + x) % WORD == (1 + y) % WORD
  {
  }

  lemma WrapReissues(h: SlabHistory, x: Issue, y: Issue)
    requires Recorded(h, x) && Recorded(h, y) && WrapsBetween(x, y)
    ensures x.pid == y.pid
  {
    WholeTurns(x.stamp, y.stamp);
  }

  lemma ReissuedExactly(h: SlabHistory, a: nat, b: nat)
    requires Inv(h) && a < b < |h.log| && |h.slab.entries| <= WORD
    ensures h.log[a].pid == h.log[b].pid <==> WrapsBetween(h.log[a], h.log[b])
  {
    if h.log[a].pid == h.log[b].pid {
      ReissueNeedsWrap(h, a, b);
    }
    if WrapsBetween(h.log[a], h.log[b]) {
      WrapReissues(h, h.log[a], h.log[b]);
    }
  }

  /** A run issues the same pid twice exactly when it is for the same slot, and the slot has
      been freed a positive multiple of 2^32 times in between. */
  lemma {:induction false} ReissuedExactlyAfterWrap(ops: seq<SlabOp>, a: nat, b: nat)
    requires a < b < |Run(ops).log| && |Run(ops).slab.entries| <= WORD
    ensures Run(ops).log[a].pid == Run(ops).log[b].pid <==> WrapsBetween(Run(ops).log[a], Run(ops).log[b])
  {
    ReissuedExactly(Run(ops), a, b);
  }

  // Slabs of more than 2^32 slots.

  ghost predicate FirstIssued(h: SlabHistory, i: nat) {
    exists a :: 0 <= a < |h.log| && h.log[a].index == i && h.log[a].stamp == 0
  }

  lemma FirstIssuedStays(h: SlabHistory, h': SlabHistory, i: nat)
    requires FirstIssued(h, i) && h.log <= h'.log
    ensures FirstIssued(h', i)
  {
    var a :| 0 <= a < |h.log| && h.log[a].index == i && h.log[a].stamp == 0;
    assert h'.log[a] == h.log[a];
  }

  lemma NewSlotIsIssued(h: SlabHistory)
    requires Inv(h) && h.slab.free == []
    ensures FirstIssued(Apply(h, Alloc), |h.slab.entries|)
  {
    var h' := Apply(h, Alloc);
    assert h'.log[|h.log|].index == |h.slab.entries| && h'.log[|h.log|].stamp == 0;
  }

  /** Every slot was issued once before it was ever freed. */
  lemma {:induction false} AllFirstIssued(ops: seq<SlabOp>, i: nat)
    requires i < |Run(ops).slab.entries|
    ensures FirstIssued(Run(ops), i)
  {
    var h, op := Run(ops[..|ops| - 1]), ops[|ops| - 1];
    if i < |h.slab.entries| {
      AllFirstIssued(ops[..|ops| - 1], i);
      FirstIssuedStays(h, Apply(h, op), i);
    } else {
      NewSlotIsIssued(h);
    }
  }

  lemma FarSlotAliases()
    ensures MakePid(0, 1) == MakePid(WORD, 1)
  {
    assert BitOr(0, 0) == 0;
    assert BitOr(1, 0) == 1 && BitOr(1, 1) == 1;
  }

  ghost predicate OnlyWrapsReissue(h: SlabHistory) {
    forall a, b :: 0 <= a < b < |h.log| && h.log[a].pid == h.log[b].pid ==> WrapsBetween(h.log[a], h.log[b])
  }

  lemma TwoFirstIssues(h: SlabHistory)
    requires Inv(h) && FirstIssued(h, 0) && FirstIssued(h, WORD)
    ensures !OnlyWrapsReissue(h)
  {
    var a :| 0 <= a < |h.log| && h.log[a].index == 0 && h.log[a].stamp == 0;
    var b :| 0 <= b < |h.log| && h.log[b].index == WORD && h.log[b].stamp == 0;
    assert Recorded(h, h.log[a]) && Recorded(h, h.log[b]);
    FarSlotAliases();
    assert h.log[a].pid == h.log[b].pid;
    assert !WrapsBetween(h.log[a], h.log[b]) && !WrapsBetween(h.log[b], h.log[a]);
  }

  /** A run reissues pids only after a wrap if and only if its slab has at most 2^32 slots:
      the slot after those shares its first pid with slot 0. */
  lemma {:induction false} ReissueNeedsWrapExactly(ops: seq<SlabOp>)
    ensures OnlyWrapsReissue(Run(ops)) <==> |Run(ops).slab.entries| <= WORD
  {
    var h := Run(ops);
    if |h.slab.entries| <= WORD {
      forall a, b | 0 <= a < b < |h.log| && h.log[a].pid == h.log[b].pid ensures WrapsBetween(h.log[a], h.log[b]) {
        ReissueNeedsWrap(h, a, b);
      }
    } else {
      AllFirstIssued(ops, 0);
      AllFirstIssued(ops, WORD);
      TwoFirstIssues(h);
    }
  }

  /** No slot has been freed so often that its generation wrapped. */
  ghost predicate NoWrap(h: SlabHistory) {
    |h.slab.entries| <= WORD && forall i :: 0 <= i < |h.frees| ==> h.frees[i] + 1 < WORD
  }

  lemma SmallResidue(d: nat)
    requires 0 < d < WORD
    ensures d % WORD != 0
  {
  }

  /** Before any wrap, no two allocations return the same pid. */
  lemma FreshBeforeWrap(h: SlabHistory, a: nat, b: nat)
    requires Inv(h) && NoWrap(h) && a < b < |h.log|
    ensures h.log[a].pid != h.log[b].pid
  {
    if h.log[a].pid == h.log[b].pid {
      ReissueNeedsWrap(h, a, b);
      assert Recorded(h, h.log[b]);
      SmallResidue(h.log[b].stamp - h.log[a].stamp);
    }
  }

  /** Before any wrap, no allocation returns 0. */
  lemma NonZeroBeforeWrap(h: SlabHistory, a: nat)
    requires Inv(h) && NoWrap(h) && a < |h.log|
    ensures 0 < h.log[a].pid < WORD * WORD
  {
    var x := h.log[a];
    assert Recorded(h, x);
    assert (1 + x.stamp) % WORD == 1 + x.stamp;
    MakeSmall(x.index, 1 + x.stamp);
  }

  /** A pid is valid exactly when it is the pid of an occupied slot; so the pids of two
      occupied slots differ. */
  lemma ValidIffLive(s: Slab, pid: Pid)
    requires Wf(s) && |s.entries| <= WORD && pid < WORD * WORD
    ensures IsValid(s, pid) <==>
            exists i :: 0 <= i < |s.entries| && s.entries[i].occupied && pid == MakePid(i, s.entries[i].generation)
    ensures forall i, j :: 0 <= i < j < |s.entries| ==>
            MakePid(i, s.entries[i].generation) != MakePid(j, s.entries[j].generation)
  {
    if IsValid(s, pid) {
      MakeSmall(pid % WORD, (pid / WORD) % WORD);
    }
    forall i | 0 <= i < |s.entries|
      ensures SplitPid(MakePid(i, s.entries[i].generation)) == (i, s.entries[i].generation)
    {
      SplitInvertsMake(i, s.entries[i].generation);
    }
  }
}
