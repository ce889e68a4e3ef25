// src/pid.rs: which slot an allocation takes, told from the run alone: the one freed last and
// not taken since, with a generation that counts its frees; a new one only when all are
// occupied. So the slab is as long as the most pids that were ever live at once.
module SlotReuse {
  import opened Pids

  predicate Occupied(s: Slab, i: nat) {
    i < |s.entries| && s.entries[i].occupied
  }

  ghost function SlabAt(ops: seq<SlabOp>, k: nat): Slab
    requires k <= |ops|
  {
    Run(ops[..k]).slab
  }

  /** The slot of the pid that a free names. */
  function SlotOf(op: SlabOp): nat {
    if op.Free? then SplitPid(op.pid).0 else 0
  }

  /** Operation `k` frees its slot: its pid was valid then. */
  ghost predicate FreesAt(ops: seq<SlabOp>, k: nat) {
    k < |ops| && ops[k].Free? && IsValid(SlabAt(ops, k), ops[k].pid)
  }

  /** Operation `k` is an allocation, and slot `i` is occupied by it. */
  ghost predicate TakesAt(ops: seq<SlabOp>, k: nat, i: nat) {
    k < |ops| && ops[k].Alloc? && !Occupied(SlabAt(ops, k), i) && Occupied(SlabAt(ops, k + 1), i)
  }

  /** Operation `k` freed its slot, and no allocation has taken it since. */
  ghost predicate Waiting(ops: seq<SlabOp>, k: nat) {
    FreesAt(ops, k) && forall m :: k < m < |ops| ==> !TakesAt(ops, m, SlotOf(ops[k]))
  }

  /** How often the run has freed slot `i`. */
  ghost function FreeCount(ops: seq<SlabOp>, i: nat): nat {
    if ops == [] then 0
    else
      var n := |ops| - 1;
      FreeCount(ops[..n], i) + (if FreesAt(ops, n) && SlotOf(ops[n]) == i then 1 else 0)
  }

  // A longer run has the same beginning.

  lemma SamePast(ops: seq<SlabOp>, op: SlabOp, k: nat, i: nat)
    requires k < |ops|
    ensures FreesAt(ops + [op], k) <==> FreesAt(ops, k)
    ensures TakesAt(ops + [op], k, i) <==> TakesAt(ops, k, i)
  {
    assert (ops + [op])[..k] == ops[..k] && (ops + [op])[..k + 1] == ops[..k + 1];
  }

  lemma Present(ops: seq<SlabOp>, op: SlabOp)
    ensures SlabAt(ops + [op], |ops|) == Run(ops).slab
    ensures SlabAt(ops + [op], |ops| + 1) == Apply(Run(ops), op).slab
    ensures Run(ops + [op]) == Apply(Run(ops), op)
  {
    assert (ops + [op])[..|ops|] == ops && (ops + [op])[..|ops| + 1] == ops + [op];
  }

  /** Waiting after one more operation. */
  lemma WaitingNext(ops: seq<SlabOp>, op: SlabOp, k: nat)
    requires k < |ops|
    ensures Waiting(ops + [op], k) <==> Waiting(ops, k) && !TakesAt(ops + [op], |ops|, SlotOf(ops[k]))
  {
    var i := SlotOf(ops[k]);
    forall m: nat | m < |ops| ensures TakesAt(ops + [op], m, i) <==> TakesAt(ops, m, i) {
      SamePast(ops, op, m, i);
    }
    SamePast(ops, op, k, i);
  }

  // The free list holds the waiting slots, in the order of their frees.

  predicate Increasing(ts: seq<nat>) {
    forall a, b :: 0 <= a < b < |ts| ==> ts[a] < ts[b]
  }

  /** `ts` are the frees whose slots are waiting; `free` are those slots. */
  ghost predicate Stacked(ops: seq<SlabOp>, free: seq<nat>, ts: seq<nat>) {
    && |ts| == |free| && Increasing(ts)
    && (forall k: nat :: Waiting(ops, k) <==> k in ts)
    && (forall a :: 0 <= a < |ts| ==> ts[a] < |ops| && free[a] == SlotOf(ops[ts[a]]))
  }

  /** The entry that an allocation occupies, and the rest of the free list. */
  lemma AllocShape(s: Slab)
    requires Wf(s)
    ensures var (pid, s') := AllocateF(s);
      if s.free == [] then
        && s'.free == [] && |s'.entries| == |s.entries| + 1 && pid == MakePid(|s.entries|, 1)
        && (forall j: nat :: Occupied(s', j) <==> Occupied(s, j) || j == |s.entries|)
      else
        var i := s.free[|s.free| - 1];
        && s'.free == s.free[..|s.free| - 1] && |s'.entries| == |s.entries| && i < |s.entries|
        && pid == MakePid(i, s.entries[i].generation) && !Occupied(s, i)
        && (forall j: nat :: Occupied(s', j) <==> Occupied(s, j) || j == i)
  {
    if s.free != [] {
      assert s.free[|s.free| - 1] in s.free;
    }
  }

  lemma StackedFree(ops: seq<SlabOp>, op: SlabOp, free: seq<nat>, ts: seq<nat>)
    requires Stacked(ops, free, ts) && op.Free?
    ensures FreesAt(ops + [op], |ops|) ==> Stacked(ops + [op], free + [SlotOf(op)], ts + [|ops|])
    ensures !FreesAt(ops + [op], |ops|) ==> Stacked(ops + [op], free, ts)
  {
    var ops' := ops + [op];
    forall k: nat ensures Waiting(ops', k) <==> k in ts || (k == |ops| && FreesAt(ops', k)) {
      if k < |ops| {
        WaitingNext(ops, op, k);
      }
    }
  }

  /** Nothing waits for the slot that is taken, but the last free. */
  lemma StackedTake(ops: seq<SlabOp>, free: seq<nat>, ts: seq<nat>)
    requires Stacked(ops, free, ts) && free != []
    requires forall a, b :: 0 <= a < b < |free| ==> free[a] != free[b]
    requires forall j: nat :: TakesAt(ops + [Alloc], |ops|, j) <==> j == free[|free| - 1]
    ensures Stacked(ops + [Alloc], free[..|free| - 1], ts[..|ts| - 1])
  {
    var ops', m := ops + [Alloc], |ts| - 1;
    forall k: nat ensures Waiting(ops', k) <==> k in ts[..m] {
      if k < |ops| {
        WaitingNext(ops, Alloc, k);
        if k in ts {
          var a :| 0 <= a < |ts| && ts[a] == k;
          assert a < m ==> ts[..m][a] == k;
        }
      }
    }
  }

  lemma StackedNew(ops: seq<SlabOp>)
    requires Stacked(ops, [], [])
    ensures Stacked(ops + [Alloc], [], [])
  {
    forall k: nat ensures !Waiting(ops + [Alloc], k) {
      if k < |ops| {
        WaitingNext(ops, Alloc, k);
      }
    }
  }

  lemma StackedAlloc(ops: seq<SlabOp>, ts: seq<nat>) returns (ts': seq<nat>)
    requires Stacked(ops, Run(ops).slab.free, ts)
    ensures Stacked(ops + [Alloc], Run(ops + [Alloc]).slab.free, ts')
  {
    var s := Run(ops).slab;
    Present(ops, Alloc);
    AllocShape(s);
    if s.free == [] {
      ts' := [];
      StackedNew(ops);
    } else {
      ts' := ts[..|ts| - 1];
      StackedTake(ops, s.free, ts);
    }
  }

  lemma {:induction false} StackedAlways(ops: seq<SlabOp>) returns (ts: seq<nat>)
    ensures Stacked(ops, Run(ops).slab.free, ts)
  {
    if ops == [] {
      ts := [];
    } else {
      var n := |ops| - 1;
      var front, op := ops[..n], ops[n];
      ts := StackedAlways(front);
      assert ops == front + [op];
      if op.Alloc? {
        ts := StackedAlloc(front, ts);
      } else {
        Present(front, op);
        StackedFree(front, op, Run(front).slab.free, ts);
        ts := if FreesAt(ops, n) then ts + [n] else ts;
      }
    }
  }

  // Generations.

  lemma FreesStep(h: SlabHistory, op: SlabOp, i: nat)
    requires Inv(h)
    ensures var fs, fs' := h.frees, Apply(h, op).frees;
      var freed := op.Free? && IsValid(h.slab, op.pid) && SlotOf(op) == i;
      && |fs| <= |fs'| && (freed ==> i < |fs|)
      && (i < |fs'| ==> fs'[i] == (if i < |fs| then fs[i] else 0) + (if freed then 1 else 0))
  {
  }

  lemma FreeCountSnoc(ops: seq<SlabOp>, op: SlabOp, i: nat)
    ensures FreeCount(ops + [op], i) ==
            FreeCount(ops, i) + (if op.Free? && IsValid(Run(ops).slab, op.pid) && SlotOf(op) == i then 1 else 0)
  {
    Present(ops, op);
    assert (ops + [op])[..|ops|] == ops;
  }

  lemma {:induction false} FreesCounted(ops: seq<SlabOp>, i: nat)
    ensures i < |Run(ops).frees| ==> Run(ops).frees[i] == FreeCount(ops, i)
    ensures i >= |Run(ops).frees| ==> FreeCount(ops, i) == 0
  {
    if ops != [] {
      var n := |ops| - 1;
      var front, op := ops[..n], ops[n];
      FreesCounted(front, i);
      assert ops == front + [op];
      FreeCountSnoc(front, op, i);
      FreesStep(Run(front), op, i);
    }
  }

  // The results.

  /** The last free that waits. */
  ghost predicate LastWaiting(ops: seq<SlabOp>, k: nat) {
    Waiting(ops, k) && forall k': nat :: k' > k ==> !Waiting(ops, k')
  }

  /** The pid that an allocation after the run returns. */
  ghost function NextPid(ops: seq<SlabOp>): Pid {
    var log := Run(ops + [Alloc]).log;
    if log == [] then 0 else log[|log| - 1].pid
  }

  /** An allocation after the run, told from the slab it finds. */
  lemma {:induction false} AllocAfter(ops: seq<SlabOp>, s: Slab)
    requires s == Run(ops).slab
    ensures s.free == [] ==>
      && (forall j: nat :: TakesAt(ops + [Alloc], |ops|, j) <==> j == |s.entries|)
      && NextPid(ops) == MakePid(|s.entries|, 1)
    ensures s.free != [] ==> var i := s.free[|s.free| - 1];
      && (forall j: nat :: TakesAt(ops + [Alloc], |ops|, j) <==> j == i)
      && i < |s.entries| && NextPid(ops) == MakePid(i, s.entries[i].generation)
      && |Run(ops + [Alloc]).slab.entries| == |s.entries|
  {
    Present(ops, Alloc);
    AllocShape(s);
  }

  lemma LastIsTop(ops: seq<SlabOp>, free: seq<nat>, ts: seq<nat>, k: nat)
    requires Stacked(ops, free, ts) && LastWaiting(ops, k)
    ensures free != [] && k < |ops| && free[|free| - 1] == SlotOf(ops[k])
  {
    var a :| 0 <= a < |ts| && ts[a] == k;
    assert ts[|ts| - 1] in ts;
    assert Waiting(ops, ts[|ts| - 1]);
  }

  lemma GenerationCounts(h: SlabHistory, i: nat, c: nat)
    requires Inv(h) && i < |h.slab.entries| && (i < |h.frees| ==> h.frees[i] == c)
    ensures MakePid(i, h.slab.entries[i].generation) == MakePid(i, (1 + c) % WORD)
  {
  }

  /** An allocation after any run takes the slot whose free is the latest that no allocation has
      answered, and no other, with the generation 1 + the number of its frees. */
  lemma {:induction false} TakesLastFreed(ops: seq<SlabOp>, k: nat)
    requires LastWaiting(ops, k)
    ensures var i := SlotOf(ops[k]);
      && (forall j: nat :: TakesAt(ops + [Alloc], |ops|, j) <==> j == i)
      && NextPid(ops) == MakePid(i, (1 + FreeCount(ops, i)) % WORD)
      && |Run(ops + [Alloc]).slab.entries| == |Run(ops).slab.entries|
  {
    var h := Run(ops);
    var ts := StackedAlways(ops);
    LastIsTop(ops, h.slab.free, ts, k);
    AllocAfter(ops, h.slab);
    FreesCounted(ops, SlotOf(ops[k]));
    GenerationCounts(h, SlotOf(ops[k]), FreeCount(ops, SlotOf(ops[k])));
  }

  lemma TopWaits(ops: seq<SlabOp>, s: Slab, ts: seq<nat>)
    requires Wf(s) && Stacked(ops, s.free, ts)
    ensures s.free == [] <==> forall k: nat :: !Waiting(ops, k)
    ensures s.free == [] <==> forall i: nat :: i < |s.entries| ==> Occupied(s, i)
    ensures forall i <- s.free :: i < |s.entries|
  {
    if s.free != [] {
      assert s.free[0] in s.free && ts[0] in ts && Waiting(ops, ts[0]);
      assert s.free[0] < |s.entries| && !Occupied(s, s.free[0]);
    } else {
      assert forall i: nat :: i !in s.free;
    }
  }

  /** It takes a new slot, the next one, in generation 1, if and only if every slot is occupied,
      which is if and only if no free waits. */
  lemma {:induction false} TakesNewExactly(ops: seq<SlabOp>)
    ensures var n := |Run(ops).slab.entries|;
      && (TakesAt(ops + [Alloc], |ops|, n) <==> forall i: nat :: i < n ==> Occupied(Run(ops).slab, i))
      && (TakesAt(ops + [Alloc], |ops|, n) <==> forall k: nat :: !Waiting(ops, k))
      && (TakesAt(ops + [Alloc], |ops|, n) ==> NextPid(ops) == MakePid(n, 1))
  {
    var s := Run(ops).slab;
    var ts := StackedAlways(ops);
    TopWaits(ops, s, ts);
    AllocAfter(ops, s);
    if s.free != [] {
      assert s.free[|s.free| - 1] in s.free;
    }
  }

  // How long the slab gets.

  function Live(es: seq<Entry>): nat {
    if es == [] then 0 else Live(es[..|es| - 1]) + (if es[|es| - 1].occupied then 1 else 0)
  }

  /** The most slots occupied at once during the run. */
  ghost function MostLive(ops: seq<SlabOp>): nat {
    var now := Live(Run(ops).slab.entries);
    if ops == [] then now
    else
      var before := MostLive(ops[..|ops| - 1]);
      if now > before then now else before
  }

  lemma {:induction false} LiveAtMost(es: seq<Entry>)
    ensures Live(es) <= |es|
    ensures (forall i :: 0 <= i < |es| ==> es[i].occupied) ==> Live(es) == |es|
  {
    if es != [] {
      LiveAtMost(es[..|es| - 1]);
    }
  }

  /** One operation makes the slab longer only if all slots are occupied before and after. */
  lemma {:induction false} GrowsWhenFull(h: SlabHistory, op: SlabOp)
    requires Inv(h)
    ensures var es, es' := h.slab.entries, Apply(h, op).slab.entries;
      |es'| == |es| || (|es'| == |es| + 1 && Live(es') == |es'|)
  {
    var s, s' := h.slab, Apply(h, op).slab;
    if op.Alloc? && s.free == [] {
      assert forall i: nat :: i < |s.entries| ==> i !in s.free && s.entries[i].occupied;
      LiveAtMost(s'.entries);
    } else if op.Alloc? {
      AllocShape(s);
    }
  }

  /** The slab is exactly as long as the most pids that were live at once. */
  lemma {:induction false} AsLongAsMostLive(ops: seq<SlabOp>)
    ensures |Run(ops).slab.entries| == MostLive(ops)
  {
    LiveAtMost(Run(ops).slab.entries);
    if ops != [] {
      var n := |ops| - 1;
      AsLongAsMostLive(ops[..n]);
      GrowsWhenFull(Run(ops[..n]), ops[n]);
    }
  }
}
