// What becomes of each pid, in the runs of RestartLineage: a pid that leaves the children
// was replaced once after fewer than three failed factory calls, or given up after
// exactly three, or removed by a client without any call.
module RestartOutcomes {
  import Pids
  import opened SupervisorSteps
  import opened RL = RestartLineage

  type Pid = Pids.Pid

  /** `e` is a failed factory call for `p`. */
  predicate FailsCall(h: History, e: Event, p: Pid) {
    Allowed(h, e) && e.Micro? && h.w.ops[e.i].TaskCall? && h.w.ops[e.i].orig == p && e.c.r.Err?
  }

  function Failed(es: seq<Event>, p: Pid): nat {
    if es == [] then 0
    else
      var k := |es| - 1;
      Failed(es[..k], p) + (if FailsCall(ApplyAll(START, es[..k]), es[k], p) then 1 else 0)
  }

  /** `op` is restarting the child `p`: `n` calls have failed, `rep` says if one succeeded. */
  predicate OpTally(op: Op, p: Pid, n: nat, rep: bool) {
    match op
    case NotifySpawn(g) => p in Members(g) ==> n == 0 && !rep
    case TaskCall(o, _, k, _) => o == p ==> n == k < 3 && !rep
    case TaskFail(o, _, k, _, _) => o == p ==> n == k <= 3 && !rep
    case TaskSleep(o, _, k, _) => o == p ==> n == k < 3 && !rep
    case TaskInsert(o, _, _) => o == p ==> n < 3 && rep
    case TaskRemove(o, swapped) => o == p ==> if swapped then n < 3 && rep else n == 3 && !rep
    case _ => true
  }

  predicate Working(op: Op, p: Pid) {
    Holds(op, p) && !(op.NotifyLookup? || op.NotifyUnmark? || op.TaskUnlink? || op.TaskClean? || op.TaskUnmark?)
  }

  ghost predicate Busy(w: World, p: Pid) {
    exists i :: 0 <= i < |w.ops| && Working(w.ops[i], p)
  }

  ghost predicate OpsTally(h: History, p: Pid, n: nat) {
    forall i :: 0 <= i < |h.w.ops| ==> OpTally(h.w.ops[i], p, n, p in h.replaced)
  }

  ghost predicate Untouched(h: History, p: Pid, n: nat) {
    !Busy(h.w, p) && (p in h.w.sup.children || p !in h.born) ==> n == 0 && p !in h.replaced
  }

  /** The fate of a pid that is no child any more. */
  ghost predicate Settled(h: History, p: Pid, n: nat) {
    p in h.born && p !in h.w.sup.children ==>
      || (n < 3 && p in h.replaced)
      || (n == 3 && p !in h.replaced && p in h.root && h.root[p] in h.dropped)
      || (n == 0 && p !in h.replaced && p in h.root && h.root[p] in h.removed)
  }

  ghost predicate Tally(h: History, p: Pid, n: nat) {
    OpsTally(h, p, n) && Untouched(h, p, n) && Settled(h, p, n)
  }

  // One step.

  lemma WorkingElsewhere(w: World, i: nat, p: Pid)
    requires OneHolder(w) && i < |w.ops| && Holds(w.ops[i], p)
    ensures forall j :: 0 <= j < |w.ops| && j != i ==> !Holds(w.ops[j], p)
    ensures !Working(w.ops[i], p) ==> !Busy(w, p)
  {
  }

  lemma NobodyWorks(op: Op, p: Pid, n: nat, rep: bool)
    requires Kind(op) && !Holds(op, p)
    ensures OpTally(op, p, n, rep)
  {
  }

  lemma AppendTally(h: History, h': History, op: Op, p: Pid, n: nat)
    requires Tally(h, p, n) && h'.w.ops == h.w.ops + [op] && h'.replaced == h.replaced
    requires !Working(op, p) && OpTally(op, p, n, p in h.replaced)
    requires h'.w.sup.children == h.w.sup.children && h'.born == h.born && h'.root == h.root
    requires h'.dropped == h.dropped && h'.removed == h.removed
    ensures Tally(h', p, n)
  {
    if Busy(h.w, p) {
      var j :| 0 <= j < |h.w.ops| && Working(h.w.ops[j], p);
      assert Working(h'.w.ops[j], p);
    }
  }

  lemma AddTally(h: History, q: Pid, spec: ChildSpec, p: Pid, n: nat)
    requires Inv(h) && Tally(h, p, n) && Allowed(h, Add(q, spec))
    ensures Tally(Apply(h, Add(q, spec)), p, n)
  {
    var h' := Apply(h, Add(q, spec));
    assert h'.w.ops == h.w.ops + [Done];
    if Busy(h.w, p) {
      var j :| 0 <= j < |h.w.ops| && Working(h.w.ops[j], p);
      assert Working(h'.w.ops[j], p);
    }
    assert p == q ==> p !in h.born;
  }

  lemma WaveFindsIdle(w: World, i: nat, p: Pid)
    requires Marks(w) && i < |w.ops| && w.ops[i].NotifyLookup?
    requires w.sup.children.Keys * w.sup.restarting == {w.ops[i].pid} && p in w.sup.children
    ensures !Busy(w, p)
  {
    if p == w.ops[i].pid {
      WorkingElsewhere(w, i, p);
    } else {
      assert p !in w.sup.restarting by {
        assert p !in w.sup.children.Keys * w.sup.restarting;
      }
    }
  }

  /** Idle children get a task each; nobody else is concerned. */
  lemma GroupTally(h: History, h': History, i: nat, all: Group, p: Pid, n: nat)
    requires Tally(h, p, n) && h' == h.(w := h'.w) && h'.w.sup.children == h.w.sup.children
    requires i < |h.w.ops| && h.w.ops[i].NotifyLookup? && h'.w.ops == h.w.ops[i := NotifySpawn(all)]
    requires Members(all) == h.w.sup.children.Keys && (p in Members(all) ==> !Busy(h.w, p))
    ensures Tally(h', p, n)
  {
    if p in Members(all) {
      assert Working(h'.w.ops[i], p);
    } else if Busy(h.w, p) {
      var j :| 0 <= j < |h.w.ops| && Working(h.w.ops[j], p);
      assert Working(h'.w.ops[j], p);
    }
  }

  lemma WaveTally(h: History, i: nat, all: Group, p: Pid, n: nat)
    requires Marks(h.w) && Tally(h, p, n) && Allowed(h, Wave(i, all))
    ensures Tally(Apply(h, Wave(i, all)), p, n)
  {
    if p in h.w.sup.children {
      WaveFindsIdle(h.w, i, p);
    }
    GroupTally(h, Apply(h, Wave(i, all)), i, all, p, n);
  }

  /** One step of the operation that restarts `p`. */
  lemma WorkStep(s: Sup, op: Op, c: Choice, p: Pid, n: nat, rep: bool)
    requires Enabled(s, op, c) && Kind(op) && Working(op, p) && OpTally(op, p, n, rep)
    ensures var r := Next(s, op, c);
      var n' := if op.TaskCall? && c.r.Err? then n + 1 else n;
      var rep' := rep || (op.TaskCall? && c.r.Ok?);
      && OpTally(r.op, p, n', rep') && (forall o <- r.spawned :: OpTally(o, p, n', rep'))
      && (!op.TaskRemove? ==> Working(r.op, p) || (|r.spawned| == 1 && Working(r.spawned[0], p)))
  {
    if op.NotifySpawn? && op.group != [] {
      assert op.group == [op.group[0]] + op.group[1..];
    }
  }

  /** A step of anything else. */
  lemma IdleStep(s: Sup, op: Op, c: Choice, p: Pid, n: nat, rep: bool)
    requires Enabled(s, op, c) && Kind(op) && !FoundRestartAll(s, op) && !Working(op, p)
    requires op.NotifyLookup? && op.pid == p && p in s.children ==> n == 0 && !rep
    ensures var r := Next(s, op, c);
      OpTally(r.op, p, n, rep) && (forall o <- r.spawned :: OpTally(o, p, n, rep))
  {
    if op.NotifySpawn? && op.group != [] {
      assert op.group == [op.group[0]] + op.group[1..];
    }
  }

  /** What a step does to `p` in the books. */
  ghost predicate Books(h: History, h': History, op: Op, c: Choice, p: Pid) {
    && (p in h'.replaced <==> p in h.replaced || (op.TaskCall? && c.Returned? && c.r.Ok? && op.orig == p))
    && h.born <= h'.born && h.dropped <= h'.dropped && h.removed <= h'.removed
    && (p in h.root ==> p in h'.root && h'.root[p] == h.root[p])
    && (p in h.w.sup.children && p !in h'.w.sup.children ==>
          || (op.TaskRemove? && op.orig == p && (!op.swapped && p in h.root ==> h.root[p] in h'.dropped))
          || (op.Forget? && op.pid == p && (p in h.root ==> h.root[p] in h'.removed)))
    && (p in h'.born && p !in h.born ==> p in h'.w.sup.children)
    && (p in h'.w.sup.children && p !in h.w.sup.children ==> p !in h.born)
  }

  lemma NoteBooks(h: History, h': History, op: Op, c: Choice, p: Pid)
    requires Enabled(h.w.sup, op, c) && Kind(op) && Local(h, op) && h.root.Keys <= h.used
    requires op.TaskCall? && c.r.Ok? ==> c.r.pid !in h.used
    requires h'.w.sup == Next(h.w.sup, op, c).sup && h' == Note(h, op, c).(w := h'.w)
    ensures Books(h, h', op, c, p)
  {
  }

  lemma BooksStep(h: History, i: nat, c: Choice, p: Pid)
    requires Inv(h) && Allowed(h, Micro(i, c))
    ensures Books(h, Apply(h, Micro(i, c)), h.w.ops[i], c, p)
  {
    assert Local(h, h.w.ops[i]) && Kind(h.w.ops[i]);
    NoteBooks(h, Apply(h, Micro(i, c)), h.w.ops[i], c, p);
  }

  /** The operation that moved, and what it spawned. */
  lemma MoverTally(h: History, op: Op, i: nat, c: Choice, p: Pid, n: nat, n': nat, rep': bool)
    requires Marks(h.w) && Tally(h, p, n) && i < |h.w.ops| && op == h.w.ops[i]
    requires Enabled(h.w.sup, op, c) && !FoundRestartAll(h.w.sup, op)
    requires n' == if op.TaskCall? && op.orig == p && c.r.Err? then n + 1 else n
    requires rep' == (p in h.replaced || (op.TaskCall? && op.orig == p && c.r.Ok?))
    ensures var r := Next(h.w.sup, op, c);
      OpTally(r.op, p, n', rep') && (forall o <- r.spawned :: OpTally(o, p, n', rep'))
  {
    assert Kind(op);
    if Working(op, p) {
      WorkStep(h.w.sup, op, c, p, n, p in h.replaced);
    } else {
      if Holds(op, p) {
        WorkingElsewhere(h.w, i, p);
      }
      IdleStep(h.w.sup, op, c, p, n, p in h.replaced);
    }
  }

  /** The others: what concerns `p` concerns its holder alone. */
  lemma OthersTally(h: History, i: nat, j: nat, p: Pid, n: nat, n': nat, rep': bool)
    requires Marks(h.w) && OpsTally(h, p, n) && i < |h.w.ops| && j < |h.w.ops| && i != j
    requires Holds(h.w.ops[i], p) || (n' == n && rep' == (p in h.replaced))
    ensures OpTally(h.w.ops[j], p, n', rep')
  {
    if Holds(h.w.ops[i], p) {
      WorkingElsewhere(h.w, i, p);
      NobodyWorks(h.w.ops[j], p, n', rep');
    }
  }

  lemma AllTally(ops': seq<Op>, ops: seq<Op>, i: nat, op: Op, spawned: seq<Op>, p: Pid, n: nat, rep: bool)
    requires Updates(ops', ops, i, op, spawned)
    requires OpTally(op, p, n, rep) && forall o <- spawned :: OpTally(o, p, n, rep)
    requires forall j :: 0 <= j < |ops| && j != i ==> OpTally(ops[j], p, n, rep)
    ensures forall j :: 0 <= j < |ops'| ==> OpTally(ops'[j], p, n, rep)
  {
  }

  lemma MicroOps(h: History, w': World, i: nat, c: Choice, p: Pid, n: nat, n': nat, rep': bool)
    requires Marks(h.w) && Tally(h, p, n) && Ready(h.w, Run(i, c)) && !FoundRestartAll(h.w.sup, h.w.ops[i])
    requires var op := h.w.ops[i];
      && n' == (if op.TaskCall? && op.orig == p && c.r.Err? then n + 1 else n)
      && rep' == (p in h.replaced || (op.TaskCall? && op.orig == p && c.r.Ok?))
    requires w' == Step(h.w, Run(i, c))
    ensures forall j :: 0 <= j < |w'.ops| ==> OpTally(w'.ops[j], p, n', rep')
  {
    var op := h.w.ops[i];
    var r := Next(h.w.sup, op, c);
    MoverTally(h, op, i, c, p, n, n', rep');
    forall j | 0 <= j < |h.w.ops| && j != i
      ensures OpTally(h.w.ops[j], p, n', rep')
    {
      OthersTally(h, i, j, p, n, n', rep');
    }
    StepUpdates(h.w, i, c);
    AllTally(w'.ops, h.w.ops, i, r.op, r.spawned, p, n', rep');
  }

  lemma StaysBusy(h: History, i: nat, c: Choice, p: Pid, n: nat)
    requires Kinds(h.w) && OpsTally(h, p, n) && Busy(h.w, p) && Ready(h.w, Run(i, c))
    ensures Busy(Step(h.w, Run(i, c)), p) || (h.w.ops[i].TaskRemove? && h.w.ops[i].orig == p)
  {
    var w', op := Step(h.w, Run(i, c)), h.w.ops[i];
    var r := Next(h.w.sup, op, c);
    StepUpdates(h.w, i, c);
    var j :| 0 <= j < |h.w.ops| && Working(h.w.ops[j], p);
    if j == i {
      WorkStep(h.w.sup, op, c, p, n, p in h.replaced);
      if !op.TaskRemove? {
        assert Working(w'.ops[i], p) || (|r.spawned| == 1 && Working(w'.ops[|h.w.ops|], p));
      }
    } else {
      assert Working(w'.ops[j], p);
    }
  }

  lemma MicroTally(h: History, i: nat, c: Choice, p: Pid, n: nat)
    requires Inv(h) && Tally(h, p, n) && Allowed(h, Micro(i, c))
    ensures Tally(Apply(h, Micro(i, c)), p, if FailsCall(h, Micro(i, c), p) then n + 1 else n)
  {
    var h', op := Apply(h, Micro(i, c)), h.w.ops[i];
    var n' := if FailsCall(h, Micro(i, c), p) then n + 1 else n;
    BooksStep(h, i, c, p);
    MicroOps(h, h'.w, i, c, p, n, n', p in h'.replaced);
    assert Local(h, op) && OpTally(op, p, n, p in h.replaced);
    assert op.Forget? && op.pid == p ==> !Busy(h.w, p);
    assert n' != n || (p in h'.replaced && p !in h.replaced) ==>
      op.TaskCall? && Working(op, p) && p in h.w.sup.children;
    assert Untouched(h', p, n') by {
      if Busy(h.w, p) {
        StaysBusy(h, i, c, p, n);
      }
    }
  }

  lemma TallyStep(h: History, e: Event, p: Pid, n: nat)
    requires Inv(h) && Tally(h, p, n)
    ensures Tally(Apply(h, e), p, if FailsCall(h, e, p) then n + 1 else n)
  {
    if Allowed(h, e) {
      match e
      case Report(q) => AppendTally(h, Apply(h, e), NotifyMark(q), p, n);
      case ClientCall(op) => AppendTally(h, Apply(h, e), op, p, n);
      case Add(q, spec) => AddTally(h, q, spec, p, n);
      case Micro(i, c) => MicroTally(h, i, c, p, n);
      case Wave(i, all) => WaveTally(h, i, all, p, n);
    }
  }

  lemma FailedStep(es: seq<Event>, k: nat, p: Pid)
    requires |es| == k + 1
    ensures var n := Failed(es[..k], p);
      Failed(es, p) == if FailsCall(ApplyAll(START, es[..k]), es[k], p) then n + 1 else n
  {
  }

  lemma TallyStart(p: Pid)
    ensures Tally(START, p, 0)
  {
  }

  lemma {:induction false} TallyAlways(es: seq<Event>, p: Pid)
    ensures Tally(ApplyAll(START, es), p, Failed(es, p))
  {
    if es == [] {
      TallyStart(p);
    } else {
      var k := |es| - 1;
      var h := ApplyAll(START, es[..k]);
      TallyAlways(es[..k], p);
      FailedStep(es, k, p);
      assert Inv(h) by {
        InvAlways(es[..k]);
      }
      TallyStep(h, es[k], p, Failed(es[..k], p));
    }
  }

  /** A pid that was a child and is one no more was replaced, after fewer than three failed
      calls of its factory, or never replaced: then its lineage was dropped after exactly
      three, or removed before any. One that is still a child at quiescence has seen no call. */
  lemma {:induction false} FateOfFormerChildren(es: seq<Event>, p: Pid)
    requires p in ApplyAll(START, es).born
    ensures var h := ApplyAll(START, es); var n := Failed(es, p);
      && (p !in h.w.sup.children && p in h.replaced ==> n < 3)
      && (p !in h.w.sup.children && p !in h.replaced ==>
            p in h.root && ((n == 3 && h.root[p] in h.dropped) || (n == 0 && h.root[p] in h.removed)))
      && (p in h.w.sup.children && Quiescent(h.w) ==> n == 0 && p !in h.replaced)
  {
    TallyAlways(es, p);
    var h := ApplyAll(START, es);
    assert Quiescent(h.w) ==> !Busy(h.w, p);
  }

  lemma KeepsRoot(h: History, e: Event, p: Pid)
    requires h.root.Keys <= h.used && p in h.root
    ensures p in Apply(h, e).root && Apply(h, e).root[p] == h.root[p]
  {
    assert p in h.used;
  }

  lemma DropStep(h: History, e: Event, r: Pid)
    requires Inv(h) && r !in h.dropped && r in Apply(h, e).dropped
    ensures e.Micro? && Allowed(h, e) && h.w.ops[e.i].TaskRemove? && !h.w.ops[e.i].swapped
    ensures var p, h' := h.w.ops[e.i].orig, Apply(h, e);
      p in h'.root && h'.root[p] == r && p in h'.born && p !in h'.w.sup.children
  {
    assert Local(h, h.w.ops[e.i]);
  }

  /** A lineage is dropped only after three failed calls for one of its pids. */
  lemma {:induction false} DroppedAfterThree(es: seq<Event>, r: Pid) returns (p: Pid)
    requires r in ApplyAll(START, es).dropped
    ensures var h := ApplyAll(START, es);
      Failed(es, p) == 3 && p !in h.replaced && p in h.root && h.root[p] == r && p in h.born && p !in h.w.sup.children
  {
    var k := |es| - 1;
    var h, e := ApplyAll(START, es[..k]), es[k];
    InvAlways(es[..k]);
    if r in h.dropped {
      p := DroppedAfterThree(es[..k], r);
      KeepsRoot(h, e, p);
      NoRebirth(h, e, p);
    } else {
      DropStep(h, e, r);
      p := h.w.ops[e.i].orig;
      TallyAlways(es[..k], p);
      assert OpTally(h.w.ops[e.i], p, Failed(es[..k], p), p in h.replaced);
    }
    TallyAlways(es, p);
  }
}
