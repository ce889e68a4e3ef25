// What unwatch and remove_child stop: after a pid is taken off the children, a replacement
// for it can still be inserted exactly when an operation in flight has its spec.
module Removals {
  import opened Pids
  import opened SupervisorSteps
  import RT = RestartTermination

  /** `op` has the spec of `p` and may still call its factory or insert what it returned. */
  predicate Captures(op: Op, p: Pid) {
    match op
    case NotifyCollect(_, _, all) => p in Members(all)
    case NotifyMarkAll(marked, unmarked) => p in Members(marked) || p in Members(unmarked)
    case NotifySpawn(group) => p in Members(group)
    case TaskCall(o, _, _, _) => o == p
    case TaskFail(o, _, k, _, _) => o == p && k < MAX_ATTEMPTS
    case TaskSleep(o, _, _, _) => o == p
    case TaskInsert(o, _, _) => o == p
    case _ => false
  }

  /** `op` is about to make `p` itself a child. */
  predicate Brings(op: Op, p: Pid) {
    (op.AddChild? && op.pid == p) || (op.TaskInsert? && op.orig != p && op.newPid == p)
  }

  /** A client adds `p`, or the factory of another pid returns it. */
  predicate Recalls(w: World, l: Label, p: Pid) {
    match l
    case Call(op) => op.AddChild? && op.pid == p
    case Run(i, c) => i < |w.ops| && w.ops[i].TaskCall? && w.ops[i].orig != p && c == Returned(Ok(p))
  }

  ghost predicate NeverRecalled(w: World, run: seq<Label>, p: Pid) {
    forall k :: 0 <= k < |run| ==> !Recalls(Exec(w, run[..k]), run[k], p)
  }

  /** The step inserts a replacement for `p`. */
  predicate Inserts(w: World, l: Label, p: Pid) {
    l.Run? && Ready(w, l) && w.ops[l.i].TaskInsert? && w.ops[l.i].orig == p
  }

  ghost predicate Reinserted(w: World, run: seq<Label>, p: Pid) {
    exists k :: 0 <= k < |run| && Inserts(Exec(w, run[..k]), run[k], p)
  }

  ghost predicate Captured(w: World, p: Pid) {
    exists i :: 0 <= i < |w.ops| && Captures(w.ops[i], p)
  }

  ghost predicate Gone(w: World, p: Pid) {
    p !in w.sup.children && forall i :: 0 <= i < |w.ops| ==> !Brings(w.ops[i], p)
  }

  // Nobody has the spec: nobody gets it.

  lemma OpStaysClear(s: Sup, op: Op, c: Choice, p: Pid)
    requires Enabled(s, op, c) && p !in s.children && !Captures(op, p) && !Brings(op, p)
    requires op.TaskCall? && op.orig != p ==> c != Returned(Ok(p))
    ensures var r := Next(s, op, c);
      && p !in r.sup.children && !Captures(r.op, p) && !Brings(r.op, p)
      && forall o <- r.spawned :: !Captures(o, p) && !Brings(o, p)
  {
    if op.NotifySpawn? && op.group != [] {
      assert op.group == [op.group[0]] + op.group[1..];
    }
    if op.NotifyMarkAll? && op.unmarked != [] {
      assert op.unmarked == [op.unmarked[0]] + op.unmarked[1..];
    }
  }

  lemma StaysClear(w: World, l: Label, p: Pid)
    requires Gone(w, p) && !Captured(w, p) && !Recalls(w, l, p)
    ensures Gone(Step(w, l), p) && !Captured(Step(w, l), p)
  {
    if l.Run? && Ready(w, l) {
      OpStaysClear(w.sup, w.ops[l.i], l.c, p);
    }
  }

  lemma {:induction false} ClearForever(w: World, run: seq<Label>, p: Pid)
    requires Gone(w, p) && !Captured(w, p) && NeverRecalled(w, run, p)
    ensures Gone(Exec(w, run), p) && !Captured(Exec(w, run), p)
  {
    if run != [] {
      var k := |run| - 1;
      NeverRecalledPrefix(w, run, p, k);
      ClearForever(w, run[..k], p);
      StaysClear(Exec(w, run[..k]), run[k], p);
    }
  }

  lemma NeverRecalledPrefix(w: World, run: seq<Label>, p: Pid, k: nat)
    requires NeverRecalled(w, run, p) && k <= |run|
    ensures NeverRecalled(w, run[..k], p)
  {
    forall j | 0 <= j < k ensures !Recalls(Exec(w, run[..k][..j]), run[..k][j], p) {
      assert run[..k][..j] == run[..j];
    }
  }

  lemma NothingComes(w: World, run: seq<Label>, p: Pid)
    requires Gone(w, p) && !Captured(w, p) && NeverRecalled(w, run, p)
    ensures !Reinserted(w, run, p)
  {
    forall k | 0 <= k < |run| ensures !Inserts(Exec(w, run[..k]), run[k], p) {
      NeverRecalledPrefix(w, run, p, k);
      ClearForever(w, run[..k], p);
      NotCapturedAt(Exec(w, run[..k]), run[k], p);
    }
  }

  lemma NotCapturedAt(w: World, l: Label, p: Pid)
    requires !Captured(w, p)
    ensures !Inserts(w, l, p)
  {
    if l.Run? && l.i < |w.ops| {
      assert !Captures(w.ops[l.i], p);
    }
  }

  // Somebody has it: the replacement can come.

  /** A step after which somebody still has the spec, unless it inserts. */
  lemma CaptureGoesOn(s: Sup, op: Op, p: Pid) returns (c: Choice)
    requires Captures(op, p) && !op.TaskInsert?
    ensures Enabled(s, op, c) && (op.TaskCall? ==> op.orig == p)
    ensures var r := Next(s, op, c); Captures(r.op, p) || (|r.spawned| == 1 && Captures(r.spawned[0], p))
  {
    c := Go;
    match op
    case NotifyCollect(_, todo, all) =>
      if todo != {} {
        var q :| q in todo;
        c := Visit(q);
      }
    case NotifyMarkAll(marked, unmarked) =>
      assert unmarked != [] ==> unmarked == [unmarked[0]] + unmarked[1..];
    case NotifySpawn(group) =>
      assert group != [] ==> group == [group[0]] + group[1..];
    case TaskCall(_, spec, _, _) =>
      c := Returned(Ok(if spec.factory.Constant? then spec.factory.same else p + 1));
    case _ =>
  }

  lemma SnocNeverRecalled(w: World, run: seq<Label>, l: Label, p: Pid)
    requires NeverRecalled(w, run, p) && !Recalls(Exec(w, run), l, p)
    ensures NeverRecalled(w, run + [l], p)
  {
    forall k | 0 <= k < |run + [l]| ensures !Recalls(Exec(w, (run + [l])[..k]), (run + [l])[k], p) {
      assert k < |run| ==> (run + [l])[..k] == run[..k] && (run + [l])[k] == run[k];
      assert k == |run| ==> (run + [l])[..k] == run;
    }
  }

  lemma CapturedStep(w: World, i: nat, p: Pid) returns (c: Choice)
    requires i < |w.ops| && Captures(w.ops[i], p) && !w.ops[i].TaskInsert?
    ensures Ready(w, Run(i, c)) && !Recalls(w, Run(i, c), p) && Captured(Step(w, Run(i, c)), p)
  {
    c := CaptureGoesOn(w.sup, w.ops[i], p);
    var r, w' := Next(w.sup, w.ops[i], c), Step(w, Run(i, c));
    assert Captures(r.op, p) ==> Captures(w'.ops[i], p);
    assert |r.spawned| == 1 && Captures(r.spawned[0], p) ==> Captures(w'.ops[|w.ops|], p);
  }

  lemma LastInserts(w: World, run: seq<Label>, i: nat, p: Pid)
    requires i < |Exec(w, run).ops| && Exec(w, run).ops[i].TaskInsert? && Exec(w, run).ops[i].orig == p
    ensures Reinserted(w, run + [Run(i, Go)], p) && !Recalls(Exec(w, run), Run(i, Go), p)
  {
    var r := run + [Run(i, Go)];
    assert r[..|run|] == run && r[|run|] == Run(i, Go);
    assert Inserts(Exec(w, r[..|run|]), r[|run|], p);
  }

  lemma {:induction false} CaptureInserts(w0: World, run0: seq<Label>, w: World, p: Pid) returns (run: seq<Label>)
    requires w == Exec(w0, run0) && NeverRecalled(w0, run0, p) && Captured(w, p)
    ensures NeverRecalled(w0, run, p) && Reinserted(w0, run, p)
    decreases RT.SumUndecided(w.ops), RT.SumWeight(w.ops), RT.SumLeft(w.ops, w.sup.children)
  {
    var i :| 0 <= i < |w.ops| && Captures(w.ops[i], p);
    if w.ops[i].TaskInsert? {
      run := run0 + [Run(i, Go)];
      LastInserts(w0, run0, i, p);
      SnocNeverRecalled(w0, run0, Run(i, Go), p);
    } else {
      var c := CapturedStep(w, i, p);
      RT.StepDecreases(w, i, c);
      ExecSnoc(w0, run0, Run(i, c));
      SnocNeverRecalled(w0, run0, Run(i, c), p);
      run := CaptureInserts(w0, run0 + [Run(i, c)], Step(w, Run(i, c)), p);
    }
  }

  /** While `p` is no child and nobody is about to make it one, some continuation in which it
      is neither added nor returned by another pid's factory inserts a replacement for it
      if and only if an operation in flight has its spec. */
  lemma RestartComesExactly(w: World, p: Pid)
    requires Gone(w, p)
    ensures (exists run :: NeverRecalled(w, run, p) && Reinserted(w, run, p)) <==> Captured(w, p)
  {
    if Captured(w, p) {
      var run := CaptureInserts(w, [], w, p);
    } else {
      forall run | NeverRecalled(w, run, p) ensures !Reinserted(w, run, p) {
        NothingComes(w, run, p);
      }
    }
  }

  /** unwatch and remove_child, at the access that takes `p` off the children, stop every
      restart of it if and only if no operation in flight has its spec by then. */
  lemma UnwatchStopsExactly(w: World, i: nat, p: Pid, andLinks: bool)
    requires i < |w.ops| && w.ops[i] == Forget(p, andLinks)
    requires forall j :: 0 <= j < |w.ops| ==> !Brings(w.ops[j], p)
    ensures var w' := Step(w, Run(i, Go));
      (forall run :: NeverRecalled(w', run, p) ==> !Reinserted(w', run, p)) <==> !Captured(w, p)
  {
    var w' := Step(w, Run(i, Go));
    assert w'.ops == w.ops[i := ForgetMark(p, andLinks)];
    assert Captured(w, p) <==> Captured(w', p) by {
      if Captured(w, p) {
        var j :| 0 <= j < |w.ops| && Captures(w.ops[j], p);
        assert Captures(w'.ops[j], p);
      }
      if Captured(w', p) {
        var j :| 0 <= j < |w'.ops| && Captures(w'.ops[j], p);
        assert Captures(w.ops[j], p);
      }
    }
    RestartComesExactly(w', p);
  }
}
