// No pid is ever stuck in `restarting`: whatever the interleaving, each marked pid is
// owned by an operation in flight that will still unmark it. Factories here return; what
// a factory that panics leaves behind is in FactoryPanics.
module MarkOwnership {
  import opened Pids
  import opened SupervisorSteps

  /** `op` will unmark `p`, itself or through a task it will spawn. A RestartAll
      notification that has not yet collected `p` owns it only while `p` is a child. */
  predicate Owns(op: Op, p: Pid, children: map<Pid, ChildSpec>) {
    match op
    case NotifyLookup(q) => p == q
    case NotifyUnmark(q) => p == q
    case NotifyIterate(q) => p == q && p in children
    case NotifyCollect(q, todo, all) => p == q && (p in Members(all) || (p in todo && p in children))
    case NotifyMarkAll(marked, unmarked) => p in Members(marked) || p in Members(unmarked)
    case NotifySpawn(group) => p in Members(group)
    case ForgetMark(q, _) => p == q
    case _ => IsTask(op) && p == op.orig
  }

  predicate IsTask(op: Op) {
    op.TaskCall? || op.TaskFail? || op.TaskSleep? || op.TaskInsert? ||
    op.TaskRemove? || op.TaskUnlink? || op.TaskClean? || op.TaskUnmark?
  }

  ghost predicate Owned(w: World, p: Pid) {
    exists i :: 0 <= i < |w.ops| && Owns(w.ops[i], p, w.sup.children)
  }

  ghost predicate MarksOwned(w: World) {
    forall p <- w.sup.restarting :: Owned(w, p)
  }

  /** One step of one operation: a new mark is owned by the marker; an owner hands its
      mark on or removes it; whoever removes a child owns its mark. */
  lemma OwnershipStep(s: Sup, op: Op, c: Choice, p: Pid)
    requires Enabled(s, op, c)
    ensures var r := Next(s, op, c);
      && (p in r.sup.restarting && p !in s.restarting ==> Owns(r.op, p, r.sup.children))
      && (Owns(op, p, s.children) && p in r.sup.restarting ==>
            Owns(r.op, p, r.sup.children) || (|r.spawned| == 1 && Owns(r.spawned[0], p, r.sup.children)))
      && (p in s.children && p !in r.sup.children ==> Owns(r.op, p, r.sup.children))
  {
    if op.NotifyCollect? || op.NotifyMarkAll? || op.NotifySpawn? {
      GroupOwnershipStep(s, op, c, p);
    }
  }

  lemma GroupOwnershipStep(s: Sup, op: Op, c: Choice, p: Pid)
    requires Enabled(s, op, c) && (op.NotifyCollect? || op.NotifyMarkAll? || op.NotifySpawn?)
    ensures var r := Next(s, op, c);
      && r.sup.children == s.children
      && (p in r.sup.restarting && p !in s.restarting ==> Owns(r.op, p, s.children))
      && (Owns(op, p, s.children) ==>
            Owns(r.op, p, s.children) || (|r.spawned| == 1 && Owns(r.spawned[0], p, s.children)))
  {
    match op
    case NotifyCollect(q, todo, all) =>
      if c.Visit? && c.p in s.children {
        var e := (c.p, s.children[c.p]);
        assert e in all + [e];
        assert forall x :: x in all ==> x in all + [e];
      }
    case NotifyMarkAll(marked, unmarked) =>
      if unmarked != [] {
        assert forall x :: x in unmarked ==> x == unmarked[0] || x in unmarked[1..];
        assert forall x :: x in marked || x == unmarked[0] ==> x in marked + [unmarked[0]];
      }
    case NotifySpawn(group) =>
      if group != [] {
        assert forall x :: x in group ==> x == group[0] || x in group[1..];
      }
  }

  /** Each single pid: owned if it was marked before the step, owned if it is marked after. */
  lemma StepKeepsOwned(w: World, l: Label, p: Pid)
    requires p in w.sup.restarting ==> Owned(w, p)
    requires p in Step(w, l).sup.restarting
    ensures Owned(Step(w, l), p)
  {
    var w' := Step(w, l);
    if Ready(w, l) {
      match l
      case Call(op) =>
        var j :| 0 <= j < |w.ops| && Owns(w.ops[j], p, w.sup.children);
        assert w'.ops[j] == w.ops[j];
      case Run(i, c) =>
        var r := Next(w.sup, w.ops[i], c);
        OwnershipStep(w.sup, w.ops[i], c, p);
        assert w'.ops[i] == r.op;
        assert |r.spawned| == 1 ==> w'.ops[|w.ops|] == r.spawned[0];
        if p in w.sup.restarting {
          var j :| 0 <= j < |w.ops| && Owns(w.ops[j], p, w.sup.children);
          assert j != i ==> w'.ops[j] == w.ops[j];
          assert j != i ==> Owns(w'.ops[j], p, w'.sup.children) || Owns(w'.ops[i], p, w'.sup.children);
        }
    }
  }

  lemma StepKeepsMarksOwned(w: World, l: Label)
    requires MarksOwned(w)
    ensures MarksOwned(Step(w, l))
  {
    forall p | p in Step(w, l).sup.restarting ensures Owned(Step(w, l), p) {
      assert p in w.sup.restarting ==> Owned(w, p);
      StepKeepsOwned(w, l, p);
    }
  }

  /** In every interleaving of all operations, from the empty supervisor, each marked pid
      is owned by an operation in flight. */
  lemma {:induction false} NoMarkIsStuck(run: seq<Label>)
    ensures MarksOwned(Exec(World(EMPTY, []), run))
  {
    if run != [] {
      NoMarkIsStuck(run[..|run| - 1]);
      StepKeepsMarksOwned(Exec(World(EMPTY, []), run[..|run| - 1]), run[|run| - 1]);
    }
  }

  /** So at quiescence nothing is marked, and no later exit is swallowed: the next
      report of any pid goes on to look the child up. */
  lemma QuiescenceUnmarks(run: seq<Label>, p: Pid)
    requires Quiescent(Exec(World(EMPTY, []), run))
    ensures var w := Exec(World(EMPTY, []), run);
      && w.sup.restarting == {}
      && Exec(w, [Call(NotifyMark(p)), Run(|w.ops|, Go)]) ==
           World(w.sup.(restarting := {p}), w.ops + [NotifyLookup(p)])
  {
    var w := Exec(World(EMPTY, []), run);
    NoMarkIsStuck(run);
    var w1 := Step(w, Call(NotifyMark(p)));
    var w2 := Step(w1, Run(|w.ops|, Go));
    assert Exec(w, [Call(NotifyMark(p))]) == w1 by {
      ExecSnoc(w, [], Call(NotifyMark(p)));
      assert [] + [Call(NotifyMark(p))] == [Call(NotifyMark(p))];
    }
    ExecSnoc(w, [Call(NotifyMark(p))], Run(|w.ops|, Go));
    assert [Call(NotifyMark(p))] + [Run(|w.ops|, Go)] == [Call(NotifyMark(p)), Run(|w.ops|, Go)];
    assert w2.ops == w.ops + [NotifyLookup(p)];
  }

  /** A report is swallowed only while somebody else in flight owns that very pid. */
  lemma SwallowedOnlyWhileOwned(run: seq<Label>, i: nat)
    requires var w := Exec(World(EMPTY, []), run);
      i < |w.ops| && w.ops[i].NotifyMark? && Next(w.sup, w.ops[i], Go).op == Done
    ensures var w := Exec(World(EMPTY, []), run);
      exists j :: 0 <= j < |w.ops| && j != i && Owns(w.ops[j], w.ops[i].pid, w.sup.children)
  {
    NoMarkIsStuck(run);
    var w := Exec(World(EMPTY, []), run);
    assert Owned(w, w.ops[i].pid);
    var j :| 0 <= j < |w.ops| && Owns(w.ops[j], w.ops[i].pid, w.sup.children);
    assert j != i;
  }
}
