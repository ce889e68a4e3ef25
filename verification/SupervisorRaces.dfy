// Where the supervisor's guarantees stop: when an uninterrupted RestartAll wave keeps one
// task per child, and runs in which a promise one might expect fails.
module SupervisorRaces {
  import opened Pids
  import opened SupervisorSteps
  import RL = RestartLineage
  import DR = DoubleRestarts
  import Sv = Supervisor
  import L = Links

  // The one-step wave of RestartLineage is a run of notify_exit's own steps.

  function Visits(i: nat, all: Group): seq<Label> {
    if all == [] then [] else Visits(i, all[..|all| - 1]) + [Run(i, Visit(all[|all| - 1].0))]
  }

  function Gos(i: nat, n: nat): seq<Label> {
    if n == 0 then [] else Gos(i, n - 1) + [Run(i, Go)]
  }

  lemma {:induction false} VisitsCollect(w: World, i: nat, p: Pid, all: Group)
    requires i < |w.ops| && w.ops[i] == NotifyCollect(p, w.sup.children.Keys, [])
    requires RL.Distinct(all) && forall e <- all :: e.0 in w.sup.children && e.1 == w.sup.children[e.0]
    ensures Exec(w, Visits(i, all)) ==
            World(w.sup, w.ops[i := NotifyCollect(p, w.sup.children.Keys - Members(all), all)])
  {
    if all == [] {
      assert w.sup.children.Keys - Members(all) == w.sup.children.Keys;
      assert w.ops[i := w.ops[i]] == w.ops;
    } else {
      var n := |all| - 1;
      VisitsCollect(w, i, p, all[..n]);
      ExecSnoc(w, Visits(i, all[..n]), Run(i, Visit(all[n].0)));
      VisitOne(w, i, p, all);
    }
  }

  lemma VisitOne(w: World, i: nat, p: Pid, all: Group)
    requires i < |w.ops| && all != [] && all[|all| - 1].0 in w.sup.children && RL.Distinct(all)
    requires all[|all| - 1].1 == w.sup.children[all[|all| - 1].0]
    ensures var n, keys := |all| - 1, w.sup.children.Keys;
      Step(World(w.sup, w.ops[i := NotifyCollect(p, keys - Members(all[..n]), all[..n])]), Run(i, Visit(all[n].0))) ==
      World(w.sup, w.ops[i := NotifyCollect(p, keys - Members(all), all)])
  {
    var n, keys := |all| - 1, w.sup.children.Keys;
    var front, e := all[..n], all[n];
    assert front + [e] == all;
    Sv.MembersSnoc(front, e);
    assert e.0 !in Members(front) by {
      assert forall k :: 0 <= k < n ==> front[k] == all[k] && all[k].0 != all[n].0;
    }
    assert keys - Members(front) - {e.0} == keys - Members(all);
    var op, op' := NotifyCollect(p, keys - Members(front), front), NotifyCollect(p, keys - Members(all), all);
    assert w.ops[i := op][i := op'] + [] == w.ops[i := op'];
  }

  lemma {:induction false} GosMark(w: World, i: nat, all: Group, n: nat)
    requires i < |w.ops| && w.ops[i] == NotifyMarkAll([], all) && n <= |all|
    ensures Exec(w, Gos(i, n)) ==
            World(w.sup.(restarting := w.sup.restarting + Members(all[..n])),
                  w.ops[i := NotifyMarkAll(all[..n], all[n..])])
  {
    if n == 0 {
      assert all[..0] == [] && all[0..] == all && w.ops[i := w.ops[i]] == w.ops;
      assert w.sup.restarting + Members([]) == w.sup.restarting;
    } else {
      GosMark(w, i, all, n - 1);
      ExecSnoc(w, Gos(i, n - 1), Run(i, Go));
      MarkOne(w, i, all, n - 1);
    }
  }

  lemma MarkOne(w: World, i: nat, all: Group, n: nat)
    requires i < |w.ops| && n < |all|
    ensures Step(World(w.sup.(restarting := w.sup.restarting + Members(all[..n])),
                       w.ops[i := NotifyMarkAll(all[..n], all[n..])]), Run(i, Go)) ==
            World(w.sup.(restarting := w.sup.restarting + Members(all[..n + 1])),
                  w.ops[i := NotifyMarkAll(all[..n + 1], all[n + 1..])])
  {
    var op, op' := NotifyMarkAll(all[..n], all[n..]), NotifyMarkAll(all[..n + 1], all[n + 1..]);
    assert all[n..][0] == all[n] && all[n..][1..] == all[n + 1..] && all[..n] + [all[n]] == all[..n + 1];
    Sv.MembersSnoc(all[..n], all[n]);
    assert w.sup.restarting + Members(all[..n]) + {all[n].0} == w.sup.restarting + Members(all[..n + 1]);
    assert w.ops[i := op][i := op'] + [] == w.ops[i := op'];
  }

  lemma GoOnce(w: World, i: nat, op: Op)
    requires i < |w.ops| && Enabled(w.sup, w.ops[i], Go)
    requires Next(w.sup, w.ops[i], Go) == Result(w.sup, op, [])
    ensures Exec(w, [Run(i, Go)]) == World(w.sup, w.ops[i := op])
  {
    ExecSnoc(w, [], Run(i, Go));
    assert [] + [Run(i, Go)] == [Run(i, Go)];
    assert w.ops[i := op] + [] == w.ops[i := op];
  }

  /** The snapshot, uninterrupted. */
  lemma SnapshotIsARun(w: World, i: nat, all: Group) returns (run: seq<Label>)
    requires i < |w.ops| && RL.FoundRestartAll(w.sup, w.ops[i]) && RL.Lists(all, w.sup.children)
    ensures Exec(w, run) == World(w.sup, w.ops[i := NotifyMarkAll([], all)])
  {
    var p, keys := w.ops[i].pid, w.sup.children.Keys;
    GoOnce(w, i, NotifyIterate(p));
    var w1 := World(w.sup, w.ops[i := NotifyIterate(p)]);
    GoOnce(w1, i, NotifyCollect(p, keys, []));
    var w2 := World(w.sup, w.ops[i := NotifyCollect(p, keys, [])]);
    assert w1.ops[i := NotifyCollect(p, keys, [])] == w2.ops;
    VisitsCollect(w2, i, p, all);
    var w3 := World(w.sup, w.ops[i := NotifyCollect(p, {}, all)]);
    assert keys - Members(all) == {} && w2.ops[i := NotifyCollect(p, {}, all)] == w3.ops;
    GoOnce(w3, i, NotifyMarkAll([], all));
    assert w3.ops[i := NotifyMarkAll([], all)] == w.ops[i := NotifyMarkAll([], all)];
    var go := [Run(i, Go)];
    ExecConcat(w, go, go);
    ExecConcat(w, go + go, Visits(i, all));
    ExecConcat(w, go + go + Visits(i, all), go);
    run := go + go + Visits(i, all) + go;
  }

  /** The marking, uninterrupted. */
  lemma MarkingIsARun(w: World, i: nat, all: Group) returns (run: seq<Label>)
    requires i < |w.ops| && w.ops[i] == NotifyMarkAll([], all)
    ensures Exec(w, run) == RL.WaveWorld(w, i, all)
  {
    GosMark(w, i, all, |all|);
    assert all[..|all|] == all && all[|all|..] == [];
    var w' := World(w.sup.(restarting := w.sup.restarting + Members(all)), w.ops[i := NotifyMarkAll(all, [])]);
    GoOnce(w', i, NotifySpawn(all));
    assert w'.ops[i := NotifySpawn(all)] == w.ops[i := NotifySpawn(all)];
    ExecConcat(w, Gos(i, |all|), [Run(i, Go)]);
    run := Gos(i, |all|) + [Run(i, Go)];
  }

  /** Snapshot and marking, uninterrupted, lead to the wave state. */
  lemma WaveIsARun(w: World, i: nat, all: Group) returns (run: seq<Label>)
    requires i < |w.ops| && RL.FoundRestartAll(w.sup, w.ops[i]) && RL.Lists(all, w.sup.children)
    ensures Exec(w, run) == RL.WaveWorld(w, i, all)
  {
    var snapshot := SnapshotIsARun(w, i, all);
    var w' := World(w.sup, w.ops[i := NotifyMarkAll([], all)]);
    var marking := MarkingIsARun(w', i, all);
    assert w'.ops[i := NotifySpawn(all)] == w.ops[i := NotifySpawn(all)];
    ExecConcat(w, snapshot, marking);
    run := snapshot + marking;
  }

  /** The uninterrupted case: a wave whose snapshot and marking nothing cuts keeps one holder
      per pid exactly when no other child is already marked. A newborn that exits while a
      sibling is still retrying gives that sibling a second task. For waves that others cut
      see LateSiblingGetsTwo and, for the exact condition, DoubleRestarts. */
  lemma WaveKeepsOneHolderExactly(w: World, i: nat, all: Group)
    requires RL.Marks(w)
    requires i < |w.ops| && RL.FoundRestartAll(w.sup, w.ops[i]) && RL.Lists(all, w.sup.children)
    ensures RL.OneHolder(RL.WaveWorld(w, i, all)) <==> w.sup.children.Keys * w.sup.restarting == {w.ops[i].pid}
  {
    var p := w.ops[i].pid;
    assert RL.Holds(w.ops[i], p);
    if w.sup.children.Keys * w.sup.restarting == {p} {
      RL.WaveKeepsMarks(w, i, all);
    } else {
      assert p in w.sup.children.Keys * w.sup.restarting;
      var q :| q in w.sup.children.Keys * w.sup.restarting && q != p;
      MarkedSiblingGetsTwo(w, i, all, q);
    }
  }

  lemma MarkedSiblingGetsTwo(w: World, i: nat, all: Group, q: Pid)
    requires RL.MarkedAreHeld(w)
    requires i < |w.ops| && w.ops[i].NotifyLookup? && Members(all) == w.sup.children.Keys
    requires q in w.sup.children && q in w.sup.restarting && q != w.ops[i].pid
    ensures !RL.OneHolder(RL.WaveWorld(w, i, all))
  {
    var w' := RL.WaveWorld(w, i, all);
    assert RL.Held(w, q);
    var j :| 0 <= j < |w.ops| && RL.Holds(w.ops[j], q);
    assert j != i;
    assert RL.Holds(w'.ops[j], q) && RL.Holds(w'.ops[i], q);
  }

  /** Extends a run by one step, given where the step leads. */
  lemma Advance(w: World, run: seq<Label>, v: World, i: nat, c: Choice, sup': Sup, ops': seq<Op>)
    requires Exec(w, run) == v && Ready(v, Run(i, c))
    requires var r := Next(v.sup, v.ops[i], c); r.sup == sup' && v.ops[i := r.op] + r.spawned == ops'
    ensures Exec(w, run + [Run(i, c)]) == World(sup', ops')
  {
    ExecSnoc(w, run, Run(i, c));
  }

  lemma Enter(w: World, run: seq<Label>, v: World, op: Op)
    requires Exec(w, run) == v && IsEntry(op)
    ensures Exec(w, run + [Call(op)]) == World(v.sup, v.ops + [op])
  {
    ExecSnoc(w, run, Call(op));
  }

  /** Two children, one exit, up to its lookup. */
  lemma OneLooksUp(a: ChildSpec, b: ChildSpec, s: Sup) returns (run: seq<Label>)
    requires s == Sup(map[1 := a, 2 := b], [], map[], {1})
    ensures Exec(World(EMPTY, []), run) == World(s, [Done, Done, NotifyLookup(1)])
  {
    var w, s1, s2 := World(EMPTY, []), EMPTY.(children := map[1 := a]), s.(restarting := {});
    run := [];
    Enter(w, run, w, AddChild(1, a));
    run := run + [Call(AddChild(1, a))];
    Advance(w, run, World(EMPTY, [AddChild(1, a)]), 0, Go, s1, [Done]);
    run := run + [Run(0, Go)];
    Enter(w, run, World(s1, [Done]), AddChild(2, b));
    run := run + [Call(AddChild(2, b))];
    Advance(w, run, World(s1, [Done, AddChild(2, b)]), 1, Go, s2, [Done, Done]);
    run := run + [Run(1, Go)];
    Enter(w, run, World(s2, [Done, Done]), NotifyMark(1));
    run := run + [Call(NotifyMark(1))];
    Advance(w, run, World(s2, [Done, Done, NotifyMark(1)]), 2, Go, s, [Done, Done, NotifyLookup(1)]);
    run := run + [Run(2, Go)];
  }

  lemma BothLookUp(a: ChildSpec, b: ChildSpec) returns (run: seq<Label>)
    ensures Exec(World(EMPTY, []), run) ==
            World(Sup(map[1 := a, 2 := b], [], map[], {1, 2}), [Done, Done, NotifyLookup(1), NotifyLookup(2)])
  {
    var w, s := World(EMPTY, []), Sup(map[1 := a, 2 := b], [], map[], {1});
    run := OneLooksUp(a, b, s);
    Enter(w, run, World(s, [Done, Done, NotifyLookup(1)]), NotifyMark(2));
    run := run + [Call(NotifyMark(2))];
    Advance(w, run, World(s, [Done, Done, NotifyLookup(1), NotifyMark(2)]), 3, Go,
            s.(restarting := {1, 2}), [Done, Done, NotifyLookup(1), NotifyLookup(2)]);
    run := run + [Run(3, Go)];
  }

  /** Such a state is reachable: when two RestartAll children exit together, each
      notification starts a wave over both, so each child gets two tasks. */
  lemma {:induction false} TwoExitsAtOnce(a: ChildSpec, b: ChildSpec) returns (run: seq<Label>)
    requires a.strategy.RestartAll? && b.strategy.RestartAll?
    ensures var w := Exec(World(EMPTY, []), run); var all := [(1, a), (2, b)];
      && w.ops == [Done, Done, NotifySpawn(all), NotifySpawn(all)]
      && w.sup.children == map[1 := a, 2 := b]
  {
    var all := [(1, a), (2, b)];
    var run1 := BothLookUp(a, b);
    var w1 := Exec(World(EMPTY, []), run1);
    assert Members(all) == {1, 2} by {
      assert all[0] in all && all[1] in all;
    }
    assert RL.Lists(all, w1.sup.children);
    var run2 := WaveIsARun(w1, 2, all);
    var w2 := RL.WaveWorld(w1, 2, all);
    assert w2.ops == [Done, Done, NotifySpawn(all), NotifyLookup(2)];
    var run3 := WaveIsARun(w2, 3, all);
    assert RL.WaveWorld(w2, 3, all).ops == [Done, Done, NotifySpawn(all), NotifySpawn(all)];
    ExecConcat(World(EMPTY, []), run1, run2);
    ExecConcat(World(EMPTY, []), run1 + run2, run3);
    run := run1 + run2 + run3;
  }

  /** The wave takes its snapshot of both. */
  lemma WaveCollects(a: ChildSpec, b: ChildSpec, s: Sup, all: Group) returns (run: seq<Label>)
    requires s == Sup(map[1 := a, 2 := b], [], map[], {1}) && all == [(1, a), (2, b)] && a.strategy.RestartAll?
    ensures Exec(World(EMPTY, []), run) == World(s, [Done, Done, NotifyMarkAll([], all)])
  {
    var w, keys := World(EMPTY, []), s.children.Keys;
    run := OneLooksUp(a, b, s);
    Advance(w, run, World(s, [Done, Done, NotifyLookup(1)]), 2, Go, s, [Done, Done, NotifyIterate(1)]);
    run := run + [Run(2, Go)];
    Advance(w, run, World(s, [Done, Done, NotifyIterate(1)]), 2, Go, s, [Done, Done, NotifyCollect(1, keys, [])]);
    run := run + [Run(2, Go)];
    ExecConcat(w, run, Visits(2, all));
    VisitsCollect(World(s, [Done, Done, NotifyCollect(1, keys, [])]), 2, 1, all);
    assert keys - Members(all) == {} by {
      assert all[0] in all && all[1] in all;
    }
    run := run + Visits(2, all);
    Advance(w, run, World(s, [Done, Done, NotifyCollect(1, {}, all)]), 2, Go, s, [Done, Done, NotifyMarkAll([], all)]);
    run := run + [Run(2, Go)];
  }

  /** The sibling exits, and its task is spawned. */
  lemma SiblingExits(a: ChildSpec, b: ChildSpec, s: Sup, s': Sup, all: Group, before: seq<Label>)
    returns (run: seq<Label>)
    requires s == Sup(map[1 := a, 2 := b], [], map[], {1}) && s' == s.(restarting := {1, 2}) && b.strategy.RestartOne?
    requires Exec(World(EMPTY, []), before) == World(s, [Done, Done, NotifyMarkAll([], all)])
    ensures Exec(World(EMPTY, []), run) == World(s', [Done, Done, NotifyMarkAll([], all), Done, StartTask(2, b)])
  {
    var w, wave := World(EMPTY, []), NotifyMarkAll([], all);
    Enter(w, before, World(s, [Done, Done, wave]), NotifyMark(2));
    run := before + [Call(NotifyMark(2))];
    Advance(w, run, World(s, [Done, Done, wave, NotifyMark(2)]), 3, Go, s', [Done, Done, wave, NotifyLookup(2)]);
    run := run + [Run(3, Go)];
    Advance(w, run, World(s', [Done, Done, wave, NotifyLookup(2)]), 3, Go,
            s', [Done, Done, wave, Done, StartTask(2, b)]);
    run := run + [Run(3, Go)];
  }

  /** The wave marks both, whatever was marked before. */
  lemma WaveMarksAgain(s: Sup, all: Group, task: Op, before: seq<Label>) returns (run: seq<Label>)
    requires |all| == 2 && Members(all) <= s.restarting
    requires Exec(World(EMPTY, []), before) == World(s, [Done, Done, NotifyMarkAll([], all), Done, task])
    ensures Exec(World(EMPTY, []), run) == World(s, [Done, Done, NotifySpawn(all), Done, task])
  {
    var w, v := World(EMPTY, []), World(s, [Done, Done, NotifyMarkAll([], all), Done, task]);
    GosMark(v, 2, all, 2);
    assert all[..2] == all && all[2..] == [];
    assert s.restarting + Members(all) == s.restarting;
    ExecConcat(w, before, Gos(2, 2));
    run := before + Gos(2, 2);
    Advance(w, run, World(s, [Done, Done, NotifyMarkAll(all, []), Done, task]), 2, Go,
            s, [Done, Done, NotifySpawn(all), Done, task]);
    run := run + [Run(2, Go)];
  }

  /** From the empty supervisor: a RestartAll child exits while its RestartOne sibling is not
      marked; the sibling exits after the snapshot and before the wave marks it. The wave
      marks it again, ignores that it was marked, and is about to give it a second task. */
  lemma LateSiblingGetsTwo(a: ChildSpec, b: ChildSpec) returns (run: seq<Label>)
    requires a.strategy.RestartAll? && b.strategy.RestartOne?
    ensures var w := Exec(World(EMPTY, []), run);
      && w == World(Sup(map[1 := a, 2 := b], [], map[], {1, 2}),
                    [Done, Done, NotifySpawn([(1, a), (2, b)]), Done, StartTask(2, b)])
      && !DR.OneEach(w)
  {
    var all, s := [(1, a), (2, b)], Sup(map[1 := a, 2 := b], [], map[], {1});
    var s' := s.(restarting := {1, 2});
    assert Members(all) == {1, 2} by {
      assert all[0] in all && all[1] in all;
    }
    var before := WaveCollects(a, b, s, all);
    var exit := SiblingExits(a, b, s, s', all, before);
    run := WaveMarksAgain(s', all, StartTask(2, b), exit);
    var ops := [Done, Done, NotifySpawn(all), Done, StartTask(2, b)];
    assert DR.WillRestart(ops[2], 2) && DR.WillRestart(ops[4], 2);
  }

  /** `run` does not move operation `i`. */
  predicate Spares(run: seq<Label>, i: nat) {
    forall k :: 0 <= k < |run| ==> !(run[k].Run? && run[k].i == i)
  }

  lemma {:induction false} SparedWaits(w: World, run: seq<Label>, i: nat)
    requires i < |w.ops| && Spares(run, i)
    ensures i < |Exec(w, run).ops| && Exec(w, run).ops[i] == w.ops[i]
  {
    if run != [] {
      SparedWaits(w, run[..|run| - 1], i);
    }
  }

  /** Whatever happens between the two halves of a swap, short of the replacement being taken
      away, it is a child after the second exactly when it is another pid; a factory that
      returns the pid it restarts, as `watch` installs, loses the child. */
  lemma SwapKeepsChildExactly(w: World, i: nat, between: seq<Label>)
    requires i < |w.ops| && w.ops[i].TaskInsert? && Spares(between, i)
    requires w.ops[i].newPid in Exec(Step(w, Run(i, Go)), between).sup.children
    ensures var children := Step(Exec(Step(w, Run(i, Go)), between), Run(i, Go)).sup.children;
      && (w.ops[i].newPid in children <==> w.ops[i].newPid != w.ops[i].orig)
      && w.ops[i].orig !in children
  {
    var w1 := Step(w, Run(i, Go));
    assert w1.ops[i] == TaskRemove(w.ops[i].orig, true);
    SparedWaits(w1, between, i);
  }

  /** `watch`, one exit, and the restart that follows it lose the child. */
  lemma WatchedChildIsLost(p: Pid) returns (watch: seq<Label>, exit: seq<Label>)
    ensures var spec := ChildSpec(Constant(p), RestartOne);
      && Exec(World(EMPTY, []), watch) == World(EMPTY.(children := map[p := spec]), [Done])
      && Exec(World(EMPTY, []), watch + exit) == World(EMPTY, [Done, Done, Done])
  {
    var w, spec := World(EMPTY, []), ChildSpec(Constant(p), RestartOne);
    var watched := EMPTY.(children := map[p := spec]);
    watch := [];
    Enter(w, watch, w, AddChild(p, spec));
    watch := watch + [Call(AddChild(p, spec))];
    Advance(w, watch, World(EMPTY, [AddChild(p, spec)]), 0, Go, watched, [Done]);
    watch := watch + [Run(0, Go)];
    var run := RestartOfWatched(p, watch);
    exit := run[|watch|..];
    assert watch + exit == run;
  }

  /** The exit is noticed and the factory is called. */
  lemma ExitOfWatched(p: Pid, spec: ChildSpec, s: Sup, watch: seq<Label>) returns (run: seq<Label>)
    requires spec == ChildSpec(Constant(p), RestartOne) && s == Sup(map[p := spec], [], map[], {p})
    requires Exec(World(EMPTY, []), watch) == World(s.(restarting := {}), [Done])
    ensures watch <= run && Exec(World(EMPTY, []), run) == World(s, [Done, Done, TaskInsert(p, spec, p)])
  {
    var w, before := World(EMPTY, []), s.(restarting := {});
    Enter(w, watch, World(before, [Done]), NotifyMark(p));
    run := watch + [Call(NotifyMark(p))];
    Advance(w, run, World(before, [Done, NotifyMark(p)]), 1, Go, s, [Done, NotifyLookup(p)]);
    run := run + [Run(1, Go)];
    Advance(w, run, World(s, [Done, NotifyLookup(p)]), 1, Go, s, [Done, Done, StartTask(p, spec)]);
    run := run + [Run(1, Go)];
    Advance(w, run, World(s, [Done, Done, StartTask(p, spec)]), 2, Returned(Ok(p)),
            s, [Done, Done, TaskInsert(p, spec, p)]);
    run := run + [Run(2, Returned(Ok(p)))];
  }

  /** The swap inserts the child over itself and removes it. */
  lemma SwapOfWatched(p: Pid, spec: ChildSpec, s: Sup, gone: Sup, exit: seq<Label>) returns (run: seq<Label>)
    requires s == Sup(map[p := spec], [], map[], {p}) && gone == s.(children := map[])
    requires Exec(World(EMPTY, []), exit) == World(s, [Done, Done, TaskInsert(p, spec, p)])
    ensures exit <= run && Exec(World(EMPTY, []), run) == World(gone, [Done, Done, TaskUnlink(p)])
  {
    var w := World(EMPTY, []);
    assert s.children[p := spec] == s.children && s.children - {p} == map[];
    Advance(w, exit, World(s, [Done, Done, TaskInsert(p, spec, p)]), 2, Go, s, [Done, Done, TaskRemove(p, true)]);
    run := exit + [Run(2, Go)];
    Advance(w, run, World(s, [Done, Done, TaskRemove(p, true)]), 2, Go, gone, [Done, Done, TaskUnlink(p)]);
    run := run + [Run(2, Go)];
  }

  lemma EndOfWatched(p: Pid, gone: Sup, swap: seq<Label>) returns (run: seq<Label>)
    requires gone == EMPTY.(restarting := {p})
    requires Exec(World(EMPTY, []), swap) == World(gone, [Done, Done, TaskUnlink(p)])
    ensures swap <= run && Exec(World(EMPTY, []), run) == World(EMPTY, [Done, Done, Done])
  {
    var w := World(EMPTY, []);
    assert gone.links - {p} == gone.links && gone.restarting - {p} == {};
    Advance(w, swap, World(gone, [Done, Done, TaskUnlink(p)]), 2, Go, gone, [Done, Done, TaskUnmark(p)]);
    run := swap + [Run(2, Go)];
    Advance(w, run, World(gone, [Done, Done, TaskUnmark(p)]), 2, Go, EMPTY, [Done, Done, Done]);
    run := run + [Run(2, Go)];
  }

  lemma RestartOfWatched(p: Pid, watch: seq<Label>) returns (run: seq<Label>)
    requires Exec(World(EMPTY, []), watch) ==
             World(EMPTY.(children := map[p := ChildSpec(Constant(p), RestartOne)]), [Done])
    ensures watch <= run && Exec(World(EMPTY, []), run) == World(EMPTY, [Done, Done, Done])
  {
    var spec := ChildSpec(Constant(p), RestartOne);
    var s, gone := Sup(map[p := spec], [], map[], {p}), EMPTY.(restarting := {p});
    var exit := ExitOfWatched(p, spec, s, watch);
    var swap := SwapOfWatched(p, spec, s, gone, exit);
    run := EndOfWatched(p, gone, swap);
  }

  /** Unwatching does not stop a restart in flight: whatever the world, a task that has
      not yet called its factory can still add a replacement for the unwatched pid. */
  lemma UnwatchDoesNotStopRestart(w: World, i: nat, n: Pid) returns (unwatch: seq<Label>, restart: seq<Label>)
    requires i < |w.ops| && w.ops[i].TaskCall? && w.ops[i].spec.factory.Respawn? && n != w.ops[i].orig
    ensures var p := w.ops[i].orig;
      && Exec(w, unwatch) ==
         World(w.sup.(children := w.sup.children - {p}, restarting := w.sup.restarting - {p}), w.ops + [Done])
      && Exec(Exec(w, unwatch), restart).sup.children == (w.sup.children - {p})[n := w.ops[i].spec]
  {
    var p, k, spec := w.ops[i].orig, |w.ops|, w.ops[i].spec;
    var s1 := w.sup.(children := w.sup.children - {p});
    var s2 := s1.(restarting := w.sup.restarting - {p});
    unwatch := [];
    Enter(w, unwatch, w, Forget(p, false));
    unwatch := unwatch + [Call(Forget(p, false))];
    Advance(w, unwatch, World(w.sup, w.ops + [Forget(p, false)]), k, Go, s1, w.ops + [ForgetMark(p, false)]);
    unwatch := unwatch + [Run(k, Go)];
    Advance(w, unwatch, World(s1, w.ops + [ForgetMark(p, false)]), k, Go, s2, w.ops + [Done]);
    unwatch := unwatch + [Run(k, Go)];
    var v := World(s2, w.ops + [Done]);
    var ops1, ops2 := v.ops[i := TaskInsert(p, spec, n)], v.ops[i := TaskRemove(p, true)];
    restart := [];
    Advance(v, restart, v, i, Returned(Ok(n)), s2, ops1);
    restart := restart + [Run(i, Returned(Ok(n)))];
    Advance(v, restart, World(s2, ops1), i, Go, s2.(children := s2.children[n := spec]), ops2);
    restart := restart + [Run(i, Go)];
  }

  lemma LinkThenCleanup(a: Pid, b: Pid) returns (run: seq<Label>)
    ensures Exec(World(EMPTY, []), run) == World(EMPTY, [PushLink(b, a, false), CleanLinks(a, [b])])
  {
    var w, back, ab := World(EMPTY, []), PushLink(b, a, false), EMPTY.(links := map[a := [b]]);
    assert L.Push(EMPTY.links, a, b) == ab.links by {
      assert [] + [b] == [b];
    }
    run := [];
    Enter(w, run, w, PushLink(a, b, true));
    run := run + [Call(PushLink(a, b, true))];
    Advance(w, run, World(EMPTY, [PushLink(a, b, true)]), 0, Go, ab, [back]);
    run := run + [Run(0, Go)];
    Enter(w, run, World(ab, [back]), TakeLinks(a));
    run := run + [Call(TakeLinks(a))];
    assert ab.links - {a} == EMPTY.links;
    Advance(w, run, World(ab, [back, TakeLinks(a)]), 1, Go, EMPTY, [back, CleanLinks(a, [b])]);
    run := run + [Run(1, Go)];
  }

  lemma OneEntry(a: Pid, b: Pid)
    requires a != b
    ensures L.Push(EMPTY.links, b, a) == map[b := [a]]
    ensures !L.Nowhere(L.Cleanup(map[b := [a]], a), a)
  {
    var links: L.LinkMap := map[b := [a]];
    assert [] + [a] == [a];
    assert L.Mult(links, b, a) == 1 && L.Mult(links, a, b) == 0;
    L.CleanupExact(links, a);
  }

  /** Links are symmetric only between whole operations: a link that races with the
      cleanup of one end leaves, at quiescence, an entry no cleanup will find. */
  lemma LinkRaceLeavesStaleEntry(a: Pid, b: Pid) returns (run: seq<Label>)
    requires a != b
    ensures var w := Exec(World(EMPTY, []), run);
      Quiescent(w) && w.sup.links == map[b := [a]] && !L.Nowhere(L.Cleanup(w.sup.links, a), a)
  {
    var w, back := World(EMPTY, []), PushLink(b, a, false);
    run := LinkThenCleanup(a, b);
    assert [b][1..] == [];
    Advance(w, run, World(EMPTY, [back, CleanLinks(a, [b])]), 1, Go, EMPTY, [back, CleanLinks(a, [])]);
    run := run + [Run(1, Go)];
    Advance(w, run, World(EMPTY, [back, CleanLinks(a, [])]), 1, Go, EMPTY, [back, Done]);
    run := run + [Run(1, Go)];
    OneEntry(a, b);
    Advance(w, run, World(EMPTY, [back, Done]), 0, Go, EMPTY.(links := map[b := [a]]), [Done, Done]);
    run := run + [Run(0, Go)];
  }

  /** The same overlap with the last two accesses the other way round ends symmetric: what
      overlaps is not enough to tell. */
  lemma LinkRaceMayEndWell(a: Pid, b: Pid) returns (run: seq<Label>)
    requires a != b
    ensures var w := Exec(World(EMPTY, []), run);
      Quiescent(w) && w.sup.links == map[b := []] && L.Symmetric(w.sup.links)
  {
    var w, back := World(EMPTY, []), PushLink(b, a, false);
    run := LinkThenCleanup(a, b);
    OneEntry(a, b);
    var ba, none := EMPTY.(links := map[b := [a]]), EMPTY.(links := map[b := []]);
    Advance(w, run, World(EMPTY, [back, CleanLinks(a, [b])]), 0, Go, ba, [Done, CleanLinks(a, [b])]);
    run := run + [Run(0, Go)];
    EraseOnly(a, b);
    Advance(w, run, World(ba, [Done, CleanLinks(a, [b])]), 1, Go, none, [Done, CleanLinks(a, [])]);
    run := run + [Run(1, Go)];
    Advance(w, run, World(none, [Done, CleanLinks(a, [])]), 1, Go, none, [Done, Done]);
    run := run + [Run(1, Go)];
    assert forall x: Pid, y: Pid :: L.Mult(none.links, x, y) == 0;
  }

  lemma EraseOnly(a: Pid, b: Pid)
    ensures L.RetainAt(map[b := [a]], b, a) == map[b := []] && [b][1..] == []
  {
    assert [a][1..] == [];
    assert L.Retain([a], a) == [] + L.Retain([], a);
  }
}
