// When a pid gets two restarts. Access by access: an operation will restart the pids of the
// group it has collected, and a task its own; exactly two kinds of access give a pid that
// somebody will restart to a second operation.
module DoubleRestarts {
  import opened Pids
  import opened SupervisorSteps
  import MO = MarkOwnership
  import RL = RestartLineage

  /** `op` will restart `p`, or is a restart of it. */
  predicate WillRestart(op: Op, p: Pid) {
    match op
    case NotifyCollect(_, _, all) => p in Members(all)
    case NotifyMarkAll(marked, unmarked) => p in Members(marked) || p in Members(unmarked)
    case NotifySpawn(group) => p in Members(group)
    case _ => MO.IsTask(op) && op.orig == p
  }

  /** No pid twice in a group. */
  predicate Single(op: Op) {
    match op
    case NotifyCollect(_, _, all) => RL.Distinct(all)
    case NotifyMarkAll(marked, unmarked) => RL.Distinct(marked + unmarked)
    case NotifySpawn(group) => RL.Distinct(group)
    case _ => true
  }

  /** At most one restart of each pid. */
  ghost predicate OneEach(w: World) {
    && (forall i :: 0 <= i < |w.ops| ==> Single(w.ops[i]))
    && (forall i, j, p :: 0 <= i < j < |w.ops| && WillRestart(w.ops[i], p) ==> !WillRestart(w.ops[j], p))
  }

  ghost predicate Elsewhere(w: World, i: nat, p: Pid) {
    exists j :: 0 <= j < |w.ops| && j != i && WillRestart(w.ops[j], p)
  }

  /** A RestartAll notification collects a child that another operation will restart, or a
      notification finds such a child to be RestartOne and spawns its task. */
  ghost predicate Doubles(w: World, l: Label) {
    l.Run? && Ready(w, l) &&
    match w.ops[l.i]
    case NotifyCollect(_, _, all) =>
      l.c.Visit? && l.c.p in w.sup.children && l.c.p !in Members(all) && Elsewhere(w, l.i, l.c.p)
    case NotifyLookup(p) =>
      p in w.sup.children && w.sup.children[p].strategy.RestartOne? && Elsewhere(w, l.i, p)
    case _ => false
  }

  // One operation.

  /** The pid that the access adds to what `op` restarts, if any. */
  predicate Gains(s: Sup, op: Op, c: Choice, p: Pid) {
    match op
    case NotifyCollect(_, _, all) => c.Visit? && c.p == p && p in s.children && p !in Members(all)
    case NotifyLookup(q) => q == p && p in s.children && s.children[p].strategy.RestartOne?
    case _ => false
  }

  /** What `op` restarts after the access, which goes on as `op'` and spawns `spawned`. */
  predicate Restarts(s: Sup, op: Op, c: Choice, op': Op, spawned: seq<Op>, p: Pid) {
    && |spawned| <= 1 && Single(op') && (forall o <- spawned :: Single(o))
    && (WillRestart(op', p) ==> WillRestart(op, p) || Gains(s, op, c, p))
    && (|spawned| == 1 && WillRestart(spawned[0], p) ==>
          (WillRestart(op, p) || Gains(s, op, c, p)) && !WillRestart(op', p))
    && (Gains(s, op, c, p) ==> WillRestart(op', p) || (|spawned| == 1 && WillRestart(spawned[0], p)))
  }

  predicate IsGroup(op: Op) {
    op.NotifyCollect? || op.NotifyMarkAll? || op.NotifySpawn?
  }

  lemma GroupRestarts(s: Sup, op: Op, c: Choice, p: Pid)
    requires Enabled(s, op, c) && Single(op) && IsGroup(op)
    ensures var r := Next(s, op, c); Restarts(s, op, c, r.op, r.spawned, p)
  {
    match op
    case NotifyCollect(_, _, all) =>
      assert [] + all == all;
      if c.Visit? {
        CollectOne(s, all, c.p, p);
      }
    case NotifyMarkAll(marked, unmarked) =>
      if unmarked == [] {
        assert marked + unmarked == marked;
      } else {
        MarkOne(marked, unmarked, p);
      }
    case NotifySpawn(group) =>
      if group != [] {
        SpawnOne(group, p);
      }
  }

  lemma OpRestarts(s: Sup, op: Op, c: Choice, p: Pid)
    requires Enabled(s, op, c) && Single(op)
    ensures var r := Next(s, op, c); Restarts(s, op, c, r.op, r.spawned, p)
  {
    if IsGroup(op) {
      GroupRestarts(s, op, c, p);
    }
  }

  lemma CollectOne(s: Sup, all: Group, q: Pid, p: Pid)
    requires RL.Distinct(all)
    ensures q in s.children && q !in Members(all) ==>
      RL.Distinct(all + [(q, s.children[q])]) && Members(all + [(q, s.children[q])]) == Members(all) + {q}
  {
    if q in s.children && q !in Members(all) {
      var all' := all + [(q, s.children[q])];
      forall a, b | 0 <= a < b < |all'| ensures all'[a].0 != all'[b].0 {
        assert all[a] in all;
      }
      assert all'[|all|] in all';
      forall x ensures x in Members(all') <==> x in Members(all) + {q} {
        if x in Members(all) {
          var e :| e in all && e.0 == x;
          assert e in all';
        }
      }
    }
  }

  lemma MarkOne(marked: Group, unmarked: Group, p: Pid)
    requires unmarked != []
    ensures marked + [unmarked[0]] + unmarked[1..] == marked + unmarked
    ensures p in Members(marked + [unmarked[0]]) || p in Members(unmarked[1..]) <==>
            p in Members(marked) || p in Members(unmarked)
  {
    assert unmarked == [unmarked[0]] + unmarked[1..];
    assert forall e :: e in marked + [unmarked[0]] <==> e in marked || e == unmarked[0];
    assert forall e :: e in unmarked <==> e == unmarked[0] || e in unmarked[1..];
  }

  lemma SpawnOne(group: Group, p: Pid)
    requires group != [] && RL.Distinct(group)
    ensures RL.Distinct(group[1..]) && group[0].0 !in Members(group[1..])
    ensures p in Members(group) <==> p == group[0].0 || p in Members(group[1..])
  {
    assert group == [group[0]] + group[1..];
    assert forall e :: e in group <==> e == group[0] || e in group[1..];
    assert forall k :: 0 <= k < |group[1..]| ==> group[1..][k] == group[k + 1];
  }

  // One step.

  lemma OthersStay(w: World, l: Label, j: nat)
    requires Ready(w, l) && j < |w.ops| && (l.Run? ==> l.i != j)
    ensures j < |Step(w, l).ops| && Step(w, l).ops[j] == w.ops[j]
  {
  }

  /** Without doubling, whoever restarts `p` after the step does so alone. */
  lemma StaysSingle(w: World, i: nat, c: Choice, p: Pid, j: nat, k: nat)
    requires OneEach(w) && Ready(w, Run(i, c)) && !Doubles(w, Run(i, c))
    requires 0 <= j < k < |Step(w, Run(i, c)).ops| && WillRestart(Step(w, Run(i, c)).ops[j], p)
    ensures !WillRestart(Step(w, Run(i, c)).ops[k], p)
  {
    var op, w' := w.ops[i], Step(w, Run(i, c));
    var r := Next(w.sup, op, c);
    OpRestarts(w.sup, op, c, p);
    assert forall m :: 0 <= m < |w.ops| && m != i ==> w'.ops[m] == w.ops[m];
    assert Gains(w.sup, op, c, p) ==> !Elsewhere(w, i, p);
    if k < |w.ops| {
      assert j == i || k == i || (w'.ops[j] == w.ops[j] && w'.ops[k] == w.ops[k]);
    } else {
      assert r.spawned == [w'.ops[k]];
    }
  }

  lemma SinglesStay(w: World, i: nat, c: Choice)
    requires (forall m :: 0 <= m < |w.ops| ==> Single(w.ops[m])) && Ready(w, Run(i, c))
    ensures forall m :: 0 <= m < |Step(w, Run(i, c)).ops| ==> Single(Step(w, Run(i, c)).ops[m])
  {
    var w' := Step(w, Run(i, c));
    var r := Next(w.sup, w.ops[i], c);
    OpRestarts(w.sup, w.ops[i], c, 0);
    forall m | 0 <= m < |w'.ops| ensures Single(w'.ops[m]) {
      assert m < |w.ops| && m != i ==> w'.ops[m] == w.ops[m];
      assert m >= |w.ops| ==> w'.ops[m] in r.spawned;
    }
  }

  /** A doubling step leaves two restarts of its pid. */
  lemma DoublingShows(w: World, i: nat, c: Choice, p: Pid)
    requires OneEach(w) && Ready(w, Run(i, c)) && Gains(w.sup, w.ops[i], c, p) && Elsewhere(w, i, p)
    ensures !OneEach(Step(w, Run(i, c)))
  {
    var w' := Step(w, Run(i, c));
    var r := Next(w.sup, w.ops[i], c);
    OpRestarts(w.sup, w.ops[i], c, p);
    var j :| 0 <= j < |w.ops| && j != i && WillRestart(w.ops[j], p);
    assert w'.ops[j] == w.ops[j] && w'.ops[i] == r.op;
    if |r.spawned| == 1 && WillRestart(r.spawned[0], p) {
      assert w'.ops[|w.ops|] == r.spawned[0];
    }
  }

  /** A step keeps at most one restart per pid if and only if it does not double one. */
  lemma StepKeepsOneEachExactly(w: World, l: Label)
    requires OneEach(w)
    ensures OneEach(Step(w, l)) <==> !Doubles(w, l)
  {
    if Ready(w, l) {
      match l
      case Call(op) =>
      case Run(i, c) =>
        if Doubles(w, l) {
          DoublingShows(w, i, c, if w.ops[i].NotifyLookup? then w.ops[i].pid else c.p);
        } else {
          SinglesStay(w, i, c);
          forall j, k, p | 0 <= j < k < |Step(w, l).ops| && WillRestart(Step(w, l).ops[j], p)
            ensures !WillRestart(Step(w, l).ops[k], p)
          {
            StaysSingle(w, i, c, p, j, k);
          }
        }
    }
  }

  // Runs.

  const NOTHING := World(EMPTY, [])

  ghost predicate AlwaysOneEach(run: seq<Label>) {
    OneEach(Exec(NOTHING, run)) && (run != [] ==> AlwaysOneEach(run[..|run| - 1]))
  }

  ghost predicate NeverDoubles(run: seq<Label>) {
    run != [] ==> NeverDoubles(run[..|run| - 1]) && !Doubles(Exec(NOTHING, run[..|run| - 1]), run[|run| - 1])
  }

  /** In every run from the empty supervisor, no pid ever has two restarts if and only if no
      step doubles one. */
  lemma {:induction false} RunKeepsOneEachExactly(run: seq<Label>)
    ensures AlwaysOneEach(run) <==> NeverDoubles(run)
  {
    if run != [] {
      var w, l := Exec(NOTHING, run[..|run| - 1]), run[|run| - 1];
      RunKeepsOneEachExactly(run[..|run| - 1]);
      if OneEach(w) {
        StepKeepsOneEachExactly(w, l);
      }
    }
  }

  /** In particular no step of the runs of RestartLineage doubles a restart. */
  lemma LineageKeepsOneEach(es: seq<RL.Event>)
    ensures OneEach(RL.ApplyAll(RL.START, es).w)
  {
    RL.InvAlways(es);
    var w := RL.ApplyAll(RL.START, es).w;
    assert forall op, p :: RL.Kind(op) && WillRestart(op, p) ==> RL.Holds(op, p);
    assert forall i :: 0 <= i < |w.ops| ==> Single(w.ops[i]);
  }
}
