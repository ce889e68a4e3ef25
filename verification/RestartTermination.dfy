// Restart work is finite. With no new calls every step of every schedule strictly
// decreases a global measure, something can always step, and so every schedule
// reaches quiescence. Along any run, a task calls its factory at most three times,
// sleeps 100 then 200 ms, and logs one error per failed call.
module RestartTermination {
  import opened Pids
  import opened SupervisorSteps
  import MO = MarkOwnership

  /** Notifications that may still decide to spawn tasks. */
  function Undecided(op: Op): nat {
    if op.NotifyMark? || op.NotifyLookup? || op.NotifyIterate? || op.NotifyCollect? then 1 else 0
  }

  function CallsLeft(attempts: nat): nat {
    if attempts < MAX_ATTEMPTS then MAX_ATTEMPTS - attempts else 0
  }

  /** Steps an operation has left, lists to iterate over apart. */
  function Weight(op: Op): nat {
    match op
    case Done => 0
    case NotifyMark(_) => 4
    case NotifyLookup(_) => 3
    case NotifyUnmark(_) => 1
    case NotifyIterate(_) => 2
    case NotifyCollect(_, _, _) => 1
    case NotifyMarkAll(marked, unmarked) => 20 * |marked| + 21 * |unmarked| + 2
    case NotifySpawn(group) => 20 * |group| + 1
    case TaskCall(_, _, k, _) => 3 * CallsLeft(k) + 9
    case TaskFail(_, _, k, _, _) => 3 * CallsLeft(k) + (if k < MAX_ATTEMPTS then 11 else 8)
    case TaskSleep(_, _, k, _) => 3 * CallsLeft(k) + 10
    case TaskInsert(_, _, _) => 8
    case TaskRemove(_, _) => 6
    case TaskUnlink(_) => 5
    case TaskClean(_, _) => 4
    case TaskUnmark(_) => 3
    case Forget(_, _) => 6
    case ForgetMark(_, _) => 5
    case TakeLinks(_) => 4
    case CleanLinks(_, _) => 3
    case AddChild(_, _) => 1
    case PushLink(_, _, andBack) => if andBack then 2 else 1
    case DropLink(_, _, andBack) => if andBack then 2 else 1
  }

  /** What is left of the list an operation iterates over. */
  function Left(op: Op, children: map<Pid, ChildSpec>): nat {
    match op
    case NotifyCollect(_, todo, all) => |todo| + |children.Keys - Members(all)|
    case TaskClean(_, rest) => |rest|
    case CleanLinks(_, rest) => |rest|
    case _ => 0
  }

  function SumUndecided(ops: seq<Op>): nat {
    if ops == [] then 0 else SumUndecided(ops[..|ops| - 1]) + Undecided(ops[|ops| - 1])
  }

  function SumWeight(ops: seq<Op>): nat {
    if ops == [] then 0 else SumWeight(ops[..|ops| - 1]) + Weight(ops[|ops| - 1])
  }

  function SumLeft(ops: seq<Op>, children: map<Pid, ChildSpec>): nat {
    if ops == [] then 0 else SumLeft(ops[..|ops| - 1], children) + Left(ops[|ops| - 1], children)
  }

  lemma {:induction false} SumsUpdate(ops: seq<Op>, i: nat, op: Op, children: map<Pid, ChildSpec>)
    requires i < |ops|
    ensures SumUndecided(ops[i := op]) + Undecided(ops[i]) == SumUndecided(ops) + Undecided(op)
    ensures SumWeight(ops[i := op]) + Weight(ops[i]) == SumWeight(ops) + Weight(op)
    ensures SumLeft(ops[i := op], children) + Left(ops[i], children) == SumLeft(ops, children) + Left(op, children)
  {
    var n := |ops| - 1;
    if i < n {
      SumsUpdate(ops[..n], i, op, children);
      assert ops[i := op][..n] == ops[..n][i := op];
    } else {
      assert ops[i := op][..n] == ops[..n];
    }
  }

  lemma SumsAppend(ops: seq<Op>, more: seq<Op>)
    requires |more| <= 1
    ensures SumUndecided(ops + more) == SumUndecided(ops) + (if more == [] then 0 else Undecided(more[0]))
    ensures SumWeight(ops + more) == SumWeight(ops) + (if more == [] then 0 else Weight(more[0]))
  {
    if more == [] {
      assert ops + more == ops;
    } else {
      assert (ops + more)[..|ops|] == ops;
    }
  }

  /** Lexicographic order on (undecided notifications, steps left, list elements left). */
  predicate Less(w': World, w: World) {
    || SumUndecided(w'.ops) < SumUndecided(w.ops)
    || (SumUndecided(w'.ops) == SumUndecided(w.ops) && SumWeight(w'.ops) < SumWeight(w.ops))
    || (SumUndecided(w'.ops) == SumUndecided(w.ops) && SumWeight(w'.ops) == SumWeight(w.ops) &&
        SumLeft(w'.ops, w'.sup.children) < SumLeft(w.ops, w.sup.children))
  }

  lemma OpDecreases(s: Sup, op: Op, c: Choice)
    requires Enabled(s, op, c)
    ensures var r := Next(s, op, c);
      && |r.spawned| <= 1
      && (forall o <- r.spawned :: Undecided(o) == 0 && Weight(o) == 18)
      && (|| Undecided(r.op) < Undecided(op)
          || (Undecided(r.op) == Undecided(op) && Weight(r.op) + 18 * |r.spawned| < Weight(op))
          || (Undecided(r.op) == Undecided(op) && Weight(r.op) == Weight(op) && r.spawned == [] &&
              r.sup.children == s.children && Left(r.op, s.children) < Left(op, s.children)))
  {
    if op.NotifyCollect? && c.Visit? {
      CollectDecreases(s, op, c);
      assert Next(s, op, c).sup == s;
    } else if op.TaskClean? || op.CleanLinks? {
    } else {
      WeightDecreases(s, op, c);
    }
  }

  lemma WeightDecreases(s: Sup, op: Op, c: Choice)
    requires Enabled(s, op, c) && !op.TaskClean? && !op.CleanLinks? && !(op.NotifyCollect? && c.Visit?)
    ensures var r := Next(s, op, c);
      && |r.spawned| <= 1
      && (forall o <- r.spawned :: Undecided(o) == 0 && Weight(o) == 18)
      && (|| Undecided(r.op) < Undecided(op)
          || (Undecided(r.op) == Undecided(op) && Weight(r.op) + 18 * |r.spawned| < Weight(op)))
  {
  }

  lemma CollectDecreases(s: Sup, op: Op, c: Choice)
    requires op.NotifyCollect? && c.Visit? && Enabled(s, op, c)
    ensures Left(Next(s, op, c).op, s.children) < Left(op, s.children)
  {
    var all' := Next(s, op, c).op.all;
    VisitCollects(op.all, all', s.children, c.p);
    VisitDecreases(op.pid, op.todo, op.all, all', s.children, c.p);
  }

  lemma VisitDecreases(q: Pid, todo: set<Pid>, all: Group, all': Group, children: map<Pid, ChildSpec>, p: Pid)
    requires p in todo || p in children.Keys - Members(all)
    requires children.Keys - Members(all') == children.Keys - Members(all) - {p}
    ensures Left(NotifyCollect(q, todo - {p}, all'), children) < Left(NotifyCollect(q, todo, all), children)
  {
    Shrinks(todo, children.Keys - Members(all), children.Keys - Members(all'), p);
  }

  lemma Shrinks(todo: set<Pid>, before: set<Pid>, after: set<Pid>, p: Pid)
    requires p in todo || p in before
    requires after == before - {p}
    ensures |todo - {p}| + |after| < |todo| + |before|
  {
    if p !in todo {
      assert todo - {p} == todo;
    }
    if p !in before {
      assert before - {p} == before;
    }
  }

  lemma VisitCollects(all: Group, all': Group, children: map<Pid, ChildSpec>, p: Pid)
    requires all' == if p in children && p !in Members(all) then all + [(p, children[p])] else all
    ensures children.Keys - Members(all') == children.Keys - Members(all) - {p}
  {
    if p in children && p !in Members(all) {
      var e := (p, children[p]);
      assert e in all + [e];
      assert forall x :: x in all + [e] <==> x in all || x == e;
    }
  }

  /** Every step of an operation in flight strictly decreases the global measure. */
  lemma StepDecreases(w: World, i: nat, c: Choice)
    requires Ready(w, Run(i, c))
    ensures Less(Step(w, Run(i, c)), w)
  {
    var r := Next(w.sup, w.ops[i], c);
    OpDecreases(w.sup, w.ops[i], c);
    SumsUpdate(w.ops, i, r.op, w.sup.children);
    SumsAppend(w.ops[i := r.op], r.spawned);
    if r.spawned == [] {
      assert w.ops[i := r.op] + r.spawned == w.ops[i := r.op];
    }
  }

  /** Every operation in flight can take a step. */
  lemma Progress(w: World, i: nat) returns (c: Choice)
    requires i < |w.ops| && w.ops[i] != Done
    ensures Ready(w, Run(i, c))
  {
    match w.ops[i]
    case NotifyCollect(_, todo, _) =>
      if todo == {} {
        c := Go;
      } else {
        var p :| p in todo;
        c := Visit(p);
      }
    case TaskCall(_, spec, _, _) =>
      c := Returned(if spec.factory.Constant? then Ok(spec.factory.same) else Err(""));
    case _ =>
      c := Go;
  }

  /** A schedule with no new calls: at each time some operation in flight steps, until none is left. */
  ghost predicate Scheduler(pick: (World, nat) -> Label) {
    forall w: World, t: nat :: !Quiescent(w) ==> pick(w, t).Run? && Ready(w, pick(w, t))
  }

  function Drive(w: World, pick: (World, nat) -> Label, t: nat, n: nat): World
    decreases n
  {
    if n == 0 then w else Drive(Step(w, pick(w, t)), pick, t + 1, n - 1)
  }

  lemma {:induction false} DriveKeepsMarksOwned(w: World, pick: (World, nat) -> Label, t: nat, n: nat)
    requires MO.MarksOwned(w)
    ensures MO.MarksOwned(Drive(w, pick, t, n))
    decreases n
  {
    if n > 0 {
      MO.StepKeepsMarksOwned(w, pick(w, t));
      DriveKeepsMarksOwned(Step(w, pick(w, t)), pick, t + 1, n - 1);
    }
  }

  lemma {:induction false} SchedulesEnd(w: World, pick: (World, nat) -> Label, t: nat) returns (n: nat)
    requires Scheduler(pick)
    ensures Quiescent(Drive(w, pick, t, n))
    decreases SumUndecided(w.ops), SumWeight(w.ops), SumLeft(w.ops, w.sup.children)
  {
    if Quiescent(w) {
      n := 0;
    } else {
      var l := pick(w, t);
      StepDecreases(w, l.i, l.c);
      n := SchedulesEnd(Step(w, l), pick, t + 1);
      n := n + 1;
    }
  }

  /** From any reachable state, every schedule of the operations in flight reaches
      quiescence, with no pid left marked. */
  lemma EveryScheduleQuiesces(run: seq<Label>, pick: (World, nat) -> Label)
    requires Scheduler(pick)
    ensures exists n :: Quiescent(Drive(Exec(World(EMPTY, []), run), pick, 0, n)) &&
                        Drive(Exec(World(EMPTY, []), run), pick, 0, n).sup.restarting == {}
  {
    var w := Exec(World(EMPTY, []), run);
    var n := SchedulesEnd(w, pick, 0);
    MO.NoMarkIsStuck(run);
    DriveKeepsMarksOwned(w, pick, 0, n);
    var v := Drive(w, pick, 0, n);
    assert v.sup.restarting == {};
  }

  // What one task does along any run.

  /** The waits are 100 ms after the first failure and 200 ms after the second; there is no third. */
  predicate TaskShape(op: Op) {
    match op
    case TaskCall(_, _, k, ms) => k < 3 && ms == [100, 200, 400][k]
    case TaskFail(_, _, k, ms, _) => 1 <= k <= 3 && ms == [100, 200, 400][k - 1]
    case TaskSleep(_, _, k, ms) => (k == 1 && ms == 100) || (k == 2 && ms == 200)
    case _ => true
  }

  lemma {:induction false} TaskShapes(run: seq<Label>, i: nat)
    requires i < |Exec(World(EMPTY, []), run).ops|
    ensures TaskShape(Exec(World(EMPTY, []), run).ops[i])
  {
    var w := Exec(World(EMPTY, []), run[..|run| - 1]);
    var l := run[|run| - 1];
    if i < |w.ops| {
      TaskShapes(run[..|run| - 1], i);
    }
    if Ready(w, l) && l.Run? && l.i != i && i < |w.ops| {
      assert Step(w, l).ops[i] == w.ops[i];
    }
  }

  /** Factory calls that operation `i` makes along a run. */
  function Calls(w: World, run: seq<Label>, i: nat): nat {
    if run == [] then 0
    else
      var v, l := Exec(w, run[..|run| - 1]), run[|run| - 1];
      Calls(w, run[..|run| - 1], i) +
      (if Ready(v, l) && l.Run? && l.i == i && v.ops[i].TaskCall? then 1 else 0)
  }

  function Made(op: Op): nat {
    match op
    case TaskCall(_, _, k, _) => k
    case TaskFail(_, _, k, _, _) => k
    case TaskSleep(_, _, k, _) => k
    case _ => 0
  }

  /** In any run from the empty supervisor, no operation calls a factory more than three times. */
  lemma {:induction false} AtMostThreeCalls(run: seq<Label>, i: nat)
    ensures Calls(World(EMPTY, []), run, i) <= MAX_ATTEMPTS
    ensures var w := Exec(World(EMPTY, []), run);
      && (i >= |w.ops| ==> Calls(World(EMPTY, []), run, i) == 0)
      && (i < |w.ops| && !MO.IsTask(w.ops[i]) && w.ops[i] != Done ==> Calls(World(EMPTY, []), run, i) == 0)
      && (i < |w.ops| && (w.ops[i].TaskCall? || w.ops[i].TaskFail? || w.ops[i].TaskSleep?) ==>
            Calls(World(EMPTY, []), run, i) == Made(w.ops[i]))
  {
    if run != [] {
      var w, l := Exec(World(EMPTY, []), run[..|run| - 1]), run[|run| - 1];
      AtMostThreeCalls(run[..|run| - 1], i);
      if i < |w.ops| {
        TaskShapes(run[..|run| - 1], i);
        if Ready(w, l) && l.Run? && l.i != i {
          assert Step(w, l).ops[i] == w.ops[i];
        }
      }
    }
  }

  /** The messages of the failed factory calls of a run. */
  function FailedCalls(w: World, run: seq<Label>): multiset<string> {
    if run == [] then multiset{}
    else
      var v, l := Exec(w, run[..|run| - 1]), run[|run| - 1];
      FailedCalls(w, run[..|run| - 1]) + (if Ready(v, l) && l.Run? then Failing(v.ops[l.i], l.c) else multiset{})
  }

  function Failing(op: Op, c: Choice): multiset<string> {
    if op.TaskCall? && c.Returned? && c.r.Err? then multiset{c.r.msg} else multiset{}
  }

  /** What `op` is about to log. */
  function ToLog(op: Op): multiset<string> {
    if op.TaskFail? then multiset{op.err} else multiset{}
  }

  function Unlogged(ops: seq<Op>): multiset<string> {
    if ops == [] then multiset{} else Unlogged(ops[..|ops| - 1]) + ToLog(ops[|ops| - 1])
  }

  lemma {:induction false} UnloggedUpdate(ops: seq<Op>, i: nat, op: Op)
    requires i < |ops|
    ensures Unlogged(ops[i := op]) + ToLog(ops[i]) == Unlogged(ops) + ToLog(op)
  {
    var n := |ops| - 1;
    if i < n {
      UnloggedUpdate(ops[..n], i, op);
      assert ops[..n][i := op] == ops[i := op][..n];
      Swap(Unlogged(ops[..n][i := op]), ToLog(ops[i]), Unlogged(ops[..n]), ToLog(op), ToLog(ops[n]));
    } else {
      assert ops[i := op][..n] == ops[..n];
    }
  }

  lemma Swap(a: multiset<string>, b: multiset<string>, c: multiset<string>, d: multiset<string>, e: multiset<string>)
    requires a + b == c + d
    ensures a + e + b == c + e + d
  {
    assert a + e + b == a + b + e;
  }

  lemma UnloggedAppend(ops: seq<Op>, more: seq<Op>)
    requires |more| <= 1 && forall o <- more :: !o.TaskFail?
    ensures Unlogged(ops + more) == Unlogged(ops)
  {
    if more == [] {
      assert ops + more == ops;
    } else {
      assert (ops + more)[..|ops|] == ops;
    }
  }

  lemma OpLogs(s: Sup, op: Op, c: Choice)
    requires Enabled(s, op, c)
    ensures var r := Next(s, op, c);
      && r.sup.errors == (if op.TaskFail? then s.errors + [op.err] else s.errors)
      && (r.op.TaskFail? <==> op.TaskCall? && c.r.Err?) && (r.op.TaskFail? ==> r.op.err == c.r.msg)
      && |r.spawned| <= 1 && forall o <- r.spawned :: !o.TaskFail?
  {
  }

  /** A step logs what it was about to log, and a failed call is about to be logged. */
  lemma OpErrors(s: Sup, op: Op, c: Choice, op': Op, errors': seq<string>)
    requires errors' == (if op.TaskFail? then s.errors + [op.err] else s.errors)
    requires op'.TaskFail? <==> op.TaskCall? && c.Returned? && c.r.Err?
    requires op'.TaskFail? ==> op'.err == c.r.msg
    ensures multiset(errors') + ToLog(op') == multiset(s.errors) + ToLog(op) + Failing(op, c)
  {
    if op.TaskFail? {
      assert multiset(s.errors + [op.err]) == multiset(s.errors) + multiset{op.err};
    }
  }

  lemma Balance(e: multiset<string>, e': multiset<string>, u: multiset<string>, u': multiset<string>,
                                   t: multiset<string>, t': multiset<string>, f: multiset<string>)
    requires e' + t' == e + t + f && u' + t == u + t'
    ensures e' + u' == e + u + f
  {
    forall x ensures (e' + u')[x] == (e + u + f)[x] {
      assert (e' + t')[x] == (e + t + f)[x] && (u' + t)[x] == (u + t')[x];
    }
  }

  lemma ErrorsStep(w: World, i: nat, c: Choice)
    requires Ready(w, Run(i, c))
    ensures var w' := Step(w, Run(i, c));
      multiset(w'.sup.errors) + Unlogged(w'.ops) == multiset(w.sup.errors) + Unlogged(w.ops) + Failing(w.ops[i], c)
  {
    var r, w' := Next(w.sup, w.ops[i], c), Step(w, Run(i, c));
    OpLogs(w.sup, w.ops[i], c);
    OpErrors(w.sup, w.ops[i], c, r.op, w'.sup.errors);
    UnloggedUpdate(w.ops, i, r.op);
    UnloggedAppend(w.ops[i := r.op], r.spawned);
    Balance(multiset(w.sup.errors), multiset(w'.sup.errors), Unlogged(w.ops), Unlogged(w'.ops),
            ToLog(w.ops[i]), ToLog(r.op), Failing(w.ops[i], c));
  }

  lemma {:induction false} AllLogged(ops: seq<Op>)
    requires forall i :: 0 <= i < |ops| ==> ops[i] == Done
    ensures Unlogged(ops) == multiset{}
  {
    if ops != [] {
      AllLogged(ops[..|ops| - 1]);
    }
  }

  /** Failed factory calls are logged one for one, with their messages: those not yet in
      `errors` are about to be logged. At quiescence the log has exactly one entry per failed
      call, its message. */
  lemma {:induction false} OneErrorPerFailedCall(run: seq<Label>)
    ensures var w := Exec(World(EMPTY, []), run);
      && FailedCalls(World(EMPTY, []), run) == multiset(w.sup.errors) + Unlogged(w.ops)
      && (Quiescent(w) ==> multiset(w.sup.errors) == FailedCalls(World(EMPTY, []), run))
  {
    if run != [] {
      OneErrorPerFailedCall(run[..|run| - 1]);
      var w, l := Exec(World(EMPTY, []), run[..|run| - 1]), run[|run| - 1];
      if Ready(w, l) {
        match l
        case Call(op) =>
          UnloggedAppend(w.ops, [op]);
        case Run(i, c) =>
          ErrorsStep(w, i, c);
      }
    }
    if Quiescent(Exec(World(EMPTY, []), run)) {
      AllLogged(Exec(World(EMPTY, []), run).ops);
    }
  }
}
