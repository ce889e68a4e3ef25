// src/supervisor.rs: the supervisor object. Each method is proved to have the effect the
// source promises when nobody interferes, and to be a run of the step machine of
// SupervisorSteps: its accesses to the shared maps, in order, are that operation's steps.
module Supervisor {
  import opened Pids
  import opened SupervisorSteps
  import RL = RestartLineage
  import L = Links

  /** `op` alone, started in `s`, runs to `op'` in `s'`, having spawned `spawned`. */
  ghost predicate Solo(s: Sup, op: Op, run: seq<Label>, s': Sup, op': Op, spawned: seq<Op>) {
    Exec(World(s, [op]), run) == World(s', [op'] + spawned)
  }

  /** What the factory calls of a run returned, in order. */
  function Answered(run: seq<Label>): seq<Outcome> {
    if run == [] then []
    else
      var l := run[|run| - 1];
      Answered(run[..|run| - 1]) + (if l.Run? && l.c.Returned? then [l.c.r] else [])
  }

  lemma AnsweredSnoc(run: seq<Label>, l: Label)
    ensures Answered(run + [l]) == Answered(run) + (if l.Run? && l.c.Returned? then [l.c.r] else [])
  {
    assert (run + [l])[..|run|] == run;
  }

  lemma SoloStep(s: Sup, op: Op, run: seq<Label>, s': Sup, op': Op, spawned: seq<Op>, c: Choice)
    requires Solo(s, op, run, s', op', spawned) && Enabled(s', op', c)
    ensures var r := Next(s', op', c);
      Solo(s, op, run + [Run(0, c)], r.sup, r.op, spawned + r.spawned)
  {
    var r := Next(s', op', c);
    ExecSnoc(World(s, [op]), run, Run(0, c));
    assert ([op'] + spawned)[0 := r.op] + r.spawned == [r.op] + (spawned + r.spawned);
  }

  /** The same for a restart task, with what its factory has returned so far. */
  lemma TaskStep(s: Sup, op: Op, run: seq<Label>, s': Sup, op': Op, c: Choice)
    requires Solo(s, op, run, s', op', []) && Enabled(s', op', c) && !op'.NotifyLookup? && !op'.NotifySpawn?
    ensures var r := Next(s', op', c); Solo(s, op, run + [Run(0, c)], r.sup, r.op, [])
    ensures Answered(run + [Run(0, c)]) == Answered(run) + (if c.Returned? then [c.r] else [])
  {
    SoloStep(s, op, run, s', op', [], c);
    AnsweredSnoc(run, Run(0, c));
  }

  /** How often in a row the factory fails, counting at most three calls. */
  function Failures(factory: nat -> Outcome): (f: nat)
    ensures f <= 3
    ensures forall k :: 0 <= k < f ==> factory(k).Err?
    ensures f < 3 ==> factory(f).Ok?
  {
    if factory(0).Ok? then 0 else if factory(1).Ok? then 1 else if factory(2).Ok? then 2 else 3
  }

  /** The messages of the first `n` calls, all of which failed. */
  function Logged(factory: nat -> Outcome, n: nat): (msgs: seq<string>)
    requires forall k :: 0 <= k < n ==> factory(k).Err?
    ensures |msgs| == n && forall k :: 0 <= k < n ==> msgs[k] == factory(k).msg
  {
    if n == 0 then [] else Logged(factory, n - 1) + [factory(n - 1).msg]
  }

  /** Where a task stands after `attempts` failed calls. */
  function After(orig: Pid, spec: ChildSpec, attempts: nat, backoff: nat): Op {
    if attempts >= MAX_ATTEMPTS then TaskRemove(orig, false) else TaskCall(orig, spec, attempts, backoff)
  }

  /** Calls 0 to `n` - 1. */
  function Calls(factory: nat -> Outcome, n: nat): seq<Outcome> {
    seq(n, k requires 0 <= k => factory(k))
  }

  /** After `n` failed calls, and a successful one if `swapped`, alone in the supervisor: `v` is
      `s` with the messages logged and the new child, and `run` made those calls. */
  ghost predicate Tried(s: Sup, v: Sup, spec: ChildSpec, factory: nat -> Outcome, n: nat, swapped: bool,
                        run: seq<Label>) {
    && n <= 3 && (forall k :: 0 <= k < n ==> factory(k).Err?) && (swapped ==> n < 3 && factory(n).Ok?)
    && v == s.(errors := s.errors + Logged(factory, n),
               children := if swapped then s.children[factory(n).pid := spec] else s.children)
    && Answered(run) == Calls(factory, if swapped then n + 1 else n)
  }

  lemma TriedStart(s: Sup, spec: ChildSpec, factory: nat -> Outcome)
    ensures Tried(s, s, spec, factory, 0, false, [])
  {
    assert s.errors + [] == s.errors;
  }

  lemma TriedOnce(s: Sup, v: Sup, v': Sup, spec: ChildSpec, factory: nat -> Outcome, n: nat,
                  run: seq<Label>, run': seq<Label>)
    requires Tried(s, v, spec, factory, n, false, run) && n < 3 && Answered(run') == Answered(run) + [factory(n)]
    requires factory(n).Ok? ==> v' == v.(children := v.children[factory(n).pid := spec])
    requires factory(n).Err? ==> v' == v.(errors := v.errors + [factory(n).msg])
    ensures Tried(s, v', spec, factory, if factory(n).Ok? then n else n + 1, factory(n).Ok?, run')
  {
    assert Calls(factory, n) + [factory(n)] == Calls(factory, n + 1);
    if factory(n).Err? {
      assert s.errors + Logged(factory, n) + [factory(n).msg] == s.errors + Logged(factory, n + 1);
    }
  }

  lemma TriedAll(s: Sup, v: Sup, spec: ChildSpec, factory: nat -> Outcome, n: nat, swapped: bool, run: seq<Label>)
    requires Tried(s, v, spec, factory, n, swapped, run) && (swapped || n == 3)
    ensures n == Failures(factory)
  {
  }

  /** One task per listed child, in order. */
  function Tasks(all: Group): seq<Op> {
    if all == [] then []
    else Tasks(all[..|all| - 1]) + [StartTask(all[|all| - 1].0, all[|all| - 1].1)]
  }

  /** Each starts with no call made and a first wait of 100 ms. */
  lemma {:induction false} TasksExactly(all: Group)
    ensures |Tasks(all)| == |all|
    ensures forall k :: 0 <= k < |all| ==> Tasks(all)[k] == TaskCall(all[k].0, all[k].1, 0, 100)
  {
    if all != [] {
      TasksExactly(all[..|all| - 1]);
    }
  }

  lemma MembersSnoc(all: Group, e: (Pid, ChildSpec))
    ensures Members(all + [e]) == Members(all) + {e.0}
  {
    assert e in all + [e];
    assert forall x :: x in all + [e] <==> x in all || x == e;
  }

  class Supervisor {
    var children: map<Pid, ChildSpec>
    var errors: seq<string>
    var links: L.LinkMap
    var restarting: set<Pid>

    ghost function View(): Sup
      reads this
    {
      Sup(children, errors, links, restarting)
    }

    constructor ()
      ensures View() == EMPTY
    {
      children, errors, links, restarting := map[], [], map[], {};
    }

    method AddChild(pid: Pid, spec: ChildSpec) returns (ghost run: seq<Label>)
      modifies this
      ensures View() == old(View()).(children := old(children)[pid := spec])
      ensures Solo(old(View()), SupervisorSteps.AddChild(pid, spec), run, View(), Done, [])
    {
      run := [];
      SoloStep(View(), SupervisorSteps.AddChild(pid, spec), run, View(), SupervisorSteps.AddChild(pid, spec), [], Go);
      children := children[pid := spec];
      run := run + [Run(0, Go)];
    }

    /** The spec that `watch` installs hands out the very pid it watches. */
    method Watch(pid: Pid)
      modifies this
      ensures View() == old(View()).(children := old(children)[pid := ChildSpec(Constant(pid), RestartOne)])
    {
      var spec := ChildSpec(Constant(pid), RestartOne);
      children := children[pid := spec];
    }

    method Unwatch(pid: Pid) returns (ghost run: seq<Label>)
      modifies this
      ensures View() == old(View()).(children := old(children) - {pid}, restarting := old(restarting) - {pid})
      ensures Solo(old(View()), Forget(pid, false), run, View(), Done, [])
    {
      ghost var s, op := View(), Forget(pid, false);
      run := [];
      SoloStep(s, op, run, View(), op, [], Go);
      children := children - {pid};
      run := run + [Run(0, Go)];
      SoloStep(s, op, run, View(), ForgetMark(pid, false), [], Go);
      restarting := restarting - {pid};
      run := run + [Run(0, Go)];
    }

    method RemoveChild(pid: Pid) returns (ghost run: seq<Label>)
      modifies this
      ensures View() == old(View()).(children := old(children) - {pid}, restarting := old(restarting) - {pid},
                                     links := L.Cleanup(old(links), pid))
      ensures Solo(old(View()), Forget(pid, true), run, View(), Done, [])
    {
      ghost var s, op := View(), Forget(pid, true);
      run := [];
      SoloStep(s, op, run, View(), op, [], Go);
      children := children - {pid};
      run := run + [Run(0, Go)];
      SoloStep(s, op, run, View(), ForgetMark(pid, true), [], Go);
      restarting := restarting - {pid};
      run := run + [Run(0, Go)];
      var _, run' := TakeAndClean(pid, s, op, run);
      run := run';
    }

    /** `linked_pids`: returns the recorded peers and forgets the pid. */
    method LinkedPids(pid: Pid) returns (peers: seq<Pid>, ghost run: seq<Label>)
      modifies this
      ensures peers == if pid in old(links) then old(links)[pid] else []
      ensures View() == old(View()).(links := L.Cleanup(old(links), pid))
      ensures Solo(old(View()), TakeLinks(pid), run, View(), Done, [])
    {
      peers, run := TakeAndClean(pid, View(), TakeLinks(pid), []);
    }

    /** `cleanup_links_internal`, reached with operation `op` (started in `s`) about to take the links. */
    method TakeAndClean(pid: Pid, ghost s: Sup, ghost op: Op, ghost run0: seq<Label>)
      returns (peers: seq<Pid>, ghost run: seq<Label>)
      requires Solo(s, op, run0, View(), TakeLinks(pid), [])
      modifies this
      ensures peers == if pid in old(links) then old(links)[pid] else []
      ensures View() == old(View()).(links := L.Cleanup(old(links), pid))
      ensures Solo(s, op, run, View(), Done, [])
    {
      run := run0;
      SoloStep(s, op, run, View(), TakeLinks(pid), [], Go);
      run := run + [Run(0, Go)];
      if pid in links {
        peers := links[pid];
        links := links - {pid};
        var i := 0;
        while i < |peers|
          invariant 0 <= i <= |peers|
          invariant View() == old(View()).(links := links)
          invariant L.Clean(links, peers[i..], pid) == L.Cleanup(old(links), pid)
          invariant Solo(s, op, run, View(), CleanLinks(pid, peers[i..]), [])
        {
          SoloStep(s, op, run, View(), CleanLinks(pid, peers[i..]), [], Go);
          assert peers[i..][0] == peers[i] && peers[i..][1..] == peers[i + 1..];
          if peers[i] in links {
            links := links[peers[i] := L.Retain(links[peers[i]], pid)];
          }
          run := run + [Run(0, Go)];
          i := i + 1;
        }
        SoloStep(s, op, run, View(), CleanLinks(pid, []), [], Go);
        run := run + [Run(0, Go)];
      } else {
        assert links - {pid} == links;
        peers := [];
      }
    }

    method Link(a: Pid, b: Pid) returns (ghost run: seq<Label>)
      modifies this
      ensures View() == old(View()).(links := L.Link(old(links), a, b))
      ensures Solo(old(View()), PushLink(a, b, true), run, View(), Done, [])
    {
      ghost var s, op := View(), PushLink(a, b, true);
      run := [];
      SoloStep(s, op, run, View(), op, [], Go);
      links := links[a := (if a in links then links[a] else []) + [b]];
      run := run + [Run(0, Go)];
      SoloStep(s, op, run, View(), PushLink(b, a, false), [], Go);
      links := links[b := (if b in links then links[b] else []) + [a]];
      run := run + [Run(0, Go)];
    }

    method Unlink(a: Pid, b: Pid) returns (ghost run: seq<Label>)
      modifies this
      ensures View() == old(View()).(links := L.Unlink(old(links), a, b))
      ensures Solo(old(View()), DropLink(a, b, true), run, View(), Done, [])
    {
      ghost var s, op := View(), DropLink(a, b, true);
      run := [];
      SoloStep(s, op, run, View(), op, [], Go);
      if a in links {
        links := links[a := L.Retain(links[a], b)];
      }
      run := run + [Run(0, Go)];
      SoloStep(s, op, run, View(), DropLink(b, a, false), [], Go);
      if b in links {
        links := links[b := L.Retain(links[b], a)];
      }
      run := run + [Run(0, Go)];
    }

    /** The exit is ignored while the pid is marked and when it is no child; a RestartOne
        child gets one task; otherwise every child is marked and gets one task. */
    method NotifyExit(pid: Pid) returns (tasks: seq<Op>, ghost all: Group, ghost run: seq<Label>)
      modifies this
      ensures pid in old(restarting) || pid !in old(children) ==> View() == old(View()) && tasks == []
      ensures pid !in old(restarting) && pid in old(children) && old(children)[pid].strategy.RestartOne? ==>
        View() == old(View()).(restarting := old(restarting) + {pid}) && all == [(pid, children[pid])]
      ensures pid !in old(restarting) && pid in old(children) && old(children)[pid].strategy.RestartAll? ==>
        View() == old(View()).(restarting := old(restarting) + old(children).Keys) && RL.Lists(all, children)
      ensures tasks == Tasks(all)
      ensures Solo(old(View()), NotifyMark(pid), run, View(), Done, tasks)
    {
      ghost var s, op := View(), NotifyMark(pid);
      tasks, all, run := [], [], [];
      SoloStep(s, op, run, View(), op, [], Go);
      run := run + [Run(0, Go)];
      if pid in restarting {
        return;
      }
      restarting := restarting + {pid};
      SoloStep(s, op, run, View(), NotifyLookup(pid), [], Go);
      run := run + [Run(0, Go)];
      if pid !in children {
        SoloStep(s, op, run, View(), NotifyUnmark(pid), [], Go);
        run := run + [Run(0, Go)];
        restarting := restarting - {pid};
        assert restarting == old(restarting);
        return;
      }
      var spec := children[pid];
      match spec.strategy
      case RestartAll =>
        var group, run1 := Snapshot(pid, s, op, run);
        var run2 := MarkAll(group, s, op, run1);
        tasks, run := SpawnAll(group, s, op, run2);
        all := group;
      case RestartOne =>
        tasks := [StartTask(pid, spec)];
        all := [(pid, spec)];
        assert [] + tasks == tasks;
    }

    /** The iteration over `children`, in whatever order the map yields it. */
    method Snapshot(pid: Pid, ghost s: Sup, ghost op: Op, ghost run0: seq<Label>)
      returns (all: Group, ghost run: seq<Label>)
      requires Solo(s, op, run0, View(), NotifyIterate(pid), [])
      ensures RL.Lists(all, children)
      ensures Solo(s, op, run, View(), NotifyMarkAll([], all), [])
    {
      run := run0;
      SoloStep(s, op, run, View(), NotifyIterate(pid), [], Go);
      run := run + [Run(0, Go)];
      all := [];
      var todo := children.Keys;
      while todo != {}
        invariant todo <= children.Keys
        invariant Members(all) == children.Keys - todo
        invariant RL.Distinct(all) && forall e <- all :: e.0 in children && e.1 == children[e.0]
        invariant Solo(s, op, run, View(), NotifyCollect(pid, todo, all), [])
        decreases todo
      {
        var p :| p in todo;
        SoloStep(s, op, run, View(), NotifyCollect(pid, todo, all), [], Visit(p));
        run := run + [Run(0, Visit(p))];
        MembersSnoc(all, (p, children[p]));
        all := all + [(p, children[p])];
        todo := todo - {p};
      }
      SoloStep(s, op, run, View(), NotifyCollect(pid, todo, all), [], Go);
      run := run + [Run(0, Go)];
    }

    method MarkAll(all: Group, ghost s: Sup, ghost op: Op, ghost run0: seq<Label>) returns (ghost run: seq<Label>)
      requires Solo(s, op, run0, View(), NotifyMarkAll([], all), [])
      modifies this
      ensures View() == old(View()).(restarting := old(restarting) + Members(all))
      ensures Solo(s, op, run, View(), NotifySpawn(all), [])
    {
      run := run0;
      assert all[..0] == [] && all[0..] == all;
      var i := 0;
      while i < |all|
        invariant 0 <= i <= |all|
        invariant View() == old(View()).(restarting := old(restarting) + Members(all[..i]))
        invariant Solo(s, op, run, View(), NotifyMarkAll(all[..i], all[i..]), [])
      {
        SoloStep(s, op, run, View(), NotifyMarkAll(all[..i], all[i..]), [], Go);
        run := run + [Run(0, Go)];
        assert all[i..][0] == all[i] && all[i..][1..] == all[i + 1..] && all[..i] + [all[i]] == all[..i + 1];
        MembersSnoc(all[..i], all[i]);
        restarting := restarting + {all[i].0};
        i := i + 1;
      }
      assert all[..i] == all && all[i..] == [];
      SoloStep(s, op, run, View(), NotifyMarkAll(all, []), [], Go);
      run := run + [Run(0, Go)];
    }

    method SpawnAll(all: Group, ghost s: Sup, ghost op: Op, ghost run0: seq<Label>)
      returns (tasks: seq<Op>, ghost run: seq<Label>)
      requires Solo(s, op, run0, View(), NotifySpawn(all), [])
      ensures tasks == Tasks(all)
      ensures Solo(s, op, run, View(), Done, tasks)
    {
      run, tasks := run0, [];
      var i := 0;
      assert all[0..] == all;
      while i < |all|
        invariant 0 <= i <= |all|
        invariant tasks == Tasks(all[..i])
        invariant Solo(s, op, run, View(), NotifySpawn(all[i..]), tasks)
      {
        SoloStep(s, op, run, View(), NotifySpawn(all[i..]), tasks, Go);
        run := run + [Run(0, Go)];
        assert all[i..][0] == all[i] && all[i..][1..] == all[i + 1..];
        assert all[..i + 1][..i] == all[..i];
        tasks := tasks + [StartTask(all[i].0, all[i].1)];
        i := i + 1;
      }
      assert all[..i] == all && all[i..] == [];
      SoloStep(s, op, run, View(), NotifySpawn([]), tasks, Go);
      run := run + [Run(0, Go)];
      assert tasks + [] == tasks;
    }

    /** One spawned task: at most three calls of the factory, 100 then 200 ms apart, one
        error logged per failed call; then the child is swapped or dropped, its links are
        cleaned up and it is unmarked. */
    method RestartTask(orig: Pid, spec: ChildSpec, factory: nat -> Outcome)
      returns (waits: seq<nat>, ghost run: seq<Label>)
      requires spec.factory.Constant? ==> forall k :: factory(k) == Ok(spec.factory.same)
      modifies this
      ensures var f := Failures(factory);
        && waits == [100, 200][..if f < 2 then f else 2]
        && errors == old(errors) + Logged(factory, f)
        && children == (if f < 3 then old(children)[factory(f).pid := spec] else old(children)) - {orig}
      ensures var f := Failures(factory);
        |errors| == |old(errors)| + f && forall k :: 0 <= k < f ==> errors[|old(errors)| + k] == factory(k).msg
      ensures links == L.Cleanup(old(links), orig) && restarting == old(restarting) - {orig}
      ensures Solo(old(View()), StartTask(orig, spec), run, View(), Done, [])
      ensures Answered(run) == Calls(factory, if Failures(factory) < 3 then Failures(factory) + 1 else 3)
    {
      ghost var s := View();
      var swapped;
      swapped, waits, run := Respawn(orig, spec, factory);
      run := Retire(orig, swapped, s, StartTask(orig, spec), run);
    }

    /** The retry loop, up to the insertion of the new child or the third failure. */
    method Respawn(orig: Pid, spec: ChildSpec, factory: nat -> Outcome)
      returns (swapped: bool, waits: seq<nat>, ghost run: seq<Label>)
      requires spec.factory.Constant? ==> forall k :: factory(k) == Ok(spec.factory.same)
      modifies this
      ensures var f := Failures(factory);
        && swapped == (f < 3)
        && waits == [100, 200][..if f < 2 then f else 2]
        && View() == old(View()).(errors := old(errors) + Logged(factory, f),
                                  children := if f < 3 then old(children)[factory(f).pid := spec] else old(children))
      ensures Solo(old(View()), StartTask(orig, spec), run, View(), TaskRemove(orig, swapped), [])
      ensures Answered(run) == Calls(factory, if swapped then Failures(factory) + 1 else 3)
    {
      ghost var s, op := View(), StartTask(orig, spec);
      var attempts, backoff := 0, FIRST_BACKOFF;
      waits, run, swapped := [], [], false;
      TriedStart(s, spec, factory);
      while !swapped && attempts < MAX_ATTEMPTS
        invariant attempts <= 3 && Tried(s, View(), spec, factory, attempts, swapped, run)
        invariant !swapped && attempts < MAX_ATTEMPTS ==> backoff == [100, 200, 400][attempts]
        invariant Solo(s, op, run, View(),
                       if swapped then TaskRemove(orig, true) else After(orig, spec, attempts, backoff), [])
        invariant waits == [100, 200][..if attempts < 2 then attempts else 2]
        decreases !swapped, MAX_ATTEMPTS - attempts
      {
        ghost var v, run0 := View(), run;
        swapped, run := Attempt(orig, spec, factory(attempts), attempts, backoff, s, op, run);
        TriedOnce(s, v, View(), spec, factory, attempts, run0, run);
        if !swapped {
          attempts := attempts + 1;
          if attempts < MAX_ATTEMPTS {
            waits := waits + [backoff];
            backoff := DoubleSat(backoff);
          }
        }
      }
      TriedAll(s, View(), spec, factory, attempts, swapped, run);
    }

    /** One call of the factory, which returned `r`: its pid becomes a child, or its message is logged. */
    method Attempt(orig: Pid, spec: ChildSpec, r: Outcome, attempts: nat, backoff: nat,
                   ghost s: Sup, ghost op: Op, ghost run0: seq<Label>)
      returns (swapped: bool, ghost run: seq<Label>)
      requires attempts < MAX_ATTEMPTS && (spec.factory.Constant? ==> r == Ok(spec.factory.same))
      requires Solo(s, op, run0, View(), TaskCall(orig, spec, attempts, backoff), [])
      modifies this`children, this`errors
      ensures swapped == r.Ok? && Answered(run) == Answered(run0) + [r]
      ensures r.Ok? ==> children == old(children)[r.pid := spec] && errors == old(errors)
      ensures r.Err? ==> children == old(children) && errors == old(errors) + [r.msg]
      ensures Solo(s, op, run, View(),
                   if swapped then TaskRemove(orig, true) else After(orig, spec, attempts + 1, DoubleSat(backoff)), [])
    {
      TaskStep(s, op, run0, View(), TaskCall(orig, spec, attempts, backoff), Returned(r));
      run := run0 + [Run(0, Returned(r))];
      match r
      case Ok(newPid) =>
        TaskStep(s, op, run, View(), TaskInsert(orig, spec, newPid), Go);
        run := run + [Run(0, Go)];
        children := children[newPid := spec];
        swapped := true;
      case Err(msg) =>
        run := LogFailure(orig, spec, attempts + 1, backoff, msg, s, op, run);
        swapped := false;
    }

    /** Records a failed call; unless it was the last, it sleeps and starts over. */
    method LogFailure(orig: Pid, spec: ChildSpec, attempts: nat, backoff: nat, msg: string,
                      ghost s: Sup, ghost op: Op, ghost run0: seq<Label>)
      returns (ghost run: seq<Label>)
      requires Solo(s, op, run0, View(), TaskFail(orig, spec, attempts, backoff, msg), [])
      modifies this`errors
      ensures errors == old(errors) + [msg]
      ensures Solo(s, op, run, View(), After(orig, spec, attempts, DoubleSat(backoff)), [])
      ensures Answered(run) == Answered(run0)
    {
      TaskStep(s, op, run0, View(), TaskFail(orig, spec, attempts, backoff, msg), Go);
      run := run0 + [Run(0, Go)];
      errors := errors + [msg];
      if attempts < MAX_ATTEMPTS {
        TaskStep(s, op, run, View(), TaskSleep(orig, spec, attempts, backoff), Go);
        run := run + [Run(0, Go)];
      }
    }

    /** The tail shared by success and permanent failure. */
    method Retire(orig: Pid, swapped: bool, ghost s: Sup, ghost op: Op, ghost run0: seq<Label>)
      returns (ghost run: seq<Label>)
      requires Solo(s, op, run0, View(), TaskRemove(orig, swapped), [])
      modifies this
      ensures View() == Sup(old(children) - {orig}, old(errors), L.Cleanup(old(links), orig), old(restarting) - {orig})
      ensures Solo(s, op, run, View(), Done, []) && Answered(run) == Answered(run0)
    {
      TaskStep(s, op, run0, View(), TaskRemove(orig, swapped), Go);
      run := run0 + [Run(0, Go)];
      children := children - {orig};
      run := RetireLinks(orig, s, op, run);
      TaskStep(s, op, run, View(), TaskUnmark(orig), Go);
      run := run + [Run(0, Go)];
      restarting := restarting - {orig};
    }

    method RetireLinks(orig: Pid, ghost s: Sup, ghost op: Op, ghost run0: seq<Label>) returns (ghost run: seq<Label>)
      requires Solo(s, op, run0, View(), TaskUnlink(orig), [])
      modifies this`links
      ensures links == L.Cleanup(old(links), orig)
      ensures Solo(s, op, run, View(), TaskUnmark(orig), []) && Answered(run) == Answered(run0)
    {
      TaskStep(s, op, run0, View(), TaskUnlink(orig), Go);
      run := run0 + [Run(0, Go)];
      if orig in links {
        var peers := links[orig];
        links := links - {orig};
        var i := 0;
        while i < |peers|
          invariant 0 <= i <= |peers|
          invariant L.Clean(links, peers[i..], orig) == L.Cleanup(old(links), orig)
          invariant Solo(s, op, run, View(), TaskClean(orig, peers[i..]), []) && Answered(run) == Answered(run0)
        {
          TaskStep(s, op, run, View(), TaskClean(orig, peers[i..]), Go);
          assert peers[i..][0] == peers[i] && peers[i..][1..] == peers[i + 1..];
          if peers[i] in links {
            links := links[peers[i] := L.Retain(links[peers[i]], orig)];
          }
          run := run + [Run(0, Go)];
          i := i + 1;
        }
        TaskStep(s, op, run, View(), TaskClean(orig, []), Go);
        run := run + [Run(0, Go)];
      } else {
        assert links - {orig} == links;
      }
    }
  }
}
