// src/supervisor.rs as a step machine. Every operation is cut at its accesses to the
// shared concurrent maps; any number of operations and restart tasks interleave at
// that grain.
module SupervisorSteps {
  import opened Pids
  import L = Links

  datatype Strategy = RestartOne | RestartAll

  /** `Constant` is the factory built by `watch`; any other factory is an oracle. */
  datatype Factory = Respawn(id: nat) | Constant(same: Pid)

  datatype ChildSpec = ChildSpec(factory: Factory, strategy: Strategy)

  datatype Outcome = Ok(pid: Pid) | Err(msg: string)

  /** The shared state: the four maps and lists of the supervisor. */
  datatype Sup = Sup(
    children: map<Pid, ChildSpec>,
    errors: seq<string>,
    links: L.LinkMap,
    restarting: set<Pid>)

  const EMPTY := Sup(map[], [], map[], {})

  type Group = seq<(Pid, ChildSpec)>

  function Members(g: Group): set<Pid> {
    set e | e in g :: e.0
  }

  const MAX_ATTEMPTS: nat := 3
  const FIRST_BACKOFF: nat := 100

  /** `u64::saturating_mul(2)`. */
  function DoubleSat(ms: nat): nat {
    if 2 * ms < WORD * WORD then 2 * ms else WORD * WORD - 1
  }

  /** An operation in flight, named by the shared access it performs next. */
  datatype Op =
    | Done
    // notify_exit
    | NotifyMark(pid: Pid)
    | NotifyLookup(pid: Pid)
    | NotifyUnmark(pid: Pid)
    | NotifyIterate(pid: Pid)
    | NotifyCollect(pid: Pid, todo: set<Pid>, all: Group)
    | NotifyMarkAll(marked: Group, unmarked: Group)
    | NotifySpawn(group: Group)
    // the spawned restart task
    | TaskCall(orig: Pid, spec: ChildSpec, attempts: nat, backoff: nat)
    | TaskFail(orig: Pid, spec: ChildSpec, attempts: nat, backoff: nat, err: string)
    | TaskSleep(orig: Pid, spec: ChildSpec, attempts: nat, backoff: nat)
    | TaskInsert(orig: Pid, spec: ChildSpec, newPid: Pid)
    | TaskRemove(orig: Pid, swapped: bool)
    | TaskUnlink(orig: Pid)
    | TaskClean(orig: Pid, rest: seq<Pid>)
    | TaskUnmark(orig: Pid)
    // unwatch, and remove_child when andLinks
    | Forget(pid: Pid, andLinks: bool)
    | ForgetMark(pid: Pid, andLinks: bool)
    // cleanup_links_internal and linked_pids
    | TakeLinks(pid: Pid)
    | CleanLinks(pid: Pid, rest: seq<Pid>)
    // add_child and watch, link, unlink
    | AddChild(pid: Pid, spec: ChildSpec)
    | PushLink(a: Pid, b: Pid, andBack: bool)
    | DropLink(a: Pid, b: Pid, andBack: bool)

  /** What the environment decides at a step: which entry an iteration reaches next, and
      what a factory call returns. */
  datatype Choice = Go | Visit(p: Pid) | Returned(r: Outcome)

  /** The iteration of `children` yields every key present throughout; keys removed or
      inserted meanwhile may or may not be yielded. */
  predicate Enabled(s: Sup, op: Op, c: Choice) {
    match op
    case Done => false
    case NotifyCollect(_, todo, all) =>
      if c.Visit? then c.p in todo || (c.p in s.children && c.p !in Members(all))
      else c.Go? && todo == {}
    case TaskCall(_, spec, _, _) =>
      c.Returned? && (spec.factory.Constant? ==> c.r == Ok(spec.factory.same))
    case _ => c.Go?
  }

  datatype Result = Result(sup: Sup, op: Op, spawned: seq<Op>)

  function StartTask(p: Pid, spec: ChildSpec): Op {
    TaskCall(p, spec, 0, FIRST_BACKOFF)
  }

  /** One shared access of `op`, the operation it continues as, and the tasks it spawns. */
  function Next(s: Sup, op: Op, c: Choice): Result
    requires Enabled(s, op, c)
  {
    match op
    case NotifyMark(p) =>
      if p in s.restarting then Result(s, Done, [])
      else Result(s.(restarting := s.restarting + {p}), NotifyLookup(p), [])
    case NotifyLookup(p) =>
      if p !in s.children then Result(s, NotifyUnmark(p), [])
      else if s.children[p].strategy.RestartOne? then Result(s, Done, [StartTask(p, s.children[p])])
      else Result(s, NotifyIterate(p), [])
    case NotifyUnmark(p) =>
      Result(s.(restarting := s.restarting - {p}), Done, [])
    case NotifyIterate(p) =>
      Result(s, NotifyCollect(p, s.children.Keys, []), [])
    case NotifyCollect(p, todo, all) =>
      if c.Go? then Result(s, NotifyMarkAll([], all), [])
      else
        var all' := if c.p in s.children && c.p !in Members(all) then all + [(c.p, s.children[c.p])] else all;
        Result(s, NotifyCollect(p, todo - {c.p}, all'), [])
    case NotifyMarkAll(marked, unmarked) =>
      if unmarked == [] then Result(s, NotifySpawn(marked), [])
      else
        Result(s.(restarting := s.restarting + {unmarked[0].0}),
               NotifyMarkAll(marked + [unmarked[0]], unmarked[1..]), [])
    case NotifySpawn(group) =>
      if group == [] then Result(s, Done, [])
      else Result(s, NotifySpawn(group[1..]), [StartTask(group[0].0, group[0].1)])
    case TaskCall(o, spec, k, ms) =>
      (match c.r
       case Ok(n) => Result(s, TaskInsert(o, spec, n), [])
       case Err(e) => Result(s, TaskFail(o, spec, k + 1, ms, e), []))
    case TaskFail(o, spec, k, ms, e) =>
      Result(s.(errors := s.errors + [e]),
             if k >= MAX_ATTEMPTS then TaskRemove(o, false) else TaskSleep(o, spec, k, ms), [])
    case TaskSleep(o, spec, k, ms) =>
      Result(s, TaskCall(o, spec, k, DoubleSat(ms)), [])
    case TaskInsert(o, spec, n) =>
      Result(s.(children := s.children[n := spec]), TaskRemove(o, true), [])
    case TaskRemove(o, _) =>
      Result(s.(children := s.children - {o}), TaskUnlink(o), [])
    case TaskUnlink(o) =>
      Result(s.(links := s.links - {o}),
             if o in s.links then TaskClean(o, s.links[o]) else TaskUnmark(o), [])
    case TaskClean(o, rest) =>
      if rest == [] then Result(s, TaskUnmark(o), [])
      else Result(s.(links := L.RetainAt(s.links, rest[0], o)), TaskClean(o, rest[1..]), [])
    case TaskUnmark(o) =>
      Result(s.(restarting := s.restarting - {o}), Done, [])
    case Forget(p, andLinks) =>
      Result(s.(children := s.children - {p}), ForgetMark(p, andLinks), [])
    case ForgetMark(p, andLinks) =>
      Result(s.(restarting := s.restarting - {p}), if andLinks then TakeLinks(p) else Done, [])
    case TakeLinks(p) =>
      Result(s.(links := s.links - {p}), if p in s.links then CleanLinks(p, s.links[p]) else Done, [])
    case CleanLinks(p, rest) =>
      if rest == [] then Result(s, Done, [])
      else Result(s.(links := L.RetainAt(s.links, rest[0], p)), CleanLinks(p, rest[1..]), [])
    case AddChild(p, spec) =>
      Result(s.(children := s.children[p := spec]), Done, [])
    case PushLink(a, b, andBack) =>
      Result(s.(links := L.Push(s.links, a, b)), if andBack then PushLink(b, a, false) else Done, [])
    case DropLink(a, b, andBack) =>
      Result(s.(links := L.RetainAt(s.links, a, b)), if andBack then DropLink(b, a, false) else Done, [])
  }

  // Interleavings.

  datatype World = World(sup: Sup, ops: seq<Op>)

  /** Either somebody calls the supervisor, or operation `i` takes its next step. */
  datatype Label = Call(op: Op) | Run(i: nat, c: Choice)

  /** The public operations, at their entry points. */
  predicate IsEntry(op: Op) {
    op.NotifyMark? || op.Forget? || op.TakeLinks? || op.AddChild? ||
    (op.PushLink? && op.andBack) || (op.DropLink? && op.andBack)
  }

  predicate Ready(w: World, l: Label) {
    match l
    case Call(op) => IsEntry(op)
    case Run(i, c) => i < |w.ops| && Enabled(w.sup, w.ops[i], c)
  }

  /** A label that is not ready changes nothing, so every label sequence is a run. */
  function Step(w: World, l: Label): World {
    if !Ready(w, l) then w
    else
      match l
      case Call(op) => World(w.sup, w.ops + [op])
      case Run(i, c) =>
        var r := Next(w.sup, w.ops[i], c);
        World(r.sup, w.ops[i := r.op] + r.spawned)
  }

  function Exec(w: World, run: seq<Label>): World {
    if run == [] then w else Step(Exec(w, run[..|run| - 1]), run[|run| - 1])
  }

  predicate Quiescent(w: World) {
    forall i :: 0 <= i < |w.ops| ==> w.ops[i] == Done
  }

  lemma ExecSnoc(w: World, run: seq<Label>, l: Label)
    ensures Exec(w, run + [l]) == Step(Exec(w, run), l)
  {
    assert (run + [l])[..|run|] == run;
  }

  lemma {:induction false} ExecConcat(w: World, a: seq<Label>, b: seq<Label>)
    ensures Exec(w, a + b) == Exec(Exec(w, a), b)
  {
    if b == [] {
      assert a + b == a;
    } else {
      var b' := b[..|b| - 1];
      ExecConcat(w, a, b');
      assert (a + b)[..|a + b| - 1] == a + b';
    }
  }
}
