// Which child replaces which. The runs here are those in which each pid is added once,
// factories return fresh pids, a child is not removed while it is marked, and a RestartAll
// notification takes its snapshot and marks it in one step while no other child is
// marked. Everything else interleaves freely: RestartOne notifications and all restart
// tasks step by step, duplicate and late exit reports of any pid at any time, later
// waves, unwatch and remove_child of idle children, link traffic.
module RestartLineage {
  import opened Pids
  import opened SupervisorSteps
  import MO = MarkOwnership

  /** A run so far, with what it did. */
  datatype History = History(
    w: World,
    used: set<Pid>,             // every pid added or returned by a factory
    born: set<Pid>,             // every pid that has been a child
    added: map<Pid, ChildSpec>, // what clients put under supervision
    root: map<Pid, Pid>,        // the added pid that a used pid descends from
    cur: map<Pid, Pid>,         // current incarnation of each added pid not dropped
    dropped: set<Pid>,          // added pids given up after three failed calls
    removed: set<Pid>,          // added pids whose incarnation a client removed
    replaced: seq<Pid>,         // the pid replaced by each successful factory call
    heir: map<Pid, Pid>)        // the pid that replaced it

  const START := History(World(EMPTY, []), {}, {}, map[], map[], map[], {}, {}, [], map[])

  datatype Event =
    | Report(p: Pid)
    | Add(p: Pid, spec: ChildSpec)
    | ClientCall(op: Op) // unwatch, remove_child and the link operations
    | Micro(i: nat, c: Choice)
    | Wave(i: nat, all: Group)

  predicate Distinct(g: Group) {
    forall a, b :: 0 <= a < b < |g| ==> g[a].0 != g[b].0
  }

  /** `all` lists `children`, each entry once, in some order. */
  predicate Lists(all: Group, children: map<Pid, ChildSpec>) {
    && Distinct(all)
    && Members(all) == children.Keys
    && forall e <- all :: e.0 in children && e.1 == children[e.0]
  }

  predicate FoundRestartAll(s: Sup, op: Op) {
    op.NotifyLookup? && op.pid in s.children && s.children[op.pid].strategy.RestartAll?
  }

  /** A removal that hits a pid being restarted or looked up. */
  predicate ForgetsMarked(s: Sup, op: Op) {
    (op.Forget? || op.ForgetMark?) && op.pid in s.restarting
  }

  predicate Allowed(h: History, e: Event) {
    var s := h.w.sup;
    match e
    case Report(_) => true
    case Add(p, spec) => p !in h.used
    case ClientCall(op) => IsEntry(op) && (op.Forget? || op.TakeLinks? || op.PushLink? || op.DropLink?)
    case Micro(i, c) =>
      && Ready(h.w, Run(i, c))
      && !FoundRestartAll(s, h.w.ops[i])
      && !ForgetsMarked(s, h.w.ops[i])
      && (h.w.ops[i].TaskCall? && c.r.Ok? ==> c.r.pid !in h.used)
    case Wave(i, all) =>
      && i < |h.w.ops| && FoundRestartAll(s, h.w.ops[i])
      && Lists(all, s.children)
      && s.children.Keys * s.restarting == {h.w.ops[i].pid}
  }

  function WaveWorld(w: World, i: nat, all: Group): World
    requires i < |w.ops|
  {
    World(w.sup.(restarting := w.sup.restarting + Members(all)), w.ops[i := NotifySpawn(all)])
  }

  function Apply(h: History, e: Event): History {
    if !Allowed(h, e) then h
    else
      match e
      case Report(p) => h.(w := Step(h.w, Call(NotifyMark(p))))
      case Add(p, spec) =>
        h.(w := World(h.w.sup.(children := h.w.sup.children[p := spec]), h.w.ops + [Done]),
           used := h.used + {p}, born := h.born + {p}, added := h.added[p := spec],
           root := h.root[p := p], cur := h.cur[p := p])
      case ClientCall(op) => h.(w := Step(h.w, Call(op)))
      case Micro(i, c) => Note(h, h.w.ops[i], c).(w := Step(h.w, Run(i, c)))
      case Wave(i, all) => h.(w := WaveWorld(h.w, i, all))
  }

  /** The bookkeeping of one step of `op`. */
  function Note(h: History, op: Op, c: Choice): History {
    match op
    case TaskCall(o, _, _, _) =>
      if c.Returned? && c.r.Ok? then
        h.(used := h.used + {c.r.pid}, replaced := h.replaced + [o], heir := h.heir[o := c.r.pid],
           root := if o in h.root then h.root[c.r.pid := h.root[o]] else h.root)
      else h
    case TaskInsert(o, _, n) =>
      h.(born := h.born + {n}, cur := if o in h.root then h.cur[h.root[o] := n] else h.cur)
    case TaskRemove(o, swapped) =>
      if !swapped && o in h.root then h.(cur := h.cur - {h.root[o]}, dropped := h.dropped + {h.root[o]}) else h
    case Forget(p, _) =>
      if p in h.w.sup.children && p in h.root then
        h.(cur := h.cur - {h.root[p]}, removed := h.removed + {h.root[p]})
      else h
    case _ => h
  }

  function ApplyAll(h: History, es: seq<Event>): History {
    if es == [] then h else Apply(ApplyAll(h, es[..|es| - 1]), es[|es| - 1])
  }

  // Marks: each marked pid has exactly one holder.

  /** `op` is about to decide on, restart or unmark `p`. In these runs a removal finds no mark. */
  predicate Holds(op: Op, p: Pid) {
    MO.Owns(op, p, map[]) && !op.ForgetMark?
  }

  /** The operations that occur in these runs. */
  predicate Kind(op: Op) {
    !(op.NotifyIterate? || op.NotifyCollect? || op.NotifyMarkAll? || op.AddChild?)
  }

  ghost predicate Kinds(w: World) {
    forall i :: 0 <= i < |w.ops| ==> Kind(w.ops[i]) && (w.ops[i].NotifySpawn? ==> Distinct(w.ops[i].group))
  }

  ghost predicate HeldAreMarked(w: World) {
    forall i, p :: 0 <= i < |w.ops| && Holds(w.ops[i], p) ==> p in w.sup.restarting
  }

  ghost predicate Held(w: World, p: Pid) {
    exists i :: 0 <= i < |w.ops| && Holds(w.ops[i], p)
  }

  ghost predicate MarkedAreHeld(w: World) {
    forall p <- w.sup.restarting :: Held(w, p)
  }

  ghost predicate OneHolder(w: World) {
    forall i, j, p :: 0 <= i < j < |w.ops| && Holds(w.ops[i], p) ==> !Holds(w.ops[j], p)
  }

  ghost predicate Marks(w: World) {
    Kinds(w) && HeldAreMarked(w) && MarkedAreHeld(w) && OneHolder(w)
  }

  /** The operations after a step: `op` at `i`, at most one more at the end. */
  ghost predicate Updates(ops': seq<Op>, ops: seq<Op>, i: nat, op: Op, spawned: seq<Op>) {
    && i < |ops| && |spawned| <= 1 && |ops'| == |ops| + |spawned|
    && ops'[i] == op
    && (|spawned| == 1 ==> ops'[|ops|] == spawned[0])
    && forall j :: 0 <= j < |ops| && j != i ==> ops'[j] == ops[j]
  }

  lemma StepUpdates(w: World, i: nat, c: Choice)
    requires Ready(w, Run(i, c))
    ensures var r := Next(w.sup, w.ops[i], c);
      Updates(Step(w, Run(i, c)).ops, w.ops, i, r.op, r.spawned)
  {
  }

  /** A step creates no holder, but for a notification that just set the mark; a spawned
      task takes its pid over from its spawner; who unmarks holds. */
  lemma HolderStep(s: Sup, op: Op, c: Choice, p: Pid)
    requires Enabled(s, op, c) && Kind(op) && !FoundRestartAll(s, op) && !ForgetsMarked(s, op)
    requires op.NotifySpawn? ==> Distinct(op.group)
    ensures var r := Next(s, op, c);
      && Kind(r.op) && (r.op.NotifySpawn? ==> Distinct(r.op.group))
      && |r.spawned| <= 1 && (forall o <- r.spawned :: Kind(o) && !o.NotifySpawn?)
      && (Holds(r.op, p) ==> !(|r.spawned| == 1 && Holds(r.spawned[0], p)))
      && (p in s.restarting && p !in r.sup.restarting ==> Holds(op, p) && !Holds(r.op, p) && r.spawned == [])
      && (Holds(r.op, p) && !Holds(op, p) ==> p in r.sup.restarting && p !in s.restarting)
      && (|r.spawned| == 1 && Holds(r.spawned[0], p) ==> Holds(op, p))
  {
    if op.NotifySpawn? && op.group != [] {
      assert op.group == [op.group[0]] + op.group[1..];
      assert forall x :: x in op.group[1..] ==> x in op.group;
    }
  }

  /** Who holds goes on holding, or hands over, or unmarks; who marks holds. */
  lemma HeldStep(s: Sup, op: Op, c: Choice, p: Pid)
    requires Enabled(s, op, c) && Kind(op) && !FoundRestartAll(s, op)
    ensures var r := Next(s, op, c);
      && (p in r.sup.restarting && p !in s.restarting ==> Holds(r.op, p))
      && (Holds(op, p) && p in r.sup.restarting ==> Holds(r.op, p) || (|r.spawned| == 1 && Holds(r.spawned[0], p)))
  {
    if op.NotifySpawn? && op.group != [] {
      assert op.group == [op.group[0]] + op.group[1..];
    }
  }

  lemma MicroKeepsHeld(w: World, i: nat, c: Choice, p: Pid)
    requires Kinds(w) && MarkedAreHeld(w) && Ready(w, Run(i, c)) && !FoundRestartAll(w.sup, w.ops[i])
    requires p in Step(w, Run(i, c)).sup.restarting
    ensures Held(Step(w, Run(i, c)), p)
  {
    var r, w' := Next(w.sup, w.ops[i], c), Step(w, Run(i, c));
    StepUpdates(w, i, c);
    HeldStep(w.sup, w.ops[i], c, p);
    assert Holds(r.op, p) ==> Holds(w'.ops[i], p);
    assert |r.spawned| == 1 && Holds(r.spawned[0], p) ==> Holds(w'.ops[|w.ops|], p);
    if p in w.sup.restarting {
      assert Held(w, p);
      var j :| 0 <= j < |w.ops| && Holds(w.ops[j], p);
      assert j != i ==> Holds(w'.ops[j], p);
    }
  }

  lemma MicroKeepsMarks(w: World, i: nat, c: Choice)
    requires Marks(w) && Ready(w, Run(i, c)) && !FoundRestartAll(w.sup, w.ops[i]) && !ForgetsMarked(w.sup, w.ops[i])
    ensures Marks(Step(w, Run(i, c)))
  {
    var r, w' := Next(w.sup, w.ops[i], c), Step(w, Run(i, c));
    StepUpdates(w, i, c);
    HolderStep(w.sup, w.ops[i], c, 0);
    forall j, p | 0 <= j < |w'.ops| && Holds(w'.ops[j], p)
      ensures p in w'.sup.restarting
    {
      HolderStep(w.sup, w.ops[i], c, p);
    }
    forall j, k, p | 0 <= j < k < |w'.ops| && Holds(w'.ops[j], p)
      ensures !Holds(w'.ops[k], p)
    {
      HolderStep(w.sup, w.ops[i], c, p);
      assert j < |w.ops|;
    }
    forall p | p in w'.sup.restarting
      ensures Held(w', p)
    {
      MicroKeepsHeld(w, i, c, p);
    }
  }

  lemma WaveKeepsMarks(w: World, i: nat, all: Group)
    requires Marks(w)
    requires i < |w.ops| && FoundRestartAll(w.sup, w.ops[i])
    requires Lists(all, w.sup.children)
    requires w.sup.children.Keys * w.sup.restarting == {w.ops[i].pid}
    ensures Marks(WaveWorld(w, i, all))
  {
    var w' := WaveWorld(w, i, all);
    forall j, p | 0 <= j < |w.ops| && p in w.sup.children && Holds(w.ops[j], p)
      ensures j == i
    {
      assert p in w.sup.children.Keys * w.sup.restarting;
      assert Holds(w.ops[i], p);
    }
    forall p | p in w'.sup.restarting
      ensures Held(w', p)
    {
      WaveKeepsHeld(w, i, all, p);
    }
  }

  lemma WaveKeepsHeld(w: World, i: nat, all: Group, p: Pid)
    requires MarkedAreHeld(w) && i < |w.ops| && w.ops[i].NotifyLookup? && w.ops[i].pid in Members(all)
    requires p in w.sup.restarting + Members(all)
    ensures Held(WaveWorld(w, i, all), p)
  {
    var w' := WaveWorld(w, i, all);
    if p in Members(all) {
      assert Holds(w'.ops[i], p);
    } else {
      assert Held(w, p);
      var j :| 0 <= j < |w.ops| && Holds(w.ops[j], p);
      assert Holds(w'.ops[j], p);
    }
  }

  lemma AppendKeepsMarks(w: World, w': World, op: Op)
    requires Marks(w) && w'.ops == w.ops + [op] && w'.sup.restarting == w.sup.restarting
    requires op == Done || op.NotifyMark? || op.TakeLinks? || op.PushLink? || op.DropLink? || op.Forget?
    ensures Marks(w')
  {
    forall p | p in w'.sup.restarting
      ensures Held(w', p)
    {
      assert Held(w, p);
      var j :| 0 <= j < |w.ops| && Holds(w.ops[j], p);
      assert Holds(w'.ops[j], p);
    }
  }

  lemma ApplyKeepsMarks(h: History, e: Event)
    requires Marks(h.w)
    ensures Marks(Apply(h, e).w)
  {
    if Allowed(h, e) {
      var w' := Apply(h, e).w;
      match e
      case Report(p) => AppendKeepsMarks(h.w, w', NotifyMark(p));
      case Add(_, _) => AppendKeepsMarks(h.w, w', Done);
      case ClientCall(op) => AppendKeepsMarks(h.w, w', op);
      case Micro(i, c) => MicroKeepsMarks(h.w, i, c);
      case Wave(i, all) => WaveKeepsMarks(h.w, i, all);
    }
  }

  // Children.

  predicate Current(h: History, p: Pid) {
    p in h.root && h.root[p] in h.cur && h.cur[h.root[p]] == p
  }

  ghost predicate Retiring(w: World, p: Pid) {
    exists i :: 0 <= i < |w.ops| && w.ops[i] == TaskRemove(p, true)
  }

  ghost predicate Swapping(w: World, p: Pid) {
    exists i :: 0 <= i < |w.ops| && (w.ops[i] == TaskRemove(p, true) || (w.ops[i].TaskInsert? && w.ops[i].orig == p))
  }

  /** What an operation in flight knows of the children and their lineage. */
  predicate Local(h: History, op: Op) {
    var children := h.w.sup.children;
    match op
    case NotifySpawn(g) => forall e <- g :: e.0 in children && children[e.0] == e.1
    case TaskCall(o, spec, _, _) => o in children && children[o] == spec
    case TaskFail(o, spec, _, _, _) => o in children && children[o] == spec
    case TaskSleep(o, spec, _, _) => o in children && children[o] == spec
    case TaskInsert(o, spec, n) =>
      && o in children && children[o] == spec
      && n in h.used && n !in h.born && n in h.root && o in h.root && h.root[n] == h.root[o]
    case TaskRemove(o, swapped) => o in children && (swapped ==> !Current(h, o))
    case TaskUnlink(o) => o !in children && o in h.born
    case TaskClean(o, _) => o !in children && o in h.born
    case TaskUnmark(o) => o !in children && o in h.born
    case _ => true
  }

  ghost predicate Locals(h: History) {
    && (forall i :: 0 <= i < |h.w.ops| ==> Local(h, h.w.ops[i]))
    && (forall i, j :: 0 <= i < j < |h.w.ops| && h.w.ops[i].TaskInsert? && h.w.ops[j].TaskInsert? ==>
          h.w.ops[i].newPid != h.w.ops[j].newPid)
  }

  ghost predicate Bookkeeping(h: History) {
    && h.w.sup.children.Keys <= h.born <= h.used
    && h.added.Keys <= h.used && h.root.Keys <= h.used && h.dropped <= h.added.Keys && h.removed <= h.added.Keys
    && h.dropped !! h.removed && h.cur.Keys == h.added.Keys - h.dropped - h.removed
    && (forall p <- h.root :: h.root[p] in h.added)
  }

  /** Children are descendants with their root's spec, and each current incarnation is a child. */
  ghost predicate Descends(h: History) {
    var children := h.w.sup.children;
    && (forall p <- children :: p in h.root && h.root[p] in h.added && children[p] == h.added[h.root[p]])
    && (forall r <- h.cur :: h.cur[r] in children && h.cur[r] in h.root && h.root[h.cur[r]] == r)
  }

  /** Each child is current or about to be removed. */
  ghost predicate NoStrays(h: History) {
    forall p <- h.w.sup.children :: Current(h, p) || Retiring(h.w, p)
  }

  ghost predicate Lineage(h: History) {
    Descends(h) && NoStrays(h)
  }

  ghost predicate OnceReplaced(h: History) {
    && (forall a, b :: 0 <= a < b < |h.replaced| ==> h.replaced[a] != h.replaced[b])
    && (forall p <- h.replaced :: p in h.born && (p in h.w.sup.children ==> Swapping(h.w, p)))
  }

  ghost predicate Inv(h: History) {
    Marks(h.w) && Bookkeeping(h) && Lineage(h) && Locals(h) && OnceReplaced(h)
  }

  predicate Quiet(op: Op, c: Choice) {
    !(op.TaskInsert? || op.TaskRemove? || op.Forget? || (op.TaskCall? && c.Returned? && c.r.Ok?))
  }

  lemma RetiringElsewhere(w: World, w': World, i: nat, op: Op, spawned: seq<Op>, p: Pid)
    requires Updates(w'.ops, w.ops, i, op, spawned)
    ensures Retiring(w, p) && w.ops[i] != TaskRemove(p, true) ==> Retiring(w', p)
    ensures Swapping(w, p) && !w.ops[i].TaskRemove? && !w.ops[i].TaskInsert? ==> Swapping(w', p)
    ensures Swapping(w, p) && !(Holds(w.ops[i], p) && (w.ops[i].TaskRemove? || w.ops[i].TaskInsert?)) ==>
      Swapping(w', p)
  {
    if Retiring(w, p) && w.ops[i] != TaskRemove(p, true) {
      var j :| 0 <= j < |w.ops| && w.ops[j] == TaskRemove(p, true);
      assert w'.ops[j] == w.ops[j];
    }
    if Swapping(w, p) {
      var j :| 0 <= j < |w.ops| && (w.ops[j] == TaskRemove(p, true) || (w.ops[j].TaskInsert? && w.ops[j].orig == p));
      if j != i {
        assert w'.ops[j] == w.ops[j];
      }
    }
  }

  // Steps that leave the children and the lineage alone.

  lemma QuietNext(h: History, op: Op, c: Choice)
    requires Enabled(h.w.sup, op, c) && Kind(op) && Quiet(op, c) && !FoundRestartAll(h.w.sup, op)
    requires Local(h, op)
    ensures var r := Next(h.w.sup, op, c);
      && r.sup.children == h.w.sup.children && Note(h, op, c) == h
      && Local(h, r.op) && !r.op.TaskInsert?
      && |r.spawned| <= 1 && (forall o <- r.spawned :: Local(h, o) && !o.TaskInsert?)
  {
  }

  lemma LocalSame(h: History, h': History, op: Op)
    requires Local(h, op)
    requires h' == h.(w := h'.w) && h'.w.sup.children == h.w.sup.children
    ensures Local(h', op)
  {
  }

  lemma SameKeeps(h: History, h': History, i: nat, op: Op, spawned: seq<Op>)
    requires Bookkeeping(h) && Lineage(h) && OnceReplaced(h)
    requires h' == h.(w := h'.w) && h'.w.sup.children == h.w.sup.children
    requires Updates(h'.w.ops, h.w.ops, i, op, spawned)
    requires !h.w.ops[i].TaskRemove? && !h.w.ops[i].TaskInsert?
    ensures Bookkeeping(h') && Lineage(h') && OnceReplaced(h')
  {
    forall p | p in h.w.sup.children
      ensures Current(h', p) || Retiring(h'.w, p)
      ensures Swapping(h.w, p) ==> Swapping(h'.w, p)
    {
      RetiringElsewhere(h.w, h'.w, i, op, spawned, p);
    }
  }

  lemma QuietLocals(h: History, h': History, i: nat, op: Op, spawned: seq<Op>)
    requires Locals(h) && h' == h.(w := h'.w) && h'.w.sup.children == h.w.sup.children
    requires Updates(h'.w.ops, h.w.ops, i, op, spawned)
    requires Local(h, op) && !op.TaskInsert? && forall o <- spawned :: Local(h, o) && !o.TaskInsert?
    ensures Locals(h')
  {
    forall j | 0 <= j < |h'.w.ops|
      ensures Local(h', h'.w.ops[j])
    {
      assert Local(h, h'.w.ops[j]);
      LocalSame(h, h', h'.w.ops[j]);
    }
  }

  lemma QuietKeeps(h: History, i: nat, c: Choice)
    requires Inv(h) && Allowed(h, Micro(i, c)) && Quiet(h.w.ops[i], c)
    ensures var h' := Apply(h, Micro(i, c)); Bookkeeping(h') && Lineage(h') && Locals(h') && OnceReplaced(h')
  {
    var h', op := Apply(h, Micro(i, c)), h.w.ops[i];
    var r := Next(h.w.sup, op, c);
    StepUpdates(h.w, i, c);
    assert Local(h, op) && Kind(op);
    QuietNext(h, op, c);
    QuietLocals(h, h', i, r.op, r.spawned);
    SameKeeps(h, h', i, r.op, r.spawned);
  }

  // A factory returns a fresh pid.

  lemma CallLocal(h: History, h': History, op: Op, o: Pid, n: Pid)
    requires Bookkeeping(h) && Lineage(h) && Local(h, op)
    requires o in h.w.sup.children && n !in h.used
    requires h' == h.(w := h'.w, used := h.used + {n}, replaced := h.replaced + [o],
                      root := h.root[n := h.root[o]], heir := h.heir[o := n])
    requires h'.w.sup == h.w.sup
    ensures Local(h', op)
  {
  }

  /** A new pid in `root` leaves the current incarnations as they are. */
  lemma CallCurrent(h: History, h': History, o: Pid, n: Pid, p: Pid)
    requires h.root.Keys <= h.used && n !in h.used && o in h.root
    requires h'.root == h.root[n := h.root[o]] && h'.cur == h.cur
    ensures Current(h, p) ==> Current(h', p)
  {
  }

  lemma CallBooks(h: History, h': History, o: Pid, n: Pid)
    requires Bookkeeping(h) && o in h.root
    requires h' == h.(w := h'.w, used := h.used + {n}, replaced := h.replaced + [o],
                      root := h.root[n := h.root[o]], heir := h.heir[o := n])
    requires h'.w.sup == h.w.sup
    ensures Bookkeeping(h')
  {
  }

  lemma CallLineage(h: History, h': History, i: nat, o: Pid, n: Pid)
    requires Bookkeeping(h) && Lineage(h)
    requires i < |h.w.ops| && h.w.ops[i].TaskCall? && o in h.w.sup.children && n !in h.used
    requires h' == h.(w := h'.w, used := h.used + {n}, replaced := h.replaced + [o],
                      root := h.root[n := h.root[o]], heir := h.heir[o := n])
    requires h'.w.sup == h.w.sup && i < |h'.w.ops| && Updates(h'.w.ops, h.w.ops, i, h'.w.ops[i], [])
    ensures Bookkeeping(h') && Lineage(h')
  {
    CallBooks(h, h', o, n);
    forall p | p in h.w.sup.children
      ensures Current(h', p) || Retiring(h'.w, p)
    {
      assert Current(h, p) || Retiring(h.w, p);
      RetiringElsewhere(h.w, h'.w, i, h'.w.ops[i], [], p);
      CallCurrent(h, h', o, n, p);
    }
  }

  lemma NotSwapping(w: World, i: nat, o: Pid)
    requires OneHolder(w) && i < |w.ops| && w.ops[i].TaskCall? && w.ops[i].orig == o
    ensures !Swapping(w, o)
  {
    assert Holds(w.ops[i], o);
    forall j | 0 <= j < |w.ops| && Holds(w.ops[j], o)
      ensures j == i
    {
    }
    assert forall op :: op == TaskRemove(o, true) || (op.TaskInsert? && op.orig == o) ==> Holds(op, o);
  }

  lemma CallOnce(h: History, h': History, i: nat, spec: ChildSpec, o: Pid, n: Pid)
    requires Marks(h.w) && OnceReplaced(h) && h.w.sup.children.Keys <= h.born
    requires i < |h.w.ops| && h.w.ops[i].TaskCall? && h.w.ops[i].orig == o && o in h.w.sup.children
    requires h'.replaced == h.replaced + [o] && h'.born == h.born && h'.w.sup == h.w.sup
    requires Updates(h'.w.ops, h.w.ops, i, TaskInsert(o, spec, n), [])
    ensures OnceReplaced(h')
  {
    NotSwapping(h.w, i, o);
    assert o !in h.replaced;
    assert h'.w.ops[i] == TaskInsert(o, spec, n);
    forall p | p in h'.replaced && p in h.w.sup.children
      ensures Swapping(h'.w, p)
    {
      RetiringElsewhere(h.w, h'.w, i, TaskInsert(o, spec, n), [], p);
    }
  }

  /** `h'` is `h` after a factory called for `o` returned `n`. */
  ghost predicate Called(h: History, h': History, i: nat, o: Pid, spec: ChildSpec, n: Pid) {
    && i < |h.w.ops| && h.w.ops[i].TaskCall? && h.w.ops[i].orig == o && h.w.ops[i].spec == spec
    && o in h.root && n !in h.used
    && h' == h.(w := h'.w, used := h.used + {n}, replaced := h.replaced + [o],
                      root := h.root[n := h.root[o]], heir := h.heir[o := n])
    && h'.w.sup == h.w.sup && Updates(h'.w.ops, h.w.ops, i, TaskInsert(o, spec, n), [])
  }

  lemma CallResult(h: History, i: nat, c: Choice)
    requires Allowed(h, Micro(i, c)) && h.w.ops[i].TaskCall? && c.r.Ok? && h.w.ops[i].orig in h.root
    ensures Called(h, Apply(h, Micro(i, c)), i, h.w.ops[i].orig, h.w.ops[i].spec, c.r.pid)
  {
    StepUpdates(h.w, i, c);
  }

  lemma CallLocalNew(h: History, h': History, i: nat, o: Pid, spec: ChildSpec, n: Pid)
    requires Bookkeeping(h) && Called(h, h', i, o, spec, n) && Local(h, h.w.ops[i])
    ensures Local(h', TaskInsert(o, spec, n))
  {
  }

  lemma CallLocalOld(h: History, h': History, i: nat, j: nat, o: Pid, spec: ChildSpec, n: Pid)
    requires Bookkeeping(h) && Lineage(h) && Locals(h) && Called(h, h', i, o, spec, n)
    requires j < |h.w.ops| && j != i
    ensures h'.w.ops[j] == h.w.ops[j] && Local(h', h.w.ops[j])
    ensures h.w.ops[j].TaskInsert? ==> h.w.ops[j].newPid != n
  {
    assert Local(h, h.w.ops[i]) && Local(h, h.w.ops[j]);
    CallLocal(h, h', h.w.ops[j], o, n);
  }

  lemma CallLocals(h: History, h': History, i: nat, o: Pid, spec: ChildSpec, n: Pid)
    requires Bookkeeping(h) && Lineage(h) && Locals(h) && Called(h, h', i, o, spec, n)
    ensures Locals(h')
  {
    CallLocalNew(h, h', i, o, spec, n);
    forall j | 0 <= j < |h'.w.ops|
      ensures Local(h', h'.w.ops[j])
      ensures j != i ==> h'.w.ops[j] == h.w.ops[j] && (h.w.ops[j].TaskInsert? ==> h.w.ops[j].newPid != n)
    {
      if j != i {
        CallLocalOld(h, h', i, j, o, spec, n);
      }
    }
  }

  lemma CallKeeps(h: History, h': History, i: nat, o: Pid, spec: ChildSpec, n: Pid)
    requires Inv(h) && Called(h, h', i, o, spec, n)
    ensures Bookkeeping(h') && Lineage(h') && Locals(h') && OnceReplaced(h')
  {
    assert Local(h, h.w.ops[i]);
    assert Locals(h') by { CallLocals(h, h', i, o, spec, n); }
    assert OnceReplaced(h') by { CallOnce(h, h', i, spec, o, n); }
    CallLineage(h, h', i, o, n);
  }

  // The replacement becomes a child.

  lemma InsertLocal(h: History, h': History, op: Op, o: Pid, n: Pid, spec: ChildSpec)
    requires Local(h, op) && h.w.sup.children.Keys <= h.born
    requires n !in h.born && o in h.root && (op.TaskInsert? ==> op.newPid != n)
    requires h'.used == h.used && h'.born == h.born + {n} && h'.root == h.root && h'.cur == h.cur[h.root[o] := n]
    requires h'.w.sup.children == h.w.sup.children[n := spec]
    ensures Local(h', op)
  {
    if op.TaskRemove? {
      assert op.orig in h.born;
    }
  }

  lemma HolderIsCurrent(h: History, i: nat, o: Pid)
    requires OneHolder(h.w) && (Current(h, o) || Retiring(h.w, o))
    requires i < |h.w.ops| && Holds(h.w.ops[i], o) && h.w.ops[i] != TaskRemove(o, true)
    ensures Current(h, o)
  {
    assert Holds(TaskRemove(o, true), o);
  }

  /** `h'` is `h` after the restart of `o` inserted `n`. */
  ghost predicate Inserted(h: History, h': History, i: nat, o: Pid, spec: ChildSpec, n: Pid) {
    && i < |h.w.ops| && h.w.ops[i] == TaskInsert(o, spec, n) && o in h.root
    && h' == h.(w := h'.w, born := h.born + {n}, cur := h.cur[h.root[o] := n])
    && h'.w.sup == h.w.sup.(children := h.w.sup.children[n := spec])
    && Updates(h'.w.ops, h.w.ops, i, TaskRemove(o, true), [])
  }

  lemma InsertResult(h: History, i: nat, c: Choice)
    requires Allowed(h, Micro(i, c)) && h.w.ops[i].TaskInsert? && h.w.ops[i].orig in h.root
    ensures Inserted(h, Apply(h, Micro(i, c)), i, h.w.ops[i].orig, h.w.ops[i].spec, h.w.ops[i].newPid)
  {
    StepUpdates(h.w, i, c);
  }

  lemma InsertBooks(h: History, h': History, i: nat, o: Pid, spec: ChildSpec, n: Pid)
    requires Bookkeeping(h) && Local(h, TaskInsert(o, spec, n)) && Current(h, o) && Inserted(h, h', i, o, spec, n)
    ensures Bookkeeping(h')
  {
  }

  lemma InsertDescends(h: History, h': History, i: nat, o: Pid, spec: ChildSpec, n: Pid)
    requires Bookkeeping(h) && Lineage(h) && OnceReplaced(h) && Local(h, TaskInsert(o, spec, n)) && Current(h, o)
    requires Inserted(h, h', i, o, spec, n)
    ensures Descends(h')
  {
  }

  lemma InsertStrays(h: History, h': History, i: nat, o: Pid, spec: ChildSpec, n: Pid)
    requires Bookkeeping(h) && Lineage(h) && OnceReplaced(h) && Local(h, TaskInsert(o, spec, n)) && Current(h, o)
    requires Inserted(h, h', i, o, spec, n)
    ensures NoStrays(h') && OnceReplaced(h')
  {
    assert h'.w.ops[i] == TaskRemove(o, true);
    forall p | p in h.w.sup.children
      ensures Current(h', p) || Retiring(h'.w, p)
      ensures p in h.replaced ==> Swapping(h'.w, p)
    {
      RetiringElsewhere(h.w, h'.w, i, TaskRemove(o, true), [], p);
      assert p != o && Current(h, p) ==> Current(h', p);
    }
    assert Current(h', n);
  }

  lemma InsertLineage(h: History, h': History, i: nat, o: Pid, spec: ChildSpec, n: Pid)
    requires Bookkeeping(h) && Lineage(h) && OnceReplaced(h) && Local(h, TaskInsert(o, spec, n)) && Current(h, o)
    requires Inserted(h, h', i, o, spec, n)
    ensures Bookkeeping(h') && Lineage(h') && OnceReplaced(h')
  {
    InsertBooks(h, h', i, o, spec, n);
    InsertDescends(h, h', i, o, spec, n);
    InsertStrays(h, h', i, o, spec, n);
  }

  lemma InsertLocals(h: History, h': History, i: nat, o: Pid, spec: ChildSpec, n: Pid)
    requires h.w.sup.children.Keys <= h.born && Locals(h) && Inserted(h, h', i, o, spec, n) && Current(h, o)
    ensures Locals(h')
  {
    assert Local(h, h.w.ops[i]);
    forall j | 0 <= j < |h'.w.ops|
      ensures Local(h', h'.w.ops[j])
    {
      if j != i {
        assert Local(h, h.w.ops[j]);
        InsertLocal(h, h', h.w.ops[j], o, n, spec);
      }
    }
  }

  lemma InsertKeeps(h: History, h': History, i: nat, o: Pid, spec: ChildSpec, n: Pid)
    requires Inv(h) && Inserted(h, h', i, o, spec, n)
    ensures Bookkeeping(h') && Lineage(h') && Locals(h') && OnceReplaced(h')
  {
    assert Local(h, h.w.ops[i]);
    HolderIsCurrent(h, i, o);
    assert Locals(h') by { InsertLocals(h, h', i, o, spec, n); }
    InsertLineage(h, h', i, o, spec, n);
  }

  // The old child goes, replaced or dropped.

  lemma RemoveLocal(h: History, h': History, op: Op, o: Pid)
    requires Local(h, op) && !Holds(op, o)
    requires h'.w.sup == h.w.sup.(children := h.w.sup.children - {o})
    requires h'.used == h.used && h'.born == h.born && h'.root == h.root
    requires h'.cur == h.cur || (o in h.root && h'.cur == h.cur - {h.root[o]})
    ensures Local(h', op)
  {
    if op.NotifySpawn? {
      assert forall e <- op.group :: e.0 in Members(op.group);
    }
  }

  /** `h'` is `h` after the restart of `o` removed it, replaced (`swapped`) or dropped. */
  ghost predicate Removed(h: History, h': History, i: nat, o: Pid, swapped: bool) {
    && i < |h.w.ops| && h.w.ops[i] == TaskRemove(o, swapped) && o in h.root
    && (swapped ==> h' == h.(w := h'.w))
    && (!swapped ==> h' == h.(w := h'.w, cur := h.cur - {h.root[o]}, dropped := h.dropped + {h.root[o]}))
    && h'.w.sup == h.w.sup.(children := h.w.sup.children - {o})
    && Updates(h'.w.ops, h.w.ops, i, TaskUnlink(o), [])
  }

  lemma RemoveResult(h: History, i: nat, c: Choice)
    requires Allowed(h, Micro(i, c)) && h.w.ops[i].TaskRemove? && h.w.ops[i].orig in h.root
    ensures Removed(h, Apply(h, Micro(i, c)), i, h.w.ops[i].orig, h.w.ops[i].swapped)
  {
    StepUpdates(h.w, i, c);
  }

  lemma RemoveOne(h: History, h': History, i: nat, o: Pid, swapped: bool, p: Pid)
    requires Removed(h, h', i, o, swapped) && p != o && swapped == !Current(h, o)
    ensures Current(h, p) ==> Current(h', p)
    ensures Retiring(h.w, p) ==> Retiring(h'.w, p)
    ensures Swapping(h.w, p) ==> Swapping(h'.w, p)
  {
    RetiringElsewhere(h.w, h'.w, i, TaskUnlink(o), [], p);
  }

  lemma RemoveBooks(h: History, h': History, i: nat, o: Pid, swapped: bool)
    requires Bookkeeping(h) && Removed(h, h', i, o, swapped) && swapped == !Current(h, o)
    ensures Bookkeeping(h')
  {
  }

  /** A child goes that is no incarnation, or goes together with its entry. */
  lemma LessDescends(h: History, h': History, o: Pid)
    requires Descends(h) && o in h.root
    requires h'.root == h.root && h'.added == h.added && h'.w.sup.children == h.w.sup.children - {o}
    requires (h'.cur == h.cur && !Current(h, o)) || h'.cur == h.cur - {h.root[o]}
    ensures Descends(h')
  {
  }

  lemma RemoveStrays(h: History, h': History, i: nat, o: Pid, swapped: bool)
    requires Bookkeeping(h) && Lineage(h) && OnceReplaced(h) && o in h.w.sup.children
    requires Removed(h, h', i, o, swapped) && swapped == !Current(h, o)
    ensures NoStrays(h') && OnceReplaced(h')
  {
    forall p | p in h.w.sup.children && p != o
      ensures Current(h', p) || Retiring(h'.w, p)
      ensures p in h.replaced ==> Swapping(h'.w, p)
    {
      RemoveOne(h, h', i, o, swapped, p);
    }
  }

  lemma RemoveLineage(h: History, h': History, i: nat, o: Pid, swapped: bool)
    requires Bookkeeping(h) && Lineage(h) && OnceReplaced(h) && o in h.w.sup.children
    requires Removed(h, h', i, o, swapped) && swapped == !Current(h, o)
    ensures Bookkeeping(h') && Lineage(h') && OnceReplaced(h')
  {
    RemoveBooks(h, h', i, o, swapped);
    LessDescends(h, h', o);
    RemoveStrays(h, h', i, o, swapped);
  }

  lemma RemoveLocals(h: History, h': History, i: nat, o: Pid, swapped: bool)
    requires Locals(h) && OneHolder(h.w) && Removed(h, h', i, o, swapped)
    requires o in h.w.sup.children && h.w.sup.children.Keys <= h.born
    ensures Locals(h')
  {
    assert Holds(h.w.ops[i], o);
    forall j | 0 <= j < |h'.w.ops|
      ensures Local(h', h'.w.ops[j])
    {
      if j != i {
        assert Local(h, h.w.ops[j]);
        RemoveLocal(h, h', h.w.ops[j], o);
      }
    }
  }

  lemma RemoveKeeps(h: History, h': History, i: nat, o: Pid, swapped: bool)
    requires Inv(h) && Removed(h, h', i, o, swapped)
    ensures Bookkeeping(h') && Lineage(h') && Locals(h') && OnceReplaced(h')
  {
    assert Local(h, h.w.ops[i]);
    if !swapped {
      HolderIsCurrent(h, i, o);
    }
    assert Locals(h') by { RemoveLocals(h, h', i, o, swapped); }
    RemoveLineage(h, h', i, o, swapped);
  }

  // A client removes an idle child.

  /** `h'` is `h` after operation `i` took `p` off the children. */
  ghost predicate Forgotten(h: History, h': History, i: nat, p: Pid) {
    && i < |h.w.ops| && h.w.ops[i].Forget? && h.w.ops[i].pid == p && p !in h.w.sup.restarting
    && p in h.w.sup.children && p in h.root
    && h' == h.(w := h'.w, cur := h.cur - {h.root[p]}, removed := h.removed + {h.root[p]})
    && h'.w.sup == h.w.sup.(children := h.w.sup.children - {p})
    && i < |h'.w.ops| && h'.w.ops[i].ForgetMark? && Updates(h'.w.ops, h.w.ops, i, h'.w.ops[i], [])
  }

  lemma ForgetResult(h: History, i: nat, c: Choice)
    requires Allowed(h, Micro(i, c)) && h.w.ops[i].Forget?
    ensures var h', p := Apply(h, Micro(i, c)), h.w.ops[i].pid;
      && (p in h.w.sup.children && p in h.root ==> Forgotten(h, h', i, p))
      && (p !in h.w.sup.children ==> h' == h.(w := h'.w) && h'.w.sup.children == h.w.sup.children)
      && i < |h'.w.ops| && h'.w.ops[i].ForgetMark? && Updates(h'.w.ops, h.w.ops, i, h'.w.ops[i], [])
  {
    StepUpdates(h.w, i, c);
  }

  lemma IdleIsCurrent(h: History, p: Pid)
    requires HeldAreMarked(h.w) && p !in h.w.sup.restarting && (Current(h, p) || Retiring(h.w, p))
    ensures Current(h, p)
  {
    assert Holds(TaskRemove(p, true), p);
  }

  lemma ForgetOne(h: History, h': History, i: nat, p: Pid, q: Pid)
    requires Forgotten(h, h', i, p) && q != p && Current(h, p)
    ensures Current(h, q) ==> Current(h', q)
    ensures Retiring(h.w, q) ==> Retiring(h'.w, q)
    ensures Swapping(h.w, q) ==> Swapping(h'.w, q)
  {
    RetiringElsewhere(h.w, h'.w, i, h'.w.ops[i], [], q);
  }

  lemma ForgetStrays(h: History, h': History, i: nat, p: Pid)
    requires Bookkeeping(h) && Lineage(h) && OnceReplaced(h) && Forgotten(h, h', i, p) && Current(h, p)
    ensures NoStrays(h') && OnceReplaced(h')
  {
    forall q | q in h.w.sup.children && q != p
      ensures Current(h', q) || Retiring(h'.w, q)
      ensures q in h.replaced ==> Swapping(h'.w, q)
    {
      ForgetOne(h, h', i, p, q);
    }
  }

  lemma ForgetLineage(h: History, h': History, i: nat, p: Pid)
    requires Bookkeeping(h) && Lineage(h) && OnceReplaced(h) && Forgotten(h, h', i, p) && Current(h, p)
    ensures Bookkeeping(h') && Lineage(h') && OnceReplaced(h')
  {
    LessDescends(h, h', p);
    ForgetStrays(h, h', i, p);
  }

  lemma ForgetLocals(h: History, h': History, i: nat, p: Pid)
    requires Locals(h) && HeldAreMarked(h.w) && Forgotten(h, h', i, p)
    ensures Locals(h')
  {
    forall j | 0 <= j < |h'.w.ops|
      ensures Local(h', h'.w.ops[j])
    {
      if j != i {
        assert Local(h, h.w.ops[j]);
        RemoveLocal(h, h', h.w.ops[j], p);
      }
    }
  }

  lemma ForgetKeeps(h: History, i: nat, c: Choice)
    requires Inv(h) && Allowed(h, Micro(i, c)) && h.w.ops[i].Forget?
    ensures var h' := Apply(h, Micro(i, c)); Bookkeeping(h') && Lineage(h') && Locals(h') && OnceReplaced(h')
  {
    var h', p := Apply(h, Micro(i, c)), h.w.ops[i].pid;
    ForgetResult(h, i, c);
    if p in h.w.sup.children {
      IdleIsCurrent(h, p);
      ForgetLocals(h, h', i, p);
      ForgetLineage(h, h', i, p);
    } else {
      QuietLocals(h, h', i, h'.w.ops[i], []);
      SameKeeps(h, h', i, h'.w.ops[i], []);
    }
  }

  // The other events.

  lemma AppendKeeps(h: History, h': History, op: Op)
    requires Bookkeeping(h) && Lineage(h) && Locals(h) && OnceReplaced(h)
    requires h' == h.(w := World(h.w.sup, h.w.ops + [op])) && Local(h, op) && !op.TaskInsert?
    ensures Bookkeeping(h') && Lineage(h') && Locals(h') && OnceReplaced(h')
  {
    forall j | 0 <= j < |h'.w.ops|
      ensures Local(h', h'.w.ops[j])
    {
      assert j < |h.w.ops| ==> Local(h, h.w.ops[j]);
      LocalSame(h, h', h'.w.ops[j]);
    }
    forall p | p in h.w.sup.children
      ensures Retiring(h.w, p) ==> Retiring(h'.w, p)
      ensures Swapping(h.w, p) ==> Swapping(h'.w, p)
    {
      AppendSwapping(h.w, h'.w, op, p);
    }
  }

  lemma AppendSwapping(w: World, w': World, op: Op, p: Pid)
    requires w'.ops == w.ops + [op]
    ensures Retiring(w, p) ==> Retiring(w', p)
    ensures Swapping(w, p) ==> Swapping(w', p)
  {
    if Retiring(w, p) {
      var j :| 0 <= j < |w.ops| && w.ops[j] == TaskRemove(p, true);
      assert w'.ops[j] == w.ops[j];
    }
    if Swapping(w, p) {
      var j :| 0 <= j < |w.ops| && (w.ops[j] == TaskRemove(p, true) || (w.ops[j].TaskInsert? && w.ops[j].orig == p));
      assert w'.ops[j] == w.ops[j];
    }
  }

  lemma AddLocal(h: History, h': History, op: Op, p: Pid, spec: ChildSpec)
    requires Bookkeeping(h) && Local(h, op) && p !in h.used
    requires h'.used == h.used + {p} && h'.born == h.born + {p}
    requires h'.root == h.root[p := p] && h'.cur == h.cur[p := p]
    requires h'.w.sup.children == h.w.sup.children[p := spec]
    ensures Local(h', op)
  {
    if op.TaskRemove? {
      assert op.orig in h.born;
    }
  }

  lemma AddCurrent(h: History, h': History, p: Pid, q: Pid)
    requires Bookkeeping(h) && p !in h.used && Current(h, q)
    requires h'.root == h.root[p := p] && h'.cur == h.cur[p := p]
    ensures Current(h', q)
  {
  }

  lemma AddBooks(h: History, h': History, p: Pid, spec: ChildSpec)
    requires Bookkeeping(h) && p !in h.used
    requires h' == h.(w := h'.w, used := h.used + {p}, born := h.born + {p}, added := h.added[p := spec],
                      root := h.root[p := p], cur := h.cur[p := p])
    requires h'.w.sup.children == h.w.sup.children[p := spec]
    ensures Bookkeeping(h')
  {
  }

  lemma AddDescends(h: History, h': History, p: Pid, spec: ChildSpec)
    requires Bookkeeping(h) && Lineage(h) && OnceReplaced(h) && p !in h.used
    requires h' == h.(w := h'.w, used := h.used + {p}, born := h.born + {p}, added := h.added[p := spec],
                      root := h.root[p := p], cur := h.cur[p := p])
    requires h'.w.sup.children == h.w.sup.children[p := spec] && h'.w.ops == h.w.ops + [Done]
    ensures Descends(h')
  {
  }

  lemma AddStrays(h: History, h': History, p: Pid, spec: ChildSpec)
    requires Bookkeeping(h) && Lineage(h) && OnceReplaced(h) && p !in h.used
    requires h' == h.(w := h'.w, used := h.used + {p}, born := h.born + {p}, added := h.added[p := spec],
                      root := h.root[p := p], cur := h.cur[p := p])
    requires h'.w.sup.children == h.w.sup.children[p := spec] && h'.w.ops == h.w.ops + [Done]
    ensures NoStrays(h') && OnceReplaced(h')
  {
    assert Current(h', p) && p !in h.replaced;
    forall q | q in h.w.sup.children
      ensures Current(h', q) || Retiring(h'.w, q)
      ensures q in h.replaced ==> Swapping(h'.w, q)
    {
      AppendSwapping(h.w, h'.w, Done, q);
      if Current(h, q) {
        AddCurrent(h, h', p, q);
      }
    }
  }

  lemma AddLineage(h: History, h': History, p: Pid, spec: ChildSpec)
    requires Bookkeeping(h) && Lineage(h) && OnceReplaced(h) && p !in h.used
    requires h' == h.(w := h'.w, used := h.used + {p}, born := h.born + {p}, added := h.added[p := spec],
                      root := h.root[p := p], cur := h.cur[p := p])
    requires h'.w.sup.children == h.w.sup.children[p := spec] && h'.w.ops == h.w.ops + [Done]
    ensures Bookkeeping(h') && Lineage(h') && OnceReplaced(h')
  {
    AddBooks(h, h', p, spec);
    AddDescends(h, h', p, spec);
    AddStrays(h, h', p, spec);
  }

  lemma AddKeeps(h: History, p: Pid, spec: ChildSpec)
    requires Inv(h) && Allowed(h, Add(p, spec))
    ensures var h' := Apply(h, Add(p, spec)); Bookkeeping(h') && Lineage(h') && Locals(h') && OnceReplaced(h')
  {
    var h' := Apply(h, Add(p, spec));
    assert Locals(h') by {
      forall j | 0 <= j < |h'.w.ops|
        ensures Local(h', h'.w.ops[j])
      {
        if j < |h.w.ops| {
          assert Local(h, h.w.ops[j]);
          AddLocal(h, h', h.w.ops[j], p, spec);
        }
      }
    }
    AddLineage(h, h', p, spec);
  }

  lemma WaveLocals(h: History, h': History, i: nat, all: Group)
    requires Locals(h) && i < |h.w.ops| && !h.w.ops[i].TaskInsert? && Lists(all, h.w.sup.children)
    requires h' == h.(w := h'.w) && h'.w.sup.children == h.w.sup.children
    requires h'.w.ops == h.w.ops[i := NotifySpawn(all)]
    ensures Locals(h')
  {
    forall j | 0 <= j < |h'.w.ops|
      ensures Local(h', h'.w.ops[j])
    {
      if j != i {
        assert Local(h, h.w.ops[j]);
        LocalSame(h, h', h.w.ops[j]);
      }
    }
  }

  lemma WaveKeeps(h: History, i: nat, all: Group)
    requires Inv(h) && Allowed(h, Wave(i, all))
    ensures var h' := Apply(h, Wave(i, all)); Bookkeeping(h') && Lineage(h') && Locals(h') && OnceReplaced(h')
  {
    var h' := Apply(h, Wave(i, all));
    assert Locals(h') by {
      WaveLocals(h, h', i, all);
    }
    SameKeeps(h, h', i, NotifySpawn(all), []);
  }

  lemma MicroKeeps(h: History, i: nat, c: Choice)
    requires Inv(h) && Allowed(h, Micro(i, c))
    ensures var h' := Apply(h, Micro(i, c)); Bookkeeping(h') && Lineage(h') && Locals(h') && OnceReplaced(h')
  {
    var h', op := Apply(h, Micro(i, c)), h.w.ops[i];
    if Quiet(op, c) {
      QuietKeeps(h, i, c);
    } else if op.Forget? {
      ForgetKeeps(h, i, c);
    } else {
      assert op.orig in h.root by { assert Local(h, op); }
      if op.TaskInsert? {
        InsertResult(h, i, c);
        InsertKeeps(h, h', i, op.orig, op.spec, op.newPid);
      } else if op.TaskRemove? {
        RemoveResult(h, i, c);
        RemoveKeeps(h, h', i, op.orig, op.swapped);
      } else {
        CallResult(h, i, c);
        CallKeeps(h, h', i, op.orig, op.spec, c.r.pid);
      }
    }
  }

  lemma ApplyKeepsInv(h: History, e: Event)
    requires Inv(h)
    ensures Inv(Apply(h, e))
  {
    ApplyKeepsMarks(h, e);
    if Allowed(h, e) {
      match e
      case Report(p) => AppendKeeps(h, Apply(h, e), NotifyMark(p));
      case Add(p, spec) => AddKeeps(h, p, spec);
      case ClientCall(op) => AppendKeeps(h, Apply(h, e), op);
      case Micro(i, c) => MicroKeeps(h, i, c);
      case Wave(i, all) => WaveKeeps(h, i, all);
    }
  }

  lemma {:induction false} InvAlways(es: seq<Event>)
    ensures Inv(ApplyAll(START, es))
  {
    if es != [] {
      InvAlways(es[..|es| - 1]);
      ApplyKeepsInv(ApplyAll(START, es[..|es| - 1]), es[|es| - 1]);
    }
  }

  // The results.

  /** A pid is marked exactly while one operation holds it, and never two. */
  lemma {:induction false} ExactlyOneHolder(es: seq<Event>, p: Pid)
    ensures var w := ApplyAll(START, es).w;
      && (p in w.sup.restarting <==> exists i :: 0 <= i < |w.ops| && Holds(w.ops[i], p))
      && forall i, j :: 0 <= i < |w.ops| && 0 <= j < |w.ops| && Holds(w.ops[i], p) && Holds(w.ops[j], p) ==> i == j
  {
    InvAlways(es);
    assert p in ApplyAll(START, es).w.sup.restarting ==> Held(ApplyAll(START, es).w, p);
  }

  /** However often an exit is reported, a pid is replaced at most once. */
  lemma ReplacedAtMostOnce(es: seq<Event>, a: nat, b: nat)
    requires a < b < |ApplyAll(START, es).replaced|
    ensures ApplyAll(START, es).replaced[a] != ApplyAll(START, es).replaced[b]
  {
    InvAlways(es);
  }

  lemma {:induction false} SameSize(a: set<Pid>, b: set<Pid>, f: map<Pid, Pid>, g: map<Pid, Pid>)
    requires forall x <- a :: x in f && f[x] in b && f[x] in g && g[f[x]] == x
    requires forall y <- b :: y in g && g[y] in a && g[y] in f && f[g[y]] == y
    ensures |a| == |b|
  {
    if a == {} {
      assert b == {};
    } else {
      var x :| x in a;
      SameSize(a - {x}, b - {f[x]}, f, g);
    }
  }

  /** At quiescence the children are the added ones minus the dropped and the removed ones:
      one for each, its current incarnation, with the spec it was added with, and no others. */
  lemma {:induction false} QuiescentChildren(es: seq<Event>)
    requires Quiescent(ApplyAll(START, es).w)
    ensures var h := ApplyAll(START, es); var children := h.w.sup.children;
      && h.w.sup.restarting == {}
      && h.dropped <= h.added.Keys && h.removed <= h.added.Keys && h.dropped !! h.removed
      && |children| == |h.added| - |h.dropped| - |h.removed|
      && (forall r :: r in h.added && r !in h.dropped && r !in h.removed ==>
            r in h.cur && h.cur[r] in children && children[h.cur[r]] == h.added[r])
      && (forall p <- children :: p in h.root && h.root[p] in h.added &&
            h.root[p] !in h.dropped && h.root[p] !in h.removed && h.cur[h.root[p]] == p)
  {
    InvAlways(es);
    QuiescentState(ApplyAll(START, es));
  }

  lemma QuiescentUnmarked(w: World)
    requires MarkedAreHeld(w) && Quiescent(w)
    ensures w.sup.restarting == {}
  {
    assert forall p <- w.sup.restarting :: Held(w, p);
  }

  lemma CurrentsCount(h: History)
    requires Bookkeeping(h) && Lineage(h) && forall p <- h.w.sup.children :: Current(h, p)
    ensures |h.w.sup.children| == |h.cur|
  {
    SameSize(h.cur.Keys, h.w.sup.children.Keys, h.cur, h.root);
  }

  lemma LessTwice(a: set<Pid>, b: set<Pid>, c: set<Pid>)
    requires b <= a && c <= a && b !! c
    ensures |a - b - c| == |a| - |b| - |c|
  {
    assert |a - b| == |a| - |b|;
    assert c <= a - b;
  }

  lemma QuiescentState(h: History)
    requires Inv(h) && Quiescent(h.w)
    ensures h.w.sup.restarting == {} && (forall p <- h.w.sup.children :: Current(h, p))
    ensures |h.w.sup.children| == |h.added| - |h.dropped| - |h.removed|
  {
    QuiescentUnmarked(h.w);
    assert forall p <- h.w.sup.children :: Current(h, p);
    CurrentsCount(h);
    LessTwice(h.added.Keys, h.dropped, h.removed);
  }

  // A wave leaves none of the old group behind.

  predicate RestartsIt(op: Op, p: Pid) {
    Holds(op, p) && (MO.IsTask(op) || op.NotifySpawn?)
  }

  ghost predicate Restarted(w: World, p: Pid) {
    exists i :: 0 <= i < |w.ops| && RestartsIt(w.ops[i], p)
  }

  /** `p` is no longer a child, or a task is on its way to remove it. */
  ghost predicate Condemned(h: History, p: Pid) {
    p in h.born && (p in h.w.sup.children ==> Restarted(h.w, p))
  }

  lemma RestartGoesOn(h: History, op: Op, c: Choice, p: Pid)
    requires Enabled(h.w.sup, op, c) && RestartsIt(op, p) && Local(h, op) && p in h.w.sup.children
    ensures var r := Next(h.w.sup, op, c);
      p !in r.sup.children || RestartsIt(r.op, p) || (|r.spawned| == 1 && RestartsIt(r.spawned[0], p))
  {
    if op.NotifySpawn? {
      assert forall x :: x in op.group ==> x == op.group[0] || x in op.group[1..];
    }
  }

  lemma NoRebirth(h: History, e: Event, p: Pid)
    requires Kinds(h.w) && Locals(h) && h.born <= h.used && p in h.born && p !in h.w.sup.children
    ensures var h' := Apply(h, e); p in h'.born && p !in h'.w.sup.children
  {
    if Allowed(h, e) && e.Micro? {
      assert Local(h, h.w.ops[e.i]);
    }
  }

  lemma RestartedMicro(h: History, i: nat, c: Choice, p: Pid)
    requires Locals(h) && Ready(h.w, Run(i, c)) && Restarted(h.w, p) && p in h.w.sup.children
    ensures var w' := Step(h.w, Run(i, c)); p in w'.sup.children ==> Restarted(w', p)
  {
    var w' := Step(h.w, Run(i, c));
    var j :| 0 <= j < |h.w.ops| && RestartsIt(h.w.ops[j], p);
    StepUpdates(h.w, i, c);
    if i == j {
      assert Local(h, h.w.ops[i]);
      RestartGoesOn(h, h.w.ops[i], c, p);
      var r := Next(h.w.sup, h.w.ops[i], c);
      assert RestartsIt(r.op, p) ==> RestartsIt(w'.ops[i], p);
    } else {
      assert RestartsIt(w'.ops[j], p);
    }
  }

  lemma RestartedAppend(w: World, w': World, op: Op, p: Pid)
    requires Restarted(w, p) && w'.ops == w.ops + [op]
    ensures Restarted(w', p)
  {
    var j :| 0 <= j < |w.ops| && RestartsIt(w.ops[j], p);
    assert w'.ops[j] == w.ops[j];
  }

  lemma RestartedWave(w: World, i: nat, all: Group, p: Pid)
    requires i < |w.ops| && w.ops[i].NotifyLookup?
    requires Restarted(w, p) || p in Members(all)
    ensures Restarted(WaveWorld(w, i, all), p)
  {
    var w' := WaveWorld(w, i, all);
    if p in Members(all) {
      assert RestartsIt(w'.ops[i], p);
    } else {
      var j :| 0 <= j < |w.ops| && RestartsIt(w.ops[j], p);
      assert w'.ops[j] == w.ops[j];
    }
  }

  lemma CondemnedStays(h: History, e: Event, p: Pid)
    requires Kinds(h.w) && Locals(h) && h.born <= h.used && Condemned(h, p)
    ensures Condemned(Apply(h, e), p)
  {
    var h' := Apply(h, e);
    if p !in h.w.sup.children {
      NoRebirth(h, e, p);
    } else if Allowed(h, e) {
      match e
      case Report(q) => RestartedAppend(h.w, h'.w, NotifyMark(q), p);
      case Add(_, _) => RestartedAppend(h.w, h'.w, Done, p);
      case ClientCall(op) => RestartedAppend(h.w, h'.w, op, p);
      case Micro(i, c) => RestartedMicro(h, i, c, p);
      case Wave(i, all) => RestartedWave(h.w, i, all, p);
    }
  }

  lemma {:induction false} CondemnedForever(es: seq<Event>, more: seq<Event>, p: Pid)
    requires Condemned(ApplyAll(START, es), p)
    ensures Condemned(ApplyAll(START, es + more), p)
  {
    if more == [] {
      assert es + more == es;
    } else {
      var k := |more| - 1;
      CondemnedForever(es, more[..k], p);
      assert (es + more)[..|es + more| - 1] == es + more[..k];
      InvAlways(es + more[..k]);
      CondemnedStays(ApplyAll(START, es + more[..k]), more[k], p);
    }
  }

  lemma QuiescentCondemned(h: History, p: Pid)
    requires Quiescent(h.w) && Condemned(h, p)
    ensures p !in h.w.sup.children
  {
  }

  /** Once a wave has started, whatever happens next, at quiescence every pid of the old
      group is gone for good; QuiescentChildren says what has taken its place. */
  lemma WaveReplacesTheGroup(es: seq<Event>, i: nat, all: Group, more: seq<Event>, p: Pid)
    requires Allowed(ApplyAll(START, es), Wave(i, all))
    requires p in ApplyAll(START, es).w.sup.children
    requires Quiescent(ApplyAll(START, es + [Wave(i, all)] + more).w)
    ensures p !in ApplyAll(START, es + [Wave(i, all)] + more).w.sup.children
  {
    var h, es' := ApplyAll(START, es), es + [Wave(i, all)];
    assert Condemned(ApplyAll(START, es'), p) by {
      assert es'[..|es'| - 1] == es;
      InvAlways(es);
      RestartedWave(h.w, i, all, p);
    }
    CondemnedForever(es', more, p);
    QuiescentCondemned(ApplyAll(START, es' + more), p);
  }
}
