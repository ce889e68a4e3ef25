// What a RestartAll wave from rest leads to, while only exits of the old group are reported:
// exactly one new child for each old one whose factory succeeded within three calls.
module RestartWaves {
  import Pids
  import opened SupervisorSteps
  import opened RL = RestartLineage
  import RO = RestartOutcomes

  type Pid = Pids.Pid

  // Heirs, in any run.

  ghost predicate Heirs(h: History) {
    && (forall o :: o in h.heir <==> o in h.replaced)
    && (forall o <- h.heir ::
          h.heir[o] in h.used && o in h.root && h.heir[o] in h.root && h.root[h.heir[o]] == h.root[o])
    && (forall o, o' :: o in h.heir && o' in h.heir && h.heir[o] == h.heir[o'] ==> o == o')
  }

  lemma CallKeepsHeirs(h: History, h': History, o: Pid, n: Pid)
    requires Heirs(h) && h.root.Keys <= h.used && n !in h.used && o in h.root
    requires h'.used == h.used + {n} && h'.replaced == h.replaced + [o]
    requires h'.root == h.root[n := h.root[o]] && h'.heir == h.heir[o := n]
    ensures Heirs(h')
  {
  }

  lemma GrowthKeepsHeirs(h: History, h': History)
    requires Heirs(h) && h'.replaced == h.replaced && h'.heir == h.heir && h.used <= h'.used
    requires forall p <- h.root :: p in h'.root && h'.root[p] == h.root[p]
    ensures Heirs(h')
  {
  }

  predicate Succeeds(h: History, e: Event) {
    e.Micro? && Allowed(h, e) && h.w.ops[e.i].TaskCall? && e.c.r.Ok?
  }

  lemma OthersKeepHeirs(h: History, e: Event)
    requires !Succeeds(h, e)
    ensures Apply(h, e).replaced == h.replaced && Apply(h, e).heir == h.heir && h.used <= Apply(h, e).used
  {
  }

  lemma CallHasRoot(h: History, i: nat)
    requires Locals(h) && Lineage(h) && i < |h.w.ops| && h.w.ops[i].TaskCall?
    ensures h.w.ops[i].orig in h.root
  {
    assert Local(h, h.w.ops[i]);
  }

  lemma HeirsStep(h: History, e: Event)
    requires Locals(h) && Lineage(h) && h.root.Keys <= h.used && Heirs(h)
    ensures Heirs(Apply(h, e))
  {
    if Succeeds(h, e) {
      CallHasRoot(h, e.i);
      CallResult(h, e.i, e.c);
      CallKeepsHeirs(h, Apply(h, e), h.w.ops[e.i].orig, e.c.r.pid);
    } else {
      OthersKeepHeirs(h, e);
      forall p | p in h.root ensures p in Apply(h, e).root && Apply(h, e).root[p] == h.root[p] {
        RO.KeepsRoot(h, e, p);
      }
      GrowthKeepsHeirs(h, Apply(h, e));
    }
  }

  lemma {:induction false} HeirsAlways(es: seq<Event>)
    ensures Heirs(ApplyAll(START, es))
  {
    if es != [] {
      HeirsAlways(es[..|es| - 1]);
      InvAlways(es[..|es| - 1]);
      HeirsStep(ApplyAll(START, es[..|es| - 1]), es[|es| - 1]);
    }
  }

  // After a wave over `kin`.

  type Kin = map<Pid, ChildSpec>

  /** Exits of old pids, link traffic, and steps of whatever is in flight. */
  predicate OldOnly(e: Event, kin: Kin) {
    match e
    case Report(p) => p in kin
    case Add(_, _) => false
    case ClientCall(op) => !op.Forget?
    case Micro(_, _) => true
    case Wave(_, _) => true
  }

  /** `op` is about old pids only, and what it is about to insert is an heir. */
  predicate About(h: History, op: Op, kin: Kin) {
    match op
    case NotifyMark(p) => p in kin
    case NotifyLookup(p) => p in kin
    case NotifyUnmark(p) => p in kin
    case NotifySpawn(g) => forall e <- g :: e.0 in kin
    case TaskInsert(o, _, n) => o in kin && o in h.heir && h.heir[o] == n
    case Forget(_, _) => false
    case _ => (op.TaskCall? || op.TaskFail? || op.TaskSleep? || op.TaskRemove?) ==> op.orig in kin
  }

  ghost predicate AllAbout(h: History, kin: Kin) {
    forall i :: 0 <= i < |h.w.ops| ==> About(h, h.w.ops[i], kin)
  }

  predicate IsHeirOf(h: History, o: Pid, p: Pid) {
    o in h.heir && h.heir[o] == p
  }

  ghost predicate Kids(h: History, kin: Kin) {
    forall p <- h.w.sup.children :: p in kin || exists o :: o in kin && IsHeirOf(h, o, p)
  }

  ghost predicate Arriving(w: World, o: Pid, n: Pid) {
    exists i :: 0 <= i < |w.ops| && w.ops[i].TaskInsert? && w.ops[i].orig == o && w.ops[i].newPid == n
  }

  ghost predicate Arrive(h: History, kin: Kin) {
    forall o <- kin :: o in h.heir ==>
      h.heir[o] !in kin && (h.heir[o] in h.w.sup.children || Arriving(h.w, o, h.heir[o]))
  }

  /** The specs of the old group, none of which was removed by a client. */
  ghost predicate Specs(h: History, kin: Kin) {
    forall p <- kin ::
      && p in h.born && p in h.root && h.root[p] in h.added
      && h.added[h.root[p]] == kin[p] && h.root[p] !in h.removed
  }

  ghost predicate After(h: History, kin: Kin) {
    AllAbout(h, kin) && Kids(h, kin) && Arrive(h, kin) && Specs(h, kin) && forall p <- kin :: Condemned(h, p)
  }

  lemma LookedUpIsIdle(w: World, i: nat, q: Pid)
    requires OneHolder(w) && i < |w.ops| && w.ops[i] == NotifyLookup(q)
    ensures !Restarted(w, q)
  {
    assert Holds(w.ops[i], q);
    assert forall j :: 0 <= j < |w.ops| && j != i ==> !Holds(w.ops[j], q);
  }

  lemma NoSecondWave(h: History, i: nat, all: Group, kin: Kin)
    requires OneHolder(h.w) && After(h, kin)
    ensures !Allowed(h, Wave(i, all))
  {
    if i < |h.w.ops| && h.w.ops[i].NotifyLookup? {
      LookedUpIsIdle(h.w, i, h.w.ops[i].pid);
      assert About(h, h.w.ops[i], kin) && Condemned(h, h.w.ops[i].pid);
    }
  }

  lemma ArrivingElsewhere(w: World, w': World, i: nat, op: Op, spawned: seq<Op>, o: Pid, n: Pid)
    requires Updates(w'.ops, w.ops, i, op, spawned) && Arriving(w, o, n)
    requires !(w.ops[i].TaskInsert? && w.ops[i].orig == o && w.ops[i].newPid == n)
    ensures Arriving(w', o, n)
  {
    var j :| 0 <= j < |w.ops| && w.ops[j].TaskInsert? && w.ops[j].orig == o && w.ops[j].newPid == n;
    assert w'.ops[j] == w.ops[j];
  }

  lemma AppendAfter(h: History, h': History, op: Op, kin: Kin)
    requires After(h, kin) && About(h, op, kin)
    requires h' == h.(w := World(h.w.sup, h.w.ops + [op]))
    ensures AllAbout(h', kin) && Kids(h', kin) && Arrive(h', kin) && Specs(h', kin)
  {
    forall i | 0 <= i < |h'.w.ops| ensures About(h', h'.w.ops[i], kin) {
      assert i < |h.w.ops| ==> About(h, h.w.ops[i], kin);
    }
    forall p | p in h.w.sup.children ensures p in kin || exists o :: o in kin && IsHeirOf(h', o, p) {
      if p !in kin {
        var o :| o in kin && IsHeirOf(h, o, p);
        assert IsHeirOf(h', o, p);
      }
    }
    forall o | o in kin && o in h.heir && Arriving(h.w, o, h.heir[o]) ensures Arriving(h'.w, o, h.heir[o]) {
      var j :| 0 <= j < |h.w.ops| && h.w.ops[j].TaskInsert? && h.w.ops[j].orig == o && h.w.ops[j].newPid == h.heir[o];
      assert h'.w.ops[j] == h.w.ops[j];
    }
  }

  /** The next operation is about old pids again. */
  lemma AboutNext(h: History, h': History, op: Op, c: Choice, kin: Kin)
    requires Enabled(h.w.sup, op, c) && Kind(op) && !FoundRestartAll(h.w.sup, op) && About(h, op, kin)
    requires op.TaskCall? && c.r.Ok? ==> IsHeirOf(h', op.orig, c.r.pid)
    requires op.TaskFail? || op.TaskInsert? ==> h'.heir == h.heir
    ensures var r := Next(h.w.sup, op, c);
      About(h', r.op, kin) && forall o <- r.spawned :: About(h', o, kin)
  {
  }

  lemma AboutStays(h: History, h': History, op: Op, kin: Kin)
    requires About(h, op, kin) && (op.TaskInsert? && op.orig in h.heir ==> IsHeirOf(h', op.orig, h.heir[op.orig]))
    ensures About(h', op, kin)
  {
  }

  /** A step that leaves the heirs as they are. */
  lemma StepAbout(h: History, h': History, i: nat, c: Choice, kin: Kin)
    requires AllAbout(h, kin) && Kinds(h.w) && Ready(h.w, Run(i, c)) && !FoundRestartAll(h.w.sup, h.w.ops[i])
    requires h'.w == Step(h.w, Run(i, c)) && (forall o <- h.heir :: IsHeirOf(h', o, h.heir[o]))
    requires h.w.ops[i].TaskCall? && c.r.Ok? ==> IsHeirOf(h', h.w.ops[i].orig, c.r.pid)
    requires !(h.w.ops[i].TaskCall? && c.r.Ok?) ==> h'.heir == h.heir
    ensures AllAbout(h', kin)
  {
    var op := h.w.ops[i];
    var r := Next(h.w.sup, op, c);
    StepUpdates(h.w, i, c);
    AboutNext(h, h', op, c, kin);
    forall j | 0 <= j < |h'.w.ops| ensures About(h', h'.w.ops[j], kin) {
      if j < |h.w.ops| && j != i {
        AboutStays(h, h', h.w.ops[j], kin);
      }
    }
  }

  lemma StepKids(h: History, h': History, op: Op, kin: Kin)
    requires Kids(h, kin) && (forall o <- h.heir :: IsHeirOf(h', o, h.heir[o]))
    requires h'.w.sup.children == h.w.sup.children ||
             (op.TaskInsert? && op.orig in kin && IsHeirOf(h', op.orig, op.newPid) &&
              h'.w.sup.children == h.w.sup.children[op.newPid := op.spec]) ||
             (op.TaskRemove? && h'.w.sup.children == h.w.sup.children - {op.orig})
    ensures Kids(h', kin)
  {
    forall p | p in h'.w.sup.children && p !in kin ensures exists o :: o in kin && IsHeirOf(h', o, p) {
      if p in h.w.sup.children {
        var o :| o in kin && IsHeirOf(h, o, p);
        assert IsHeirOf(h', o, p);
      } else {
        assert IsHeirOf(h', op.orig, p);
      }
    }
  }

  /** An heir that was there or arriving still is, or has just arrived. */
  lemma StepArrives(h: History, h': History, i: nat, c: Choice, kin: Kin, o: Pid)
    requires Arrive(h, kin) && Kinds(h.w) && Ready(h.w, Run(i, c)) && h'.w == Step(h.w, Run(i, c))
    requires h.w.ops[i].TaskRemove? ==> h.w.ops[i].orig in kin
    requires !h.w.ops[i].Forget? && o in kin && o in h.heir
    ensures var n := h.heir[o]; n !in kin && (n in h'.w.sup.children || Arriving(h'.w, o, n))
  {
    var n, op := h.heir[o], h.w.ops[i];
    var r := Next(h.w.sup, op, c);
    StepUpdates(h.w, i, c);
    if n !in h'.w.sup.children {
      assert Arriving(h.w, o, n);
      ArrivingElsewhere(h.w, h'.w, i, r.op, r.spawned, o, n);
    }
  }

  lemma CallIsNew(h: History, i: nat)
    requires Inv(h) && Heirs(h) && i < |h.w.ops| && h.w.ops[i].TaskCall?
    ensures h.w.ops[i].orig !in h.heir
  {
    assert Local(h, h.w.ops[i]);
    NotSwapping(h.w, i, h.w.ops[i].orig);
  }

  /** What a step does to the heirs, the children and the books. */
  ghost predicate Notes(h: History, h': History, op: Op, c: Choice) {
    && (forall o <- h.heir :: IsHeirOf(h', o, h.heir[o]))
    && (op.TaskCall? && c.Returned? && c.r.Ok? ==> h'.heir == h.heir[op.orig := c.r.pid] && c.r.pid !in h.used)
    && (!(op.TaskCall? && c.Returned? && c.r.Ok?) ==> h'.heir == h.heir)
    && h.born <= h'.born && h'.added == h.added && h'.removed == h.removed
    && (h'.w.sup.children == h.w.sup.children ||
        (op.TaskInsert? && h'.w.sup.children == h.w.sup.children[op.newPid := op.spec]) ||
        (op.TaskRemove? && h'.w.sup.children == h.w.sup.children - {op.orig}))
  }

  lemma OpNotes(h: History, h': History, op: Op, c: Choice)
    requires Enabled(h.w.sup, op, c) && Kind(op) && !op.Forget?
    requires op.TaskCall? ==> op.orig !in h.heir && (c.r.Ok? ==> c.r.pid !in h.used)
    requires h'.w.sup == Next(h.w.sup, op, c).sup && h' == Note(h, op, c).(w := h'.w)
    ensures Notes(h, h', op, c)
  {
  }

  lemma StepNotes(h: History, i: nat, c: Choice)
    requires Inv(h) && Heirs(h) && Allowed(h, Micro(i, c)) && !h.w.ops[i].Forget?
    ensures Notes(h, Apply(h, Micro(i, c)), h.w.ops[i], c)
  {
    assert Kind(h.w.ops[i]);
    if h.w.ops[i].TaskCall? {
      CallIsNew(h, i);
    }
    OpNotes(h, Apply(h, Micro(i, c)), h.w.ops[i], c);
  }

  lemma StepSpecs(h: History, e: Event, h': History, kin: Kin)
    requires h.root.Keys <= h.used && Specs(h, kin) && h' == Apply(h, e)
    requires h.born <= h'.born && h'.added == h.added && h'.removed == h.removed
    ensures Specs(h', kin)
  {
    forall p | p in kin ensures p in h'.root && h'.root[p] == h.root[p] {
      RO.KeepsRoot(h, e, p);
    }
  }

  lemma StepArrive(h: History, h': History, i: nat, c: Choice, kin: Kin)
    requires Arrive(h, kin) && Kinds(h.w) && Ready(h.w, Run(i, c)) && h'.w == Step(h.w, Run(i, c))
    requires Notes(h, h', h.w.ops[i], c) && !h.w.ops[i].Forget? && kin.Keys <= h.used
    requires h.w.ops[i].TaskRemove? ==> h.w.ops[i].orig in kin
    ensures Arrive(h', kin)
  {
    forall o | o in kin && o in h'.heir
      ensures h'.heir[o] !in kin && (h'.heir[o] in h'.w.sup.children || Arriving(h'.w, o, h'.heir[o]))
    {
      if o in h.heir {
        StepArrives(h, h', i, c, kin, o);
        assert IsHeirOf(h', o, h.heir[o]);
      } else {
        StepUpdates(h.w, i, c);
        assert h'.w.ops[i] == TaskInsert(o, h.w.ops[i].spec, c.r.pid);
      }
    }
  }

  lemma NotesAfter(h: History, h': History, i: nat, c: Choice, kin: Kin)
    requires AllAbout(h, kin) && Kids(h, kin) && Arrive(h, kin) && kin.Keys <= h.used
    requires Kinds(h.w) && Ready(h.w, Run(i, c)) && !FoundRestartAll(h.w.sup, h.w.ops[i])
    requires h'.w == Step(h.w, Run(i, c)) && Notes(h, h', h.w.ops[i], c)
    ensures AllAbout(h', kin) && Kids(h', kin) && Arrive(h', kin)
  {
    assert About(h, h.w.ops[i], kin);
    StepAbout(h, h', i, c, kin);
    StepKids(h, h', h.w.ops[i], kin);
    StepArrive(h, h', i, c, kin);
  }

  lemma MicroAfter(h: History, i: nat, c: Choice, kin: Kin)
    requires Inv(h) && Heirs(h) && After(h, kin) && Allowed(h, Micro(i, c))
    ensures var h' := Apply(h, Micro(i, c)); AllAbout(h', kin) && Kids(h', kin) && Arrive(h', kin) && Specs(h', kin)
  {
    var h' := Apply(h, Micro(i, c));
    assert Notes(h, h', h.w.ops[i], c) by {
      assert About(h, h.w.ops[i], kin);
      StepNotes(h, i, c);
    }
    assert kin.Keys <= h.used by {
      assert forall p <- kin :: p in h.born;
    }
    StepSpecs(h, Micro(i, c), h', kin);
    NotesAfter(h, h', i, c, kin);
  }

  lemma AfterStep(h: History, e: Event, kin: Kin)
    requires Inv(h) && Heirs(h) && After(h, kin) && OldOnly(e, kin)
    ensures After(Apply(h, e), kin)
  {
    forall p | p in kin ensures Condemned(Apply(h, e), p) {
      CondemnedStays(h, e, p);
    }
    match e
    case Report(p) => AppendAfter(h, Apply(h, e), NotifyMark(p), kin);
    case ClientCall(op) =>
      if Allowed(h, e) {
        AppendAfter(h, Apply(h, e), op, kin);
      }
    case Micro(i, c) =>
      if Allowed(h, e) {
        MicroAfter(h, i, c, kin);
      }
    case Wave(i, all) => NoSecondWave(h, i, all, kin);
    case Add(_, _) =>
  }

  /** Only operation `i` is in flight. */
  ghost predicate Alone(w: World, i: nat) {
    forall j :: 0 <= j < |w.ops| && j != i ==> w.ops[j] == Done
  }

  lemma FoundAtRest(h: History, i: nat, p: Pid)
    requires Bookkeeping(h) && Lineage(h) && OnceReplaced(h)
    requires Alone(h.w, i) && i < |h.w.ops| && h.w.ops[i].NotifyLookup?
    requires p in h.w.sup.children
    ensures p in h.born && p in h.root && h.root[p] in h.added && h.added[h.root[p]] == h.w.sup.children[p]
    ensures h.root[p] !in h.removed && p !in h.replaced
  {
    assert !Swapping(h.w, p) && !Retiring(h.w, p);
    assert Current(h, p);
  }

  lemma WaveAbout(h: History, h': History, i: nat, all: Group, kin: Kin)
    requires Alone(h.w, i) && i < |h.w.ops| && h'.w.ops == h.w.ops[i := NotifySpawn(all)]
    requires Members(all) == kin.Keys
    ensures AllAbout(h', kin)
  {
    assert forall e <- all :: e.0 in Members(all);
  }

  lemma WaveStarts(h: History, i: nat, all: Group)
    requires Inv(h) && Heirs(h) && Allowed(h, Wave(i, all)) && Alone(h.w, i)
    ensures After(Apply(h, Wave(i, all)), h.w.sup.children)
  {
    var h', kin := Apply(h, Wave(i, all)), h.w.sup.children;
    assert h' == h.(w := WaveWorld(h.w, i, all));
    assert Specs(h', kin) && Arrive(h', kin) by {
      forall p | p in kin
        ensures p in h.born && p in h.root && h.root[p] in h.added && h.added[h.root[p]] == kin[p]
        ensures h.root[p] !in h.removed && p !in h.heir
      {
        FoundAtRest(h, i, p);
      }
    }
    WaveAbout(h, h', i, all, kin);
    forall p | p in kin ensures Condemned(h', p) {
      RestartedWave(h.w, i, all, p);
    }
  }

  lemma AfterSnoc(run: seq<Event>, e: Event, kin: Kin)
    requires After(ApplyAll(START, run), kin) && OldOnly(e, kin)
    ensures After(ApplyAll(START, run + [e]), kin)
  {
    assert (run + [e])[..|run|] == run;
    InvAlways(run);
    HeirsAlways(run);
    AfterStep(ApplyAll(START, run), e, kin);
  }

  lemma {:induction false} AfterAlways(run: seq<Event>, more: seq<Event>, kin: Kin)
    requires After(ApplyAll(START, run), kin) && forall e <- more :: OldOnly(e, kin)
    ensures After(ApplyAll(START, run + more), kin)
  {
    if more == [] {
      assert run + more == run;
    } else {
      var k := |more| - 1;
      AfterAlways(run, more[..k], kin);
      assert more[k] in more;
      AfterSnoc(run + more[..k], more[k], kin);
      assert run + more == run + more[..k] + [more[k]];
    }
  }

  lemma AfterWave(es: seq<Event>, i: nat, all: Group)
    requires var h := ApplyAll(START, es); Allowed(h, Wave(i, all)) && Alone(h.w, i)
    ensures After(ApplyAll(START, es + [Wave(i, all)]), ApplyAll(START, es).w.sup.children)
  {
    assert (es + [Wave(i, all)])[..|es|] == es;
    InvAlways(es);
    HeirsAlways(es);
    WaveStarts(ApplyAll(START, es), i, all);
  }

  lemma AtRest(h: History, kin: Kin)
    requires Inv(h) && Heirs(h) && After(h, kin) && Quiescent(h.w)
    ensures h.w.sup.restarting == {}
    ensures forall o <- kin :: o !in h.w.sup.children
    ensures forall o <- kin :: o in h.heir ==> h.heir[o] in h.w.sup.children && h.w.sup.children[h.heir[o]] == kin[o]
    ensures forall p <- h.w.sup.children :: exists o :: o in kin && IsHeirOf(h, o, p)
  {
    QuiescentUnmarked(h.w);
    forall o | o in kin ensures o !in h.w.sup.children {
      QuiescentCondemned(h, o);
    }
    forall o | o in kin && o in h.heir ensures h.heir[o] in h.w.sup.children {
      assert !Arriving(h.w, o, h.heir[o]);
    }
  }

  /** A wave that starts from rest, under every interleaving and whatever exits of the old
      group are reported meanwhile, ends with exactly one new child for each old one whose
      factory failed fewer than three times, with the old spec, and with no other child. */
  lemma {:induction false} WaveLeavesTheHeirs(es: seq<Event>, i: nat, all: Group, more: seq<Event>)
    requires var h := ApplyAll(START, es);
      Allowed(h, Wave(i, all)) && Alone(h.w, i) && forall e <- more :: OldOnly(e, h.w.sup.children)
    requires Quiescent(ApplyAll(START, es + [Wave(i, all)] + more).w)
    ensures var run := es + [Wave(i, all)] + more;
      var kin, h := ApplyAll(START, es).w.sup.children, ApplyAll(START, run);
      && h.w.sup.restarting == {}
      && (forall o <- kin :: o !in h.w.sup.children && (o in h.heir <==> RO.Failed(run, o) < 3))
      && (forall o <- kin :: o in h.heir ==> h.heir[o] in h.w.sup.children && h.w.sup.children[h.heir[o]] == kin[o])
      && (forall o, o' :: o in kin && o' in kin && o in h.heir && o' in h.heir && o != o' ==> h.heir[o] != h.heir[o'])
      && (forall p <- h.w.sup.children :: exists o :: o in kin && IsHeirOf(h, o, p))
  {
    var run := es + [Wave(i, all)] + more;
    var kin, h := ApplyAll(START, es).w.sup.children, ApplyAll(START, run);
    AfterWave(es, i, all);
    AfterAlways(es + [Wave(i, all)], more, kin);
    InvAlways(run);
    HeirsAlways(run);
    AtRest(h, kin);
    forall o | o in kin ensures o in h.heir <==> RO.Failed(run, o) < 3 {
      RO.FateOfFormerChildren(run, o);
    }
  }
}
