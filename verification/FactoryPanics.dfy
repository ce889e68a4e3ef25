// Factories that panic. A panic ends the restart task before it unmarks its pid. The runs
// here are those of SupervisorSteps with such panics anywhere: a pid is left marked exactly
// when that has happened to it and nothing has unmarked it since.
module FactoryPanics {
  import opened Pids
  import opened SupervisorSteps
  import MO = MarkOwnership
  import RT = RestartTermination

  /** A world, and the marked pids that a panicking task abandoned. */
  datatype State = State(w: World, abandoned: set<Pid>)

  datatype Event = Normal(l: Label) | Panic(i: nat)

  const START := State(World(EMPTY, []), {})

  predicate CanPanic(w: World, i: nat) {
    i < |w.ops| && w.ops[i].TaskCall? && w.ops[i].spec.factory.Respawn?
  }

  function Next(s: State, e: Event): State {
    match e
    case Normal(l) =>
      var w' := Step(s.w, l);
      State(w', s.abandoned * w'.sup.restarting)
    case Panic(i) =>
      if !CanPanic(s.w, i) then s
      else State(World(s.w.sup, s.w.ops[i := Done]), s.abandoned + ({s.w.ops[i].orig} * s.w.sup.restarting))
  }

  function Run(es: seq<Event>): State {
    if es == [] then START else Next(Run(es[..|es| - 1]), es[|es| - 1])
  }

  /** Every marked pid that was not abandoned is owned; every abandoned pid is marked. */
  ghost predicate Inv(s: State) {
    && s.abandoned <= s.w.sup.restarting
    && forall p <- s.w.sup.restarting :: p !in s.abandoned ==> MO.Owned(s.w, p)
  }

  /** A panic takes nothing from the pids of other tasks. */
  lemma PanicKeepsOwned(w: World, i: nat, p: Pid)
    requires CanPanic(w, i) && p != w.ops[i].orig && MO.Owned(w, p)
    ensures MO.Owned(World(w.sup, w.ops[i := Done]), p)
  {
    var j :| 0 <= j < |w.ops| && MO.Owns(w.ops[j], p, w.sup.children);
    assert w.ops[i := Done][j] == w.ops[j];
  }

  lemma NextKeepsInv(s: State, e: Event)
    requires Inv(s)
    ensures Inv(Next(s, e))
  {
    var s' := Next(s, e);
    forall p | p in s'.w.sup.restarting && p !in s'.abandoned ensures MO.Owned(s'.w, p) {
      match e
      case Normal(l) => MO.StepKeepsOwned(s.w, l, p);
      case Panic(i) =>
        if CanPanic(s.w, i) {
          PanicKeepsOwned(s.w, i, p);
        }
    }
  }

  lemma {:induction false} Always(es: seq<Event>)
    ensures Inv(Run(es))
  {
    if es != [] {
      Always(es[..|es| - 1]);
      NextKeepsInv(Run(es[..|es| - 1]), es[|es| - 1]);
    }
  }

  /** In every run, with panics anywhere: at quiescence the marked pids are exactly those whose
      task was ended by a panic while they were marked and which nothing has unmarked since;
      without a panic there are none. The next exit of such a pid is swallowed. */
  lemma {:induction false} StuckExactly(es: seq<Event>, p: Pid)
    requires Quiescent(Run(es).w)
    ensures var s := Run(es);
      && s.w.sup.restarting == s.abandoned
      && (p in s.abandoned <==> SupervisorSteps.Next(s.w.sup, NotifyMark(p), Go).op == Done)
  {
    Always(es);
    var s := Run(es);
    assert forall q <- s.w.sup.restarting :: q !in s.abandoned ==> MO.Owned(s.w, q);
  }

  /** A panic is one more step of a task, and brings quiescence nearer like any other. */
  lemma PanicDecreases(w: World, i: nat)
    requires CanPanic(w, i)
    ensures RT.Less(World(w.sup, w.ops[i := Done]), w)
  {
    RT.SumsUpdate(w.ops, i, Done, w.sup.children);
  }

  /** When the factory of the last restart in flight panics while its pid is marked, all is at
      rest, the pid is still marked, and a child if it was one. */
  lemma PanicLeavesMark(s: State, i: nat)
    requires CanPanic(s.w, i) && s.w.ops[i].orig in s.w.sup.restarting
    requires forall j :: 0 <= j < |s.w.ops| && j != i ==> s.w.ops[j] == Done
    ensures var s' := Next(s, Panic(i));
      && Quiescent(s'.w) && s'.w.sup == s.w.sup
      && s.w.ops[i].orig in s'.w.sup.restarting && s.w.ops[i].orig in s'.abandoned
  {
  }
}
