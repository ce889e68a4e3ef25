// src/lib.rs: timers. Creating, firing and cancelling are cut at their accesses to the
// shared counter, the shared table and the mailbox, and interleave freely.
module Timers {
  /** The counter and the ids are 64 bits wide. */
  const IDS := 0x1_0000_0000_0000_0000

  datatype Kind = OneShot | Interval(period: nat)

  datatype Phase =
    | Numbered // id taken
    | Entered  // cancellation sender in the table
    | Waiting  // spawned and in its select
    | Firing   // the sleep or the tick was selected
    | Closing  // the select is over
    | Done     // cleaned up
    | Crashed  // panicked on start: tokio accepts no interval of period zero

  /** `signalled`: the cancellation sender was used or dropped. */
  datatype Timer = Timer(id: nat, kind: Kind, phase: Phase, signalled: bool)

  datatype State = State(
    counter: nat,
    table: map<nat, nat>, // id to the timer whose sender is stored
    timers: seq<Timer>,
    sends: seq<nat>,      // the timers that sent their message, in order
    cancelled: seq<nat>)  // the ids for which cancel_timer returned true, in order

  const START := State(0, map[], [], [], [])

  datatype Event =
    | New(kind: Kind)
    | Enter(i: nat)
    | Start(i: nat)
    | Fire(i: nat)
    | Send(i: nat)
    | Observe(i: nat) // the select sees the cancellation
    | Clean(i: nat)
    | Cancel(id: nat)

  predicate At(s: State, i: nat, phase: Phase) {
    i < |s.timers| && s.timers[i].phase == phase
  }

  predicate Ready(s: State, e: Event) {
    match e
    case New(_) => true
    case Enter(i) => At(s, i, Numbered)
    case Start(i) => At(s, i, Entered)
    case Fire(i) => At(s, i, Waiting)
    case Send(i) => At(s, i, Firing)
    case Observe(i) => At(s, i, Waiting) && s.timers[i].signalled
    case Clean(i) => At(s, i, Closing)
    case Cancel(_) => true
  }

  function Move(ts: seq<Timer>, i: nat, phase: Phase): seq<Timer>
    requires i < |ts|
  {
    ts[i := ts[i].(phase := phase)]
  }

  function Started(kind: Kind): Phase {
    if kind == Interval(0) then Crashed else Waiting
  }

  function Signal(ts: seq<Timer>, i: nat): seq<Timer> {
    if i < |ts| then ts[i := ts[i].(signalled := true)] else ts
  }

  /** The entry of `id` goes; a sender other than that of timer `i` reaches its receiver. */
  function Dropped(s: State, id: nat, i: nat): seq<Timer> {
    if id in s.table && s.table[id] != i then Signal(s.timers, s.table[id]) else s.timers
  }

  function Next(s: State, e: Event): State {
    if !Ready(s, e) then s
    else
      match e
      case New(kind) =>
        var id := (s.counter + 1) % IDS;
        s.(counter := id, timers := s.timers + [Timer(id, kind, Numbered, false)])
      case Enter(i) =>
        var id := s.timers[i].id;
        s.(table := s.table[id := i], timers := Move(Dropped(s, id, i), i, Entered))
      case Start(i) => s.(timers := Move(s.timers, i, Started(s.timers[i].kind)))
      case Fire(i) => s.(timers := Move(s.timers, i, Firing))
      case Send(i) =>
        s.(sends := s.sends + [i],
           timers := Move(s.timers, i, if s.timers[i].kind.OneShot? then Closing else Waiting))
      case Observe(i) => s.(timers := Move(s.timers, i, Closing))
      case Clean(i) =>
        var id := s.timers[i].id;
        s.(table := s.table - {id}, timers := Move(Dropped(s, id, i), i, Done))
      case Cancel(id) =>
        if id in s.table then
          s.(table := s.table - {id}, timers := Signal(s.timers, s.table[id]), cancelled := s.cancelled + [id])
        else s
  }

  function Exec(s: State, es: seq<Event>): State {
    if es == [] then s else Next(Exec(s, es[..|es| - 1]), es[|es| - 1])
  }

  lemma ExecSnoc(s: State, es: seq<Event>, e: Event)
    ensures Exec(s, es + [e]) == Next(Exec(s, es), e)
  {
    assert (es + [e])[..|es|] == es;
  }

  // Ids.

  predicate Numbering(s: State) {
    && s.counter == |s.timers| % IDS
    && forall i :: 0 <= i < |s.timers| ==> s.timers[i].id == (i + 1) % IDS
  }

  lemma SuccMod(n: nat)
    ensures (n % IDS + 1) % IDS == (n + 1) % IDS
  {
  }

  lemma NumberingStep(s: State, e: Event)
    requires Numbering(s)
    ensures Numbering(Next(s, e)) && |Next(s, e).timers| >= |s.timers|
  {
    SuccMod(|s.timers|);
  }

  lemma {:induction false} NumberingAlways(es: seq<Event>)
    ensures Numbering(Exec(START, es))
  {
    if es != [] {
      NumberingAlways(es[..|es| - 1]);
      NumberingStep(Exec(START, es[..|es| - 1]), es[|es| - 1]);
    }
  }

  ghost predicate UniqueIds(s: State) {
    forall i, j :: 0 <= i < j < |s.timers| ==> s.timers[i].id != s.timers[j].id
  }

  /** The timers of a run are numbered from 1, modulo 2^64. */
  lemma IdsCountFromOne(es: seq<Event>, i: nat)
    requires i < |Exec(START, es).timers|
    ensures Exec(START, es).timers[i].id == (i + 1) % 0x1_0000_0000_0000_0000
  {
    NumberingAlways(es);
  }

  /** The counter as an offset in one turn: the `i`-th id, while it has not come round. */
  lemma IdInFirstTurn(i: nat)
    requires i < IDS
    ensures (i + 1) % IDS == if i + 1 == IDS then 0 else i + 1
  {
  }

  lemma DistinctInOneTurn(i: nat, j: nat)
    requires i < j < IDS
    ensures (i + 1) % IDS != (j + 1) % IDS
  {
    IdInFirstTurn(i);
    IdInFirstTurn(j);
  }

  lemma FirstIdComesRound()
    ensures (0 + 1) % IDS == (IDS + 1) % IDS
  {
  }

  lemma NumberingUnique(s: State)
    requires Numbering(s)
    ensures UniqueIds(s) <==> |s.timers| <= IDS
  {
    if |s.timers| <= IDS {
      forall i, j | 0 <= i < j < |s.timers| ensures s.timers[i].id != s.timers[j].id {
        DistinctInOneTurn(i, j);
      }
    } else {
      FirstIdComesRound();
      assert s.timers[0].id == s.timers[IDS].id;
    }
  }

  /** The ids given out in a run are pairwise distinct exactly when at most 2^64 timers were
      created. */
  lemma IdsUniqueExactly(es: seq<Event>)
    ensures UniqueIds(Exec(START, es)) <==> |Exec(START, es).timers| <= IDS
  {
    NumberingAlways(es);
    NumberingUnique(Exec(START, es));
  }

  // The table.

  predicate Tabled(phase: Phase) {
    phase.Entered? || phase.Waiting? || phase.Firing? || phase.Closing? || phase.Crashed?
  }

  /** Every entry belongs to a timer of that id whose task has not cleaned up. */
  ghost predicate TableInv(s: State) {
    forall id <- s.table ::
      s.table[id] < |s.timers| && s.timers[s.table[id]].id == id && Tabled(s.timers[s.table[id]].phase)
  }

  lemma TableStep(s: State, e: Event)
    requires TableInv(s)
    ensures TableInv(Next(s, e))
  {
  }

  /** Whatever the interleaving, and even once ids repeat, an entry of the table belongs to a
      timer whose task has not finished: when every task is done the table is empty. */
  lemma {:induction false} NoEntryLeaks(es: seq<Event>)
    ensures TableInv(Exec(START, es))
    ensures var s := Exec(START, es);
      (forall i :: 0 <= i < |s.timers| ==> At(s, i, Done)) ==> s.table == map[]
  {
    if es != [] {
      NoEntryLeaks(es[..|es| - 1]);
      TableStep(Exec(START, es[..|es| - 1]), es[|es| - 1]);
    }
    var s := Exec(START, es);
    assert forall id <- s.table :: !At(s, s.table[id], Done);
  }

  // What a timer sends.

  function Count(xs: seq<nat>, x: nat): nat {
    if xs == [] then 0 else Count(xs[..|xs| - 1], x) + (if xs[|xs| - 1] == x then 1 else 0)
  }

  lemma CountSnoc(xs: seq<nat>, x: nat, y: nat)
    ensures Count(xs + [y], x) == Count(xs, x) + (if x == y then 1 else 0)
  {
    assert (xs + [y])[..|xs|] == xs;
  }

  /** A one-shot sends nothing before its select is over and at most once then; one that
      sends nothing was signalled. An interval ends only by a signal. */
  predicate SendsOk(t: Timer, sent: nat) {
    && (if t.phase.Closing? || t.phase.Done? then
          (t.kind.OneShot? ==> sent <= 1) && (t.kind.Interval? || sent == 0 ==> t.signalled)
        else t.kind.OneShot? ==> sent == 0)
    && (t.kind == Interval(0) ==> sent == 0 && (t.phase.Numbered? || t.phase.Entered? || t.phase.Crashed?))
    && (t.phase.Crashed? ==> t.kind == Interval(0))
  }

  ghost predicate SendsInv(s: State) {
    && (forall i: nat :: i < |s.timers| ==> SendsOk(s.timers[i], Count(s.sends, i)))
    && (forall i <- s.sends :: i < |s.timers|)
  }

  lemma {:induction false} NeverSent(xs: seq<nat>, x: nat)
    requires x !in xs
    ensures Count(xs, x) == 0
  {
    if xs != [] {
      assert xs[|xs| - 1] in xs;
      NeverSent(xs[..|xs| - 1], x);
    }
  }

  /** Timer `j` after a step that may move it and may signal it. */
  lemma SendsStepAt(s: State, e: Event, j: nat)
    requires SendsInv(s) && j < |Next(s, e).timers|
    ensures SendsOk(Next(s, e).timers[j], Count(Next(s, e).sends, j))
  {
    if e.Send? {
      CountSnoc(s.sends, j, e.i);
    }
    if j == |s.timers| {
      NeverSent(s.sends, j);
    } else {
      assert SendsOk(s.timers[j], Count(s.sends, j));
    }
  }

  lemma {:induction false} SendsAlways(es: seq<Event>)
    ensures SendsInv(Exec(START, es))
  {
    if es != [] {
      var s, e := Exec(START, es[..|es| - 1]), es[|es| - 1];
      SendsAlways(es[..|es| - 1]);
      forall j: nat | j < |Next(s, e).timers| ensures SendsOk(Next(s, e).timers[j], Count(Next(s, e).sends, j)) {
        SendsStepAt(s, e, j);
      }
    }
  }

  // Cancelling, while ids do not repeat.

  /** How entry, signal and cancellation of a timer hang together. */
  ghost predicate CancelOk(s: State, i: nat)
    requires i < |s.timers|
  {
    var t := s.timers[i];
    && (t.signalled <==> t.id in s.cancelled)
    && (t.phase.Numbered? ==> !t.signalled)
    && (t.id in s.table ==> s.table[t.id] == i)
    && (t.id in s.table <==> Tabled(t.phase) && !t.signalled)
  }

  ghost predicate NoDuplicates(xs: seq<nat>) {
    forall a, b :: 0 <= a < b < |xs| ==> xs[a] != xs[b]
  }

  ghost predicate CancelInv(s: State) {
    && UniqueIds(s) && TableInv(s) && NoDuplicates(s.cancelled)
    && (forall i: nat :: i < |s.timers| ==> CancelOk(s, i))
    && (forall id <- s.cancelled :: exists i: nat :: i < |s.timers| && s.timers[i].id == id)
  }

  lemma CancelOkAt(s: State, e: Event, j: nat)
    requires CancelInv(s) && UniqueIds(Next(s, e)) && j < |Next(s, e).timers|
    ensures CancelOk(Next(s, e), j)
  {
    var s' := Next(s, e);
    if j < |s.timers| {
      assert CancelOk(s, j);
      assert s'.timers[j].id == s.timers[j].id;
      match e
      case Enter(i) => if i < |s.timers| { assert CancelOk(s, i); }
      case Clean(i) => if i < |s.timers| { assert CancelOk(s, i); }
      case _ =>
    } else {
      assert forall i: nat :: i < |s.timers| ==> s'.timers[i].id != s'.timers[j].id && s'.timers[i] == s.timers[i];
    }
  }

  lemma CancelStep(s: State, e: Event)
    requires CancelInv(s) && UniqueIds(Next(s, e))
    ensures CancelInv(Next(s, e))
  {
    var s' := Next(s, e);
    TableStep(s, e);
    forall j: nat | j < |s'.timers| ensures CancelOk(s', j) {
      CancelOkAt(s, e, j);
    }
    assert NoDuplicates(s'.cancelled) by {
      if e.Cancel? && e.id in s.table {
        assert CancelOk(s, s.table[e.id]);
        assert e.id !in s.cancelled;
      }
    }
    forall id | id in s'.cancelled ensures exists i: nat :: i < |s'.timers| && s'.timers[i].id == id {
      if id in s.cancelled {
        var i: nat :| i < |s.timers| && s.timers[i].id == id;
        assert s'.timers[i].id == id;
      } else {
        assert s'.timers[s.table[id]].id == id;
      }
    }
  }

  lemma {:induction false} CancelAlways(es: seq<Event>)
    requires |Exec(START, es).timers| <= IDS
    ensures CancelInv(Exec(START, es))
  {
    if es != [] {
      var s, e := Exec(START, es[..|es| - 1]), es[|es| - 1];
      NumberingAlways(es[..|es| - 1]);
      NumberingStep(s, e);
      CancelAlways(es[..|es| - 1]);
      IdsUniqueExactly(es);
      CancelStep(s, e);
    }
  }

  /** Until ids repeat, cancel_timer returns true at most once per id, and it does so exactly
      for the id of a timer that is in the table phases and was not cancelled before. */
  lemma CancelReturnsTrueOnce(es: seq<Event>, i: nat)
    requires |Exec(START, es).timers| <= IDS && i < |Exec(START, es).timers|
    ensures var s := Exec(START, es);
      && NoDuplicates(s.cancelled)
      && (s.timers[i].id in s.table <==> Tabled(s.timers[i].phase) && s.timers[i].id !in s.cancelled)
  {
    CancelAlways(es);
    assert CancelOk(Exec(START, es), i);
  }

  /** A one-shot sends at most once in any run. Until ids repeat, a finished one sent its
      message unless cancel_timer returned true for it, and an interval finishes only
      after such a cancel. */
  lemma OneShotSendsOnce(es: seq<Event>, i: nat)
    requires i < |Exec(START, es).timers|
    ensures var s := Exec(START, es);
      && (s.timers[i].kind.OneShot? ==> Count(s.sends, i) <= 1)
      && (|s.timers| <= IDS && s.timers[i].phase.Done? && s.timers[i].id !in s.cancelled ==>
            s.timers[i].kind.OneShot? && Count(s.sends, i) == 1)
  {
    SendsAlways(es);
    var s := Exec(START, es);
    assert SendsOk(s.timers[i], Count(s.sends, i));
    if |s.timers| <= IDS {
      CancelAlways(es);
      assert CancelOk(s, i);
    }
  }

  /** An entry leaks exactly for an interval of period zero that nobody cancelled: when every
      task has ended, the table holds the ids of those timers and no others. */
  lemma LeaksExactly(es: seq<Event>, i: nat)
    requires |Exec(START, es).timers| <= IDS && i < |Exec(START, es).timers|
    requires var s := Exec(START, es);
      forall j :: 0 <= j < |s.timers| ==> At(s, j, Done) || At(s, j, Crashed)
    ensures var s := Exec(START, es);
      s.timers[i].id in s.table <==> s.timers[i].kind == Interval(0) && s.timers[i].id !in s.cancelled
  {
    SendsAlways(es);
    CancelAlways(es);
    var s := Exec(START, es);
    assert SendsOk(s.timers[i], Count(s.sends, i));
    assert CancelOk(s, i);
    assert At(s, i, Done) || At(s, i, Crashed);
  }

  /** Cancelling a one-shot that can still be cancelled comes too late for its message
      exactly when its select is over: cancel_timer then returns true all the same. No
      caller can see that phase, and no earlier one is safe either (CancelMayLoseTheRace). */
  lemma CancelledAfterSendExactly(es: seq<Event>, i: nat)
    requires |Exec(START, es).timers| <= IDS && i < |Exec(START, es).timers|
    requires Exec(START, es).timers[i].kind.OneShot? && Exec(START, es).timers[i].id in Exec(START, es).table
    ensures var s := Exec(START, es);
      Count(s.sends, i) == 1 <==> s.timers[i].phase.Closing?
  {
    SendsAlways(es);
    CancelAlways(es);
    var s := Exec(START, es);
    assert SendsOk(s.timers[i], Count(s.sends, i));
    assert CancelOk(s, i);
  }

  lemma ThreeSteps(s: State, a: Event, b: Event, c: Event)
    ensures Exec(s, [a, b, c]) == Next(Next(Next(s, a), b), c)
  {
    ExecSnoc(s, [], a);
    ExecSnoc(s, [a], b);
    ExecSnoc(s, [a, b], c);
    assert [] + [a] == [a] && [a] + [b] == [a, b] && [a, b] + [c] == [a, b, c];
  }

  lemma TwoSteps(s: State, a: Event, b: Event)
    ensures Exec(s, [a, b]) == Next(Next(s, a), b)
  {
    ExecSnoc(s, [], a);
    ExecSnoc(s, [a], b);
    assert [] + [a] == [a] && [a] + [b] == [a, b];
  }

  /** From every state in which a one-shot waits uncancelled, cancel_timer can return true
      after the message was sent, and the message can be sent after it returned true:
      the select picks either branch when both are ready. */
  lemma CancelMayLoseTheRace(s: State, i: nat)
    requires At(s, i, Waiting) && s.timers[i].kind.OneShot?
    requires s.timers[i].id in s.table && s.table[s.timers[i].id] == i
    ensures var s' := Exec(s, [Fire(i), Send(i), Cancel(s.timers[i].id)]);
      s'.sends == s.sends + [i] && s'.cancelled == s.cancelled + [s.timers[i].id]
    ensures var s' := Exec(s, [Cancel(s.timers[i].id), Fire(i), Send(i)]);
      s'.sends == s.sends + [i] && s'.cancelled == s.cancelled + [s.timers[i].id]
  {
    ThreeSteps(s, Fire(i), Send(i), Cancel(s.timers[i].id));
    ThreeSteps(s, Cancel(s.timers[i].id), Fire(i), Send(i));
  }

  predicate Over(s: State, i: nat) {
    At(s, i, Closing) || At(s, i, Done)
  }

  lemma OverStays(s: State, e: Event, i: nat)
    requires Over(s, i)
    ensures Over(Next(s, e), i)
    ensures Next(s, e).sends == s.sends || exists j: nat :: j != i && Next(s, e).sends == s.sends + [j]
  {
    if e.Send? && e.i != i && Ready(s, e) {
      assert Next(s, e).sends == s.sends + [e.i];
    }
  }

  /** A timer sends nothing more once its task has left the select. */
  lemma {:induction false} ClosedSendsNothing(s: State, es: seq<Event>, i: nat)
    requires Over(s, i)
    ensures Over(Exec(s, es), i) && Count(Exec(s, es).sends, i) == Count(s.sends, i)
  {
    if es != [] {
      var u, e := Exec(s, es[..|es| - 1]), es[|es| - 1];
      ClosedSendsNothing(s, es[..|es| - 1], i);
      OverStays(u, e, i);
      if Next(u, e).sends != u.sends {
        var j: nat :| j != i && Next(u, e).sends == u.sends + [j];
        CountSnoc(u.sends, i, j);
      }
    }
  }

  lemma ThereAndBack(ts: seq<Timer>, i: nat)
    requires i < |ts|
    ensures Move(Move(ts, i, Firing), i, ts[i].phase) == ts
  {
  }

  lemma TickStep(u: State, v: State, i: nat)
    requires At(u, i, Waiting) && u.timers[i].kind.Interval? && v == Next(u, Fire(i))
    ensures Next(v, Send(i)) == u.(sends := u.sends + [i])
  {
    assert v == u.(timers := Move(u.timers, i, Firing));
    ThereAndBack(u.timers, i);
  }

  lemma Tick(s: State, es: seq<Event>, u: State, i: nat)
    requires u == Exec(s, es) && At(u, i, Waiting) && u.timers[i].kind.Interval?
    ensures Exec(s, es + [Fire(i)] + [Send(i)]) == u.(sends := u.sends + [i])
  {
    var v := Exec(s, es + [Fire(i)]);
    assert v == Next(u, Fire(i)) by {
      ExecSnoc(s, es, Fire(i));
    }
    assert Exec(s, es + [Fire(i)] + [Send(i)]) == Next(v, Send(i)) by {
      ExecSnoc(s, es + [Fire(i)], Send(i));
    }
    TickStep(u, v, i);
  }

  lemma LeaveRun(s: State, es: seq<Event>, u: State, i: nat)
    requires u == Exec(s, es)
    ensures Exec(s, es + [Observe(i)] + [Clean(i)]) == Next(Next(u, Observe(i)), Clean(i))
  {
    ExecSnoc(s, es, Observe(i));
    ExecSnoc(s, es + [Observe(i)], Clean(i));
  }

  // The object. Alone in the runtime, each operation is a run of the machine.

  /** The ids of the timers that sent. */
  ghost predicate SentIds(sent: seq<nat>, s: State) {
    |sent| == |s.sends| && forall k :: 0 <= k < |sent| ==> s.sends[k] < |s.timers| && sent[k] == s.timers[s.sends[k]].id
  }

  lemma SentIdsStay(sent: seq<nat>, s: State, s': State)
    requires SentIds(sent, s) && s'.sends == s.sends && |s.timers| <= |s'.timers|
    requires forall i :: 0 <= i < |s.timers| ==> s'.timers[i].id == s.timers[i].id
    ensures SentIds(sent, s')
  {
  }

  /** How many of the branches taken before the first false are ticks. */
  function Ticks(picks: seq<bool>): (n: nat)
    ensures n <= |picks| && (forall k :: 0 <= k < n ==> picks[k]) && (n < |picks| ==> !picks[n])
  {
    if picks == [] || !picks[0] then 0 else 1 + Ticks(picks[1..])
  }

  class TimerTable {
    var counter: nat
    var table: set<nat>
    var sent: seq<nat> // ids of the messages sent, in order
    ghost var state: State

    ghost predicate Valid()
      reads this
    {
      counter == state.counter && table == state.table.Keys && SentIds(sent, state)
    }

    constructor ()
      ensures Valid() && state == START && sent == []
    {
      counter, table, sent, state := 0, {}, [], START;
    }

    /** send_after and send_interval up to the spawn. */
    method Create(kind: Kind) returns (id: nat)
      requires Valid()
      modifies this
      ensures Valid() && sent == old(sent)
      ensures var n := |old(state.timers)|;
        && state == Exec(old(state), [New(kind), Enter(n), Start(n)])
        && n < |state.timers| && id == state.timers[n].id && At(state, n, Started(kind))
    {
      ghost var s, n := state, |state.timers|;
      ThreeSteps(state, New(kind), Enter(n), Start(n));
      counter := (counter + 1) % IDS;
      id := counter;
      state := Next(state, New(kind));
      table := table + {id};
      state := Next(Next(state, Enter(n)), Start(n));
      SentIdsStay(sent, s, state);
    }

    method CancelTimer(id: nat) returns (cancelled: bool)
      requires Valid()
      modifies this
      ensures Valid() && state == Next(old(state), Cancel(id)) && sent == old(sent)
      ensures cancelled == (id in old(table)) == (state.cancelled == old(state.cancelled) + [id])
      ensures id !in table
    {
      cancelled := id in table;
      ghost var s := state;
      state := Next(state, Cancel(id));
      if cancelled {
        table := table - {id};
      }
      SentIdsStay(sent, s, state);
    }

    /** The end of every task: its entry goes. */
    method CleanUp(ghost i: nat, id: nat)
      requires Valid() && At(state, i, Closing) && state.timers[i].id == id
      modifies this
      ensures Valid() && state == Next(old(state), Clean(i)) && At(state, i, Done)
      ensures id !in table && sent == old(sent)
    {
      ghost var s := state;
      state := Next(state, Clean(i));
      table := table - {id};
      SentIdsStay(sent, s, state);
    }

    /** What a one-shot spawns; `fires` is the branch its select takes. */
    method OneShotTask(ghost i: nat, id: nat, fires: bool)
      requires Valid() && At(state, i, Waiting) && state.timers[i].kind.OneShot? && state.timers[i].id == id
      requires fires || state.timers[i].signalled
      modifies this
      ensures Valid() && At(state, i, Done) && id !in table
      ensures sent == if fires then old(sent) + [id] else old(sent)
      ensures state == Exec(old(state), if fires then [Fire(i), Send(i), Clean(i)] else [Observe(i), Clean(i)])
    {
      ghost var s := state;
      if fires {
        ThreeSteps(s, Fire(i), Send(i), Clean(i));
        FireOnce(s, i);
        state := Next(Next(state, Fire(i)), Send(i));
        sent := sent + [id];
      } else {
        TwoSteps(s, Observe(i), Clean(i));
        state := Next(state, Observe(i));
        SentIdsStay(sent, s, state);
      }
      CleanUp(i, id);
    }

    /** What an interval spawns: `picks` are the branches its select takes, true for the tick. It
        sends once per tick; when it takes the other branch, it is cancelled and ends. */
    method IntervalTask(ghost i: nat, id: nat, picks: seq<bool>) returns (ended: bool)
      requires Valid() && At(state, i, Waiting) && state.timers[i].kind.Interval? && state.timers[i].id == id
      requires Ticks(picks) < |picks| ==> state.timers[i].signalled
      modifies this
      ensures Valid() && ended == (Ticks(picks) < |picks|)
      ensures sent == old(sent) + seq(Ticks(picks), _ => id)
      ensures ended ==> At(state, i, Done) && id !in table
      ensures !ended ==> At(state, i, Waiting) && table == old(table)
      ensures exists es :: state == Exec(old(state), es)
    {
      ghost var s, es := state, [];
      var n := 0;
      while n < |picks| && picks[n]
        invariant 0 <= n <= |picks| && (forall k :: 0 <= k < n ==> picks[k]) && Valid() && table == old(table)
        invariant state == Exec(s, es) && state.timers == s.timers
        invariant sent == old(sent) + seq(n, _ => id)
      {
        Tick(s, es, state, i);
        es := es + [Fire(i)] + [Send(i)];
        state := state.(sends := state.sends + [i]);
        sent := sent + [id];
        n := n + 1;
      }
      FirstFalse(picks, n);
      ended := n < |picks|;
      if ended {
        LeaveRun(s, es, state, i);
        ghost var before := state;
        state := Next(state, Observe(i));
        SentIdsStay(sent, before, state);
        CleanUp(i, id);
      }
    }
  }

  lemma FireOnce(s: State, i: nat)
    requires At(s, i, Waiting) && s.timers[i].kind.OneShot?
    ensures var s' := Next(Next(s, Fire(i)), Send(i));
      && s'.sends == s.sends + [i] && At(s', i, Closing) && s'.counter == s.counter && s'.table == s.table
      && |s'.timers| == |s.timers| && forall j :: 0 <= j < |s.timers| ==> s'.timers[j].id == s.timers[j].id
  {
  }

  lemma FirstFalse(picks: seq<bool>, n: nat)
    requires n <= |picks| && (forall k :: 0 <= k < n ==> picks[k]) && (n < |picks| ==> !picks[n])
    ensures n == Ticks(picks)
  {
  }
}
