// src/lib.rs: the life of actors as a step machine. Spawning, stopping and the exit
// sequence (drop the mailbox, notify supervisors, free the pid, take the links, tell the
// peers) are cut at their accesses to the slab, the mailboxes and the links, and interleave
// freely. Each operation on the links is one step here; LinkInterleavings cuts those too.
// The runs are those in which no slot of the slab wraps its generation.
module Lifecycle {
  import opened Pids
  import L = Links

  datatype Phase =
    | Spawning // pid allocated, mailbox not yet entered
    | Running
    | Unhooked // mailbox dropped
    | Notified // supervisors notified
    | Freed    // pid deallocated
    | Telling(peers: seq<Pid>, told: seq<bool>) // links taken; which peers so far had a mailbox
    | Gone(peers: seq<Pid>, told: seq<bool>)

  datatype Actor = Actor(pid: Pid, phase: Phase)

  datatype State = State(
    slab: SlabHistory,
    mailboxes: map<Pid, nat>,     // pid to the actor that reads its mailbox
    actors: seq<Actor>,
    links: L.LinkMap,
    exits: seq<(Pid, Pid)>)       // Exit messages sent, from and to

  const START := State(NO_HISTORY, map[], [], map[], [])

  datatype Event =
    | Spawn
    | Hook(i: nat)
    | Stop(p: Pid)
    | Unhook(i: nat)
    | Notify(i: nat)
    | FreePid(i: nat)
    | TakeLinks(i: nat)
    | Tell(i: nat)
    | LinkUp(a: Pid, b: Pid)
    | LinkDown(a: Pid, b: Pid)
    | Consume(p: Pid) // a restart task or remove_child cleans up the links of p

  function PhaseOf(s: State, i: nat): Phase {
    if i < |s.actors| then s.actors[i].phase else Gone([], [])
  }

  ghost predicate Ready(s: State, e: Event) {
    match e
    case Spawn => Wf(s.slab.slab) && NoWrap(Apply(s.slab, Alloc))
    case Hook(i) => PhaseOf(s, i).Spawning?
    case Unhook(i) => PhaseOf(s, i).Running?
    case Notify(i) => PhaseOf(s, i).Unhooked?
    case FreePid(i) => PhaseOf(s, i).Notified? && Wf(s.slab.slab) && NoWrap(Apply(s.slab, Free(s.actors[i].pid)))
    case TakeLinks(i) => PhaseOf(s, i).Freed?
    case Tell(i) => PhaseOf(s, i).Telling?
    case _ => true
  }

  function Move(s: State, i: nat, phase: Phase): seq<Actor>
    requires i < |s.actors|
  {
    s.actors[i := s.actors[i].(phase := phase)]
  }

  ghost function Next(s: State, e: Event): State {
    if !Ready(s, e) then s
    else
      match e
      case Spawn =>
        var slab := Apply(s.slab, Alloc);
        s.(slab := slab, actors := s.actors + [Actor(slab.log[|slab.log| - 1].pid, Spawning)])
      case Hook(i) => s.(mailboxes := s.mailboxes[s.actors[i].pid := i], actors := Move(s, i, Running))
      case Stop(p) => s.(mailboxes := s.mailboxes - {p})
      case Unhook(i) => s.(mailboxes := s.mailboxes - {s.actors[i].pid}, actors := Move(s, i, Unhooked))
      case Notify(i) => s.(actors := Move(s, i, Notified))
      case FreePid(i) => s.(slab := Apply(s.slab, Free(s.actors[i].pid)), actors := Move(s, i, Freed))
      case TakeLinks(i) =>
        var p := s.actors[i].pid;
        s.(links := L.Cleanup(s.links, p),
           actors := Move(s, i, Telling(if p in s.links then s.links[p] else [], [])))
      case Tell(i) =>
        var Telling(peers, told) := s.actors[i].phase;
        if |told| >= |peers| then s.(actors := Move(s, i, Gone(peers, told)))
        else
          var q := peers[|told|];
          s.(exits := if q in s.mailboxes then s.exits + [(s.actors[i].pid, q)] else s.exits,
             actors := Move(s, i, Telling(peers, told + [q in s.mailboxes])))
      case LinkUp(a, b) => s.(links := L.Link(s.links, a, b))
      case LinkDown(a, b) => s.(links := L.Unlink(s.links, a, b))
      case Consume(p) => s.(links := L.Cleanup(s.links, p))
  }

  ghost function Exec(s: State, es: seq<Event>): State {
    if es == [] then s else Next(Exec(s, es[..|es| - 1]), es[|es| - 1])
  }

  // Pids and mailboxes.

  predicate HoldsPid(ph: Phase) {
    ph.Spawning? || ph.Running? || ph.Unhooked? || ph.Notified?
  }

  ghost predicate PidsInv(s: State) {
    var h := s.slab;
    && Inv(h) && NoWrap(h) && |h.log| == |s.actors|
    && (forall i :: 0 <= i < |s.actors| ==>
          s.actors[i].pid == h.log[i].pid &&
          (HoldsPid(s.actors[i].phase) <==> h.log[i].stamp == h.frees[h.log[i].index]))
  }

  /** Every mailbox is that of the running actor to which its pid was issued. */
  ghost predicate BoxesInv(s: State) {
    forall p <- s.mailboxes ::
      s.mailboxes[p] < |s.actors| && s.actors[s.mailboxes[p]].pid == p && s.actors[s.mailboxes[p]].phase.Running?
  }

  lemma OnePidEach(s: State, i: nat, j: nat)
    requires PidsInv(s) && i < |s.actors| && j < |s.actors| && s.actors[i].pid == s.actors[j].pid
    ensures i == j
  {
    if i < j {
      FreshBeforeWrap(s.slab, i, j);
    } else if j < i {
      FreshBeforeWrap(s.slab, j, i);
    }
  }

  lemma HolderIsValid(s: State, i: nat)
    requires PidsInv(s) && i < |s.actors| && HoldsPid(s.actors[i].phase)
    ensures IsValid(s.slab.slab, s.actors[i].pid)
    ensures SplitPid(s.actors[i].pid).0 == s.slab.log[i].index
  {
    var l := s.slab.log[i];
    assert Recorded(s.slab, l);
    SplitInvertsMake(l.index, (1 + l.stamp) % WORD);
  }

  lemma SpawnKeepsPids(s: State)
    requires PidsInv(s) && Ready(s, Spawn)
    ensures PidsInv(Next(s, Spawn))
  {
    var s' := Next(s, Spawn);
    var h, h' := s.slab, s'.slab;
    AllocKeepsInv(h);
    assert h'.log == h.log + [h'.log[|h.log|]];
    if h.slab.free != [] {
      assert Slot(h.slab) in h.slab.free;
    }
    forall i | 0 <= i < |s.actors|
      ensures h'.frees[h'.log[i].index] == h.frees[h.log[i].index]
    {
      assert Recorded(h, h.log[i]);
    }
  }

  lemma FreeKeepsPids(s: State, i: nat)
    requires PidsInv(s) && Ready(s, FreePid(i))
    ensures PidsInv(Next(s, FreePid(i)))
  {
    var s' := Next(s, FreePid(i));
    var h, h' := s.slab, s'.slab;
    FreeKeepsInv(h, s.actors[i].pid);
    HolderIsValid(s, i);
    forall j | 0 <= j < |s.actors|
      ensures HoldsPid(s'.actors[j].phase) <==> h'.log[j].stamp == h'.frees[h'.log[j].index]
    {
      assert Recorded(h, h.log[j]);
    }
  }

  lemma MoveKeepsPids(s: State, s': State, i: nat, phase: Phase)
    requires PidsInv(s) && i < |s.actors| && HoldsPid(phase) == HoldsPid(s.actors[i].phase)
    requires s'.slab == s.slab && s'.actors == Move(s, i, phase)
    ensures PidsInv(s')
  {
  }

  lemma NextKeepsPids(s: State, e: Event)
    requires PidsInv(s)
    ensures PidsInv(Next(s, e))
  {
    if Ready(s, e) {
      var s' := Next(s, e);
      match e
      case Spawn => SpawnKeepsPids(s);
      case FreePid(i) => FreeKeepsPids(s, i);
      case Hook(i) => MoveKeepsPids(s, s', i, Running);
      case Unhook(i) => MoveKeepsPids(s, s', i, Unhooked);
      case Notify(i) => MoveKeepsPids(s, s', i, Notified);
      case TakeLinks(i) => MoveKeepsPids(s, s', i, s'.actors[i].phase);
      case Tell(i) => MoveKeepsPids(s, s', i, s'.actors[i].phase);
      case _ =>
    }
  }

  lemma NextKeepsBoxes(s: State, e: Event)
    requires PidsInv(s) && BoxesInv(s)
    ensures BoxesInv(Next(s, e))
  {
    if Ready(s, e) {
      var s' := Next(s, e);
      forall p | p in s'.mailboxes
        ensures s'.mailboxes[p] < |s'.actors|
        ensures s'.actors[s'.mailboxes[p]].pid == p && s'.actors[s'.mailboxes[p]].phase.Running?
      {
      }
    }
  }

  lemma {:induction false} Always(es: seq<Event>)
    ensures PidsInv(Exec(START, es)) && BoxesInv(Exec(START, es))
  {
    if es != [] {
      Always(es[..|es| - 1]);
      NextKeepsPids(Exec(START, es[..|es| - 1]), es[|es| - 1]);
      NextKeepsBoxes(Exec(START, es[..|es| - 1]), es[|es| - 1]);
    }
  }

  /** At every intermediate step of spawning, stopping and exiting, every key of the
      mailbox table is a live pid of the slab, and its mailbox is read by the one actor to
      which that pid was ever issued, which is running. */
  lemma {:induction false} MailboxesAreLive(es: seq<Event>, p: Pid)
    requires p in Exec(START, es).mailboxes
    ensures var s := Exec(START, es); var i := s.mailboxes[p];
      && IsValid(s.slab.slab, p)
      && i < |s.actors| && s.actors[i] == Actor(p, Running)
      && forall j :: 0 <= j < |s.actors| && s.actors[j].pid == p ==> j == i
  {
    Always(es);
    var s := Exec(START, es);
    var i := s.mailboxes[p];
    HolderIsValid(s, i);
    forall j | 0 <= j < |s.actors| && s.actors[j].pid == p ensures j == i {
      OnePidEach(s, i, j);
    }
  }

  /** `p` was stopped or its actor is on its way out. */
  ghost predicate Dead(s: State, i: nat) {
    i < |s.actors| && !s.actors[i].phase.Spawning? && s.actors[i].pid !in s.mailboxes
  }

  lemma DeadStays(s: State, e: Event, i: nat)
    requires PidsInv(s) && BoxesInv(s) && Dead(s, i)
    ensures Dead(Next(s, e), i) && Next(s, e).actors[i].pid == s.actors[i].pid
  {
    if Ready(s, e) && e.Hook? && s.actors[e.i].pid == s.actors[i].pid {
      OnePidEach(s, i, e.i);
    }
  }

  /** Once the mailbox of an actor is dropped, by stop or by exit, no continuation of the run
      ever has a mailbox under its pid again: a send to it fails forever, and never
      reaches a later actor in the same slot. */
  lemma {:induction false} DeadForever(es: seq<Event>, more: seq<Event>, i: nat)
    requires Dead(Exec(START, es), i)
    ensures Dead(Exec(START, es + more), i) && Exec(START, es + more).actors[i].pid == Exec(START, es).actors[i].pid
    ensures Exec(START, es).actors[i].pid !in Exec(START, es + more).mailboxes
  {
    if more == [] {
      assert es + more == es;
    } else {
      var k := |more| - 1;
      DeadForever(es, more[..k], i);
      assert (es + more)[..|es + more| - 1] == es + more[..k];
      Always(es + more[..k]);
      DeadStays(Exec(START, es + more[..k]), more[k], i);
    }
  }

  // Exit messages.

  function Sent(exits: seq<(Pid, Pid)>, p: Pid, q: Pid): nat {
    if exits == [] then 0
    else Sent(exits[..|exits| - 1], p, q) + (if exits[|exits| - 1] == (p, q) then 1 else 0)
  }

  /** How often `q` is among the peers told so far, with a mailbox. */
  function Told(peers: seq<Pid>, told: seq<bool>, q: Pid): nat {
    if told == [] then 0
    else
      var n := |told| - 1;
      Told(peers, told[..n], q) + (if n < |peers| && peers[n] == q && told[n] then 1 else 0)
  }

  function Due(ph: Phase, q: Pid): nat {
    if ph.Telling? || ph.Gone? then Told(ph.peers, ph.told, q) else 0
  }

  predicate Lengths(ph: Phase) {
    (ph.Telling? ==> |ph.told| <= |ph.peers|) && (ph.Gone? ==> |ph.told| == |ph.peers|)
  }

  ghost predicate ExitsInv(s: State) {
    && (forall i :: 0 <= i < |s.actors| ==> Lengths(s.actors[i].phase))
    && (forall i, q: Pid :: 0 <= i < |s.actors| ==> Sent(s.exits, s.actors[i].pid, q) == Due(s.actors[i].phase, q))
    && (forall p: Pid, q: Pid ::
          (forall i :: 0 <= i < |s.actors| ==> s.actors[i].pid != p) ==> Sent(s.exits, p, q) == 0)
  }

  lemma TellKeepsExits(s: State, i: nat, j: nat, q: Pid)
    requires PidsInv(s) && ExitsInv(s) && Ready(s, Tell(i)) && j < |s.actors|
    ensures var s' := Next(s, Tell(i));
      Lengths(s'.actors[j].phase) && Sent(s'.exits, s'.actors[j].pid, q) == Due(s'.actors[j].phase, q)
  {
    var s' := Next(s, Tell(i));
    var Telling(peers, told) := s.actors[i].phase;
    assert Lengths(s.actors[i].phase);
    if |told| < |peers| {
      var x := peers[|told|];
      var e := (s.actors[i].pid, x);
      assert (s.exits + [e])[..|s.exits|] == s.exits;
      assert (told + [x in s.mailboxes])[..|told|] == told;
      if s.actors[j].pid == s.actors[i].pid {
        OnePidEach(s, i, j);
      }
    }
  }

  lemma NextKeepsExits(s: State, e: Event)
    requires PidsInv(s) && ExitsInv(s)
    ensures ExitsInv(Next(s, e))
  {
    if Ready(s, e) {
      var s' := Next(s, e);
      match e
      case Tell(i) =>
        forall j, q: Pid | 0 <= j < |s'.actors|
          ensures Lengths(s'.actors[j].phase) && Sent(s'.exits, s'.actors[j].pid, q) == Due(s'.actors[j].phase, q)
        {
          TellKeepsExits(s, i, j, q);
        }
        UnknownSendNothing(s, i);
      case Spawn =>
        SpawnKeepsExits(s);
      case _ =>
        forall j | 0 <= j < |s.actors|
          ensures SameDue(s.actors[j], s'.actors[j])
        {
        }
        SameKeepsExits(s, s');
    }
  }

  predicate SameDue(a: Actor, b: Actor) {
    && a.pid == b.pid
    && (a.phase == b.phase ||
        (!a.phase.Telling? && !a.phase.Gone? &&
         ((!b.phase.Telling? && !b.phase.Gone?) || (b.phase.Telling? && b.phase.told == []))))
  }

  lemma SameKeepsExits(s: State, s': State)
    requires ExitsInv(s) && s'.exits == s.exits && |s'.actors| == |s.actors|
    requires forall j :: 0 <= j < |s.actors| ==> SameDue(s.actors[j], s'.actors[j])
    ensures ExitsInv(s')
  {
    forall j, q: Pid | 0 <= j < |s.actors|
      ensures Lengths(s'.actors[j].phase) && Sent(s.exits, s'.actors[j].pid, q) == Due(s'.actors[j].phase, q)
    {
      assert SameDue(s.actors[j], s'.actors[j]) && Lengths(s.actors[j].phase);
    }
  }

  lemma UnknownSendNothing(s: State, i: nat)
    requires ExitsInv(s) && Ready(s, Tell(i))
    ensures var s' := Next(s, Tell(i)); forall p: Pid, q: Pid ::
      (forall j :: 0 <= j < |s'.actors| ==> s'.actors[j].pid != p) ==> Sent(s'.exits, p, q) == 0
  {
    var s' := Next(s, Tell(i));
    forall p: Pid, q: Pid | forall j :: 0 <= j < |s'.actors| ==> s'.actors[j].pid != p
      ensures Sent(s'.exits, p, q) == 0
    {
      assert s'.actors[i].pid == s.actors[i].pid;
      assert forall j :: 0 <= j < |s.actors| ==> s.actors[j].pid == s'.actors[j].pid;
      if s'.exits != s.exits {
        assert s'.exits[..|s.exits|] == s.exits;
      }
    }
  }

  lemma SpawnKeepsExits(s: State)
    requires PidsInv(s) && ExitsInv(s) && Ready(s, Spawn)
    ensures ExitsInv(Next(s, Spawn))
  {
    var s', n := Next(s, Spawn), |s.actors|;
    SpawnKeepsPids(s);
    forall j | 0 <= j < n
      ensures s.actors[j].pid != s'.actors[n].pid
    {
      assert s'.actors[j].pid == s.actors[j].pid;
      if s'.actors[j].pid == s'.actors[n].pid {
        OnePidEach(s', j, n);
      }
    }
    forall p: Pid, q: Pid | forall j :: 0 <= j < |s'.actors| ==> s'.actors[j].pid != p
      ensures Sent(s'.exits, p, q) == 0
    {
      assert forall j :: 0 <= j < n ==> s.actors[j].pid == s'.actors[j].pid;
    }
  }

  lemma {:induction false} ExitsAlways(es: seq<Event>)
    ensures ExitsInv(Exec(START, es))
  {
    if es != [] {
      ExitsAlways(es[..|es| - 1]);
      Always(es[..|es| - 1]);
      NextKeepsExits(Exec(START, es[..|es| - 1]), es[|es| - 1]);
    }
  }

  lemma {:induction false} ToldAtMost(peers: seq<Pid>, told: seq<bool>, q: Pid)
    requires |told| <= |peers|
    ensures Told(peers, told, q) <= multiset(peers[..|told|])[q] <= multiset(peers)[q]
    ensures (forall k :: 0 <= k < |told| && peers[k] == q ==> told[k]) ==>
            Told(peers, told, q) == multiset(peers[..|told|])[q]
  {
    assert peers == peers[..|told|] + peers[|told|..];
    if told != [] {
      var n := |told| - 1;
      ToldAtMost(peers, told[..n], q);
      assert peers[..|told|] == peers[..n] + [peers[n]];
    } else {
      assert peers[..0] == [];
    }
  }

  /** An actor that is gone has sent each peer at most one Exit per link it took, whatever
      else consumed links before; before it takes its links it has sent none. */
  lemma AtMostOneExitPerLink(es: seq<Event>, i: nat, q: Pid)
    requires i < |Exec(START, es).actors|
    ensures var s := Exec(START, es); var ph := s.actors[i].phase;
      Sent(s.exits, s.actors[i].pid, q) <= if ph.Telling? || ph.Gone? then multiset(ph.peers)[q] else 0
  {
    ExitsAlways(es);
    var ph := Exec(START, es).actors[i].phase;
    assert Lengths(ph);
    if ph.Telling? || ph.Gone? {
      ToldAtMost(ph.peers, ph.told, q);
    }
  }

  /** The links are taken. */
  predicate Tells(ph: Phase) {
    ph.Telling? || ph.Gone?
  }

  ghost predicate AllTold(s: State, i: nat, q: Pid) {
    var ph := PhaseOf(s, i);
    (ph.Telling? || ph.Gone?) && |ph.told| <= |ph.peers| ==>
      forall k :: 0 <= k < |ph.told| && ph.peers[k] == q ==> ph.told[k]
  }

  /** A peer that keeps its mailbox from before the links are taken until the actor is gone. */
  ghost predicate KeepsMailbox(es: seq<Event>, more: seq<Event>, q: Pid) {
    forall n :: 0 <= n <= |more| ==> q in Exec(START, es + more[..n]).mailboxes
  }

  lemma AllToldStep(s: State, e: Event, i: nat, q: Pid)
    requires i < |s.actors| && Lengths(s.actors[i].phase) && AllTold(s, i, q) && q in s.mailboxes
    ensures i < |Next(s, e).actors| && AllTold(Next(s, e), i, q)
  {
    if Ready(s, e) && e.Tell? && e.i == i {
      var Telling(peers, told) := s.actors[i].phase;
      if |told| < |peers| {
        assert Next(s, e).actors[i].phase == Telling(peers, told + [peers[|told|] in s.mailboxes]);
      }
    } else {
      assert Next(s, e).actors[i].phase == s.actors[i].phase || !s.actors[i].phase.Telling?;
    }
  }

  lemma {:induction false} AllToldStays(es: seq<Event>, more: seq<Event>, i: nat, q: Pid)
    requires i < |Exec(START, es).actors| && !Tells(Exec(START, es).actors[i].phase) && KeepsMailbox(es, more, q)
    ensures i < |Exec(START, es + more).actors| && AllTold(Exec(START, es + more), i, q)
  {
    if more == [] {
      assert es + more == es;
    } else {
      var k := |more| - 1;
      var s := Exec(START, es + more[..k]);
      assert AllTold(s, i, q) && i < |s.actors| && q in s.mailboxes by {
        KeepsPrefix(es, more, k, q);
        AllToldStays(es, more[..k], i, q);
      }
      assert Lengths(s.actors[i].phase) by {
        ExitsAlways(es + more[..k]);
      }
      AllToldStep(s, more[k], i, q);
      assert Exec(START, es + more) == Next(s, more[k]) by {
        assert (es + more)[..|es + more| - 1] == es + more[..k];
      }
    }
  }

  lemma KeepsPrefix(es: seq<Event>, more: seq<Event>, k: nat, q: Pid)
    requires k <= |more| && KeepsMailbox(es, more, q)
    ensures KeepsMailbox(es, more[..k], q) && q in Exec(START, es + more[..k]).mailboxes
  {
    forall n | 0 <= n <= k
      ensures q in Exec(START, es + more[..k][..n]).mailboxes
    {
      assert more[..k][..n] == more[..n];
    }
  }

  /** Unless a restart task gets to its links first, an exiting actor sends each peer that keeps
      its mailbox exactly one Exit per link recorded at the moment it takes them. */
  lemma ExactlyOneExitPerLink(es: seq<Event>, more: seq<Event>, i: nat, q: Pid)
    requires i < |Exec(START, es).actors| && !Tells(Exec(START, es).actors[i].phase) && KeepsMailbox(es, more, q)
    requires PhaseOf(Exec(START, es + more), i).Gone?
    ensures var s := Exec(START, es + more);
      i < |s.actors| && Sent(s.exits, s.actors[i].pid, q) == multiset(s.actors[i].phase.peers)[q]
  {
    AllToldStays(es, more, i, q);
    ExitsAlways(es + more);
    var ph := Exec(START, es + more).actors[i].phase;
    assert Lengths(ph);
    ToldAtMost(ph.peers, ph.told, q);
    assert ph.peers[..|ph.told|] == ph.peers;
  }

  /** With each operation on the links as one step, they stay a symmetric multigraph. */
  lemma {:induction false} LinksStaySymmetric(es: seq<Event>)
    ensures L.Symmetric(Exec(START, es).links)
  {
    if es != [] {
      LinksStaySymmetric(es[..|es| - 1]);
      var s, e := Exec(START, es[..|es| - 1]), es[|es| - 1];
      match e
      case LinkUp(a, b) => L.ApplySymmetric(s.links, L.DoLink(a, b));
      case LinkDown(a, b) => L.ApplySymmetric(s.links, L.DoUnlink(a, b));
      case Consume(p) => L.ApplySymmetric(s.links, L.DoCleanup(p));
      case TakeLinks(i) =>
        if i < |s.actors| {
          L.ApplySymmetric(s.links, L.DoCleanup(s.actors[i].pid));
        }
      case _ =>
    }
  }

  /** In any run, what an exiting actor takes is exactly what is recorded for it, link for
      link, and taking it, as one step, leaves its pid nowhere in the table. */
  lemma {:induction false} TakesWhatIsRecorded(es: seq<Event>, i: nat, q: Pid)
    requires Ready(Exec(START, es), TakeLinks(i))
    ensures var s := Exec(START, es); var s', p := Next(s, TakeLinks(i)), s.actors[i].pid;
      && multiset(s'.actors[i].phase.peers)[q] == L.Mult(s.links, p, q)
      && L.Nowhere(s'.links, p)
  {
    LinksStaySymmetric(es);
    var s := Exec(START, es);
    var p := s.actors[i].pid;
    assert forall x: Pid :: L.Mult(s.links, x, p) == L.Mult(s.links, p, x);
    L.CleanupExact(s.links, p);
  }

  predicate Relinks(e: Event, p: Pid) {
    e.LinkUp? && (e.a == p || e.b == p)
  }

  lemma NoListStays(s: State, e: Event, p: Pid)
    requires p !in s.links && !Relinks(e, p)
    ensures p !in Next(s, e).links
  {
    match e
    case TakeLinks(i) => if i < |s.actors| { CleanupKeys(s.links, s.actors[i].pid); }
    case Consume(q) => CleanupKeys(s.links, q);
    case _ =>
  }

  lemma CleanupKeys(l: L.LinkMap, p: Pid)
    ensures L.Cleanup(l, p).Keys == l.Keys - {p}
  {
    if p in l {
      L.CleanMult(l - {p}, l[p], p, p, p);
    }
  }

  /** Once something has consumed the links of a pid, as the restart of a supervised pid
      does, it has no list until it is linked again: whenever its exit gets to them before
      that, it takes nothing and tells nobody. */
  lemma {:induction false} ConsumedTakesNothing(es: seq<Event>, p: Pid, more: seq<Event>, i: nat)
    requires forall e <- more :: !Relinks(e, p)
    ensures var s := Exec(START, es + [Consume(p)] + more);
      && p !in s.links
      && (Ready(s, TakeLinks(i)) && s.actors[i].pid == p ==> Next(s, TakeLinks(i)).actors[i].phase == Telling([], []))
  {
    var run := es + [Consume(p)];
    if more == [] {
      assert run + more == run && run[..|es|] == es;
      CleanupKeys(Exec(START, es).links, p);
    } else {
      var k := |more| - 1;
      ConsumedTakesNothing(es, p, more[..k], i);
      assert (run + more)[..|run + more| - 1] == run + more[..k];
      assert more[k] in more;
      NoListStays(Exec(START, run + more[..k]), more[k], p);
    }
  }
}
