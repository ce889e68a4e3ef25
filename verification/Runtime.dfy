// src/lib.rs: the runtime as an object. Each of its operations, alone, is a run of the
// lifecycle machine, so everything proved of all runs holds of it.
module Runtime {
  import opened Pids
  import opened C = Lifecycle
  import L = Links
  import M = Mailbox

  /** The Exit messages of `p` to those of `peers` that have a mailbox, in order. */
  function Notices(p: Pid, peers: seq<Pid>, boxes: map<Pid, nat>): seq<(Pid, Pid)> {
    if peers == [] then []
    else
      var n := |peers| - 1;
      Notices(p, peers[..n], boxes) + (if peers[n] in boxes then [(p, peers[n])] else [])
  }

  function Flags(peers: seq<Pid>, boxes: map<Pid, nat>): (r: seq<bool>)
    ensures |r| == |peers|
  {
    seq(|peers|, n requires 0 <= n < |peers| => peers[n] in boxes)
  }

  lemma RunSnoc(es: seq<Event>, e: Event)
    ensures Exec(START, es + [e]) == Next(Exec(START, es), e)
  {
    assert (es + [e])[..|es|] == es;
  }

  /** Actor `i`, pid `p`, has told the first `n` of its peers. */
  ghost predicate ToldSome(s: State, i: nat, p: Pid, peers: seq<Pid>, n: nat, before: seq<(Pid, Pid)>) {
    && n <= |peers| && i < |s.actors|
    && s.actors[i] == Actor(p, Telling(peers, Flags(peers[..n], s.mailboxes)))
    && s.exits == before + Notices(p, peers[..n], s.mailboxes)
  }

  ghost predicate SameTables(s: State, s': State) {
    s'.slab == s.slab && s'.mailboxes == s.mailboxes && s'.links == s.links && |s'.actors| == |s.actors|
  }

  lemma NoticesSnoc(p: Pid, peers: seq<Pid>, n: nat, boxes: map<Pid, nat>)
    requires n < |peers|
    ensures Notices(p, peers[..n + 1], boxes) ==
            Notices(p, peers[..n], boxes) + (if peers[n] in boxes then [(p, peers[n])] else [])
    ensures Flags(peers[..n + 1], boxes) == Flags(peers[..n], boxes) + [peers[n] in boxes]
  {
    assert peers[..n + 1][..n] == peers[..n];
  }

  /** Telling the next peer, or finding none left. */
  lemma TellNext(s: State, i: nat, p: Pid, peers: seq<Pid>, n: nat, before: seq<(Pid, Pid)>)
    requires ToldSome(s, i, p, peers, n, before)
    ensures SameTables(s, Next(s, Tell(i)))
    ensures n < |peers| ==> ToldSome(Next(s, Tell(i)), i, p, peers, n + 1, before)
    ensures n == |peers| ==> PhaseOf(Next(s, Tell(i)), i).Gone? && Next(s, Tell(i)).exits == s.exits
  {
    if n < |peers| {
      NoticesSnoc(p, peers, n, s.mailboxes);
    }
  }

  class Runtime {
    var slab: Slab
    var spawned: nat // senders are named by the number of their actor
    var mailboxes: map<Pid, nat>
    var links: L.LinkMap
    var exits: seq<(Pid, Pid)>
    var receivers: set<nat>         // the actors that still hold the receiver of their mailbox
    var sent: seq<(nat, M.Message)> // accepted by the mailbox of an actor, in order
    ghost var run: seq<Event>

    ghost function S(): State
      reads this
    {
      Exec(START, run)
    }

    ghost predicate Valid()
      reads this
    {
      && spawned == |S().actors| && slab == S().slab.slab
      && mailboxes == S().mailboxes && links == S().links && exits == S().exits
    }

    constructor ()
      ensures Valid() && run == []
    {
      spawned, slab, mailboxes, links, exits, receivers, sent, run := 0, NEW_SLAB, map[], map[], [], {}, [], [];
    }

    /** The new pid is issued to a new running actor, whose mailbox is found under it. */
    method Spawn() returns (pid: Pid)
      requires Valid() && Ready(S(), Event.Spawn)
      modifies this
      ensures Valid() && old(run) < run
      ensures var n := |old(S()).actors|;
        S().actors == old(S()).actors + [Actor(pid, Running)] && mailboxes == old(mailboxes)[pid := n]
      ensures pid !in old(mailboxes) && IsValid(slab, pid)
      ensures links == old(links) && exits == old(exits) && sent == old(sent)
      ensures receivers == old(receivers) + {|old(S()).actors|}
    {
      ghost var s, n := S(), |S().actors|;
      Always(run);
      RunSnoc(run, Event.Spawn);
      RunSnoc(run + [Event.Spawn], Hook(n));
      assert run + [Event.Spawn] + [Hook(n)] == run + [Event.Spawn, Hook(n)];
      ghost var s1 := Next(s, Event.Spawn);
      var (p, slab') := AllocateF(slab);
      assert s1.actors == s.actors + [Actor(p, Spawning)] && s1.slab.slab == slab';
      assert Move(s1, n, Running) == s.actors + [Actor(p, Running)];
      Always(run + [Event.Spawn]);
      HolderIsValid(s1, n);
      if p in s.mailboxes {
        OnePidEach(s1, s.mailboxes[p], n);
      }
      pid := p;
      slab := slab';
      receivers := receivers + {spawned};
      mailboxes, spawned := mailboxes[pid := spawned], spawned + 1;
      run := run + [Event.Spawn, Hook(n)];
    }

    method Stop(pid: Pid)
      requires Valid()
      modifies this`mailboxes, this`run
      ensures Valid() && run == old(run) + [Event.Stop(pid)]
      ensures mailboxes == old(mailboxes) - {pid}
    {
      RunSnoc(run, Event.Stop(pid));
      mailboxes := mailboxes - {pid};
      run := run + [Event.Stop(pid)];
    }

    method Link(a: Pid, b: Pid)
      requires Valid()
      modifies this`links, this`run
      ensures Valid() && run == old(run) + [LinkUp(a, b)]
      ensures forall x: Pid, y: Pid ::
        L.Mult(links, x, y) ==
        L.Mult(old(links), x, y) + (if x == a && y == b then 1 else 0) + (if x == b && y == a then 1 else 0)
    {
      RunSnoc(run, LinkUp(a, b));
      forall x: Pid, y: Pid ensures L.Mult(L.Link(links, a, b), x, y) ==
        L.Mult(links, x, y) + (if x == a && y == b then 1 else 0) + (if x == b && y == a then 1 else 0)
      {
        L.LinkMult(links, a, b, x, y);
      }
      links := L.Push(L.Push(links, a, b), b, a);
      run := run + [LinkUp(a, b)];
    }

    method Unlink(a: Pid, b: Pid)
      requires Valid()
      modifies this`links, this`run
      ensures Valid() && run == old(run) + [LinkDown(a, b)]
      ensures forall x: Pid, y: Pid ::
        L.Mult(links, x, y) == if (x == a && y == b) || (x == b && y == a) then 0 else L.Mult(old(links), x, y)
    {
      RunSnoc(run, LinkDown(a, b));
      forall x: Pid, y: Pid ensures L.Mult(L.Unlink(links, a, b), x, y) ==
        if (x == a && y == b) || (x == b && y == a) then 0 else L.Mult(links, x, y)
      {
        L.UnlinkMult(links, a, b, x, y);
      }
      links := L.RetainAt(L.RetainAt(links, a, b), b, a);
      run := run + [LinkDown(a, b)];
    }

    /** The handler of an actor ends, which drops the receiver of its mailbox. */
    method DropReceiver(i: nat)
      modifies this`receivers
      ensures receivers == old(receivers) - {i}
    {
      receivers := receivers - {i};
    }

    /** The message enters the mailbox of the running actor to which `pid` was issued, or comes
        back: because there is no mailbox, or because its receiver is gone. */
    method Send(pid: Pid, m: M.Message) returns (failed: M.Option<M.Message>)
      requires Valid()
      modifies this`sent
      ensures Valid()
      ensures failed == if pid in mailboxes && mailboxes[pid] in receivers then M.None else M.Some(m)
      ensures failed.Some? ==> sent == old(sent)
      ensures failed.None? ==> IsValid(slab, pid) && sent == old(sent) + [(mailboxes[pid], m)]
      ensures failed.None? ==> mailboxes[pid] < |S().actors| && S().actors[mailboxes[pid]] == Actor(pid, Running)
    {
      Always(run);
      failed := M.Some(m);
      if pid in mailboxes && mailboxes[pid] in receivers {
        HolderIsValid(S(), mailboxes[pid]);
        sent := sent + [(mailboxes[pid], m)];
        failed := M.None;
      }
    }

    /** The exit sequence of actor `i`. `consumed`: the restart of a supervised pid got to its
        links first, so nobody is told. */
    method Exit(ghost i: nat, pid: Pid, consumed: bool)
      requires Valid() && i < |S().actors| && S().actors[i] == Actor(pid, Running)
      requires Wf(S().slab.slab) && NoWrap(Apply(S().slab, Free(pid)))
      modifies this`slab, this`mailboxes, this`links, this`exits, this`run
      ensures Valid() && old(run) < run
      ensures mailboxes == old(mailboxes) - {pid} && !IsValid(slab, pid)
      ensures links == L.Cleanup(old(links), pid)
      ensures var peers := if pid in old(links) && !consumed then old(links)[pid] else [];
        exits == old(exits) + Notices(pid, peers, old(mailboxes) - {pid})
      ensures PhaseOf(S(), i).Gone?
    {
      var peers := Retreat(i, pid, consumed);
      TellAll(i, pid, peers);
    }

    /** Drops the mailbox, frees the pid and takes the links. */
    method Retreat(ghost i: nat, pid: Pid, consumed: bool) returns (peers: seq<Pid>)
      requires Valid() && i < |S().actors| && S().actors[i] == Actor(pid, Running)
      requires Wf(S().slab.slab) && NoWrap(Apply(S().slab, Free(pid)))
      modifies this`slab, this`mailboxes, this`links, this`run
      ensures Valid() && old(run) < run
      ensures i < |S().actors| && S().actors[i] == Actor(pid, Telling(peers, []))
      ensures peers == if pid in old(links) && !consumed then old(links)[pid] else []
      ensures mailboxes == old(mailboxes) - {pid} && !IsValid(slab, pid)
      ensures links == L.Cleanup(old(links), pid)
    {
      Depart(i, pid, consumed);
      peers := FreeAndTake(i, pid);
      CleanupKeys(old(links), pid);
    }

    /** Drops the mailbox and notifies the supervisors, one of which may consume the links. */
    method Depart(ghost i: nat, pid: Pid, consumed: bool)
      requires Valid() && i < |S().actors| && S().actors[i] == Actor(pid, Running)
      modifies this`mailboxes, this`links, this`run
      ensures Valid() && old(run) < run
      ensures S().slab == old(S().slab)
      ensures mailboxes == old(mailboxes) - {pid}
      ensures i < |S().actors| && S().actors[i] == Actor(pid, Notified)
      ensures links == if consumed then L.Cleanup(old(links), pid) else old(links)
    {
      ToNotified(run, i, pid);
      mailboxes := mailboxes - {pid};
      run := run + [Unhook(i)] + [Notify(i)];
      if consumed {
        RunSnoc(run, Consume(pid));
        links := L.Cleanup(links, pid);
        run := run + [Consume(pid)];
      }
    }

    method FreeAndTake(ghost i: nat, pid: Pid) returns (peers: seq<Pid>)
      requires Valid() && i < |S().actors| && S().actors[i] == Actor(pid, Notified)
      requires Wf(S().slab.slab) && NoWrap(Apply(S().slab, Free(pid)))
      modifies this`slab, this`links, this`run
      ensures Valid() && old(run) < run && !IsValid(slab, pid)
      ensures i < |S().actors| && S().actors[i] == Actor(pid, Telling(peers, []))
      ensures peers == if pid in old(links) then old(links)[pid] else []
      ensures links == L.Cleanup(old(links), pid)
    {
      DeallocateKeepsWf(slab, pid);
      ToTelling(run, i, pid);
      slab := DeallocateF(slab, pid).1;
      peers := if pid in links then links[pid] else [];
      links := L.Cleanup(links, pid);
      run := run + [FreePid(i)] + [TakeLinks(i)];
    }

    /** Sends the Exit messages. */
    method TellAll(ghost i: nat, pid: Pid, peers: seq<Pid>)
      requires Valid() && i < |S().actors| && S().actors[i] == Actor(pid, Telling(peers, []))
      modifies this`exits, this`run
      ensures Valid() && old(run) < run && PhaseOf(S(), i).Gone?
      ensures exits == old(exits) + Notices(pid, peers, mailboxes)
    {
      var n := 0;
      ghost var s := S();
      assert peers[..0] == [] && Flags([], mailboxes) == [];
      while n < |peers|
        invariant 0 <= n <= |peers| && Valid() && old(run) <= run
        invariant SameTables(s, S()) && ToldSome(S(), i, pid, peers, n, s.exits)
      {
        RunSnoc(run, Tell(i));
        TellNext(S(), i, pid, peers, n, s.exits);
        NoticesSnoc(pid, peers, n, mailboxes);
        if peers[n] in mailboxes {
          exits := exits + [(pid, peers[n])];
        }
        run := run + [Tell(i)];
        n := n + 1;
      }
      assert peers[..n] == peers;
      RunSnoc(run, Tell(i));
      TellNext(S(), i, pid, peers, n, s.exits);
      run := run + [Tell(i)];
    }
  }

  lemma ToNotified(es: seq<Event>, i: nat, p: Pid)
    requires var s := Exec(START, es); i < |s.actors| && s.actors[i] == Actor(p, Running)
    ensures var s, s' := Exec(START, es), Exec(START, es + [Unhook(i)] + [Notify(i)]);
      s' == s.(mailboxes := s.mailboxes - {p}, actors := s.actors[i := Actor(p, Notified)])
  {
    RunSnoc(es, Unhook(i));
    RunSnoc(es + [Unhook(i)], Notify(i));
  }

  lemma ToTelling(es: seq<Event>, i: nat, p: Pid)
    requires var s := Exec(START, es);
      && i < |s.actors| && s.actors[i] == Actor(p, Notified) && Wf(s.slab.slab) && NoWrap(Apply(s.slab, Free(p)))
    ensures var s, s' := Exec(START, es), Exec(START, es + [FreePid(i)] + [TakeLinks(i)]);
      && |s'.actors| == |s.actors| && s'.exits == s.exits && s'.mailboxes == s.mailboxes
      && s'.slab.slab == DeallocateF(s.slab.slab, p).1 && s'.links == L.Cleanup(s.links, p)
      && s'.actors[i] == Actor(p, Telling(if p in s.links then s.links[p] else [], []))
  {
    RunSnoc(es, FreePid(i));
    RunSnoc(es + [FreePid(i)], TakeLinks(i));
  }
}
