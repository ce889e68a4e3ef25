// src/lib.rs: how many Exit messages a peer gets, told from the calls alone: one per link made
// between the two since they were last unlinked or one of them had its links consumed.
module LinkCounts {
  import opened Pids
  import opened C = Lifecycle
  import L = Links

  predicate Between(a: Pid, b: Pid, p: Pid, q: Pid) {
    (a == p && b == q) || (a == q && b == p)
  }

  /** The event erases what is recorded between `p` and `q`: an unlink of the two, or the links
      of one of them taken by its exit or consumed by a restart. */
  ghost predicate Erases(s: State, e: Event, p: Pid, q: Pid) {
    match e
    case LinkDown(a, b) => Between(a, b, p, q)
    case Consume(x) => x == p || x == q
    case TakeLinks(i) => Ready(s, e) && (s.actors[i].pid == p || s.actors[i].pid == q)
    case _ => false
  }

  /** What is recorded between the two after one event, `n` before it. */
  ghost function After(s: State, e: Event, p: Pid, q: Pid, n: nat): nat {
    if Erases(s, e, p, q) then 0
    else if e.LinkUp? && Between(e.a, e.b, p, q) then n + (if p == q then 2 else 1)
    else n
  }

  /** The links made between `p` and `q` since the last such event. A link of a pid with itself
      is recorded twice. */
  ghost function Linked(es: seq<Event>, p: Pid, q: Pid): nat {
    if es == [] then 0
    else
      var front, e := es[..|es| - 1], es[|es| - 1];
      After(Exec(START, front), e, p, q, Linked(front, p, q))
  }

  lemma CleanupBetween(l: L.LinkMap, x: Pid, p: Pid, q: Pid)
    requires L.Symmetric(l)
    ensures L.Mult(L.Cleanup(l, x), p, q) == if x == p || x == q then 0 else L.Mult(l, p, q)
  {
    L.CleanupMult(l, x, p, q);
    assert L.Mult(l, p, q) == L.Mult(l, q, p);
  }

  lemma LinkAfter(l: L.LinkMap, a: Pid, b: Pid, p: Pid, q: Pid)
    ensures L.Mult(L.Link(l, a, b), p, q) ==
            L.Mult(l, p, q) + (if !Between(a, b, p, q) then 0 else if p == q then 2 else 1)
  {
    L.LinkMult(l, a, b, p, q);
  }

  lemma RecordedAfter(s: State, e: Event, p: Pid, q: Pid)
    requires L.Symmetric(s.links)
    ensures L.Mult(Next(s, e).links, p, q) == After(s, e, p, q, L.Mult(s.links, p, q))
  {
    match e
    case LinkUp(a, b) => LinkAfter(s.links, a, b, p, q);
    case LinkDown(a, b) => L.UnlinkMult(s.links, a, b, p, q);
    case Consume(x) => CleanupBetween(s.links, x, p, q);
    case TakeLinks(i) =>
      if Ready(s, e) {
        CleanupBetween(s.links, s.actors[i].pid, p, q);
      }
    case _ =>
  }

  /** After any run, what is recorded between two pids is the number of links made between them
      since the last event that erases them. */
  lemma {:induction false} RecordedExactly(es: seq<Event>, p: Pid, q: Pid)
    ensures L.Mult(Exec(START, es).links, p, q) == Linked(es, p, q)
  {
    if es != [] {
      var front, e := es[..|es| - 1], es[|es| - 1];
      RecordedExactly(front, p, q);
      LinksStaySymmetric(front);
      RecordedAfter(Exec(START, front), e, p, q);
    }
  }

  lemma PeersStep(s: State, e: Event, i: nat, peers: seq<Pid>)
    requires i < |s.actors| && Tells(s.actors[i].phase) && s.actors[i].phase.peers == peers
    ensures var s' := Next(s, e);
      && i < |s'.actors| && Tells(s'.actors[i].phase)
      && s'.actors[i].phase.peers == peers && s'.actors[i].pid == s.actors[i].pid
  {
  }

  /** The peers taken stay the peers told. */
  lemma {:induction false} PeersStay(es: seq<Event>, more: seq<Event>, i: nat, peers: seq<Pid>)
    requires var s := Exec(START, es); i < |s.actors| && Tells(s.actors[i].phase) && s.actors[i].phase.peers == peers
    ensures var s, s' := Exec(START, es), Exec(START, es + more);
      && i < |s'.actors| && Tells(s'.actors[i].phase)
      && s'.actors[i].phase.peers == peers && s'.actors[i].pid == s.actors[i].pid
  {
    if more == [] {
      assert es + more == es;
    } else {
      var k := |more| - 1;
      PeersStay(es, more[..k], i, peers);
      assert (es + more)[..|es + more| - 1] == es + more[..k];
      PeersStep(Exec(START, es + more[..k]), more[k], i, peers);
    }
  }

  /** An exiting actor takes its links after `es` and tells its peers: a peer that keeps its
      mailbox meanwhile has got exactly one Exit per link made between the two, since the last
      event that erased those, when the actor is gone. */
  lemma {:induction false} OneExitPerLinkMade(es: seq<Event>, i: nat, more: seq<Event>, q: Pid)
    requires Ready(Exec(START, es), TakeLinks(i)) && KeepsMailbox(es, [TakeLinks(i)] + more, q)
    requires PhaseOf(Exec(START, es + ([TakeLinks(i)] + more)), i).Gone?
    ensures var p := Exec(START, es).actors[i].pid;
      Sent(Exec(START, es + ([TakeLinks(i)] + more)).exits, p, q) == Linked(es, p, q)
  {
    var s, take := Exec(START, es), es + [TakeLinks(i)];
    var p, s' := s.actors[i].pid, Next(s, TakeLinks(i));
    assert take[..|es|] == es;
    assert Exec(START, take) == s';
    ExactlyOneExitPerLink(es, [TakeLinks(i)] + more, i, q);
    assert es + ([TakeLinks(i)] + more) == take + more;
    PeersStay(take, more, i, s'.actors[i].phase.peers);
    TakesWhatIsRecorded(es, i, q);
    RecordedExactly(es, p, q);
  }
}
