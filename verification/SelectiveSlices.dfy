// src/py.rs: a blocking selective receive is cut into timed slices; at the end of a slice
// the suspended call is dropped and a new one is made. Messages arrive, and the senders
// may hang up, between any two steps of any call.
module SelectiveSlices {
  import opened Mailbox
  import opened R = MailboxRefinement

  /** A selective receive in progress, or over. */
  datatype Call = Waiting(box: Box) | Returned(m: Message, box: Box) | GaveUp(box: Box)

  datatype Event =
    | Arrive(m: Message)
    | Hangup
    | Turn(raced: bool) // one turn of the loop
    | Cut               // the slice ends and the call is made again

  /** The search of the stash that every call starts with. */
  function Begin(b: Box, f: Message -> bool): Call {
    var (r, b') := FromStash(b, f);
    if r.Got? then Returned(r.m, b') else Waiting(b)
  }

  function Offered(o: (Poll, Box)): Call {
    if o.0.Got? then Returned(o.0.m, o.1) else Waiting(o.1)
  }

  /** One turn. Raced: the system channel was polled, and only then did a system message
      arrive, so the select takes a user message although a system message is there. */
  function TurnOnce(b: Box, f: Message -> bool, raced: bool): Call {
    if raced && b.rxUser != [] then Offered(OfferUser(b, f))
    else if b.rxSys != [] then Offered(OfferSys(b, f))
    else if !b.open then GaveUp(b)
    else if b.rxUser != [] then Offered(OfferUser(b, f))
    else Waiting(b)
  }

  function Next(c: Call, f: Message -> bool, e: Event): Call {
    match e
    case Arrive(m) => c.(box := SendF(c.box, m).1)
    case Hangup => c.(box := c.box.(open := false))
    case Turn(raced) => if c.Waiting? then TurnOnce(c.box, f, raced) else c
    case Cut => if c.Waiting? then Begin(c.box, f) else c
  }

  function Exec(b: Box, f: Message -> bool, es: seq<Event>): Call {
    if es == [] then Begin(b, f) else Next(Exec(b, f, es[..|es| - 1]), f, es[|es| - 1])
  }

  function DropCuts(es: seq<Event>): seq<Event> {
    if es == [] then [] else DropCuts(es[..|es| - 1]) + (if es[|es| - 1].Cut? then [] else [es[|es| - 1]])
  }

  /** The queues as they would be had nothing been received. */
  function Arrivals(q: Queues, es: seq<Event>): Queues {
    if es == [] then q
    else
      var q', e := Arrivals(q, es[..|es| - 1]), es[|es| - 1];
      if !e.Arrive? then q'
      else if e.m.User? then q'.(usr := q'.usr + [e.m.bytes])
      else q'.(sys := q'.sys + [e.m.sys])
  }

  /** What a call has done to the queues `q` of everything that was there or arrived. */
  ghost predicate Accounts(c: Call, f: Message -> bool, q: Queues) {
    && c.box.alive
    && (c.Waiting? ==> Stashed(c.box.stash, f) && Abs(c.box) == q)
    && (c.GaveUp? ==> Abs(c.box) == q)
    && (c.Returned? ==> TakesFirst(q, f, c.m, Abs(c.box)))
  }

  lemma BeginAccounts(b: Box, f: Message -> bool)
    requires b.alive
    ensures Accounts(Begin(b, f), f, Abs(b))
  {
    FromStashRefines(b, f);
  }

  lemma TurnAccounts(b: Box, f: Message -> bool, raced: bool, q: Queues)
    requires b.alive && Stashed(b.stash, f) && Abs(b) == q
    ensures Accounts(TurnOnce(b, f, raced), f, q)
  {
    if b.rxSys != [] {
      OfferSysRefines(b, f);
    }
    if b.rxUser != [] {
      OfferUserRefines(b, f);
    }
  }

  /** A message that arrives later is behind the one taken. */
  lemma ArrivalBehind(q: Queues, f: Message -> bool, m: Message, q': Queues, x: Message)
    requires TakesFirst(q, f, m, q')
    ensures x.User? ==> TakesFirst(q.(usr := q.usr + [x.bytes]), f, m, q'.(usr := q'.usr + [x.bytes]))
    ensures x.System? ==> TakesFirst(q.(sys := q.sys + [x.sys]), f, m, q'.(sys := q'.sys + [x.sys]))
  {
    match m
    case System(y) =>
      var k: nat :| FirstSys(q.sys, f, k) && q.sys[k] == y && q' == q.(sys := Without(q.sys, k));
      if x.System? {
        assert FirstSys(q.sys + [x.sys], f, k) && Without(q.sys + [x.sys], k) == Without(q.sys, k) + [x.sys];
      }
    case User(y) =>
      var k: nat :| FirstUser(q.usr, f, k) && q.usr[k] == y && q' == q.(usr := Without(q.usr, k));
      if x.User? {
        assert FirstUser(q.usr + [x.bytes], f, k) && Without(q.usr + [x.bytes], k) == Without(q.usr, k) + [x.bytes];
      }
  }

  lemma ArriveAccounts(c: Call, f: Message -> bool, q: Queues, m: Message)
    requires Accounts(c, f, q)
    ensures Accounts(Next(c, f, Arrive(m)), f,
                     if m.User? then q.(usr := q.usr + [m.bytes]) else q.(sys := q.sys + [m.sys]))
  {
    var b := c.box;
    if m.User? {
      assert Users(b.stash) + (b.rxUser + [m.bytes]) == UserQ(b) + [m.bytes];
    } else {
      assert Systems(b.stash) + (b.rxSys + [m.sys]) == SysQ(b) + [m.sys];
    }
    if c.Returned? {
      ArrivalBehind(q, f, c.m, Abs(b), m);
    }
  }

  /** However arrivals, turns, races, cuts and a hangup interleave: until the call
      returns, nothing is lost or reordered; when it returns, it has taken out the first
      match of one class and nothing else. */
  lemma {:induction false} NothingLost(b: Box, f: Message -> bool, es: seq<Event>)
    requires b.alive
    ensures Accounts(Exec(b, f, es), f, Arrivals(Abs(b), es))
  {
    if es == [] {
      BeginAccounts(b, f);
    } else {
      var es', e := es[..|es| - 1], es[|es| - 1];
      NothingLost(b, f, es');
      var c, q := Exec(b, f, es'), Arrivals(Abs(b), es');
      match e
      case Arrive(m) => ArriveAccounts(c, f, q, m);
      case Hangup =>
      case Turn(raced) =>
        if c.Waiting? {
          TurnAccounts(c.box, f, raced, q);
        }
      case Cut =>
        if c.Waiting? {
          BeginAccounts(c.box, f);
        }
    }
  }

  lemma CutChangesNothing(c: Call, f: Message -> bool)
    requires c.Waiting? ==> Stashed(c.box.stash, f)
    ensures Next(c, f, Cut) == c
  {
    if c.Waiting? {
      assert Position(c.box.stash, f) == |c.box.stash|;
    }
  }

  /** Cutting the call into slices, anywhere and any number of times, changes neither what
      it returns nor the mailbox it leaves. */
  lemma {:induction false} CutsAreInvisible(b: Box, f: Message -> bool, es: seq<Event>)
    requires b.alive
    ensures Exec(b, f, es) == Exec(b, f, DropCuts(es))
  {
    if es != [] {
      var es', e := es[..|es| - 1], es[|es| - 1];
      CutsAreInvisible(b, f, es');
      if e.Cut? {
        NothingLost(b, f, es');
        CutChangesNothing(Exec(b, f, es'), f);
        assert DropCuts(es') + [] == DropCuts(es');
      } else {
        var ds := DropCuts(es') + [e];
        assert ds[..|ds| - 1] == DropCuts(es');
      }
    }
  }

  /** Once all senders are gone and no system message is left, the next turn gives up. */
  lemma HangupGivesUp(c: Call, f: Message -> bool)
    requires c.Waiting? && c.box.rxSys == []
    ensures Next(Next(c, f, Hangup), f, Turn(false)) == GaveUp(c.box.(open := false))
  {
  }

  // The slicing loop itself.

  function ArriveAll(b: Box, ms: seq<Message>): Box {
    if ms == [] then b else SendF(ArriveAll(b, ms[..|ms| - 1]), ms[|ms| - 1]).1
  }

  /** One uninterrupted call, fed the same arrivals slice by slice. */
  function Uninterrupted(b: Box, f: Message -> bool, slices: seq<seq<Message>>): (Poll, Box)
    decreases |slices|
  {
    if slices == [] then (Pending, b)
    else
      var (r, b') := SelLoop(ArriveAll(b, slices[0]), f);
      if r != Pending then (r, b') else Uninterrupted(b', f, slices[1..])
  }

  lemma {:induction false} ArriveAllStash(b: Box, ms: seq<Message>)
    ensures ArriveAll(b, ms).stash == b.stash && ArriveAll(b, ms).open == b.open
  {
    if ms != [] {
      ArriveAllStash(b, ms[..|ms| - 1]);
    }
  }

  /** A call on a mailbox whose stash was searched before goes straight to its loop. */
  lemma RetrySkipsStash(b: Box, f: Message -> bool)
    requires Stashed(b.stash, f)
    ensures SelectiveF(b, f) == SelLoop(b, f)
  {
    assert Position(b.stash, f) == |b.stash|;
  }

  /** `PyMailbox::selective_recv` with a timeout of `|slices|` slices, during each of which
      the given messages arrive. Pending stands for the timeout. */
  method PySelectiveRecv(box: Mailbox, f: Message -> bool, slices: seq<seq<Message>>) returns (r: Poll)
    modifies box
    ensures FromStash(old(box.View()), f).0.Pending? ==>
      (r, box.View()) == Uninterrupted(old(box.View()), f, slices)
    ensures FromStash(old(box.View()), f).0.Got? && slices != [] ==>
      r == FromStash(old(box.View()), f).0 && (r, box.View()) == FromStash(ArriveAll(old(box.View()), slices[0]), f)
    ensures slices == [] ==> r == Pending && box.View() == old(box.View())
  {
    ghost var b0 := box.View();
    FromStashRefines(b0, f);
    r := Pending;
    var k := 0;
    while k < |slices| && r == Pending
      invariant 0 <= k <= |slices|
      invariant FromStash(b0, f).0.Pending? && r == Pending ==>
        Stashed(box.stash, f) && Uninterrupted(box.View(), f, slices[k..]) == Uninterrupted(b0, f, slices)
      invariant FromStash(b0, f).0.Pending? && r != Pending ==> (r, box.View()) == Uninterrupted(b0, f, slices)
      invariant k == 0 ==> box.View() == b0 && r == Pending
      invariant FromStash(b0, f).0.Got? && 0 < k ==>
        r == FromStash(b0, f).0 && (r, box.View()) == FromStash(ArriveAll(b0, slices[0]), f)
    {
      ghost var b1 := box.View();
      assert slices[k..][0] == slices[k] && slices[k..][1..] == slices[k + 1..];
      ArriveSlice(box, slices[k]);
      ghost var b2 := box.View();
      ArriveAllStash(b1, slices[k]);
      r := box.SelectiveRecv(f);
      if FromStash(b0, f).0.Pending? {
        RetrySkipsStash(b2, f);
        SelLoopRefines(b2, f);
      }
      k := k + 1;
    }
  }

  method ArriveSlice(box: Mailbox, ms: seq<Message>)
    modifies box
    ensures box.View() == ArriveAll(old(box.View()), ms)
  {
    for i := 0 to |ms|
      invariant box.View() == ArriveAll(old(box.View()), ms[..i])
    {
      assert ms[..i + 1][..i] == ms[..i];
      var _ := box.Send(ms[i]);
    }
    assert ms[..|ms|] == ms;
  }
}
