// src/lib.rs, src/py.rs: a push actor that runs its handler inline, and hot swaps of that
// handler. A receive is cut where other threads can get in between: it looks at the
// system channel first and at the user channel later.
module HotSwapping {
  import opened Mailbox
  import R = MailboxRefinement

  /** A handled message: its bytes, the handler that got it, how many swaps had been applied,
      and how many messages of any class had been sent when its receive looked for system
      messages. */
  datatype Handled = Handled(bytes: Bytes, handler: nat, swaps: nat, looked: nat)

  datatype Actor = Actor(
    box: Box,
    behavior: nat,
    swaps: nat,            // swaps applied
    looked: Option<nat>,   // the receive found no system message when this many had been sent
    running: bool,
    handled: seq<Handled>,
    sent: seq<Message>)    // accepted by the mailbox, in order

  function Start(handler: nat): Actor {
    Actor(NEW_BOX, handler, 0, None, true, [], [])
  }

  datatype Event =
    | Send(m: Message) // send, or hot_swap as a system message
    | Look             // the part of recv up to the poll of the system channel
    | Deliver          // the poll of the user channel
    | Stop             // the mailbox leaves the table: the last sender is dropped

  function Handle(a: Actor, m: Message, looked: nat): Actor {
    match m
    case User(bytes) => a.(handled := a.handled + [Handled(bytes, a.behavior, a.swaps, looked)])
    case System(HotSwap(h)) => a.(behavior := h, swaps := a.swaps + 1)
    case System(_) => a
  }

  function Looks(a: Actor): Actor {
    var (r, box) := TakeReady(a.box);
    if r.Got? then Handle(a.(box := box), r.m, |a.sent|)
    else if !a.box.open then a.(running := false)
    else a.(looked := Some(|a.sent|))
  }

  function Delivers(a: Actor): Actor
    requires a.looked.Some?
  {
    if a.box.rxUser == [] then a.(looked := None)
    else
      var (r, box) := TakeUser(a.box);
      Handle(a.(box := box, looked := None), r.m, a.looked.value)
  }

  function Next(a: Actor, e: Event): Actor {
    match e
    case Send(m) => if a.box.open then a.(box := SendF(a.box, m).1, sent := a.sent + [m]) else a
    case Look => if a.running && a.looked.None? then Looks(a) else a
    case Deliver => if a.running && a.looked.Some? then Delivers(a) else a
    case Stop => a.(box := a.box.(open := false))
  }

  /** Look and Deliver in one step are one `recv`: what it delivers is handled, at None the loop
      ends, and while it would wait nothing happens. */
  lemma AtomicIsRecv(a: Actor)
    requires a.running && a.looked.None?
    ensures var (r, box) := RecvF(a.box);
      Next(Next(a, Look), Deliver) ==
      match r
      case Got(User(bytes)) =>
        a.(box := box, handled := a.handled + [Handled(bytes, a.behavior, a.swaps, |a.sent|)])
      case Got(System(HotSwap(h))) => a.(box := box, behavior := h, swaps := a.swaps + 1)
      case Got(System(_)) => a.(box := box)
      case Nothing => a.(running := false)
      case Pending => a
  {
  }

  /** A stopped actor without a system message ends at its next look, whatever user messages
      are queued, and accepts nothing more. */
  lemma StoppedEnds(a: Actor, m: Message)
    requires a.running && a.looked.None? && a.box.stash == [] && a.box.rxSys == []
    ensures !Next(Next(a, Stop), Look).running && Next(Next(a, Stop), Look).handled == a.handled
    ensures Next(Next(a, Stop), Send(m)) == Next(a, Stop)
  {
  }

  function Exec(a: Actor, es: seq<Event>): Actor {
    if es == [] then a else Next(Exec(a, es[..|es| - 1]), es[|es| - 1])
  }

  /** Nothing happens between the two parts of a receive. */
  predicate Atomic(es: seq<Event>) {
    forall i :: 0 <= i < |es| - 1 && es[i].Look? ==> es[i + 1].Deliver?
  }

  // What was sent.

  /** The handlers of the swaps in `ms`. */
  function Swaps(ms: seq<SystemMessage>): seq<nat> {
    if ms == [] then []
    else
      var m := ms[|ms| - 1];
      Swaps(ms[..|ms| - 1]) + (if m.HotSwap? then [m.handler] else [])
  }

  /** The handlers of the swaps among the first `n` messages sent. */
  function SwapsIn(sent: seq<Message>, n: nat): seq<nat>
    requires n <= |sent|
  {
    Swaps(Systems(sent[..n]))
  }

  function Current(first: nat, swaps: seq<nat>): nat {
    if swaps == [] then first else swaps[|swaps| - 1]
  }

  /** Where the user messages stand among the messages sent. */
  function Places(sent: seq<Message>): (r: seq<nat>)
    ensures forall n :: 0 <= n < |r| ==> r[n] < |sent|
  {
    if sent == [] then []
    else Places(sent[..|sent| - 1]) + (if sent[|sent| - 1].User? then [|sent| - 1] else [])
  }

  lemma {:induction false} PlacesAreUsers(sent: seq<Message>)
    ensures |Places(sent)| == |Users(sent)|
    ensures forall n :: 0 <= n < |Places(sent)| ==> sent[Places(sent)[n]] == User(Users(sent)[n])
  {
    if sent != [] {
      var k := |sent| - 1;
      PlacesAreUsers(sent[..k]);
      assert forall n :: 0 <= n < |Places(sent[..k])| ==> sent[Places(sent)[n]] == sent[..k][Places(sent[..k])[n]];
    }
  }

  lemma {:induction false} SwapsConcat(a: seq<SystemMessage>, b: seq<SystemMessage>)
    ensures Swaps(a + b) == Swaps(a) + Swaps(b)
  {
    if b == [] {
      assert a + b == a;
    } else {
      SwapsConcat(a, b[..|b| - 1]);
      assert (a + b)[..|a + b| - 1] == a + b[..|b| - 1];
    }
  }

  lemma {:induction false} SwapsGrow(sent: seq<Message>, i: nat, j: nat)
    requires i <= j <= |sent|
    ensures SwapsIn(sent, i) <= SwapsIn(sent, j)
    ensures |SwapsIn(sent, i)| == |SwapsIn(sent, j)| <==> forall k :: i <= k < j ==> !IsSwap(sent[k])
    decreases j - i
  {
    if i < j {
      SwapsGrow(sent, i, j - 1);
      R.ClassesSnoc(sent[..j - 1], sent[j - 1]);
      assert sent[..j] == sent[..j - 1] + [sent[j - 1]];
      var tail := if sent[j - 1].System? then [sent[j - 1].sys] else [];
      SwapsConcat(Systems(sent[..j - 1]), tail);
      assert |Swaps(tail)| == if IsSwap(sent[j - 1]) then 1 else 0 by {
        assert tail != [] ==> tail[..|tail| - 1] == [];
      }
    }
  }

  predicate IsSwap(m: Message) {
    m.System? && m.sys.HotSwap?
  }

  // The invariant.

  ghost predicate HandledOk(first: nat, sent: seq<Message>, n: nat, h: Handled) {
    && n < |Users(sent)| && h.bytes == Users(sent)[n]
    && h.looked <= |sent| && h.swaps == |SwapsIn(sent, h.looked)|
    && h.handler == Current(first, SwapsIn(sent, h.looked))
  }

  /** `got` are the system messages received so far. */
  ghost predicate Inv(first: nat, a: Actor, got: seq<SystemMessage>) {
    && a.box.alive && a.box.stash == []
    && Systems(a.sent) == got + a.box.rxSys
    && |Users(a.sent)| == |a.handled| + |a.box.rxUser|
    && a.box.rxUser == Users(a.sent)[|a.handled|..]
    && a.swaps == |Swaps(got)| && a.behavior == Current(first, Swaps(got))
    && (a.looked.Some? ==> a.running && a.looked.value <= |a.sent| && Systems(a.sent[..a.looked.value]) == got)
    && (forall n: nat :: n < |a.handled| ==> HandledOk(first, a.sent, n, a.handled[n]))
  }

  lemma SendKeepsHandled(first: nat, sent: seq<Message>, m: Message, n: nat, h: Handled)
    requires HandledOk(first, sent, n, h)
    ensures HandledOk(first, sent + [m], n, h)
  {
    R.ClassesSnoc(sent, m);
    assert (sent + [m])[..h.looked] == sent[..h.looked];
  }

  lemma SendKeepsInv(first: nat, a: Actor, got: seq<SystemMessage>, m: Message)
    requires Inv(first, a, got)
    ensures Inv(first, Next(a, Send(m)), got)
  {
    if a.box.open {
      var a' := Next(a, Send(m));
      R.ClassesSnoc(a.sent, m);
      assert a.looked.Some? ==> a'.sent[..a.looked.value] == a.sent[..a.looked.value];
      forall n: nat | n < |a.handled| ensures HandledOk(first, a'.sent, n, a'.handled[n]) {
        SendKeepsHandled(first, a.sent, m, n, a.handled[n]);
      }
    }
  }

  lemma SwapsSnoc(got: seq<SystemMessage>, m: SystemMessage)
    ensures Swaps(got + [m]) == Swaps(got) + (if m.HotSwap? then [m.handler] else [])
  {
    assert (got + [m])[..|got|] == got;
  }

  lemma LookKeepsInv(first: nat, a: Actor, got: seq<SystemMessage>) returns (got': seq<SystemMessage>)
    requires Inv(first, a, got) && a.running && a.looked.None?
    ensures Inv(first, Next(a, Look), got')
  {
    got' := got;
    if a.box.rxSys != [] {
      var m := a.box.rxSys[0];
      SwapsSnoc(got, m);
      got' := got + [m];
      assert got + a.box.rxSys == got' + a.box.rxSys[1..];
    } else {
      assert a.sent[..|a.sent|] == a.sent;
    }
  }

  lemma DeliverKeepsInv(first: nat, a: Actor, got: seq<SystemMessage>)
    requires Inv(first, a, got) && a.running && a.looked.Some?
    ensures Inv(first, Next(a, Deliver), got)
  {
    if a.box.rxUser != [] {
      var h := Handled(a.box.rxUser[0], a.behavior, a.swaps, a.looked.value);
      assert HandledOk(first, a.sent, |a.handled|, h);
    }
  }

  lemma NextKeepsInv(first: nat, a: Actor, got: seq<SystemMessage>, e: Event) returns (got': seq<SystemMessage>)
    requires Inv(first, a, got)
    ensures Inv(first, Next(a, e), got')
  {
    got' := got;
    match e
    case Send(m) => SendKeepsInv(first, a, got, m);
    case Look =>
      if a.running && a.looked.None? {
        got' := LookKeepsInv(first, a, got);
      }
    case Deliver =>
      if a.running && a.looked.Some? {
        DeliverKeepsInv(first, a, got);
      }
    case Stop =>
  }

  lemma {:induction false} Always(first: nat, es: seq<Event>) returns (got: seq<SystemMessage>)
    ensures Inv(first, Exec(Start(first), es), got)
  {
    if es == [] {
      got := [];
    } else {
      got := Always(first, es[..|es| - 1]);
      got := NextKeepsInv(first, Exec(Start(first), es[..|es| - 1]), got, es[|es| - 1]);
    }
  }

  /** In any run, the n-th message handled is the n-th user message sent, and its handler is
      that of the last swap sent before its receive looked at the system channel. The handler
      is older than a swap sent before the message exactly when such a swap was sent after
      that look. */
  lemma HandlerExactly(first: nat, es: seq<Event>, n: nat)
    requires n < |Exec(Start(first), es).handled|
    ensures var a := Exec(Start(first), es);
      var h := a.handled[n];
      && n < |Places(a.sent)| && a.sent[Places(a.sent)[n]] == User(h.bytes)
      && h.looked <= |a.sent| && h.handler == Current(first, SwapsIn(a.sent, h.looked))
      && h.swaps == |SwapsIn(a.sent, h.looked)|
      && (h.swaps < |SwapsIn(a.sent, Places(a.sent)[n])| <==>
            exists k :: h.looked <= k < Places(a.sent)[n] && IsSwap(a.sent[k]))
  {
    var got := Always(first, es);
    var a := Exec(Start(first), es);
    var h := a.handled[n];
    assert HandledOk(first, a.sent, n, h);
    PlacesAreUsers(a.sent);
    var p := Places(a.sent)[n];
    if h.looked <= p {
      SwapsGrow(a.sent, h.looked, p);
    } else {
      SwapsGrow(a.sent, p, h.looked);
    }
  }

  // Atomic receives.

  /** Every handled message was sent before its receive looked. */
  ghost predicate Prompt(a: Actor) {
    && |a.handled| <= |Places(a.sent)|
    && forall n :: 0 <= n < |a.handled| ==> a.handled[n].looked > Places(a.sent)[n]
  }

  ghost predicate JustLooked(a: Actor, es: seq<Event>) {
    a.looked.Some? ==> es != [] && es[|es| - 1].Look? && a.looked.value == |a.sent|
  }

  lemma {:induction false} AtomicLooks(first: nat, es: seq<Event>)
    requires Atomic(es)
    ensures Prompt(Exec(Start(first), es)) && JustLooked(Exec(Start(first), es), es)
  {
    if es != [] {
      var k := |es| - 1;
      assert Atomic(es[..k]) by {
        assert forall i :: 0 <= i < k ==> es[..k][i] == es[i];
      }
      AtomicLooks(first, es[..k]);
      var got := Always(first, es[..k]);
      var a := Exec(Start(first), es[..k]);
      assert a.looked.Some? ==> es[k].Deliver? by {
        if a.looked.Some? {
          assert es[k - 1].Look?;
        }
      }
      match es[k]
      case Send(m) => PromptSend(a, m);
      case Look => PromptLook(first, a, got);
      case Deliver => PromptDeliver(first, a, got);
      case Stop =>
    }
  }

  lemma PromptSend(a: Actor, m: Message)
    requires Prompt(a)
    ensures Prompt(Next(a, Send(m)))
  {
    assert (a.sent + [m])[..|a.sent|] == a.sent;
  }

  lemma PromptLook(first: nat, a: Actor, got: seq<SystemMessage>)
    requires Prompt(a) && Inv(first, a, got)
    ensures Prompt(Next(a, Look))
    ensures a.looked.None? && Next(a, Look).looked.Some? ==>
      Next(a, Look).looked.value == |a.sent| == |Next(a, Look).sent|
  {
  }

  lemma PromptDeliver(first: nat, a: Actor, got: seq<SystemMessage>)
    requires Prompt(a) && Inv(first, a, got) && (a.looked.Some? ==> a.looked.value == |a.sent|)
    ensures Prompt(Next(a, Deliver)) && Next(a, Deliver).looked.None?
  {
    PlacesAreUsers(a.sent);
  }

  /** With each receive as one step, every user message is handled by the handler of the last
      swap sent before it or by that of a later swap, whatever the run of sends, swaps,
      receives and stops. */
  lemma SwapsOvertake(first: nat, es: seq<Event>, n: nat)
    requires Atomic(es) && n < |Exec(Start(first), es).handled|
    ensures var a := Exec(Start(first), es);
      var h := a.handled[n];
      && n < |Places(a.sent)| && Places(a.sent)[n] < h.looked <= |a.sent|
      && h.handler == Current(first, SwapsIn(a.sent, h.looked))
      && SwapsIn(a.sent, Places(a.sent)[n]) <= SwapsIn(a.sent, h.looked)
  {
    HandlerExactly(first, es, n);
    AtomicLooks(first, es);
    var a := Exec(Start(first), es);
    SwapsGrow(a.sent, Places(a.sent)[n], a.handled[n].looked);
  }

  lemma ExecSnoc(a: Actor, es: seq<Event>, e: Event)
    ensures Exec(a, es + [e]) == Next(Exec(a, es), e)
  {
    assert (es + [e])[..|es|] == es;
  }

  /** Without it, a message sent after hot_swap returned can reach the old handler. */
  lemma SwapBetweenPolls(first: nat, handler: nat, bytes: Bytes)
    ensures var es := [Look, Send(System(HotSwap(handler))), Send(User(bytes)), Deliver];
      Exec(Start(first), es).handled == [Handled(bytes, first, 0, 0)]
  {
    var a, swap, send := Start(first), Send(System(HotSwap(handler))), Send(User(bytes));
    ExecSnoc(a, [], Look);
    ExecSnoc(a, [Look], swap);
    ExecSnoc(a, [Look, swap], send);
    ExecSnoc(a, [Look, swap, send], Deliver);
    assert [] + [Look] == [Look] && [Look] + [swap] == [Look, swap];
    assert [Look, swap] + [send] == [Look, swap, send];
    assert [Look, swap, send] + [Deliver] == [Look, swap, send, Deliver];
  }
}
