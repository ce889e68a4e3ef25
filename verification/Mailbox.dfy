// src/mailbox.rs: a mailbox with a system channel, a user channel, a stash shared by both
// classes of messages and a count of queued user messages.
module Mailbox {
  import opened Pids

  type Byte = b: nat | b < 256
  type Bytes = seq<Byte>

  datatype ExitReason = Normal | Panic | Timeout | Killed | Oom | Other(what: string)

  datatype Option<+T> = None | Some(value: T)

  datatype ExitInfo = ExitInfo(from: Pid, reason: ExitReason, metadata: Option<string>)

  datatype SystemMessage = Exit(info: ExitInfo) | HotSwap(handler: nat) | Ping | Pong

  datatype Message = User(bytes: Bytes) | System(sys: SystemMessage)

  /** Both halves of the channel. `open`: some sender is left. `alive`: the receiver is left. */
  datatype Box = Box(
    rxSys: seq<SystemMessage>,
    rxUser: seq<Bytes>,
    stash: seq<Message>,
    counter: nat,
    open: bool,
    alive: bool)

  const NEW_BOX := Box([], [], [], 0, true, true)

  /** What a receive does: deliver, return None, or stay suspended. */
  datatype Poll = Got(m: Message) | Nothing | Pending

  /** `AtomicUsize::fetch_sub(1)`, which wraps around. */
  function Dec(counter: nat): nat {
    if counter == 0 then WORD * WORD - 1 else counter - 1
  }

  function Delivered(m: Message, counter: nat): nat {
    if m.User? then Dec(counter) else counter
  }

  // The two abstract queues.

  function Systems(s: seq<Message>): seq<SystemMessage> {
    if s == [] then []
    else Systems(s[..|s| - 1]) + (if s[|s| - 1].System? then [s[|s| - 1].sys] else [])
  }

  function Users(s: seq<Message>): seq<Bytes> {
    if s == [] then []
    else Users(s[..|s| - 1]) + (if s[|s| - 1].User? then [s[|s| - 1].bytes] else [])
  }

  function SysQ(b: Box): seq<SystemMessage> {
    Systems(b.stash) + b.rxSys
  }

  function UserQ(b: Box): seq<Bytes> {
    Users(b.stash) + b.rxUser
  }

  predicate Counted(b: Box) {
    b.counter == |UserQ(b)|
  }

  // The operations on values.

  function Without<T>(s: seq<T>, i: nat): seq<T>
    requires i < |s|
  {
    s[..i] + s[i + 1..]
  }

  /** `VecDeque::iter().position`: the first index that satisfies `f`, or the length. */
  function Position(s: seq<Message>, f: Message -> bool): (i: nat)
    ensures i <= |s|
    ensures forall k :: 0 <= k < i ==> !f(s[k])
    ensures i < |s| ==> f(s[i])
  {
    if s == [] then 0
    else
      var i := Position(s[..|s| - 1], f);
      if i < |s| - 1 then i else if f(s[|s| - 1]) then |s| - 1 else |s|
  }

  function IsSystem(): Message -> bool {
    (m: Message) => m.System?
  }

  function SendF(b: Box, m: Message): (bool, Box) {
    if !b.alive then (false, b)
    else if m.User? then (true, b.(rxUser := b.rxUser + [m.bytes], counter := b.counter + 1))
    else (true, b.(rxSys := b.rxSys + [m.sys]))
  }

  /** Whatever is in the stash or the system channel, in the order a plain receive takes it. */
  function TakeReady(b: Box): (Poll, Box) {
    var i := Position(b.stash, IsSystem());
    if i < |b.stash| then (Got(b.stash[i]), b.(stash := Without(b.stash, i)))
    else if b.rxSys != [] then (Got(System(b.rxSys[0])), b.(rxSys := b.rxSys[1..]))
    else if b.stash != [] then
      (Got(b.stash[0]), b.(stash := b.stash[1..], counter := Delivered(b.stash[0], b.counter)))
    else (Pending, b)
  }

  function TakeUser(b: Box): (Poll, Box)
    requires b.rxUser != []
  {
    (Got(User(b.rxUser[0])), b.(rxUser := b.rxUser[1..], counter := Dec(b.counter)))
  }

  /** The biased select polls the system channel first; closed and empty, it yields None. */
  function RecvF(b: Box): (Poll, Box) {
    var (r, b') := TakeReady(b);
    if r.Got? then (r, b')
    else if !b.open then (Nothing, b)
    else if b.rxUser != [] then TakeUser(b)
    else (Pending, b)
  }

  function TryRecvF(b: Box): (Poll, Box) {
    var (r, b') := TakeReady(b);
    if r.Got? then (r, b')
    else if b.rxUser != [] then TakeUser(b)
    else (Nothing, b)
  }

  /** A matching message of the stash, delivered. */
  function FromStash(b: Box, f: Message -> bool): (Poll, Box) {
    var i := Position(b.stash, f);
    if i < |b.stash| then
      (Got(b.stash[i]), b.(stash := Without(b.stash, i), counter := Delivered(b.stash[i], b.counter)))
    else (Pending, b)
  }

  /** Offers the head of the system channel to the matcher: delivered, or stashed (Pending). */
  function OfferSys(b: Box, f: Message -> bool): (Poll, Box)
    requires b.rxSys != []
  {
    var m := System(b.rxSys[0]);
    if f(m) then (Got(m), b.(rxSys := b.rxSys[1..]))
    else (Pending, b.(rxSys := b.rxSys[1..], stash := b.stash + [m]))
  }

  function OfferUser(b: Box, f: Message -> bool): (Poll, Box)
    requires b.rxUser != []
  {
    var m := User(b.rxUser[0]);
    if f(m) then (Got(m), b.(rxUser := b.rxUser[1..], counter := Dec(b.counter)))
    else (Pending, b.(rxUser := b.rxUser[1..], stash := b.stash + [m]))
  }

  function SelLoop(b: Box, f: Message -> bool): (Poll, Box)
    decreases |b.rxSys| + |b.rxUser|
  {
    if b.rxSys != [] then
      var (r, b') := OfferSys(b, f);
      if r.Got? then (r, b') else SelLoop(b', f)
    else if !b.open then (Nothing, b)
    else if b.rxUser != [] then
      var (r, b') := OfferUser(b, f);
      if r.Got? then (r, b') else SelLoop(b', f)
    else (Pending, b)
  }

  function SelectiveF(b: Box, f: Message -> bool): (Poll, Box) {
    var (r, b') := FromStash(b, f);
    if r.Got? then (r, b') else SelLoop(b, f)
  }

  // The object. The two Rust halves share their channels; here they share one object.

  class Mailbox {
    var rxSys: seq<SystemMessage>
    var rxUser: seq<Bytes>
    var stash: seq<Message>
    var counter: nat
    var open: bool
    var alive: bool

    ghost function View(): Box
      reads this
    {
      Box(rxSys, rxUser, stash, counter, open, alive)
    }

    constructor ()
      ensures View() == NEW_BOX
    {
      rxSys, rxUser, stash, counter, open, alive := [], [], [], 0, true, true;
    }

    /** Err hands the message back and leaves the count as it was. */
    method Send(m: Message) returns (failed: Option<Message>)
      modifies this
      ensures View() == SendF(old(View()), m).1
      ensures failed == if old(alive) then None else Some(m)
      ensures failed.Some? ==> View() == old(View())
      ensures failed.None? && m.User? ==>
        View() == old(View()).(rxUser := old(rxUser) + [m.bytes], counter := old(counter) + 1)
      ensures failed.None? && m.System? ==> View() == old(View()).(rxSys := old(rxSys) + [m.sys])
    {
      match m
      case User(bytes) =>
        counter := counter + 1;
        if alive {
          rxUser := rxUser + [bytes];
          failed := None;
        } else {
          counter := Dec(counter);
          failed := Some(User(bytes));
        }
      case System(sys) =>
        if alive {
          rxSys := rxSys + [sys];
          failed := None;
        } else {
          failed := Some(System(sys));
        }
    }

    /** The count, which while it is exact is the number of user messages in the channel and
        in the stash. */
    method Len() returns (n: nat)
      ensures n == counter && (Counted(View()) ==> n == |Users(stash)| + |rxUser|)
    {
      n := counter;
    }

    /** The first index of the stash that satisfies `f`, or its length. */
    method FindInStash(f: Message -> bool) returns (i: nat)
      ensures i == Position(stash, f)
    {
      i := 0;
      while i < |stash| && !f(stash[i])
        invariant 0 <= i <= |stash|
        invariant forall k :: 0 <= k < i ==> !f(stash[k])
      {
        i := i + 1;
      }
    }

    method Recv() returns (r: Poll)
      modifies this
      ensures (r, View()) == RecvF(old(View()))
    {
      var pos := FindInStash(IsSystem());
      if pos < |stash| {
        r := Got(stash[pos]);
        stash := stash[..pos] + stash[pos + 1..];
        return;
      }
      if rxSys != [] {
        r := Got(System(rxSys[0]));
        rxSys := rxSys[1..];
        return;
      }
      if stash != [] {
        var front := stash[0];
        stash := stash[1..];
        if front.User? {
          counter := Dec(counter);
        }
        return Got(front);
      }
      if !open {
        return Nothing;
      }
      if rxUser != [] {
        r := Got(User(rxUser[0]));
        rxUser := rxUser[1..];
        counter := Dec(counter);
        return;
      }
      return Pending;
    }

    method TryRecv() returns (r: Poll)
      modifies this
      ensures (r, View()) == TryRecvF(old(View()))
    {
      var pos := FindInStash(IsSystem());
      if pos < |stash| {
        r := Got(stash[pos]);
        stash := stash[..pos] + stash[pos + 1..];
        return;
      }
      if rxSys != [] {
        r := Got(System(rxSys[0]));
        rxSys := rxSys[1..];
        return;
      }
      if stash != [] {
        var front := stash[0];
        stash := stash[1..];
        if front.User? {
          counter := Dec(counter);
        }
        return Got(front);
      }
      if rxUser != [] {
        r := Got(User(rxUser[0]));
        rxUser := rxUser[1..];
        counter := Dec(counter);
        return;
      }
      return Nothing;
    }

    /** Runs until it delivers, the system channel is closed and empty, or nothing is left to look at. */
    method SelectiveRecv(f: Message -> bool) returns (r: Poll)
      modifies this
      ensures (r, View()) == SelectiveF(old(View()), f)
    {
      var idx := FindInStash(f);
      if idx < |stash| {
        r := Got(stash[idx]);
        if r.m.User? {
          counter := Dec(counter);
        }
        stash := stash[..idx] + stash[idx + 1..];
        return;
      }
      while true
        invariant SelLoop(View(), f) == SelLoop(old(View()), f)
        decreases |rxSys| + |rxUser|
      {
        if rxSys != [] {
          var m := System(rxSys[0]);
          rxSys := rxSys[1..];
          if f(m) {
            return Got(m);
          }
          stash := stash + [m];
        } else if !open {
          return Nothing;
        } else if rxUser != [] {
          var m := User(rxUser[0]);
          rxUser := rxUser[1..];
          if f(m) {
            counter := Dec(counter);
            return Got(m);
          }
          stash := stash + [m];
        } else {
          return Pending;
        }
      }
    }
  }
}
