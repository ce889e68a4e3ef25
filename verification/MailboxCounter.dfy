// The count of queued user messages under any number of concurrent senders. A send adds
// to the count, then pushes, and takes its addition back if the push fails; a delivery
// takes a message out and then subtracts. All these steps interleave.
module MailboxCounter {
  import opened Mailbox
  import R = MailboxRefinement

  /** A send: counted but not yet pushed, refused but not yet rolled back, or over. */
  datatype Sending = Adding(b: Bytes) | Refused | Over

  datatype State = State(
    rxUser: seq<Bytes>,
    stash: seq<Message>,
    counter: nat,
    sends: seq<Sending>,
    delivering: bool, // a user message is out of the queue and not yet subtracted
    alive: bool,
    lost: nat)        // user messages dropped together with the receiver

  const START := State([], [], 0, [], false, true, 0)

  datatype Event =
    | BeginSend(b: Bytes)
    | Push(i: nat)
    | RollBack(i: nat)
    | TakeUser
    | StashUser
    | StashSystem(sys: SystemMessage)
    | TakeStashed(i: nat)
    | Subtract
    | DropReceiver

  /** The receiver is one task: it takes nothing more before it has subtracted. */
  predicate Ready(s: State, e: Event) {
    match e
    case BeginSend(_) => true
    case Push(i) => i < |s.sends| && s.sends[i].Adding?
    case RollBack(i) => i < |s.sends| && s.sends[i].Refused?
    case TakeUser => s.alive && !s.delivering && s.rxUser != []
    case StashUser => s.alive && !s.delivering && s.rxUser != []
    case StashSystem(_) => s.alive && !s.delivering
    case TakeStashed(i) => s.alive && !s.delivering && i < |s.stash|
    case Subtract => s.delivering
    case DropReceiver => s.alive && !s.delivering
  }

  function Next(s: State, e: Event): State {
    if !Ready(s, e) then s
    else
      match e
      case BeginSend(b) => s.(counter := s.counter + 1, sends := s.sends + [Adding(b)])
      case Push(i) =>
        if s.alive then s.(rxUser := s.rxUser + [s.sends[i].b], sends := s.sends[i := Over])
        else s.(sends := s.sends[i := Refused])
      case RollBack(i) => s.(counter := Dec(s.counter), sends := s.sends[i := Over])
      case TakeUser => s.(rxUser := s.rxUser[1..], delivering := true)
      case StashUser => s.(rxUser := s.rxUser[1..], stash := s.stash + [User(s.rxUser[0])])
      case StashSystem(sys) => s.(stash := s.stash + [System(sys)])
      case TakeStashed(i) => s.(stash := Without(s.stash, i), delivering := s.stash[i].User?)
      case Subtract => s.(counter := Dec(s.counter), delivering := false)
      case DropReceiver => s.(rxUser := [], stash := [], alive := false, lost := |s.rxUser| + |Users(s.stash)|)
  }

  function Exec(es: seq<Event>): State {
    if es == [] then START else Next(Exec(es[..|es| - 1]), es[|es| - 1])
  }

  function InProgress(sends: seq<Sending>): nat {
    if sends == [] then 0
    else InProgress(sends[..|sends| - 1]) + (if sends[|sends| - 1].Over? then 0 else 1)
  }

  lemma {:induction false} InProgressUpdate(sends: seq<Sending>, i: nat, x: Sending)
    requires i < |sends|
    ensures InProgress(sends[i := x]) + (if sends[i].Over? then 0 else 1) ==
            InProgress(sends) + (if x.Over? then 0 else 1)
  {
    var n := |sends| - 1;
    if i < n {
      InProgressUpdate(sends[..n], i, x);
      assert sends[i := x][..n] == sends[..n][i := x];
    } else {
      assert sends[i := x][..n] == sends[..n];
    }
  }

  function Due(s: State): nat {
    |s.rxUser| + |Users(s.stash)| + InProgress(s.sends) + (if s.delivering then 1 else 0) + s.lost
  }

  lemma NextExact(s: State, e: Event)
    requires s.counter == Due(s) && (s.alive ==> s.lost == 0)
    ensures var s' := Next(s, e); s'.counter == Due(s') && (s'.alive ==> s'.lost == 0)
    ensures Ready(s, e) && (e.Subtract? || e.RollBack?) ==> s.counter > 0
  {
    if Ready(s, e) {
      match e
      case BeginSend(b) => assert (s.sends + [Adding(b)])[..|s.sends|] == s.sends;
      case Push(i) => InProgressUpdate(s.sends, i, if s.alive then Over else Refused);
      case RollBack(i) => InProgressUpdate(s.sends, i, Over);
      case TakeUser =>
      case StashUser => R.ClassesSnoc(s.stash, User(s.rxUser[0]));
      case StashSystem(sys) => R.ClassesSnoc(s.stash, System(sys));
      case TakeStashed(i) => R.ClassesAt(s.stash, i, s.stash[..i], s.stash[i], s.stash[i + 1..]);
      case Subtract =>
      case DropReceiver =>
    }
  }

  /** In every interleaving the count is exactly the user channel, the users in the stash,
      the sends in progress, the delivery in progress and what a dropped receiver left; and
      it never underflows, so with the receiver alive and nothing in progress it is exact. */
  lemma {:induction false} CountIsExact(es: seq<Event>, e: Event)
    ensures var s := Exec(es);
      && s.counter == Due(s) && (s.alive ==> s.lost == 0)
      && (Ready(s, e) && (e.Subtract? || e.RollBack?) ==> Next(s, e).counter == s.counter - 1)
      && (s.alive && !s.delivering && InProgress(s.sends) == 0 ==> s.counter == |s.rxUser| + |Users(s.stash)|)
  {
    if es != [] {
      CountIsExact(es[..|es| - 1], es[|es| - 1]);
      NextExact(Exec(es[..|es| - 1]), es[|es| - 1]);
    }
    NextExact(Exec(es), e);
  }
}
