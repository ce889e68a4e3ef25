// src/mailbox.rs: exactly which message a selective receive returns and what it leaves where.
// The earliest match of the stash wins; else the earliest match of the system channel; else,
// while a sender is left, that of the user channel. What it passed over goes to the end of
// the stash: system messages, then user messages, each in the order of their channel.
module SelectiveOrder {
  import opened Mailbox
  import S = SelectiveSlices

  function AsSys(q: seq<SystemMessage>): seq<Message> {
    seq(|q|, i requires 0 <= i < |q| => System(q[i]))
  }

  function AsUser(q: seq<Bytes>): seq<Message> {
    seq(|q|, i requires 0 <= i < |q| => User(q[i]))
  }

  predicate First(ms: seq<Message>, f: Message -> bool, i: nat) {
    i < |ms| && f(ms[i]) && forall j :: 0 <= j < i ==> !f(ms[j])
  }

  predicate NoMatch(ms: seq<Message>, f: Message -> bool) {
    forall j :: 0 <= j < |ms| ==> !f(ms[j])
  }

  // The loop, on an empty system channel and then on any.

  lemma {:induction false} UserFirst(b: Box, f: Message -> bool, i: nat)
    requires b.rxSys == [] && b.open && First(AsUser(b.rxUser), f, i)
    ensures SelLoop(b, f) ==
            (Got(User(b.rxUser[i])),
             b.(stash := b.stash + AsUser(b.rxUser[..i]), rxUser := b.rxUser[i + 1..], counter := Dec(b.counter)))
    decreases i
  {
    var q := b.rxUser;
    assert AsUser(q)[0] == User(q[0]);
    if i == 0 {
      assert b.stash + AsUser(q[..0]) == b.stash;
    } else {
      var b' := OfferUser(b, f).1;
      assert forall j :: 0 <= j < i ==> AsUser(q[1..])[j] == AsUser(q)[j + 1];
      UserFirst(b', f, i - 1);
      assert b.stash + [User(q[0])] + AsUser(q[1..][..i - 1]) == b.stash + AsUser(q[..i]);
      assert q[1..][i..] == q[i + 1..];
    }
  }

  lemma {:induction false} UserNone(b: Box, f: Message -> bool)
    requires b.rxSys == [] && b.open && NoMatch(AsUser(b.rxUser), f)
    ensures SelLoop(b, f) == (Pending, b.(stash := b.stash + AsUser(b.rxUser), rxUser := []))
    decreases |b.rxUser|
  {
    var q := b.rxUser;
    if q == [] {
      assert b.stash + AsUser(q) == b.stash;
    } else {
      assert AsUser(q)[0] == User(q[0]);
      assert forall j :: 0 <= j < |q| - 1 ==> AsUser(q[1..])[j] == AsUser(q)[j + 1];
      UserNone(OfferUser(b, f).1, f);
      assert b.stash + [User(q[0])] + AsUser(q[1..]) == b.stash + AsUser(q);
    }
  }

  lemma {:induction false} SysFirst(b: Box, f: Message -> bool, i: nat)
    requires First(AsSys(b.rxSys), f, i)
    ensures SelLoop(b, f) ==
            (Got(System(b.rxSys[i])), b.(stash := b.stash + AsSys(b.rxSys[..i]), rxSys := b.rxSys[i + 1..]))
    decreases i
  {
    var q := b.rxSys;
    assert AsSys(q)[0] == System(q[0]);
    if i == 0 {
      assert b.stash + AsSys(q[..0]) == b.stash;
    } else {
      assert forall j :: 0 <= j < i ==> AsSys(q[1..])[j] == AsSys(q)[j + 1];
      SysFirst(OfferSys(b, f).1, f, i - 1);
      assert b.stash + [System(q[0])] + AsSys(q[1..][..i - 1]) == b.stash + AsSys(q[..i]);
      assert q[1..][i..] == q[i + 1..];
    }
  }

  lemma {:induction false} SysNone(b: Box, f: Message -> bool)
    requires NoMatch(AsSys(b.rxSys), f)
    ensures SelLoop(b, f) == SelLoop(b.(stash := b.stash + AsSys(b.rxSys), rxSys := []), f)
    decreases |b.rxSys|
  {
    var q := b.rxSys;
    if q == [] {
      assert b.stash + AsSys(q) == b.stash;
    } else {
      assert AsSys(q)[0] == System(q[0]);
      assert forall j :: 0 <= j < |q| - 1 ==> AsSys(q[1..])[j] == AsSys(q)[j + 1];
      SysNone(OfferSys(b, f).1, f);
      assert b.stash + [System(q[0])] + AsSys(q[1..]) == b.stash + AsSys(q);
    }
  }

  lemma StashFirst(b: Box, f: Message -> bool, i: nat)
    requires First(b.stash, f, i)
    ensures Position(b.stash, f) == i
  {
  }

  lemma StashNone(b: Box, f: Message -> bool)
    requires NoMatch(b.stash, f)
    ensures SelectiveF(b, f) == SelLoop(b, f)
  {
    assert Position(b.stash, f) == |b.stash|;
  }

  /** Exactly what a selective receive returns and leaves, in every case (see FirstOrNone). */
  lemma SelectiveExactly(b: Box, f: Message -> bool)
    ensures forall i: nat :: First(b.stash, f, i) ==>
      SelectiveF(b, f) ==
      (Got(b.stash[i]),
       b.(stash := b.stash[..i] + b.stash[i + 1..], counter := if b.stash[i].User? then Dec(b.counter) else b.counter))
    ensures forall i: nat :: NoMatch(b.stash, f) && First(AsSys(b.rxSys), f, i) ==>
      SelectiveF(b, f) ==
      (Got(System(b.rxSys[i])), b.(stash := b.stash + AsSys(b.rxSys[..i]), rxSys := b.rxSys[i + 1..]))
    ensures NoMatch(b.stash, f) && NoMatch(AsSys(b.rxSys), f) && !b.open ==>
      SelectiveF(b, f) == (Nothing, b.(stash := b.stash + AsSys(b.rxSys), rxSys := []))
    ensures forall i: nat ::
      NoMatch(b.stash, f) && NoMatch(AsSys(b.rxSys), f) && b.open && First(AsUser(b.rxUser), f, i) ==>
      SelectiveF(b, f) ==
      (Got(User(b.rxUser[i])),
       b.(stash := b.stash + AsSys(b.rxSys) + AsUser(b.rxUser[..i]), rxSys := [], rxUser := b.rxUser[i + 1..],
          counter := Dec(b.counter)))
    ensures NoMatch(b.stash, f) && NoMatch(AsSys(b.rxSys), f) && b.open && NoMatch(AsUser(b.rxUser), f) ==>
      SelectiveF(b, f) ==
      (Pending, b.(stash := b.stash + AsSys(b.rxSys) + AsUser(b.rxUser), rxSys := [], rxUser := []))
  {
    forall i: nat | First(b.stash, f, i) ensures Position(b.stash, f) == i {
      StashFirst(b, f, i);
    }
    if NoMatch(b.stash, f) {
      StashNone(b, f);
      ChannelsExactly(b, f);
    }
  }

  /** The same for a call that finds no match in the stash. */
  lemma ChannelsExactly(b: Box, f: Message -> bool)
    ensures forall i: nat :: First(AsSys(b.rxSys), f, i) ==>
      SelLoop(b, f) ==
      (Got(System(b.rxSys[i])), b.(stash := b.stash + AsSys(b.rxSys[..i]), rxSys := b.rxSys[i + 1..]))
    ensures NoMatch(AsSys(b.rxSys), f) && !b.open ==>
      SelLoop(b, f) == (Nothing, b.(stash := b.stash + AsSys(b.rxSys), rxSys := []))
    ensures forall i: nat :: NoMatch(AsSys(b.rxSys), f) && b.open && First(AsUser(b.rxUser), f, i) ==>
      SelLoop(b, f) ==
      (Got(User(b.rxUser[i])),
       b.(stash := b.stash + AsSys(b.rxSys) + AsUser(b.rxUser[..i]), rxSys := [], rxUser := b.rxUser[i + 1..],
          counter := Dec(b.counter)))
    ensures NoMatch(AsSys(b.rxSys), f) && b.open && NoMatch(AsUser(b.rxUser), f) ==>
      SelLoop(b, f) ==
      (Pending, b.(stash := b.stash + AsSys(b.rxSys) + AsUser(b.rxUser), rxSys := [], rxUser := []))
  {
    forall i: nat | First(AsSys(b.rxSys), f, i)
      ensures SelLoop(b, f) ==
        (Got(System(b.rxSys[i])), b.(stash := b.stash + AsSys(b.rxSys[..i]), rxSys := b.rxSys[i + 1..]))
    {
      SysFirst(b, f, i);
    }
    if NoMatch(AsSys(b.rxSys), f) {
      SysNone(b, f);
      var c := b.(stash := b.stash + AsSys(b.rxSys), rxSys := []);
      if b.open {
        forall i: nat | First(AsUser(b.rxUser), f, i)
          ensures SelLoop(c, f) ==
            (Got(User(b.rxUser[i])),
             c.(stash := c.stash + AsUser(b.rxUser[..i]), rxUser := b.rxUser[i + 1..], counter := Dec(b.counter)))
        {
          UserFirst(c, f, i);
        }
        if NoMatch(AsUser(b.rxUser), f) {
          UserNone(c, f);
        }
      }
    }
  }

  /** One of the cases always applies. */
  lemma {:induction false} FirstOrNone(ms: seq<Message>, f: Message -> bool)
    ensures NoMatch(ms, f) || exists i: nat :: First(ms, f, i)
  {
    if ms != [] && !NoMatch(ms, f) {
      var n := |ms| - 1;
      FirstOrNone(ms[..n], f);
      if NoMatch(ms[..n], f) {
        assert forall j :: 0 <= j < n ==> !f(ms[..n][j]);
        assert First(ms, f, n);
      } else {
        var i: nat :| First(ms[..n], f, i);
        assert forall j :: 0 <= j < i ==> ms[..n][j] == ms[j];
        assert First(ms, f, i);
      }
    }
  }

  // Turn by turn.

  /** A call in progress, as the loop's answer on its mailbox. */
  function Outcome(o: (Poll, Box)): S.Call {
    match o.0
    case Got(m) => S.Returned(m, o.1)
    case Nothing => S.GaveUp(o.1)
    case Pending => S.Waiting(o.1)
  }

  /** Turn after turn of a call that nothing arrives at. */
  function Turns(c: S.Call, f: Message -> bool, n: nat): S.Call
    decreases n
  {
    if n == 0 then c else Turns(S.Next(c, f, S.Turn(false)), f, n - 1)
  }

  lemma {:induction false} TurnsOver(c: S.Call, f: Message -> bool, n: nat)
    requires !c.Waiting? || (c.box.open && c.box.rxSys == [] && c.box.rxUser == [])
    ensures Turns(c, f, n) == c
  {
    if n > 0 {
      TurnsOver(c, f, n - 1);
    }
  }

  /** Enough turns are the loop. */
  lemma {:induction false} TurnsAreTheLoop(b: Box, f: Message -> bool, n: nat)
    requires n > |b.rxSys| + |b.rxUser|
    ensures Turns(S.Waiting(b), f, n) == Outcome(SelLoop(b, f))
    decreases n
  {
    var c := S.Next(S.Waiting(b), f, S.Turn(false));
    if b.rxSys != [] {
      var (r, b') := OfferSys(b, f);
      if r.Got? {
        TurnsOver(c, f, n - 1);
      } else {
        TurnsAreTheLoop(b', f, n - 1);
      }
    } else if b.open && b.rxUser != [] {
      var (r, b') := OfferUser(b, f);
      if r.Got? {
        TurnsOver(c, f, n - 1);
      } else {
        TurnsAreTheLoop(b', f, n - 1);
      }
    } else {
      TurnsOver(c, f, n - 1);
    }
  }

  /** A call at which nothing more arrives ends, after a turn per queued message and one more,
      with the result and the mailbox of one selective receive. */
  lemma TurnsAreSelective(b: Box, f: Message -> bool, n: nat)
    requires n > |b.rxSys| + |b.rxUser|
    ensures Turns(S.Begin(b, f), f, n) == Outcome(SelectiveF(b, f))
  {
    if FromStash(b, f).0.Got? {
      TurnsOver(S.Begin(b, f), f, n);
    } else {
      TurnsAreTheLoop(b, f, n);
    }
  }

  lemma {:induction false} LastTurn(c: S.Call, f: Message -> bool, n: nat)
    requires n > 0
    ensures Turns(c, f, n) == S.Next(Turns(c, f, n - 1), f, S.Turn(false))
    decreases n
  {
    if n > 1 {
      LastTurn(S.Next(c, f, S.Turn(false)), f, n - 1);
    }
  }

  lemma {:induction false} ExecTurns(b: Box, f: Message -> bool, es: seq<S.Event>, n: nat)
    ensures S.Exec(b, f, es + seq(n, _ => S.Turn(false))) == Turns(S.Exec(b, f, es), f, n)
  {
    var ts := seq(n, _ => S.Turn(false));
    if n == 0 {
      assert es + ts == es;
    } else {
      ExecTurns(b, f, es, n - 1);
      assert (es + ts)[..|es + ts| - 1] == es + seq(n - 1, _ => S.Turn(false));
      LastTurn(S.Exec(b, f, es), f, n);
    }
  }

  /** Whatever arrivals, turns, races and cuts came before: a call still waiting ends, once
      nothing more arrives and it gets its turns, with the result and the mailbox of one
      selective receive on the mailbox it waits at. */
  lemma TurnsAfterArrivals(b: Box, f: Message -> bool, es: seq<S.Event>, n: nat)
    requires b.alive && S.Exec(b, f, es).Waiting?
    requires n > |S.Exec(b, f, es).box.rxSys| + |S.Exec(b, f, es).box.rxUser|
    ensures S.Exec(b, f, es + seq(n, _ => S.Turn(false))) == Outcome(SelectiveF(S.Exec(b, f, es).box, f))
  {
    var c := S.Exec(b, f, es);
    S.NothingLost(b, f, es);
    ExecTurns(b, f, es, n);
    StashNone(c.box, f);
    TurnsAreTheLoop(c.box, f, n);
  }
}
