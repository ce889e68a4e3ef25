// The mailbox behaves like two plain FIFO queues, systems before users: stash and
// channels are invisible. Selective receive takes the first match of one class out of
// its queue and leaves everything else where it was.
module MailboxRefinement {
  import opened Mailbox

  datatype Queues = Queues(sys: seq<SystemMessage>, usr: seq<Bytes>)

  function Abs(b: Box): Queues {
    Queues(SysQ(b), UserQ(b))
  }

  // Splitting and joining the stash.

  lemma {:induction false} ClassesConcat(s: seq<Message>, t: seq<Message>)
    ensures Systems(s + t) == Systems(s) + Systems(t)
    ensures Users(s + t) == Users(s) + Users(t)
  {
    if t == [] {
      assert s + t == s;
    } else {
      var n := |t| - 1;
      ClassesConcat(s, t[..n]);
      assert (s + t)[..|s + t| - 1] == s + t[..n];
    }
  }

  lemma ClassesAt(s: seq<Message>, i: nat, pre: seq<Message>, m: Message, post: seq<Message>)
    requires i < |s| && pre == s[..i] && m == s[i] && post == s[i + 1..]
    ensures Systems(s) == Systems(pre) + (if m.System? then [m.sys] else []) + Systems(post)
    ensures Users(s) == Users(pre) + (if m.User? then [m.bytes] else []) + Users(post)
    ensures Systems(Without(s, i)) == Systems(pre) + Systems(post)
    ensures Users(Without(s, i)) == Users(pre) + Users(post)
  {
    assert s == pre + [m] + post;
    ClassesConcat(pre + [m], post);
    ClassesSnoc(pre, m);
    ClassesConcat(pre, post);
  }

  lemma ClassesSnoc(pre: seq<Message>, m: Message)
    ensures Systems(pre + [m]) == Systems(pre) + (if m.System? then [m.sys] else [])
    ensures Users(pre + [m]) == Users(pre) + (if m.User? then [m.bytes] else [])
  {
    assert (pre + [m])[..|pre|] == pre;
  }

  lemma {:induction false} NoSystems(s: seq<Message>)
    requires forall m <- s :: m.User?
    ensures Systems(s) == [] && |Users(s)| == |s|
  {
    if s != [] {
      assert s[|s| - 1] in s;
      NoSystems(s[..|s| - 1]);
    }
  }

  // Plain receives.

  /** What a receive on the two queues takes. */
  function Take(q: Queues): (Poll, Queues) {
    if q.sys != [] then (Got(System(q.sys[0])), q.(sys := q.sys[1..]))
    else if q.usr != [] then (Got(User(q.usr[0])), q.(usr := q.usr[1..]))
    else (Pending, q)
  }

  lemma TakeReadyRefines(b: Box)
    ensures var (r, b') := TakeReady(b);
      && (r.Got? ==> (r, Abs(b')) == Take(Abs(b)) && (Counted(b) ==> Counted(b')))
      && (!r.Got? ==> r == Pending && SysQ(b) == [] && Users(b.stash) == [] && b' == b)
      && b'.open == b.open && b'.alive == b.alive
  {
    var s := b.stash;
    var i := Position(s, IsSystem());
    if i < |s| {
      FirstSystemOut(s, i);
      TailConcat(Systems(s), b.rxSys);
    } else {
      assert Systems(s) == [] && |Users(s)| == |s| by {
        assert forall m <- s :: m.User?;
        NoSystems(s);
      }
      EmptyConcat(Systems(s), b.rxSys);
      if b.rxSys == [] && s != [] {
        assert forall m <- s :: m.User?;
        FirstUserOut(s);
        TailConcat(Users(s), b.rxUser);
      }
    }
  }

  lemma TailConcat<T>(a: seq<T>, b: seq<T>)
    requires a != []
    ensures (a + b)[0] == a[0] && a[1..] + b == (a + b)[1..]
  {
  }

  lemma EmptyConcat<T>(a: seq<T>, b: seq<T>)
    requires a == []
    ensures a + b == b && (b != [] ==> a + b[1..] == b[1..])
  {
  }

  lemma {:induction false} FirstSystemOut(s: seq<Message>, i: nat)
    requires i < |s| && s[i].System? && forall k :: 0 <= k < i ==> s[k].User?
    ensures Systems(s) != [] && Systems(s)[0] == s[i].sys
    ensures Systems(Without(s, i)) == Systems(s)[1..] && Users(Without(s, i)) == Users(s)
  {
    var pre, post := s[..i], s[i + 1..];
    assert Systems(pre) == [] by {
      assert forall m <- pre :: m.User?;
      NoSystems(pre);
    }
    ClassesAt(s, i, pre, s[i], post);
    Heads(Systems(s), Systems(Without(s, i)), Systems(pre), s[i].sys, Systems(post));
  }

  lemma Heads(q: seq<SystemMessage>, q': seq<SystemMessage>, pre: seq<SystemMessage>, x: SystemMessage,
              post: seq<SystemMessage>)
    requires pre == [] && q == pre + [x] + post && q' == pre + post
    ensures q != [] && q[0] == x && q' == q[1..]
  {
  }

  lemma FirstUserOut(s: seq<Message>)
    requires s != [] && forall m <- s :: m.User?
    ensures Users(s) != [] && Users(s)[0] == s[0].bytes
    ensures Systems(s[1..]) == [] && Users(s[1..]) == Users(s)[1..]
  {
    assert s[0] in s;
    ClassesAt(s, 0, [], s[0], s[1..]);
    assert Without(s, 0) == s[1..];
    NoSystems(s[1..]);
  }

  /** While a sender is left, recv is a receive on the two queues; try_recv is one in any
      state. The count stays exact. */
  lemma ReceiveRefines(b: Box)
    ensures var (r, b') := TryRecvF(b);
      (if r == Nothing then Pending else r, Abs(b')) == Take(Abs(b)) && (Counted(b) ==> Counted(b'))
    ensures var (r, b') := RecvF(b);
      b.open ==> (r, Abs(b')) == Take(Abs(b)) && (Counted(b) ==> Counted(b'))
  {
    TakeReadyRefines(b);
    if !TakeReady(b).0.Got? {
      assert UserQ(b) == b.rxUser;
      assert b.rxUser != [] ==> Users(b.stash) + b.rxUser[1..] == b.rxUser[1..];
    }
  }

  /** With all senders gone, recv gives up exactly when the system queue and the users of
      the stash are exhausted, whatever is still in the user channel. */
  lemma ClosedRecvExact(b: Box)
    requires !b.open
    ensures var (r, b') := RecvF(b);
      && (r == Nothing <==> SysQ(b) == [] && Users(b.stash) == [])
      && (r == Nothing ==> b' == b && UserQ(b) == b.rxUser)
      && (r != Nothing ==> (r, Abs(b')) == Take(Abs(b)))
  {
    TakeReadyRefines(b);
    if SysQ(b) == [] && Users(b.stash) == [] {
      EmptyStash(b.stash);
      assert b.rxSys == [] && UserQ(b) == b.rxUser;
    }
  }

  lemma {:induction false} EmptyStash(s: seq<Message>)
    ensures |Systems(s)| + |Users(s)| == |s|
  {
    if s != [] {
      EmptyStash(s[..|s| - 1]);
    }
  }

  // The order of the stash.

  /** The next receive delivers the head of the stash and leaves the rest. */
  predicate DeliversHead(b: Box, r: Poll, b': Box)
    requires b.stash != []
  {
    r == Got(b.stash[0]) && b'.stash == b.stash[1..]
  }

  /** With something stashed, recv and try_recv deliver what was stashed first exactly when
      that is a system message, or no system message is stashed or queued at all. */
  lemma StashOrderExactly(b: Box)
    requires b.stash != []
    ensures var headFirst := b.stash[0].System? || (b.rxSys == [] && forall m <- b.stash :: m.User?);
      && (DeliversHead(b, RecvF(b).0, RecvF(b).1) <==> headFirst)
      && (DeliversHead(b, TryRecvF(b).0, TryRecvF(b).1) <==> headFirst)
  {
    var i := Position(b.stash, IsSystem());
    if i < |b.stash| {
      assert b.stash[i] in b.stash;
      assert i == 0 ==> Without(b.stash, i) == b.stash[1..];
    } else {
      assert forall m <- b.stash :: m.User?;
    }
    assert b.stash != b.stash[1..];
  }

  /** Two selective receives that match nothing stash a user message and then a system
      message; the next receive delivers the system message. */
  lemma StashedSystemOvertakes(u: Bytes, s: SystemMessage)
    ensures var none := (m: Message) => false;
      var b := DoAll(NEW_BOX, [Send(User(u)), Selective(none), Send(System(s)), Selective(none)]);
      b.stash == [User(u), System(s)] && RecvF(b).0 == Got(System(s)) && RecvF(b).1.stash == [User(u)]
  {
    var none := (m: Message) => false;
    var b1, b2 := NEW_BOX.(rxUser := [u], counter := 1), NEW_BOX.(stash := [User(u)], counter := 1);
    var b3, b4 := b2.(rxSys := [s]), b2.(stash := [User(u), System(s)]);
    assert Do(NEW_BOX, Send(User(u))).1 == b1;
    assert Do(b1, Selective(none)).1 == b2 by {
      assert [] + [User(u)] == [User(u)] && [u][1..] == [];
      assert OfferUser(b1, none) == (Pending, b2);
      assert SelLoop(b2, none).1 == b2;
    }
    assert Do(b2, Send(System(s))).1 == b3;
    assert Do(b3, Selective(none)).1 == b4 by {
      assert [User(u)] + [System(s)] == [User(u), System(s)] && [s][1..] == [];
      assert OfferSys(b3, none) == (Pending, b4);
      assert SelLoop(b4, none).1 == b4;
    }
    FourActs(NEW_BOX, Send(User(u)), Selective(none), Send(System(s)), Selective(none));
    assert Position(b4.stash, IsSystem()) == 1;
  }

  lemma FourActs(b: Box, w: Act, x: Act, y: Act, z: Act)
    ensures DoAll(b, [w, x, y, z]) == Do(Do(Do(Do(b, w).1, x).1, y).1, z).1
  {
    assert [w][..0] == [] && [w, x][..1] == [w] && [w, x, y][..2] == [w, x] && [w, x, y, z][..3] == [w, x, y];
    assert DoAll(b, [w]) == Do(b, w).1;
    assert DoAll(b, [w, x]) == Do(DoAll(b, [w]), x).1;
    assert DoAll(b, [w, x, y]) == Do(DoAll(b, [w, x]), y).1;
  }

  // Selective receive.

  /** `k` is the first match of its class. */
  predicate FirstSys(q: seq<SystemMessage>, f: Message -> bool, k: nat) {
    k < |q| && f(System(q[k])) && forall j :: 0 <= j < k ==> !f(System(q[j]))
  }

  predicate FirstUser(q: seq<Bytes>, f: Message -> bool, k: nat) {
    k < |q| && f(User(q[k])) && forall j :: 0 <= j < k ==> !f(User(q[j]))
  }

  predicate NoMatch(q: Queues, f: Message -> bool) {
    && (forall j :: 0 <= j < |q.sys| ==> !f(System(q.sys[j])))
    && (forall j :: 0 <= j < |q.usr| ==> !f(User(q.usr[j])))
  }

  /** `m` is the first match of its class in `q`, and `q'` is `q` without it. */
  ghost predicate TakesFirst(q: Queues, f: Message -> bool, m: Message, q': Queues) {
    match m
    case System(x) => exists k: nat :: FirstSys(q.sys, f, k) && q.sys[k] == x && q' == q.(sys := Without(q.sys, k))
    case User(x) => exists k: nat :: FirstUser(q.usr, f, k) && q.usr[k] == x && q' == q.(usr := Without(q.usr, k))
  }

  predicate Stashed(s: seq<Message>, f: Message -> bool) {
    forall k :: 0 <= k < |s| ==> !f(s[k])
  }

  lemma {:induction false} StashedClasses(s: seq<Message>, f: Message -> bool)
    requires Stashed(s, f)
    ensures forall j :: 0 <= j < |Systems(s)| ==> !f(System(Systems(s)[j]))
    ensures forall j :: 0 <= j < |Users(s)| ==> !f(User(Users(s)[j]))
  {
    if s != [] {
      StashedClasses(s[..|s| - 1], f);
    }
  }

  lemma FromStashRefines(b: Box, f: Message -> bool)
    ensures var (r, b') := FromStash(b, f);
      && (r.Got? ==> TakesFirst(Abs(b), f, r.m, Abs(b')) && (Counted(b) ==> Counted(b')))
      && (!r.Got? ==> b' == b && Stashed(b.stash, f))
  {
    var i := Position(b.stash, f);
    if i < |b.stash| {
      var s := b.stash;
      assert Stashed(s[..i], f);
      MatchOut(s, b.rxSys, b.rxUser, f, i);
    }
  }

  lemma MatchOut(s: seq<Message>, rxSys: seq<SystemMessage>, rxUser: seq<Bytes>, f: Message -> bool, i: nat)
    requires i < |s| && f(s[i]) && Stashed(s[..i], f)
    ensures TakesFirst(Queues(Systems(s) + rxSys, Users(s) + rxUser), f, s[i],
                       Queues(Systems(Without(s, i)) + rxSys, Users(Without(s, i)) + rxUser))
    ensures |Users(Without(s, i))| == |Users(s)| - (if s[i].User? then 1 else 0)
  {
    var pre, post := s[..i], s[i + 1..];
    ClassesAt(s, i, pre, s[i], post);
    StashedClasses(pre, f);
    match s[i]
    case System(x) =>
      JoinSys(Systems(s), Systems(Without(s, i)), Systems(pre), x, Systems(post), rxSys, f);
    case User(x) =>
      JoinUser(Users(s), Users(Without(s, i)), Users(pre), x, Users(post), rxUser, f);
  }

  lemma JoinSys(q: seq<SystemMessage>, q': seq<SystemMessage>, pre: seq<SystemMessage>, x: SystemMessage,
                post: seq<SystemMessage>, rx: seq<SystemMessage>, f: Message -> bool)
    requires q == pre + [x] + post && q' == pre + post
    requires f(System(x)) && forall j :: 0 <= j < |pre| ==> !f(System(pre[j]))
    ensures FirstSys(q + rx, f, |pre|) && (q + rx)[|pre|] == x && Without(q + rx, |pre|) == q' + rx
  {
    SplitSys(q + rx, pre, x, post + rx, f);
  }

  lemma JoinUser(q: seq<Bytes>, q': seq<Bytes>, pre: seq<Bytes>, x: Bytes, post: seq<Bytes>, rx: seq<Bytes>,
                 f: Message -> bool)
    requires q == pre + [x] + post && q' == pre + post
    requires f(User(x)) && forall j :: 0 <= j < |pre| ==> !f(User(pre[j]))
    ensures FirstUser(q + rx, f, |pre|) && (q + rx)[|pre|] == x && Without(q + rx, |pre|) == q' + rx
  {
    SplitUser(q + rx, pre, x, post + rx, f);
  }

  lemma SplitSys(q: seq<SystemMessage>, pre: seq<SystemMessage>, x: SystemMessage, post: seq<SystemMessage>,
                 f: Message -> bool)
    requires q == pre + [x] + post && f(System(x)) && forall j :: 0 <= j < |pre| ==> !f(System(pre[j]))
    ensures FirstSys(q, f, |pre|) && q[|pre|] == x && Without(q, |pre|) == pre + post
  {
  }

  lemma SplitUser(q: seq<Bytes>, pre: seq<Bytes>, x: Bytes, post: seq<Bytes>, f: Message -> bool)
    requires q == pre + [x] + post && f(User(x)) && forall j :: 0 <= j < |pre| ==> !f(User(pre[j]))
    ensures FirstUser(q, f, |pre|) && q[|pre|] == x && Without(q, |pre|) == pre + post
  {
  }

  /** Offering the next system message: delivered, it is the first match of its class;
      stashed, both queues are as before. */
  lemma OfferSysRefines(b: Box, f: Message -> bool)
    requires b.rxSys != [] && Stashed(b.stash, f)
    ensures var (r, b') := OfferSys(b, f);
      && (r.Got? ==> TakesFirst(Abs(b), f, r.m, Abs(b')))
      && (!r.Got? ==> Abs(b') == Abs(b) && Stashed(b'.stash, f))
      && (Counted(b) ==> Counted(b'))
  {
    var m := System(b.rxSys[0]);
    if f(m) {
      StashedClasses(b.stash, f);
      SplitSys(SysQ(b), Systems(b.stash), m.sys, b.rxSys[1..], f);
    } else {
      ClassesSnoc(b.stash, m);
      assert Systems(b.stash) + [m.sys] + b.rxSys[1..] == SysQ(b);
      assert Users(b.stash) + [] == Users(b.stash);
    }
  }

  lemma OfferUserRefines(b: Box, f: Message -> bool)
    requires b.rxUser != [] && Stashed(b.stash, f)
    ensures var (r, b') := OfferUser(b, f);
      && (r.Got? ==> TakesFirst(Abs(b), f, r.m, Abs(b')))
      && (!r.Got? ==> Abs(b') == Abs(b) && Stashed(b'.stash, f))
      && (Counted(b) ==> Counted(b'))
  {
    var m := User(b.rxUser[0]);
    if f(m) {
      StashedClasses(b.stash, f);
      SplitUser(UserQ(b), Users(b.stash), m.bytes, b.rxUser[1..], f);
    } else {
      ClassesSnoc(b.stash, m);
      assert Users(b.stash) + [m.bytes] + b.rxUser[1..] == UserQ(b);
      assert Systems(b.stash) + [] == Systems(b.stash);
    }
  }

  lemma {:induction false} SelLoopRefines(b: Box, f: Message -> bool)
    requires Stashed(b.stash, f)
    ensures var (r, b') := SelLoop(b, f);
      && (r.Got? ==> TakesFirst(Abs(b), f, r.m, Abs(b')))
      && (!r.Got? ==> Abs(b') == Abs(b) && Stashed(b'.stash, f) && b'.rxSys == [] && (r == Nothing <==> !b.open))
      && (r == Pending ==> NoMatch(Abs(b), f) && b'.rxUser == [])
      && (Counted(b) ==> Counted(b')) && b'.open == b.open && b'.alive == b.alive
    decreases |b.rxSys| + |b.rxUser|
  {
    if b.rxSys != [] {
      OfferSysRefines(b, f);
      var (r, b') := OfferSys(b, f);
      if !r.Got? {
        SelLoopRefines(b', f);
      }
    } else if b.open && b.rxUser != [] {
      OfferUserRefines(b, f);
      var (r, b') := OfferUser(b, f);
      if !r.Got? {
        SelLoopRefines(b', f);
      }
    } else {
      StashedClasses(b.stash, f);
    }
  }

  /** No match among what a closed mailbox still hands out: its stash and system channel. */
  predicate NoneInReach(b: Box, f: Message -> bool) {
    Stashed(b.stash, f) && forall j :: 0 <= j < |b.rxSys| ==> !f(System(b.rxSys[j]))
  }

  lemma {:induction false} ClosedLoopExact(b: Box, f: Message -> bool)
    requires !b.open && Stashed(b.stash, f)
    ensures SelLoop(b, f).0 == Nothing <==> NoneInReach(b, f)
    ensures SelLoop(b, f).0 == Nothing ==> SelLoop(b, f).1.rxUser == b.rxUser
    decreases |b.rxSys|
  {
    if b.rxSys != [] {
      var (r, b') := OfferSys(b, f);
      if !r.Got? {
        ClosedLoopExact(b', f);
        assert forall j :: 0 <= j < |b.rxSys| - 1 ==> b'.rxSys[j] == b.rxSys[j + 1];
      }
    }
  }

  /** With all senders gone, a selective receive gives up exactly when neither the stash nor
      the system channel holds a match, whatever the user channel holds, and leaves it. */
  lemma ClosedSelectiveExact(b: Box, f: Message -> bool)
    requires !b.open
    ensures SelectiveF(b, f).0 == Nothing <==> NoneInReach(b, f)
    ensures SelectiveF(b, f).0 == Nothing ==> SelectiveF(b, f).1.rxUser == b.rxUser
  {
    FromStashRefines(b, f);
    if !FromStash(b, f).0.Got? {
      ClosedLoopExact(b, f);
    }
  }

  /** Selective receive with a pure matcher: it delivers the first match of a class and
      removes only that; suspended, it has found that neither queue holds a match, and
      both are unchanged; it returns None only when all senders are gone, and then exactly
      when no match is in reach. */
  lemma SelectiveRefines(b: Box, f: Message -> bool)
    ensures var (r, b') := SelectiveF(b, f);
      && (r == Nothing <==> !b.open && NoneInReach(b, f))
      && (r.Got? ==> TakesFirst(Abs(b), f, r.m, Abs(b')))
      && (!r.Got? ==> Abs(b') == Abs(b) && (r == Nothing <==> !b.open))
      && (r == Pending ==> NoMatch(Abs(b), f))
      && (Counted(b) ==> Counted(b')) && b'.open == b.open && b'.alive == b.alive
  {
    FromStashRefines(b, f);
    if !FromStash(b, f).0.Got? {
      SelLoopRefines(b, f);
    }
    if !b.open {
      ClosedSelectiveExact(b, f);
    }
  }

  // Whole runs.

  datatype Act = Send(m: Message) | Recv | TryRecv | Selective(f: Message -> bool)

  function Do(b: Box, a: Act): (Poll, Box) {
    match a
    case Send(m) => (Pending, SendF(b, m).1)
    case Recv => RecvF(b)
    case TryRecv => TryRecvF(b)
    case Selective(f) => SelectiveF(b, f)
  }

  /** One step on the two queues with result `r`. */
  ghost predicate QStep(q: Queues, a: Act, r: Poll, q': Queues) {
    match a
    case Send(m) => q' == if m.User? then q.(usr := q.usr + [m.bytes]) else q.(sys := q.sys + [m.sys])
    case Recv => (r, q') == Take(q)
    case TryRecv => (if r == Nothing then Pending else r, q') == Take(q)
    case Selective(f) =>
      if r.Got? then TakesFirst(q, f, r.m, q') else r == Pending && q' == q && NoMatch(q, f)
  }

  function DoAll(b: Box, acts: seq<Act>): Box {
    if acts == [] then b else Do(DoAll(b, acts[..|acts| - 1]), acts[|acts| - 1]).1
  }

  lemma DoRefines(b: Box, a: Act)
    requires b.open && b.alive
    ensures var (r, b') := Do(b, a);
      QStep(Abs(b), a, r, Abs(b')) && b'.open && b'.alive && (Counted(b) ==> Counted(b'))
  {
    match a
    case Send(m) =>
      if m.User? {
        assert UserQ(b) + [m.bytes] == Users(b.stash) + (b.rxUser + [m.bytes]);
      } else {
        assert SysQ(b) + [m.sys] == Systems(b.stash) + (b.rxSys + [m.sys]);
      }
    case Recv =>
      ReceiveRefines(b);
      TakeReadyRefines(b);
    case TryRecv =>
      ReceiveRefines(b);
      TakeReadyRefines(b);
    case Selective(f) =>
      SelectiveRefines(b, f);
  }

  /** Along any run of sends and receives on an open mailbox, every step is a step of the
      two queues, with the same result, and the count is the length of the user queue. */
  lemma {:induction false} RunsRefine(acts: seq<Act>, a: Act)
    ensures var b := DoAll(NEW_BOX, acts); var (r, b') := Do(b, a);
      && QStep(Abs(b), a, r, Abs(b'))
      && b.open && b.alive && Counted(b)
  {
    if acts != [] {
      RunsRefine(acts[..|acts| - 1], acts[|acts| - 1]);
      DoRefines(DoAll(NEW_BOX, acts[..|acts| - 1]), acts[|acts| - 1]);
    }
    DoRefines(DoAll(NEW_BOX, acts), a);
  }
}
