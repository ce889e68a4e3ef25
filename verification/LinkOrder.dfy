// src/lib.rs: the order in which an exiting actor tells its peers, told from the calls alone:
// that in which the links still standing were made.
module LinkOrder {
  import opened Pids
  import opened C = Lifecycle
  import opened N = LinkCounts
  import L = Links

  function Row(l: L.LinkMap, p: Pid): seq<Pid> {
    if p in l then l[p] else []
  }

  function Peer(e: Event, p: Pid): Pid
    requires e.LinkUp?
  {
    if e.a == p then e.b else e.a
  }

  predicate Links(e: Event, p: Pid) {
    e.LinkUp? && (e.a == p || e.b == p)
  }

  /** Event `k` links `p` to a peer, and nothing later erases what is recorded between the two. */
  ghost predicate Standing(es: seq<Event>, p: Pid, k: nat) {
    && k < |es| && Links(es[k], p)
    && forall j :: k < j < |es| ==> !Erases(Exec(START, es[..j]), es[j], p, Peer(es[k], p))
  }

  /** The standing links of `p`: which event made them, and the peer. */
  ghost function StandingLinks(es: seq<Event>, p: Pid): map<nat, Pid> {
    map k: nat | k < |es| && Standing(es, p, k) :: Peer(es[k], p)
  }

  /** `row` lists the values of `made`, in the order of their keys `at`. Only `p` itself comes
      twice, since a link of `p` with itself is recorded in both directions. */
  ghost predicate InOrder(made: map<nat, Pid>, p: Pid, row: seq<Pid>, at: seq<nat>) {
    && |at| == |row|
    && (forall n :: 0 <= n < |at| ==> at[n] in made && row[n] == made[at[n]])
    && (forall k <- made :: k in at)
    && (forall m, n :: 0 <= m < n < |at| ==> at[m] < at[n] || (at[m] == at[n] && row[m] == p))
  }

  /** `row` lists the peers of all standing links of `p`, in the order in which they were made. */
  ghost predicate Chronicle(es: seq<Event>, p: Pid, row: seq<Pid>, at: seq<nat>) {
    InOrder(StandingLinks(es, p), p, row, at)
  }

  // Sifting a row.

  /** `js` are the places of `row` that do not hold `gone`, in order. */
  predicate Sifts(row: seq<Pid>, gone: Pid, js: seq<nat>) {
    && (forall n :: 0 <= n < |js| ==> js[n] < |row| && row[js[n]] != gone)
    && Increasing(js)
    && (forall j: nat :: j < |row| && row[j] != gone ==> j in js)
  }

  predicate Increasing(js: seq<nat>) {
    forall m, n :: 0 <= m < n < |js| ==> js[m] < js[n]
  }

  /** `kept` is what `row` holds in the places `js`. */
  predicate Picks(row: seq<Pid>, kept: seq<Pid>, js: seq<nat>) {
    |kept| == |js| && forall n :: 0 <= n < |js| ==> js[n] < |row| && kept[n] == row[js[n]]
  }

  function Shifted(js: seq<nat>): (r: seq<nat>)
    ensures |r| == |js| && forall n :: 0 <= n < |js| ==> r[n] == js[n] + 1
  {
    seq(|js|, n requires 0 <= n < |js| => js[n] + 1)
  }

  function ConsPlaces(x: Pid, gone: Pid, js: seq<nat>): seq<nat> {
    if x == gone then Shifted(js) else [0] + Shifted(js)
  }

  lemma PlaceShifts(x: Pid, gone: Pid, js: seq<nat>, j: nat)
    requires j in js
    ensures j + 1 in ConsPlaces(x, gone, js)
  {
    var n :| 0 <= n < |js| && js[n] == j;
    assert Shifted(js)[n] == j + 1;
    assert j + 1 in Shifted(js);
  }

  lemma ConsIncreasing(x: Pid, gone: Pid, js: seq<nat>)
    requires Increasing(js)
    ensures Increasing(ConsPlaces(x, gone, js))
  {
  }

  lemma SiftsCons(x: Pid, t: seq<Pid>, gone: Pid, js: seq<nat>)
    requires Sifts(t, gone, js)
    ensures Sifts([x] + t, gone, ConsPlaces(x, gone, js))
  {
    var row, js' := [x] + t, ConsPlaces(x, gone, js);
    assert Increasing(js') by {
      ConsIncreasing(x, gone, js);
    }
    forall n | 0 <= n < |js'| ensures js'[n] < |row| && row[js'[n]] != gone {
      if js'[n] > 0 {
        var m := if x == gone then n else n - 1;
        assert js'[n] == js[m] + 1;
      }
    }
    forall j: nat | j < |row| && row[j] != gone ensures j in js' {
      if j > 0 {
        assert t[j - 1] != gone;
        PlaceShifts(x, gone, js, j - 1);
      } else {
        assert js'[0] == 0;
      }
    }
  }

  lemma PicksCons(x: Pid, t: seq<Pid>, gone: Pid, kept: seq<Pid>, js: seq<nat>)
    requires Picks(t, kept, js)
    ensures Picks([x] + t, (if x == gone then [] else [x]) + kept, ConsPlaces(x, gone, js))
  {
  }

  /** What a retain keeps is a subsequence: the places that do not hold `gone`, in order. */
  lemma {:induction false} RetainSifts(row: seq<Pid>, gone: Pid) returns (js: seq<nat>)
    ensures Sifts(row, gone, js) && Picks(row, L.Retain(row, gone), js)
  {
    js := [];
    if row != [] {
      var x, t := row[0], row[1..];
      js := RetainSifts(t, gone);
      assert row == [x] + t;
      SiftsCons(x, t, gone, js);
      PicksCons(x, t, gone, L.Retain(t, gone), js);
      js := ConsPlaces(x, gone, js);
    }
  }

  lemma {:induction false} RetainAbsent(s: seq<Pid>, gone: Pid)
    requires gone !in s
    ensures L.Retain(s, gone) == s
  {
    if s != [] {
      RetainAbsent(s[1..], gone);
    }
  }

  lemma RetainTwice(s: seq<Pid>, gone: Pid)
    ensures L.Retain(L.Retain(s, gone), gone) == L.Retain(s, gone)
  {
    var r: seq<Pid> := L.Retain(s, gone);
    assert multiset(r)[gone] == 0;
    assert gone !in r;
    RetainAbsent(r, gone);
  }

  lemma {:induction false} CleanRow(l: L.LinkMap, peers: seq<Pid>, x: Pid, p: Pid)
    ensures Row(L.Clean(l, peers, x), p) == if p in peers then L.Retain(Row(l, p), x) else Row(l, p)
    decreases |peers|
  {
    if peers != [] {
      CleanRow(L.RetainAt(l, peers[0], x), peers[1..], x, p);
      RetainTwice(Row(l, p), x);
      assert p in peers <==> p == peers[0] || p in peers[1..];
    }
  }

  /** In a symmetric table, a cleanup sifts its pid out of every other row. */
  lemma CleanupRow(l: L.LinkMap, x: Pid, p: Pid)
    requires L.Symmetric(l)
    ensures Row(L.Cleanup(l, x), p) == if x == p then [] else L.Retain(Row(l, p), x)
  {
    assert L.Mult(l, x, p) == L.Mult(l, p, x);
    if x in l {
      CleanRow(l - {x}, l[x], x, p);
      assert Row(l - {x}, p) == if x == p then [] else Row(l, p);
    }
    if x !in Row(l, p) {
      RetainAbsent(Row(l, p), x);
    } else {
      assert multiset(Row(l, p))[x] > 0;
      assert p in multiset(l[x]);
    }
  }

  // One event.

  lemma StandingSnoc(es: seq<Event>, e: Event, p: Pid, k: nat)
    requires k < |es| && Links(es[k], p)
    ensures Standing(es + [e], p, k) <==> Standing(es, p, k) && !Erases(Exec(START, es), e, p, Peer(es[k], p))
  {
    var es', q := es + [e], Peer(es[k], p);
    assert es'[..|es|] == es && es'[|es|] == e;
    forall j | k < j < |es|
      ensures Erases(Exec(START, es'[..j]), es'[j], p, q) <==> Erases(Exec(START, es[..j]), es[j], p, q)
    {
      assert es'[..j] == es[..j];
    }
    if Standing(es', p, k) {
      assert !Erases(Exec(START, es'[..|es|]), es'[|es|], p, q);
    }
  }

  lemma StandingAfter(es: seq<Event>, e: Event, p: Pid, k: nat)
    ensures k < |es| ==>
      (k in StandingLinks(es + [e], p) <==>
       k in StandingLinks(es, p) && !Erases(Exec(START, es), e, p, StandingLinks(es, p)[k]))
    ensures |es| in StandingLinks(es + [e], p) <==> Links(e, p)
  {
    if k < |es| && Links(es[k], p) {
      StandingSnoc(es, e, p, k);
    }
  }

  lemma Kept(es: seq<Event>, e: Event, p: Pid)
    requires !Links(e, p) && forall q: Pid :: !Erases(Exec(START, es), e, p, q)
    ensures StandingLinks(es + [e], p) == StandingLinks(es, p)
  {
    forall k: nat ensures k in StandingLinks(es + [e], p) <==> k in StandingLinks(es, p) {
      StandingAfter(es, e, p, k);
    }
  }

  lemma Made(es: seq<Event>, e: Event, p: Pid)
    requires Links(e, p)
    ensures StandingLinks(es + [e], p) == StandingLinks(es, p)[|es| := Peer(e, p)]
  {
    forall k: nat ensures k in StandingLinks(es + [e], p) <==> k == |es| || k in StandingLinks(es, p) {
      StandingAfter(es, e, p, k);
    }
  }

  function Without(made: map<nat, Pid>, gone: Pid): map<nat, Pid> {
    map k | k in made && made[k] != gone :: made[k]
  }

  lemma Sifted(es: seq<Event>, e: Event, p: Pid, gone: Pid)
    requires !Links(e, p) && forall q: Pid :: Erases(Exec(START, es), e, p, q) <==> q == gone
    ensures StandingLinks(es + [e], p) == Without(StandingLinks(es, p), gone)
  {
    forall k: nat ensures k in StandingLinks(es + [e], p) <==> k in Without(StandingLinks(es, p), gone) {
      StandingAfter(es, e, p, k);
    }
  }

  lemma Wiped(es: seq<Event>, e: Event, p: Pid)
    requires !Links(e, p) && forall q: Pid :: Erases(Exec(START, es), e, p, q)
    ensures StandingLinks(es + [e], p) == map[]
  {
    forall k: nat ensures k !in StandingLinks(es + [e], p) {
      StandingAfter(es, e, p, k);
    }
  }

  lemma OneMore(made: map<nat, Pid>, p: Pid, row: seq<Pid>, at: seq<nat>, n: nat, q: Pid)
    requires InOrder(made, p, row, at) && forall k <- made :: k < n
    ensures InOrder(made[n := q], p, row + [q], at + [n])
    ensures q == p ==> InOrder(made[n := q], p, row + [p, p], at + [n, n])
  {
    assert (at + [n])[|at|] == n && (at + [n, n])[|at|] == n;
  }

  /** The members of `xs` in the places `js`. */
  function At(xs: seq<nat>, js: seq<nat>): (r: seq<nat>)
    requires forall n :: 0 <= n < |js| ==> js[n] < |xs|
    ensures |r| == |js| && forall n :: 0 <= n < |js| ==> r[n] == xs[js[n]]
  {
    seq(|js|, n requires 0 <= n < |js| => xs[js[n]])
  }

  lemma AllSifted(made: map<nat, Pid>, p: Pid, row: seq<Pid>, at: seq<nat>, gone: Pid, js: seq<nat>, k: nat)
    requires InOrder(made, p, row, at) && Sifts(row, gone, js) && k in made && made[k] != gone
    ensures k in At(at, js)
  {
    var j :| 0 <= j < |at| && at[j] == k;
    var n :| 0 <= n < |js| && js[n] == j;
    assert At(at, js)[n] == k;
  }

  lemma PickInOrder(made: map<nat, Pid>, p: Pid, row: seq<Pid>, at: seq<nat>, gone: Pid, kept: seq<Pid>, js: seq<nat>)
    requires InOrder(made, p, row, at) && Sifts(row, gone, js) && Picks(row, kept, js)
    ensures InOrder(Without(made, gone), p, kept, At(at, js))
  {
    forall k | k in Without(made, gone) ensures k in At(at, js) {
      AllSifted(made, p, row, at, gone, js, k);
    }
  }

  lemma SiftInOrder(made: map<nat, Pid>, p: Pid, row: seq<Pid>, at: seq<nat>, gone: Pid) returns (at': seq<nat>)
    requires InOrder(made, p, row, at)
    ensures InOrder(Without(made, gone), p, L.Retain(row, gone), at')
  {
    var js := RetainSifts(row, gone);
    PickInOrder(made, p, row, at, gone, L.Retain(row, gone), js);
    at' := At(at, js);
  }

  lemma UnlinkedRow(l: L.LinkMap, a: Pid, b: Pid, p: Pid)
    ensures Row(L.Unlink(l, a, b), p) ==
            if p == a then L.Retain(Row(l, p), b) else if p == b then L.Retain(Row(l, p), a) else Row(l, p)
  {
    RetainTwice(Row(l, p), p);
  }

  lemma LinkedRow(l: L.LinkMap, e: Event, p: Pid)
    requires e.LinkUp?
    ensures Row(L.Link(l, e.a, e.b), p) ==
            Row(l, p) + (if !Links(e, p) then [] else if e.a == e.b then [p, p] else [Peer(e, p)])
  {
  }

  lemma AfterLink(es: seq<Event>, e: Event, p: Pid, l: L.LinkMap, at: seq<nat>) returns (at': seq<nat>)
    requires e.LinkUp? && Chronicle(es, p, Row(l, p), at)
    ensures Chronicle(es + [e], p, Row(L.Link(l, e.a, e.b), p), at')
  {
    LinkedRow(l, e, p);
    at' := at;
    if Links(e, p) {
      Made(es, e, p);
      OneMore(StandingLinks(es, p), p, Row(l, p), at, |es|, Peer(e, p));
      at' := at + (if e.a == e.b then [|es|, |es|] else [|es|]);
    } else {
      Kept(es, e, p);
    }
  }

  lemma AfterUnlink(es: seq<Event>, e: Event, p: Pid, l: L.LinkMap, at: seq<nat>) returns (at': seq<nat>)
    requires e.LinkDown? && Chronicle(es, p, Row(l, p), at)
    ensures Chronicle(es + [e], p, Row(L.Unlink(l, e.a, e.b), p), at')
  {
    UnlinkedRow(l, e.a, e.b, p);
    at' := at;
    if p == e.a || p == e.b {
      var gone := if p == e.a then e.b else e.a;
      Sifted(es, e, p, gone);
      at' := SiftInOrder(StandingLinks(es, p), p, Row(l, p), at, gone);
    } else {
      Kept(es, e, p);
    }
  }

  lemma AfterCleanup(es: seq<Event>, e: Event, x: Pid, p: Pid, l: L.LinkMap, at: seq<nat>) returns (at': seq<nat>)
    requires L.Symmetric(l) && Chronicle(es, p, Row(l, p), at) && !Links(e, p)
    requires forall q: Pid :: Erases(Exec(START, es), e, p, q) <==> x == p || x == q
    ensures Chronicle(es + [e], p, Row(L.Cleanup(l, x), p), at')
  {
    CleanupRow(l, x, p);
    if x == p {
      Wiped(es, e, p);
      at' := [];
    } else {
      Sifted(es, e, p, x);
      at' := SiftInOrder(StandingLinks(es, p), p, Row(l, p), at, x);
    }
  }

  lemma AfterEvent(es: seq<Event>, e: Event, p: Pid, at: seq<nat>) returns (at': seq<nat>)
    requires L.Symmetric(Exec(START, es).links) && Chronicle(es, p, Row(Exec(START, es).links, p), at)
    ensures Chronicle(es + [e], p, Row(Next(Exec(START, es), e).links, p), at')
  {
    var s := Exec(START, es);
    if e.LinkUp? {
      at' := AfterLink(es, e, p, s.links, at);
    } else if e.LinkDown? {
      at' := AfterUnlink(es, e, p, s.links, at);
    } else if e.Consume? {
      at' := AfterCleanup(es, e, e.p, p, s.links, at);
    } else if e.TakeLinks? && Ready(s, e) {
      at' := AfterCleanup(es, e, s.actors[e.i].pid, p, s.links, at);
    } else {
      Kept(es, e, p);
      at' := at;
    }
  }

  /** After any run, the list of a pid holds the peers of its standing links, all of them, in
      the order in which they were made; an exit takes this list and tells it in order. */
  lemma {:induction false} RecordedInOrder(es: seq<Event>, p: Pid) returns (at: seq<nat>)
    ensures Chronicle(es, p, Row(Exec(START, es).links, p), at)
  {
    at := [];
    if es != [] {
      var front, e := es[..|es| - 1], es[|es| - 1];
      at := RecordedInOrder(front, p);
      LinksStaySymmetric(front);
      assert es == front + [e];
      at := AfterEvent(front, e, p, at);
    }
  }

  // The Exit messages.

  /** The receivers of the Exit messages of `p`, in the order sent. */
  function From(exits: seq<(Pid, Pid)>, p: Pid): seq<Pid> {
    if exits == [] then []
    else
      var (x, y) := exits[|exits| - 1];
      From(exits[..|exits| - 1], p) + (if x == p then [y] else [])
  }

  /** The peers so far found to have a mailbox, in order. */
  function Reached(peers: seq<Pid>, told: seq<bool>): seq<Pid> {
    if told == [] then []
    else
      var n := |told| - 1;
      Reached(peers, told[..n]) + (if n < |peers| && told[n] then [peers[n]] else [])
  }

  function ReachedIn(ph: Phase): seq<Pid> {
    if Tells(ph) then Reached(ph.peers, ph.told) else []
  }

  lemma FromSnoc(exits: seq<(Pid, Pid)>, x: Pid, y: Pid, p: Pid)
    ensures From(exits + [(x, y)], p) == From(exits, p) + (if x == p then [y] else [])
  {
    assert (exits + [(x, y)])[..|exits|] == exits;
  }

  lemma ReachedSnoc(peers: seq<Pid>, told: seq<bool>, b: bool)
    requires |told| < |peers|
    ensures Reached(peers, told + [b]) == Reached(peers, told) + (if b then [peers[|told|]] else [])
  {
    assert (told + [b])[..|told|] == told;
  }

  ghost predicate OrderInv(s: State) {
    && (forall i :: 0 <= i < |s.actors| ==> From(s.exits, s.actors[i].pid) == ReachedIn(s.actors[i].phase))
    && (forall p: Pid :: From(s.exits, p) != [] ==> exists i :: 0 <= i < |s.actors| && s.actors[i].pid == p)
  }

  lemma TellKeepsOrder(s: State, i: nat, j: nat)
    requires PidsInv(s) && OrderInv(s) && Ready(s, Tell(i)) && j < |s.actors|
    ensures var s' := Next(s, Tell(i)); From(s'.exits, s'.actors[j].pid) == ReachedIn(s'.actors[j].phase)
  {
    var Telling(peers, told) := s.actors[i].phase;
    if |told| < |peers| {
      var q := peers[|told|];
      FromSnoc(s.exits, s.actors[i].pid, q, s.actors[j].pid);
      ReachedSnoc(peers, told, q in s.mailboxes);
      if s.actors[j].pid == s.actors[i].pid {
        OnePidEach(s, i, j);
      }
    }
  }

  lemma SenderTells(s: State, e: Event, p: Pid)
    requires From(Next(s, e).exits, p) != From(s.exits, p)
    ensures e.Tell? && e.i < |s.actors| && s.actors[e.i].pid == p
  {
    if e.Tell? && Ready(s, e) {
      var Telling(peers, told) := s.actors[e.i].phase;
      if |told| < |peers| {
        FromSnoc(s.exits, s.actors[e.i].pid, peers[|told|], p);
      }
    }
  }

  lemma PidsStay(s: State, e: Event, i: nat)
    requires i < |s.actors|
    ensures i < |Next(s, e).actors| && Next(s, e).actors[i].pid == s.actors[i].pid
  {
  }

  lemma SendersAreActors(s: State, e: Event, p: Pid)
    requires OrderInv(s) && From(Next(s, e).exits, p) != []
    ensures exists i :: 0 <= i < |Next(s, e).actors| && Next(s, e).actors[i].pid == p
  {
    if From(Next(s, e).exits, p) != From(s.exits, p) {
      SenderTells(s, e, p);
      PidsStay(s, e, e.i);
    } else {
      var i :| 0 <= i < |s.actors| && s.actors[i].pid == p;
      PidsStay(s, e, i);
    }
  }

  lemma NewActorSentNothing(s: State)
    requires PidsInv(s) && OrderInv(s) && Ready(s, Spawn)
    ensures From(s.exits, Next(s, Spawn).actors[|s.actors|].pid) == []
  {
    var s', j := Next(s, Spawn), |s.actors|;
    SpawnKeepsPids(s);
    if From(s.exits, s'.actors[j].pid) != [] {
      var i :| 0 <= i < |s.actors| && s.actors[i].pid == s'.actors[j].pid;
      assert s'.actors[i].pid == s.actors[i].pid;
      OnePidEach(s', i, j);
    }
  }

  lemma OthersTellNobody(s: State, e: Event, j: nat)
    requires j < |s.actors| && !e.Tell?
    ensures Next(s, e).exits == s.exits && SameDue(s.actors[j], Next(s, e).actors[j])
  {
  }

  lemma OrderAt(s: State, e: Event, j: nat)
    requires PidsInv(s) && OrderInv(s) && j < |Next(s, e).actors|
    ensures From(Next(s, e).exits, Next(s, e).actors[j].pid) == ReachedIn(Next(s, e).actors[j].phase)
  {
    if e.Tell? && Ready(s, e) {
      TellKeepsOrder(s, e.i, j);
    } else if j < |s.actors| {
      assert From(s.exits, s.actors[j].pid) == ReachedIn(s.actors[j].phase);
      if !e.Tell? {
        OthersTellNobody(s, e, j);
      }
    } else {
      NewActorSentNothing(s);
    }
  }

  lemma {:induction false} OrderAlways(es: seq<Event>)
    ensures OrderInv(Exec(START, es))
  {
    if es != [] {
      var s, e := Exec(START, es[..|es| - 1]), es[|es| - 1];
      OrderAlways(es[..|es| - 1]);
      Always(es[..|es| - 1]);
      forall j: nat | j < |Next(s, e).actors|
        ensures From(Next(s, e).exits, Next(s, e).actors[j].pid) == ReachedIn(Next(s, e).actors[j].phase)
      {
        OrderAt(s, e, j);
      }
      forall p: Pid | From(Next(s, e).exits, p) != []
        ensures exists i :: 0 <= i < |Next(s, e).actors| && Next(s, e).actors[i].pid == p
      {
        SendersAreActors(s, e, p);
      }
    }
  }

  lemma {:induction false} AllReached(peers: seq<Pid>, told: seq<bool>)
    requires |told| <= |peers| && forall k :: 0 <= k < |told| ==> told[k]
    ensures Reached(peers, told) == peers[..|told|]
  {
    if told != [] {
      AllReached(peers, told[..|told| - 1]);
    }
  }

  lemma AllToldReached(s: State, i: nat, row: seq<Pid>)
    requires i < |s.actors| && s.actors[i].phase.Gone? && s.actors[i].phase.peers == row
    requires Lengths(s.actors[i].phase) && forall q <- row :: AllTold(s, i, q)
    ensures ReachedIn(s.actors[i].phase) == row
  {
    var told := s.actors[i].phase.told;
    forall k | 0 <= k < |told| ensures told[k] {
      assert AllTold(s, i, row[k]);
    }
    AllReached(row, told);
  }

  /** What an exiting actor has told when it is gone, if its peers kept their mailboxes. */
  lemma ToldItsRow(es: seq<Event>, more: seq<Event>, i: nat, row: seq<Pid>)
    requires i < |Exec(START, es).actors| && !Tells(Exec(START, es).actors[i].phase)
    requires forall q <- row :: KeepsMailbox(es, more, q)
    requires var s := Exec(START, es + more);
      i < |s.actors| && s.actors[i].phase.Gone? && s.actors[i].phase.peers == row
    ensures var s := Exec(START, es + more); From(s.exits, s.actors[i].pid) == row
  {
    var s := Exec(START, es + more);
    forall q | q in row ensures AllTold(s, i, q) {
      AllToldStays(es, more, i, q);
    }
    assert Lengths(s.actors[i].phase) by {
      ExitsAlways(es + more);
    }
    AllToldReached(s, i, row);
    OrderAlways(es + more);
  }

  lemma TakesItsRow(es: seq<Event>, i: nat, more: seq<Event>)
    requires Ready(Exec(START, es), TakeLinks(i))
    ensures var s, s' := Exec(START, es), Exec(START, es + ([TakeLinks(i)] + more));
      && i < |s'.actors| && s'.actors[i].pid == s.actors[i].pid && Tells(s'.actors[i].phase)
      && s'.actors[i].phase.peers == Row(s.links, s.actors[i].pid)
  {
    var s, take := Exec(START, es), es + [TakeLinks(i)];
    assert take[..|es|] == es;
    assert Exec(START, take) == Next(s, TakeLinks(i));
    assert es + ([TakeLinks(i)] + more) == take + more;
    PeersStay(take, more, i, Row(s.links, s.actors[i].pid));
  }

  /** An exiting actor takes its links after `es`. If the peers keep their mailboxes until it is
      gone, the receivers of its Exit messages are the peers of the links standing then, in the
      order in which those were made. */
  lemma {:induction false} ExitsInOrder(es: seq<Event>, i: nat, more: seq<Event>) returns (at: seq<nat>)
    requires Ready(Exec(START, es), TakeLinks(i))
    requires forall q <- Row(Exec(START, es).links, Exec(START, es).actors[i].pid) ::
      KeepsMailbox(es, [TakeLinks(i)] + more, q)
    requires PhaseOf(Exec(START, es + ([TakeLinks(i)] + more)), i).Gone?
    ensures var p := Exec(START, es).actors[i].pid;
      Chronicle(es, p, From(Exec(START, es + ([TakeLinks(i)] + more)).exits, p), at)
  {
    var p := Exec(START, es).actors[i].pid;
    at := RecordedInOrder(es, p);
    TakesItsRow(es, i, more);
    ToldItsRow(es, [TakeLinks(i)] + more, i, Row(Exec(START, es).links, p));
  }
}
