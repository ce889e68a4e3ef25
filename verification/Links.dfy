// The bidirectional link table of the supervisor: a map from each pid to the
// list of peers recorded for it, with repetitions (a multigraph).
module Links {
  import opened Pids

  type LinkMap = map<Pid, seq<Pid>>

  /** `Vec::retain(|p| p != gone)`. */
  function Retain(s: seq<Pid>, gone: Pid): (r: seq<Pid>)
    ensures multiset(r) == multiset(s)[gone := 0]
  {
    if s == [] then []
    else
      assert s == [s[0]] + s[1..];
      (if s[0] == gone then [] else [s[0]]) + Retain(s[1..], gone)
  }

  // The single-key operations, each atomic in the concurrent map.

  function Push(l: LinkMap, a: Pid, b: Pid): LinkMap {
    l[a := (if a in l then l[a] else []) + [b]]
  }

  function RetainAt(l: LinkMap, a: Pid, gone: Pid): LinkMap {
    if a in l then l[a := Retain(l[a], gone)] else l
  }

  // The whole operations, as their single-key steps in a row.

  function Link(l: LinkMap, a: Pid, b: Pid): LinkMap {
    Push(Push(l, a, b), b, a)
  }

  function Unlink(l: LinkMap, a: Pid, b: Pid): LinkMap {
    RetainAt(RetainAt(l, a, b), b, a)
  }

  function Clean(l: LinkMap, peers: seq<Pid>, pid: Pid): LinkMap
    decreases |peers|
  {
    if peers == [] then l else Clean(RetainAt(l, peers[0], pid), peers[1..], pid)
  }

  /** What `linked_pids`, `cleanup_links_internal` and a restart task do to the table. */
  function Cleanup(l: LinkMap, pid: Pid): LinkMap {
    if pid in l then Clean(l - {pid}, l[pid], pid) else l
  }

  /** How many times `b` is recorded in the list of `a`. */
  function Mult(l: LinkMap, a: Pid, b: Pid): nat {
    if a in l then multiset(l[a])[b] else 0
  }

  ghost predicate Symmetric(l: LinkMap) {
    forall a: Pid, b: Pid :: Mult(l, a, b) == Mult(l, b, a)
  }

  /** `pid` owns no list and is in no list. */
  ghost predicate Nowhere(l: LinkMap, pid: Pid) {
    pid !in l && forall q: Pid :: Mult(l, q, pid) == 0
  }

  lemma PushMult(l: LinkMap, a: Pid, b: Pid, x: Pid, y: Pid)
    ensures Mult(Push(l, a, b), x, y) == Mult(l, x, y) + (if x == a && y == b then 1 else 0)
  {
    if x == a && a in l {
      assert multiset(l[a] + [b]) == multiset(l[a]) + multiset{b};
    }
  }

  /** Linking adds one record in each direction and touches no other. */
  lemma LinkMult(l: LinkMap, a: Pid, b: Pid, x: Pid, y: Pid)
    ensures Mult(Link(l, a, b), x, y) ==
            Mult(l, x, y) + (if x == a && y == b then 1 else 0) + (if x == b && y == a then 1 else 0)
  {
    PushMult(l, a, b, x, y);
    PushMult(Push(l, a, b), b, a, x, y);
  }

  lemma RetainMult(l: LinkMap, a: Pid, gone: Pid, x: Pid, y: Pid)
    ensures Mult(RetainAt(l, a, gone), x, y) == if x == a && y == gone then 0 else Mult(l, x, y)
  {
  }

  /** Unlinking erases every record between the two pids and no other. */
  lemma UnlinkMult(l: LinkMap, a: Pid, b: Pid, x: Pid, y: Pid)
    ensures Mult(Unlink(l, a, b), x, y) ==
            if (x == a && y == b) || (x == b && y == a) then 0 else Mult(l, x, y)
  {
    var l' := RetainAt(l, a, b);
    assert Mult(l', x, y) == if x == a && y == b then 0 else Mult(l, x, y);
  }

  lemma {:induction false} CleanMult(l: LinkMap, peers: seq<Pid>, pid: Pid, x: Pid, y: Pid)
    ensures Mult(Clean(l, peers, pid), x, y) == (if y == pid && x in peers then 0 else Mult(l, x, y))
    ensures Clean(l, peers, pid).Keys == l.Keys
    decreases |peers|
  {
    if peers != [] {
      CleanMult(RetainAt(l, peers[0], pid), peers[1..], pid, x, y);
      assert x in peers <==> x == peers[0] || x in peers[1..];
      assert RetainAt(l, peers[0], pid).Keys == l.Keys;
    }
  }

  /** Cleanup erases exactly the rows and columns reachable through the dead pid's own list. */
  lemma CleanupMult(l: LinkMap, pid: Pid, x: Pid, y: Pid)
    ensures Mult(Cleanup(l, pid), x, y) ==
            if x == pid || (y == pid && Mult(l, pid, x) > 0) then 0 else Mult(l, x, y)
  {
    if pid in l {
      CleanMult(l - {pid}, l[pid], pid, x, y);
      assert x in l[pid] <==> x in multiset(l[pid]);
    }
  }

  /** Cleanup through the dead pid's own list removes it everywhere exactly when
      every peer that records it is recorded by it. */
  lemma CleanupExact(l: LinkMap, pid: Pid)
    ensures Nowhere(Cleanup(l, pid), pid) <==>
            forall q: Pid :: q != pid && Mult(l, q, pid) > 0 ==> Mult(l, pid, q) > 0
  {
    if pid in l {
      CleanMult(l - {pid}, l[pid], pid, pid, pid);
    }
    forall q: Pid
      ensures Mult(Cleanup(l, pid), q, pid) == 0 <==>
              (q != pid && Mult(l, q, pid) > 0 ==> Mult(l, pid, q) > 0)
    {
      CleanupMult(l, pid, q, pid);
    }
  }

  // Whole runs of atomic link operations.

  datatype LinkOp =
    | DoLink(a: Pid, b: Pid)
    | DoUnlink(a: Pid, b: Pid)
    | DoCleanup(pid: Pid)

  function Apply(l: LinkMap, op: LinkOp): LinkMap {
    match op
    case DoLink(a, b) => Link(l, a, b)
    case DoUnlink(a, b) => Unlink(l, a, b)
    case DoCleanup(pid) => Cleanup(l, pid)
  }

  function ApplyAll(l: LinkMap, ops: seq<LinkOp>): LinkMap {
    if ops == [] then l else Apply(ApplyAll(l, ops[..|ops| - 1]), ops[|ops| - 1])
  }

  lemma ApplyMult(l: LinkMap, op: LinkOp, x: Pid, y: Pid)
    requires Symmetric(l)
    ensures Mult(Apply(l, op), x, y) == Mult(Apply(l, op), y, x)
  {
    assert Mult(l, x, y) == Mult(l, y, x);
    match op
    case DoLink(a, b) =>
      PushMult(l, a, b, x, y);
      PushMult(l, a, b, y, x);
      PushMult(Push(l, a, b), b, a, x, y);
      PushMult(Push(l, a, b), b, a, y, x);
    case DoUnlink(a, b) =>
      UnlinkMult(l, a, b, x, y);
      UnlinkMult(l, a, b, y, x);
    case DoCleanup(pid) =>
      assert Mult(l, pid, x) == Mult(l, x, pid) && Mult(l, pid, y) == Mult(l, y, pid);
      CleanupMult(l, pid, x, y);
      CleanupMult(l, pid, y, x);
  }

  lemma ApplySymmetric(l: LinkMap, op: LinkOp)
    requires Symmetric(l)
    ensures Symmetric(Apply(l, op))
  {
    forall x: Pid, y: Pid
      ensures Mult(Apply(l, op), x, y) == Mult(Apply(l, op), y, x)
    {
      ApplyMult(l, op, x, y);
    }
  }

  /** Every run of link, unlink and cleanup operations keeps the table symmetric, with
      multiplicities; so a cleanup at any point leaves its pid nowhere. */
  lemma {:induction false} RunsStaySymmetric(ops: seq<LinkOp>, pid: Pid)
    ensures Symmetric(ApplyAll(map[], ops))
    ensures Nowhere(Cleanup(ApplyAll(map[], ops), pid), pid)
  {
    if ops != [] {
      RunsStaySymmetric(ops[..|ops| - 1], pid);
      ApplySymmetric(ApplyAll(map[], ops[..|ops| - 1]), ops[|ops| - 1]);
    }
    var l := ApplyAll(map[], ops);
    assert Symmetric(l);
    forall q: Pid
      ensures q != pid && Mult(l, q, pid) > 0 ==> Mult(l, pid, q) > 0
    {
      assert Mult(l, q, pid) == Mult(l, pid, q);
    }
    CleanupExact(l, pid);
  }
}
