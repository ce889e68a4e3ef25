// Links at the grain of single accesses. A link, an unlink or a cleanup takes several: one
// on the list of one end, later one on the list of the other. The table is symmetric
// whenever none is halfway, in every interleaving in which the two lists of a pair see the
// links and the erasures between them in the same order; and one access out of order shows.
module LinkInterleavings {
  import opened Pids
  import opened SupervisorSteps
  import L = Links

  // What is still to come for the entry of `y` in the list of `x`.

  /** `op` is halfway through a link and will enter `y` in the list of `x`. */
  predicate WillPush(op: Op, x: Pid, y: Pid) {
    op == PushLink(x, y, false)
  }

  /** `op` is halfway through an unlink or a cleanup and will erase `y` from the list of `x`. */
  predicate WillErase(op: Op, x: Pid, y: Pid) {
    match op
    case DropLink(a, b, back) => !back && a == x && b == y
    case CleanLinks(p, rest) => p == y && x in rest
    case TaskClean(p, rest) => p == y && x in rest
    case _ => false
  }

  /** The first access to the links of a link, an unlink or a cleanup. */
  predicate Begins(op: Op) {
    (op.PushLink? && op.andBack) || (op.DropLink? && op.andBack) || op.TakeLinks? || op.TaskUnlink?
  }

  predicate Halfway(op: Op) {
    (op.PushLink? && !op.andBack) || (op.DropLink? && !op.andBack) || op.CleanLinks? || op.TaskClean?
  }

  /** A world, with the order in which its link operations began: `rank` by operation. */
  datatype Track = Track(w: World, rank: map<nat, nat>, clock: nat)

  const START := Track(World(EMPTY, []), map[], 0)

  function Follow(t: Track, l: Label): Track {
    if l.Run? && Ready(t.w, l) && Begins(t.w.ops[l.i]) then Track(Step(t.w, l), t.rank[l.i := t.clock], t.clock + 1)
    else t.(w := Step(t.w, l))
  }

  function FollowAll(t: Track, run: seq<Label>): Track {
    if run == [] then t else Follow(FollowAll(t, run[..|run| - 1]), run[|run| - 1])
  }

  function Rank(t: Track, i: nat): nat {
    if i in t.rank then t.rank[i] else 0
  }

  ghost predicate Ranked(t: Track) {
    forall i :: 0 <= i < |t.w.ops| && Halfway(t.w.ops[i]) ==> Rank(t, i) < t.clock
  }

  ghost predicate Erases(t: Track, x: Pid, y: Pid) {
    exists i :: 0 <= i < |t.w.ops| && WillErase(t.w.ops[i], x, y)
  }

  /** Operation `i` will enter `y` in the list of `x`, and began after every erasure to come. */
  ghost predicate Lasts(t: Track, i: nat, x: Pid, y: Pid) {
    && i < |t.w.ops| && WillPush(t.w.ops[i], x, y)
    && forall j: nat :: j < |t.w.ops| && WillErase(t.w.ops[j], x, y) ==> Rank(t, j) < Rank(t, i)
  }

  ghost function Lasting(t: Track, x: Pid, y: Pid): set<nat> {
    set i: nat | i < |t.w.ops| && Lasts(t, i, x, y)
  }

  /** How often `y` will be in the list of `x` once what is halfway is done in order. */
  ghost function Due(t: Track, x: Pid, y: Pid): nat {
    |Lasting(t, x, y)| + (if Erases(t, x, y) then 0 else L.Mult(t.w.sup.links, x, y))
  }

  ghost predicate Balanced(t: Track) {
    forall x: Pid, y: Pid :: Due(t, x, y) == Due(t, y, x)
  }

  // Order.

  /** Operation `k` would enter `y` for good, were it not for operation `i`. */
  ghost predicate LastsBut(t: Track, i: nat, k: nat, x: Pid, y: Pid) {
    && k < |t.w.ops| && k != i && WillPush(t.w.ops[k], x, y)
    && forall j: nat :: j < |t.w.ops| && j != i && WillErase(t.w.ops[j], x, y) ==> Rank(t, j) < Rank(t, k)
  }

  /** An erasure by operation `i` would come before a link that began before it, and that no
      other erasure to come takes back. */
  ghost predicate Overtakes(t: Track, i: nat, x: Pid, y: Pid) {
    exists k: nat :: LastsBut(t, i, k, x, y) && Rank(t, k) <= Rank(t, i)
  }

  /** The next access of operation `i` comes out of order on the list of `x`, as to `y`. */
  ghost predicate Off(t: Track, i: nat, x: Pid, y: Pid)
    requires i < |t.w.ops|
  {
    match t.w.ops[i]
    case PushLink(a, b, back) =>
      a == x && b == y && Erases(t, x, y) && (back || Lasts(t, i, x, y))
    case DropLink(a, b, back) =>
      a == x && b == y && if back then Lasting(t, x, y) != {} else Overtakes(t, i, x, y)
    case TakeLinks(p) => p == x && L.Mult(t.w.sup.links, x, y) > 0 && Lasting(t, x, y) != {}
    case TaskUnlink(p) => p == x && L.Mult(t.w.sup.links, x, y) > 0 && Lasting(t, x, y) != {}
    case CleanLinks(p, rest) =>
      rest != [] && rest[0] == x && p == y && x !in rest[1..] && Overtakes(t, i, x, y)
    case TaskClean(p, rest) =>
      rest != [] && rest[0] == x && p == y && x !in rest[1..] && Overtakes(t, i, x, y)
    case _ => false
  }

  ghost predicate Misorders(t: Track, l: Label) {
    l.Run? && Ready(t.w, l) && exists x: Pid, y: Pid :: x != y && Off(t, l.i, x, y)
  }

  // One access.

  /** The entries after one access. */
  function Entries(s: Sup, op: Op, x: Pid, y: Pid): nat {
    var m := L.Mult(s.links, x, y);
    match op
    case PushLink(a, b, _) => if x == a && y == b then m + 1 else m
    case DropLink(a, b, _) => if x == a && y == b then 0 else m
    case TakeLinks(p) => if x == p then 0 else m
    case TaskUnlink(p) => if x == p then 0 else m
    case CleanLinks(p, rest) => if rest != [] && x == rest[0] && y == p then 0 else m
    case TaskClean(p, rest) => if rest != [] && x == rest[0] && y == p then 0 else m
    case _ => m
  }

  lemma EntriesExactly(s: Sup, op: Op, c: Choice, x: Pid, y: Pid)
    requires Enabled(s, op, c)
    ensures L.Mult(Next(s, op, c).sup.links, x, y) == Entries(s, op, x, y)
  {
    match op
    case PushLink(a, b, _) => L.PushMult(s.links, a, b, x, y);
    case DropLink(a, b, _) => L.RetainMult(s.links, a, b, x, y);
    case CleanLinks(p, rest) => if rest != [] { L.RetainMult(s.links, rest[0], p, x, y); }
    case TaskClean(p, rest) => if rest != [] { L.RetainMult(s.links, rest[0], p, x, y); }
    case _ =>
  }

  lemma SpawnsNoLinks(s: Sup, op: Op, c: Choice, x: Pid, y: Pid)
    requires Enabled(s, op, c)
    ensures var r := Next(s, op, c); |r.spawned| <= 1 && forall o <- r.spawned :: !o.PushLink? && !WillErase(o, x, y)
  {
  }

  /** `t'` is `t` after operation `i`, which was `op`, went on as `op'`. */
  ghost predicate Moved(t: Track, t': Track, i: nat, op: Op, op': Op) {
    && i < |t.w.ops| && t.w.ops[i] == op
    && |t.w.ops| <= |t'.w.ops| && t'.w.ops[i] == op'
    && (forall k: nat :: k < |t.w.ops| && k != i ==> t'.w.ops[k] == t.w.ops[k] && Rank(t', k) == Rank(t, k))
    && (forall k: nat :: |t.w.ops| <= k < |t'.w.ops| ==> !Halfway(t'.w.ops[k]))
    && Rank(t', i) == if Begins(op) then t.clock else Rank(t, i)
  }

  lemma FollowMoves(t: Track, i: nat, c: Choice)
    requires Ready(t.w, Run(i, c))
    ensures Moved(t, Follow(t, Run(i, c)), i, t.w.ops[i], Next(t.w.sup, t.w.ops[i], c).op)
  {
    SpawnsNoLinks(t.w.sup, t.w.ops[i], c, 0, 0);
  }

  /** Whether the access concerns the entry at all. */
  predicate Idle(op: Op, x: Pid, y: Pid) {
    !WillPush(op, x, y) && !WillErase(op, x, y)
  }

  lemma ErasesMoved(t: Track, t': Track, i: nat, op: Op, op': Op, x: Pid, y: Pid)
    requires Moved(t, t', i, op, op')
    ensures WillErase(op', x, y) ==> Erases(t', x, y)
    ensures WillErase(op, x, y) == WillErase(op', x, y) ==> (Erases(t', x, y) <==> Erases(t, x, y))
  {
    if Erases(t, x, y) {
      var j :| 0 <= j < |t.w.ops| && WillErase(t.w.ops[j], x, y);
      assert j != i ==> WillErase(t'.w.ops[j], x, y);
    }
    if Erases(t', x, y) {
      var j :| 0 <= j < |t'.w.ops| && WillErase(t'.w.ops[j], x, y);
      assert Halfway(t'.w.ops[j]);
      assert j != i ==> WillErase(t.w.ops[j], x, y);
    }
  }

  /** An access that is neither a push to come nor an erasure to come for this entry. */
  lemma IdleLasting(t: Track, t': Track, i: nat, op: Op, op': Op, x: Pid, y: Pid)
    requires Moved(t, t', i, op, op') && Idle(op, x, y) && Idle(op', x, y)
    ensures Lasting(t', x, y) == Lasting(t, x, y)
  {
    forall k: nat ensures Lasts(t', k, x, y) <==> Lasts(t, k, x, y) {
      LastsElsewhere(t, t', i, op, op', x, y, k);
    }
  }

  lemma LastsElsewhere(t: Track, t': Track, i: nat, op: Op, op': Op, x: Pid, y: Pid, k: nat)
    requires Moved(t, t', i, op, op') && WillErase(op, x, y) == WillErase(op', x, y)
    requires WillErase(op, x, y) ==> !Begins(op)
    requires k != i || (!WillPush(op, x, y) && !WillPush(op', x, y))
    ensures Lasts(t', k, x, y) <==> Lasts(t, k, x, y)
  {
    if k < |t'.w.ops| && WillPush(t'.w.ops[k], x, y) {
      assert Halfway(t'.w.ops[k]);
    }
    forall j: nat | j < |t'.w.ops| && WillErase(t'.w.ops[j], x, y) ensures j < |t.w.ops| {
      assert Halfway(t'.w.ops[j]);
    }
  }

  /** An erasure to come that stays to come. */
  lemma StillErasing(t: Track, t': Track, i: nat, op: Op, op': Op, x: Pid, y: Pid)
    requires Moved(t, t', i, op, op') && WillErase(op, x, y) && WillErase(op', x, y)
    ensures Lasting(t', x, y) == Lasting(t, x, y) && Erases(t, x, y) && Erases(t', x, y)
  {
    ErasesMoved(t, t', i, op, op', x, y);
    forall k: nat ensures Lasts(t', k, x, y) <==> Lasts(t, k, x, y) {
      LastsElsewhere(t, t', i, op, op', x, y, k);
    }
  }

  /** A link begins: its other half will last. */
  lemma PushComes(t: Track, t': Track, i: nat, op: Op, op': Op, x: Pid, y: Pid)
    requires Ranked(t) && Moved(t, t', i, op, op') && Begins(op) && Idle(op, x, y) && WillPush(op', x, y)
    ensures Lasting(t', x, y) == Lasting(t, x, y) + {i} && i !in Lasting(t, x, y)
  {
    forall k: nat ensures Lasts(t', k, x, y) <==> Lasts(t, k, x, y) || k == i {
      if k != i {
        LastsElsewhere(t, t', i, op, op', x, y, k);
      } else {
        forall j: nat | j < |t'.w.ops| && WillErase(t'.w.ops[j], x, y) ensures Rank(t', j) < Rank(t', i) {
          assert Halfway(t'.w.ops[j]);
        }
      }
    }
  }

  /** A link ends. */
  lemma PushDone(t: Track, t': Track, i: nat, op: Op, op': Op, x: Pid, y: Pid)
    requires Moved(t, t', i, op, op') && WillPush(op, x, y) && Idle(op', x, y)
    ensures Lasting(t', x, y) == Lasting(t, x, y) - {i}
    ensures i in Lasting(t, x, y) <==> Lasts(t, i, x, y)
    ensures !Lasts(t, i, x, y) ==> Erases(t, x, y)
  {
    forall k: nat ensures Lasts(t', k, x, y) <==> Lasts(t, k, x, y) && k != i {
      if k != i {
        LastsElsewhere(t, t', i, op, op', x, y, k);
      }
    }
  }

  /** An unlink or a cleanup begins: nothing lasts on the other side. */
  lemma ErasureComes(t: Track, t': Track, i: nat, op: Op, op': Op, x: Pid, y: Pid)
    requires Ranked(t) && Moved(t, t', i, op, op') && Begins(op) && WillErase(op', x, y)
    ensures Lasting(t', x, y) == {} && Erases(t', x, y)
  {
    ErasesMoved(t, t', i, op, op', x, y);
    forall k: nat | k < |t'.w.ops| && WillPush(t'.w.ops[k], x, y) ensures !Lasts(t', k, x, y) {
      assert Halfway(t'.w.ops[k]) && k != i;
      assert Rank(t', i) == t.clock > Rank(t', k);
    }
  }

  /** The last erasure of an operation is done: more lasts exactly if it came out of order. */
  lemma ErasureDone(t: Track, t': Track, i: nat, op: Op, op': Op, x: Pid, y: Pid)
    requires Moved(t, t', i, op, op') && WillErase(op, x, y) && Idle(op', x, y)
    ensures Lasting(t, x, y) <= Lasting(t', x, y) && Erases(t, x, y)
    ensures Lasting(t', x, y) == Lasting(t, x, y) <==> !Overtakes(t, i, x, y)
  {
    forall k: nat
      ensures Lasts(t', k, x, y) <==> LastsBut(t, i, k, x, y)
      ensures Lasts(t, k, x, y) <==> LastsBut(t, i, k, x, y) && Rank(t, i) < Rank(t, k)
    {
      LastsWithout(t, t', i, op, op', x, y, k);
    }
    if Overtakes(t, i, x, y) {
      var k: nat :| LastsBut(t, i, k, x, y) && Rank(t, k) <= Rank(t, i);
      assert k in Lasting(t', x, y) && k !in Lasting(t, x, y);
    }
  }

  lemma LastsWithout(t: Track, t': Track, i: nat, op: Op, op': Op, x: Pid, y: Pid, k: nat)
    requires Moved(t, t', i, op, op') && WillErase(op, x, y) && Idle(op', x, y)
    ensures Lasts(t', k, x, y) <==> LastsBut(t, i, k, x, y)
    ensures Lasts(t, k, x, y) <==> LastsBut(t, i, k, x, y) && Rank(t, i) < Rank(t, k)
  {
    if k < |t'.w.ops| && WillPush(t'.w.ops[k], x, y) {
      assert Halfway(t'.w.ops[k]);
    }
    forall j: nat | j < |t'.w.ops| && WillErase(t'.w.ops[j], x, y) ensures j < |t.w.ops| {
      assert Halfway(t'.w.ops[j]);
    }
  }

  // What is due after one access.

  predicate Pair(a: Pid, b: Pid, x: Pid, y: Pid) {
    (a == x && b == y) || (a == y && b == x)
  }

  /** What both directions of the pair are due after an access of `op` in order. */
  ghost function Target(t: Track, op: Op, x: Pid, y: Pid): nat {
    var links := t.w.sup.links;
    match op
    case PushLink(a, b, back) => if back && Pair(a, b, x, y) then Due(t, x, y) + 1 else Due(t, x, y)
    case DropLink(a, b, back) => if back && Pair(a, b, x, y) then 0 else Due(t, x, y)
    case TakeLinks(p) =>
      if (x == p && L.Mult(links, p, y) > 0) || (y == p && L.Mult(links, p, x) > 0) then 0 else Due(t, x, y)
    case TaskUnlink(p) =>
      if (x == p && L.Mult(links, p, y) > 0) || (y == p && L.Mult(links, p, x) > 0) then 0 else Due(t, x, y)
    case _ => Due(t, x, y)
  }

  /** `t'` is `t` after an access of `op`, operation `i`, seen from one entry. */
  ghost predicate Accessed(t: Track, t': Track, i: nat, op: Op, op': Op, x: Pid, y: Pid) {
    && x != y && Ranked(t) && Moved(t, t', i, op, op')
    && L.Mult(t'.w.sup.links, x, y) == Entries(t.w.sup, op, x, y)
  }

  lemma PushDue(t: Track, t': Track, i: nat, op: Op, op': Op, x: Pid, y: Pid)
    requires Accessed(t, t', i, op, op', x, y) && op.PushLink? && op' == Next(t.w.sup, op, Go).op
    ensures Due(t', x, y) == Target(t, op, x, y) <==> !Off(t, i, x, y)
  {
    ErasesMoved(t, t', i, op, op', x, y);
    if op.a == x && op.b == y && !op.andBack {
      PushDone(t, t', i, op, op', x, y);
    } else if op.a == y && op.b == x && op.andBack {
      PushComes(t, t', i, op, op', x, y);
    } else {
      IdleLasting(t, t', i, op, op', x, y);
    }
  }

  lemma DropDue(t: Track, t': Track, i: nat, op: Op, op': Op, x: Pid, y: Pid)
    requires Accessed(t, t', i, op, op', x, y) && op.DropLink? && op' == Next(t.w.sup, op, Go).op
    ensures Due(t', x, y) == Target(t, op, x, y) <==> !Off(t, i, x, y)
  {
    ErasesMoved(t, t', i, op, op', x, y);
    if op.a == x && op.b == y && !op.andBack {
      ErasureDone(t, t', i, op, op', x, y);
      MoreIsMore(Lasting(t, x, y), Lasting(t', x, y));
    } else if op.a == y && op.b == x && op.andBack {
      ErasureComes(t, t', i, op, op', x, y);
    } else {
      IdleLasting(t, t', i, op, op', x, y);
    }
  }

  lemma MoreIsMore(a: set<nat>, b: set<nat>)
    requires a <= b
    ensures |a| == |b| <==> a == b
  {
    assert b == a + (b - a);
  }

  lemma Listed(l: L.LinkMap, p: Pid, x: Pid)
    ensures p in l && x in l[p] <==> L.Mult(l, p, x) > 0
  {
  }

  lemma TakeDue(t: Track, t': Track, i: nat, op: Op, op': Op, p: Pid, x: Pid, y: Pid)
    requires Accessed(t, t', i, op, op', x, y) && (op == TakeLinks(p) || op == TaskUnlink(p))
    requires op' == Next(t.w.sup, op, Go).op
    ensures Due(t', x, y) == Target(t, op, x, y) <==> !Off(t, i, x, y)
  {
    ErasesMoved(t, t', i, op, op', x, y);
    Listed(t.w.sup.links, p, x);
    if y == p && L.Mult(t.w.sup.links, p, x) > 0 {
      ErasureComes(t, t', i, op, op', x, y);
    } else {
      IdleLasting(t, t', i, op, op', x, y);
    }
  }

  lemma CleanDue(t: Track, t': Track, i: nat, op: Op, op': Op, p: Pid, rest: seq<Pid>, x: Pid, y: Pid)
    requires Accessed(t, t', i, op, op', x, y) && (op == CleanLinks(p, rest) || op == TaskClean(p, rest))
    requires op' == Next(t.w.sup, op, Go).op
    ensures Due(t', x, y) == Target(t, op, x, y) <==> !Off(t, i, x, y)
  {
    ErasesMoved(t, t', i, op, op', x, y);
    assert rest != [] ==> rest == [rest[0]] + rest[1..];
    if y == p && x in rest {
      if x in rest[1..] {
        StillErasing(t, t', i, op, op', x, y);
      } else {
        ErasureDone(t, t', i, op, op', x, y);
        MoreIsMore(Lasting(t, x, y), Lasting(t', x, y));
      }
    } else {
      IdleLasting(t, t', i, op, op', x, y);
    }
  }

  lemma OtherDue(t: Track, t': Track, i: nat, op: Op, op': Op, c: Choice, x: Pid, y: Pid)
    requires !op.PushLink? && !op.DropLink? && !op.TakeLinks? && !op.TaskUnlink? && !op.CleanLinks? && !op.TaskClean?
    requires Accessed(t, t', i, op, op', x, y) && Enabled(t.w.sup, op, c) && op' == Next(t.w.sup, op, c).op
    ensures Due(t', x, y) == Target(t, op, x, y) && !Off(t, i, x, y)
  {
    ErasesMoved(t, t', i, op, op', x, y);
    IdleLasting(t, t', i, op, op', x, y);
  }

  /** An access leads to what is due if and only if it is in order for the entry. */
  lemma DueStep(t: Track, i: nat, c: Choice, x: Pid, y: Pid)
    requires Ranked(t) && Ready(t.w, Run(i, c)) && x != y
    ensures Due(Follow(t, Run(i, c)), x, y) == Target(t, t.w.ops[i], x, y) <==> !Off(t, i, x, y)
  {
    var t', op := Follow(t, Run(i, c)), t.w.ops[i];
    var op' := Next(t.w.sup, op, c).op;
    FollowMoves(t, i, c);
    EntriesExactly(t.w.sup, op, c, x, y);
    match op
    case PushLink(_, _, _) => PushDue(t, t', i, op, op', x, y);
    case DropLink(_, _, _) => DropDue(t, t', i, op, op', x, y);
    case TakeLinks(p) => TakeDue(t, t', i, op, op', p, x, y);
    case TaskUnlink(p) => TakeDue(t, t', i, op, op', p, x, y);
    case CleanLinks(p, rest) => CleanDue(t, t', i, op, op', p, rest, x, y);
    case TaskClean(p, rest) => CleanDue(t, t', i, op, op', p, rest, x, y);
    case _ => OtherDue(t, t', i, op, op', c, x, y);
  }

  lemma TargetsAgree(t: Track, op: Op, x: Pid, y: Pid)
    requires Balanced(t)
    ensures Target(t, op, x, y) == Target(t, op, y, x)
  {
    assert Due(t, x, y) == Due(t, y, x);
  }

  /** At most one direction of a pair can be out of order. */
  lemma OffOnce(t: Track, i: nat, x: Pid, y: Pid)
    requires i < |t.w.ops| && x != y && Off(t, i, x, y)
    ensures !Off(t, i, y, x)
  {
  }

  lemma RankedStays(t: Track, l: Label)
    requires Ranked(t)
    ensures Ranked(Follow(t, l))
  {
    var t' := Follow(t, l);
    if Ready(t.w, l) {
      match l
      case Call(op) =>
      case Run(i, c) =>
        FollowMoves(t, i, c);
        HalfwayAfter(t.w.sup, t.w.ops[i], c);
    }
  }

  lemma HalfwayAfter(s: Sup, op: Op, c: Choice)
    requires Enabled(s, op, c)
    ensures Halfway(Next(s, op, c).op) ==> Begins(op) || Halfway(op)
  {
  }

  lemma CallDue(t: Track, op: Op, x: Pid, y: Pid)
    requires IsEntry(op)
    ensures Due(Follow(t, Call(op)), x, y) == Due(t, x, y)
  {
    var t' := Follow(t, Call(op));
    assert t'.w.ops == t.w.ops + [op];
    assert !WillPush(op, x, y) && !WillErase(op, x, y);
    assert Erases(t', x, y) <==> Erases(t, x, y) by {
      if Erases(t, x, y) {
        var j :| 0 <= j < |t.w.ops| && WillErase(t.w.ops[j], x, y);
        assert WillErase(t'.w.ops[j], x, y);
      }
    }
    forall k: nat ensures Lasts(t', k, x, y) <==> Lasts(t, k, x, y) {
      if Lasts(t', k, x, y) {
        forall j: nat | j < |t.w.ops| && WillErase(t.w.ops[j], x, y) ensures Rank(t, j) < Rank(t, k) {
          assert t'.w.ops[j] == t.w.ops[j];
        }
      }
    }
    assert Lasting(t', x, y) == Lasting(t, x, y);
  }

  /** An access keeps both directions of every pair due to agree if and only if it is in
      order. */
  lemma StepKeepsBalanceExactly(t: Track, l: Label)
    requires Ranked(t) && Balanced(t)
    ensures Balanced(Follow(t, l)) <==> !Misorders(t, l)
  {
    var t' := Follow(t, l);
    if Ready(t.w, l) {
      match l
      case Call(op) =>
        forall x: Pid, y: Pid ensures Due(t', x, y) == Due(t', y, x) {
          assert Due(t, x, y) == Due(t, y, x);
          CallDue(t, op, x, y);
          CallDue(t, op, y, x);
        }
      case Run(i, c) =>
        if Misorders(t, l) {
          var x: Pid, y: Pid :| x != y && Off(t, i, x, y);
          MisorderUnbalances(t, i, c, x, y);
        } else {
          forall x: Pid, y: Pid ensures Due(t', x, y) == Due(t', y, x) {
            if x != y {
              DueStep(t, i, c, x, y);
              DueStep(t, i, c, y, x);
              TargetsAgree(t, t.w.ops[i], x, y);
            }
          }
        }
    }
  }

  lemma MisorderUnbalances(t: Track, i: nat, c: Choice, x: Pid, y: Pid)
    requires Ranked(t) && Balanced(t) && Ready(t.w, Run(i, c)) && x != y && Off(t, i, x, y)
    ensures Due(Follow(t, Run(i, c)), x, y) != Due(Follow(t, Run(i, c)), y, x)
  {
    DueStep(t, i, c, x, y);
    DueStep(t, i, c, y, x);
    OffOnce(t, i, x, y);
    TargetsAgree(t, t.w.ops[i], x, y);
  }

  // Runs.

  ghost predicate InOrder(t: Track, run: seq<Label>) {
    run != [] ==> InOrder(t, run[..|run| - 1]) && !Misorders(FollowAll(t, run[..|run| - 1]), run[|run| - 1])
  }

  lemma {:induction false} FollowsExec(run: seq<Label>)
    ensures FollowAll(START, run).w == Exec(World(EMPTY, []), run) && Ranked(FollowAll(START, run))
  {
    if run != [] {
      FollowsExec(run[..|run| - 1]);
      RankedStays(FollowAll(START, run[..|run| - 1]), run[|run| - 1]);
    }
  }

  lemma StartBalanced()
    ensures Balanced(START)
  {
    forall x: Pid, y: Pid ensures Due(START, x, y) == Due(START, y, x) {
      assert Lasting(START, x, y) == {} && Lasting(START, y, x) == {};
    }
  }

  lemma {:induction false} InOrderBalanced(run: seq<Label>)
    requires InOrder(START, run)
    ensures Balanced(FollowAll(START, run))
  {
    if run == [] {
      StartBalanced();
    } else {
      InOrderBalanced(run[..|run| - 1]);
      FollowsExec(run[..|run| - 1]);
      StepKeepsBalanceExactly(FollowAll(START, run[..|run| - 1]), run[|run| - 1]);
    }
  }

  /** No link, unlink or cleanup is halfway. */
  ghost predicate LinksAtRest(w: World) {
    forall i :: 0 <= i < |w.ops| ==> !Halfway(w.ops[i])
  }

  lemma DueAtRest(t: Track, x: Pid, y: Pid)
    requires LinksAtRest(t.w)
    ensures Due(t, x, y) == L.Mult(t.w.sup.links, x, y)
  {
    assert forall i :: 0 <= i < |t.w.ops| ==> !Halfway(t.w.ops[i]);
    assert !Erases(t, x, y);
    assert Lasting(t, x, y) == {};
  }

  /** In every interleaving of single accesses in which the two lists of each pair see its
      links and erasures in the same order: whenever no link operation is halfway the links
      are a symmetric multigraph. Then a pid that records nobody is recorded by nobody, and
      a cleanup leaves its pid nowhere. */
  lemma {:induction false} SymmetricAtRest(run: seq<Label>, p: Pid)
    requires InOrder(START, run) && LinksAtRest(Exec(World(EMPTY, []), run))
    ensures var links := Exec(World(EMPTY, []), run).sup.links;
      && L.Symmetric(links)
      && (p !in links ==> L.Nowhere(links, p))
      && L.Nowhere(L.Cleanup(links, p), p)
  {
    var t := FollowAll(START, run);
    FollowsExec(run);
    InOrderBalanced(run);
    forall x: Pid, y: Pid ensures L.Mult(t.w.sup.links, x, y) == L.Mult(t.w.sup.links, y, x) {
      DueAtRest(t, x, y);
      DueAtRest(t, y, x);
      assert Due(t, x, y) == Due(t, y, x);
    }
    assert forall q: Pid :: L.Mult(t.w.sup.links, q, p) == L.Mult(t.w.sup.links, p, q);
    L.CleanupExact(t.w.sup.links, p);
  }

  // The converse: one access out of order shows.

  /** The run finishes what is halfway, in order, and begins nothing. */
  ghost predicate Finishes(t: Track, run: seq<Label>) {
    run != [] ==>
      var t', l := FollowAll(t, run[..|run| - 1]), run[|run| - 1];
      && Finishes(t, run[..|run| - 1]) && !Misorders(t', l)
      && !(l.Run? && Ready(t'.w, l) && Begins(t'.w.ops[l.i]))
  }

  lemma {:induction false} FinishKeepsDue(t: Track, run: seq<Label>, x: Pid, y: Pid)
    requires Ranked(t) && Finishes(t, run) && x != y
    ensures Due(FollowAll(t, run), x, y) == Due(t, x, y) && Ranked(FollowAll(t, run))
  {
    if run != [] {
      var t', l := FollowAll(t, run[..|run| - 1]), run[|run| - 1];
      FinishKeepsDue(t, run[..|run| - 1], x, y);
      RankedStays(t', l);
      if Ready(t'.w, l) {
        match l
        case Call(op) => CallDue(t', op, x, y);
        case Run(i, c) => DueStep(t', i, c, x, y);
      }
    }
  }

  /** A run in order, then one access out of order, then what is halfway finished in order:
      at rest the links are not symmetric. */
  lemma {:induction false} MisorderShows(run: seq<Label>, l: Label, more: seq<Label>)
    requires InOrder(START, run) && Misorders(FollowAll(START, run), l)
    requires Finishes(Follow(FollowAll(START, run), l), more)
    requires LinksAtRest(FollowAll(Follow(FollowAll(START, run), l), more).w)
    ensures !L.Symmetric(FollowAll(Follow(FollowAll(START, run), l), more).w.sup.links)
  {
    var t := FollowAll(START, run);
    FollowsExec(run);
    InOrderBalanced(run);
    var x: Pid, y: Pid :| x != y && Off(t, l.i, x, y);
    MisorderUnbalances(t, l.i, l.c, x, y);
    RankedStays(t, l);
    var t' := FollowAll(Follow(t, l), more);
    FinishKeepsDue(Follow(t, l), more, x, y);
    FinishKeepsDue(Follow(t, l), more, y, x);
    DueAtRest(t', x, y);
    DueAtRest(t', y, x);
  }
}
