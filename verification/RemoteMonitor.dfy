// src/network.rs: the failure detector. It probes a remote node, backs off while probes
// fail, and reports the node once. Delays are real numbers of seconds.
module RemoteMonitor {
  import opened Mailbox
  import opened Wire
  import C = Connection

  datatype Config = Config(base: real, factor: real, max: real, threshold: nat)

  /** A probe that could not connect or write, or the bytes that came back in time. */
  datatype Probe = Unreachable | Replied(bytes: Bytes)

  /** One turn of the loop: whether the local pid is alive, and if so how the probe went. */
  datatype Turn = Turn(alive: bool, probe: Probe)

  /** The first byte read must be 3. */
  predicate IsUp(t: Turn) {
    t.probe.Replied? && t.probe.bytes != [] && t.probe.bytes[0] == 3
  }

  /** A probe writes the bytes 1 and 2. A node that serves them is up if and only if its reply
      can be written. */
  lemma ServingNodeIsUp(lim: nat -> Limits, reg: nat -> C.Registry, ok: nat -> bool)
    ensures IsUp(Turn(true, Replied(C.Replies(C.Served([1, 2], lim, reg, ok))))) <==> ok(0)
  {
    C.PingPong(lim, reg, ok);
    var effects := [C.Reply([3])];
    assert effects[..0] == [];
    assert C.Replies(effects) == C.Replies([]) + [3];
  }

  /** Failed probes in a row just before turn `i`. */
  function FailRun(ts: seq<Turn>, i: nat): nat
    requires i <= |ts|
  {
    if i == 0 || IsUp(ts[i - 1]) then 0 else 1 + FailRun(ts, i - 1)
  }

  /** A threshold of 0 acts as 1. */
  function Needed(cfg: Config): nat {
    if cfg.threshold == 0 then 1 else cfg.threshold
  }

  /** The run of failures before turn `i` has at least `n` members exactly when the last
      `n` probes before it all failed. */
  lemma {:induction false} FailRunExactly(ts: seq<Turn>, i: nat, n: nat)
    requires i <= |ts|
    ensures FailRun(ts, i) >= n <==> n <= i && forall j :: i - n <= j < i ==> !IsUp(ts[j])
    decreases i
  {
    if i > 0 && n > 0 {
      FailRunExactly(ts, i - 1, n - 1);
      assert !IsUp(ts[i - 1]) && FailRun(ts, i - 1) >= n - 1 ==> forall j :: i - n <= j < i ==> !IsUp(ts[j]);
      if n <= i && forall j :: i - n <= j < i ==> !IsUp(ts[j]) {
        assert !IsUp(ts[i - 1]);
        assert forall j :: (i - 1) - (n - 1) <= j < i - 1 ==> !IsUp(ts[j]);
      }
    }
  }

  function Min(a: real, b: real): real {
    if a > b then b else a
  }

  function Times(f: real): real -> real {
    x => x * f
  }

  /** `k` steps from `x`, each cut at `m`. */
  function Capped(step: real -> real, m: real, x: real, k: nat): real {
    if k == 0 then x else Min(step(Capped(step, m, x, k - 1)), m)
  }

  /** The delay after `k` failures in a row. */
  function Delay(cfg: Config, k: nat): real {
    Capped(Times(cfg.factor), cfg.max, cfg.base, k)
  }

  /** The next delay after `k` failures, before it is capped. */
  function Raw(cfg: Config, k: nat): real {
    Times(cfg.factor)(Delay(cfg, k))
  }

  /** `Duration::from_secs_f64` panics on less than 0 and on 2^64 seconds or more; it is
      called before the cap is applied. */
  predicate Panics(next: real) {
    next < 0.0 || next >= 18446744073709551616.0
  }

  datatype Outcome = Reported(at: nat) | LocalGone(at: nat) | Crashed(at: nat) | StillWatching

  /** What turn `i` leads to. */
  function Verdict(ts: seq<Turn>, cfg: Config, i: nat): Outcome
    requires i < |ts|
  {
    if !ts[i].alive then LocalGone(i)
    else if IsUp(ts[i]) then StillWatching
    else if FailRun(ts, i + 1) >= Needed(cfg) then Reported(i)
    else if Panics(Raw(cfg, FailRun(ts, i))) then Crashed(i)
    else StillWatching
  }

  /** The turns before `i` leave the monitor watching. */
  predicate QuietBefore(ts: seq<Turn>, cfg: Config, i: nat)
    requires i <= |ts|
  {
    forall j: nat :: j < i ==> Verdict(ts, cfg, j).StillWatching?
  }

  lemma StaysQuiet(ts: seq<Turn>, cfg: Config, i: nat)
    requires i < |ts| && QuietBefore(ts, cfg, i) && Verdict(ts, cfg, i).StillWatching?
    ensures QuietBefore(ts, cfg, i + 1)
  {
  }

  lemma NextDelay(cfg: Config, k: nat, curr: real)
    requires curr == Delay(cfg, k)
    ensures Raw(cfg, k) == curr * cfg.factor && Delay(cfg, k + 1) == Min(curr * cfg.factor, cfg.max)
  {
  }

  /** The delays are those of the current run of failures. */
  predicate Waits(ts: seq<Turn>, cfg: Config, delays: seq<real>) {
    |delays| <= |ts| && forall j: nat :: j < |delays| ==> delays[j] == Delay(cfg, FailRun(ts, j))
  }

  /** The monitor ends at the first turn that ends it, as that turn says, and not before: it
      reports at most once. Before each probe it waits for the delay of the current run of
      failures. */
  method Monitor(cfg: Config, ts: seq<Turn>) returns (outcome: Outcome, delays: seq<real>)
    ensures outcome.StillWatching? ==> QuietBefore(ts, cfg, |ts|) && |delays| == |ts|
    ensures !outcome.StillWatching? ==>
      outcome.at < |ts| && QuietBefore(ts, cfg, outcome.at) && outcome == Verdict(ts, cfg, outcome.at)
    ensures !outcome.StillWatching? ==> |delays| == if outcome.LocalGone? then outcome.at else outcome.at + 1
    ensures Waits(ts, cfg, delays)
  {
    var curr, failures := cfg.base, 0;
    delays := [];
    var i := 0;
    while i < |ts|
      invariant 0 <= i <= |ts| && |delays| == i
      invariant failures == FailRun(ts, i) < Needed(cfg)
      invariant curr == Delay(cfg, failures)
      invariant QuietBefore(ts, cfg, i) && Waits(ts, cfg, delays)
    {
      if !ts[i].alive {
        return LocalGone(i), delays;
      }
      delays := delays + [curr];
      if !IsUp(ts[i]) {
        failures := failures + 1;
        if failures >= cfg.threshold {
          return Reported(i), delays;
        }
        NextDelay(cfg, failures - 1, curr);
        var next := curr * cfg.factor;
        if Panics(next) {
          return Crashed(i), delays;
        }
        curr := if next > cfg.max then cfg.max else next;
      } else {
        failures := 0;
        curr := cfg.base;
      }
      StaysQuiet(ts, cfg, i);
      i := i + 1;
    }
    outcome := StillWatching;
  }

  // When a node that is down gets reported.

  /** The pid is alive up to turn `i`, the first to complete a run of `Needed` failures. */
  predicate DownAt(ts: seq<Turn>, cfg: Config, i: nat) {
    && i < |ts|
    && (forall j :: 0 <= j <= i ==> ts[j].alive)
    && FailRun(ts, i + 1) >= Needed(cfg)
    && (forall j: nat :: 1 <= j <= i ==> FailRun(ts, j) < Needed(cfg))
  }

  predicate ReportsAt(ts: seq<Turn>, cfg: Config, i: nat) {
    i < |ts| && QuietBefore(ts, cfg, i) && Verdict(ts, cfg, i) == Reported(i)
  }

  /** No delay computed on the way to a report panics. */
  predicate Sound(cfg: Config) {
    forall k: nat :: k + 1 < Needed(cfg) ==> !Panics(Raw(cfg, k))
  }

  lemma ReportMeansDown(ts: seq<Turn>, cfg: Config, i: nat)
    requires ReportsAt(ts, cfg, i)
    ensures DownAt(ts, cfg, i)
  {
    forall j: nat | 1 <= j <= i ensures ts[j - 1].alive && FailRun(ts, j) < Needed(cfg) {
      assert Verdict(ts, cfg, j - 1).StillWatching?;
    }
    forall j: nat | j < i ensures ts[j].alive {
      assert Verdict(ts, cfg, j).StillWatching?;
    }
  }

  lemma DownIsReported(ts: seq<Turn>, cfg: Config, i: nat)
    requires Sound(cfg) && DownAt(ts, cfg, i)
    ensures ReportsAt(ts, cfg, i)
  {
    forall j: nat | j < i ensures Verdict(ts, cfg, j).StillWatching? {
      assert 1 <= j + 1 <= i && FailRun(ts, j + 1) < Needed(cfg);
      if !IsUp(ts[j]) {
        assert FailRun(ts, j + 1) == FailRun(ts, j) + 1;
      }
    }
    assert FailRun(ts, i + 1) >= 1;
  }

  function AllDown(n: nat): seq<Turn> {
    seq(n, _ => Turn(true, Unreachable))
  }

  lemma {:induction false} AllDownRun(n: nat, i: nat)
    requires i <= n
    ensures FailRun(AllDown(n), i) == i
  {
    if i > 0 {
      AllDownRun(n, i - 1);
    }
  }

  /** A node down from the start is not reported if a delay panics on the way. */
  lemma PanicHidesIt(cfg: Config, k: nat)
    requires k + 1 < Needed(cfg) && Panics(Raw(cfg, k))
    ensures var n := Needed(cfg); DownAt(AllDown(n), cfg, n - 1) && !ReportsAt(AllDown(n), cfg, n - 1)
  {
    var n := Needed(cfg);
    forall i: nat | i <= n ensures FailRun(AllDown(n), i) == i {
      AllDownRun(n, i);
    }
    assert Verdict(AllDown(n), cfg, k) == Crashed(k);
  }

  /** A report always means that the first run of `Needed` failures is complete; and every
      such run is reported, whatever the probes, exactly when no delay before it panics. */
  lemma ReportsExactly(cfg: Config)
    ensures forall ts, i: nat :: ReportsAt(ts, cfg, i) ==> DownAt(ts, cfg, i)
    ensures (forall ts, i: nat :: DownAt(ts, cfg, i) ==> ReportsAt(ts, cfg, i)) <==> Sound(cfg)
  {
    forall ts, i: nat | ReportsAt(ts, cfg, i) ensures DownAt(ts, cfg, i) {
      ReportMeansDown(ts, cfg, i);
    }
    if Sound(cfg) {
      forall ts, i: nat | DownAt(ts, cfg, i) ensures ReportsAt(ts, cfg, i) {
        DownIsReported(ts, cfg, i);
      }
    } else {
      var k: nat :| k + 1 < Needed(cfg) && Panics(Raw(cfg, k));
      PanicHidesIt(cfg, k);
    }
  }

  /** A negative factor with a threshold above 1 never reports a node that is down. */
  lemma NegativeFactorPanics(cfg: Config)
    requires cfg.base > 0.0 && cfg.factor < 0.0 && cfg.threshold >= 2
    ensures !Sound(cfg)
  {
    NegativeProduct(cfg.base, cfg.factor);
    assert Delay(cfg, 0) == cfg.base;
    assert Panics(Raw(cfg, 0));
  }

  lemma {:induction false} DelayInRange(cfg: Config, k: nat)
    requires cfg.base >= 0.0 && cfg.factor >= 0.0 && cfg.max >= 0.0
    ensures Delay(cfg, k) >= 0.0 && (k > 0 ==> Delay(cfg, k) <= cfg.max)
  {
    if k > 0 {
      DelayInRange(cfg, k - 1);
      Monotone(0.0, Delay(cfg, k - 1), cfg.factor);
    }
  }

  /** A factor that is not negative and takes neither the base nor the cap to 2^64 seconds is
      sound for every threshold. */
  lemma BoundedIsSound(cfg: Config)
    requires cfg.base >= 0.0 && cfg.factor >= 0.0 && cfg.max >= 0.0
    requires !Panics(cfg.base * cfg.factor) && !Panics(cfg.max * cfg.factor)
    ensures Sound(cfg)
  {
    forall k: nat | k + 1 < Needed(cfg) ensures !Panics(Raw(cfg, k)) {
      DelayInRange(cfg, k);
      Monotone(0.0, Delay(cfg, k), cfg.factor);
      if k > 0 {
        Monotone(Delay(cfg, k), cfg.max, cfg.factor);
      }
    }
  }

  lemma NegativeProduct(b: real, f: real)
    requires b > 0.0 && f < 0.0
    ensures b * f < 0.0
  {
  }

  // The closed form of the delay.

  function Pow(x: real, k: nat): real {
    if k == 0 then 1.0 else Pow(x, k - 1) * x
  }

  /** The delay after `k` failures, if the cap could be applied to the power alone. */
  function Closed(cfg: Config, k: nat): real {
    Min(cfg.base * Pow(cfg.factor, k), cfg.max)
  }

  lemma Monotone(a: real, b: real, f: real)
    requires a <= b && f >= 0.0
    ensures a * f <= b * f
  {
  }

  lemma Strict(a: real, b: real, f: real)
    requires a < b && f > 0.0
    ensures a * f < b * f
  {
  }

  /** `k` steps from `x`, never cut. */
  function Iterate(step: real -> real, x: real, k: nat): real {
    if k == 0 then x else step(Iterate(step, x, k - 1))
  }

  lemma Reassociate(a: real, b: real, f: real)
    ensures a * (b * f) == (a * b) * f
  {
  }

  lemma {:induction false} IterateIsPower(base: real, f: real, k: nat)
    ensures base * Pow(f, k) == Iterate(Times(f), base, k)
  {
    if k > 0 {
      IterateIsPower(base, f, k - 1);
      Reassociate(base, Pow(f, k - 1), f);
    }
  }

  /** Capping before a growing step is the same as capping after it. */
  lemma CapStep(x: real, f: real, m: real)
    requires f >= 1.0 && m >= 0.0
    ensures Min(Min(x, m) * f, m) == Min(x * f, m)
  {
    if x > m {
      Monotone(m, x, f);
      Monotone(1.0, f, m);
      assert m * f == f * m;
    }
  }

  /** A shrinking step stays below the cap. */
  lemma ShrinkStep(d: real, f: real, m: real)
    requires 0.0 <= d <= m && 0.0 <= f < 1.0
    ensures 0.0 <= d * f <= m
  {
    Monotone(0.0, d, f);
    Monotone(f, 1.0, d);
    assert d * f == f * d;
  }

  /** Where one cut commutes with the step, all the cuts can be made at the end. */
  lemma {:induction false} CutOnceAtTheEnd(step: real -> real, m: real, x: real, k: nat)
    requires forall y :: Min(step(Min(y, m)), m) == Min(step(y), m)
    requires k >= 1
    ensures Capped(step, m, x, k) == Min(Iterate(step, x, k), m)
  {
    if k == 1 {
      assert Capped(step, m, x, 0) == Iterate(step, x, 0) == x;
    } else {
      CutOnceAtTheEnd(step, m, x, k - 1);
    }
  }

  /** Where a step keeps values between 0 and `m`, no cut is made after the first. */
  lemma {:induction false} NeverCut(step: real -> real, m: real, x: real, k: nat)
    requires forall y :: 0.0 <= y <= m ==> 0.0 <= step(y) <= m
    requires 0.0 <= step(x) <= m && k >= 1
    ensures 0.0 <= Capped(step, m, x, k) == Iterate(step, x, k) <= m
  {
    if k == 1 {
      assert Capped(step, m, x, 0) == Iterate(step, x, 0) == x;
    } else {
      NeverCut(step, m, x, k - 1);
    }
  }

  lemma {:induction false} CutAtZero(step: real -> real, x: real, k: nat)
    requires x >= 0.0 && forall y :: y >= 0.0 ==> step(y) >= 0.0
    ensures Iterate(step, x, k) >= 0.0 && Capped(step, 0.0, x, k) >= 0.0
    ensures k >= 1 ==> Capped(step, 0.0, x, k) == 0.0
  {
    if k > 0 {
      CutAtZero(step, x, k - 1);
    }
  }

  lemma CutThenShrink(x: real, f: real, m: real)
    requires 0.0 < f < 1.0 && 0.0 < m < x
    ensures Min(m * f, m) < Min(x * f, m)
  {
    Strict(m, x, f);
    Strict(f, 1.0, m);
    assert m * f == f * m;
  }

  lemma PositiveFactor(b: real, f: real)
    requires b * f > 0.0 && f >= 0.0
    ensures f > 0.0
  {
  }

  lemma TwoSteps(step: real -> real, m: real, x: real)
    ensures Iterate(step, x, 2) == step(step(x))
    ensures Capped(step, m, x, 2) == Min(step(Min(step(x), m)), m)
  {
    assert Iterate(step, x, 1) == step(Iterate(step, x, 0));
    assert Capped(step, m, x, 1) == Min(step(Capped(step, m, x, 0)), m);
  }

  lemma ClosedIsCutIterate(cfg: Config, k: nat)
    ensures Closed(cfg, k) == Min(Iterate(Times(cfg.factor), cfg.base, k), cfg.max)
  {
    IterateIsPower(cfg.base, cfg.factor, k);
  }

  lemma CutTwice(step: real -> real, m: real, x: real)
    requires step(x) > m && Min(step(m), m) < Min(step(step(x)), m)
    ensures Capped(step, m, x, 2) < Min(Iterate(step, x, 2), m)
  {
    TwoSteps(step, m, x);
  }

  lemma SecondStepShrinks(x: real, f: real, m: real)
    requires 0.0 < f < 1.0 && 0.0 < m < x
    ensures Min(Times(f)(m), m) < Min(Times(f)(x), m)
  {
    CutThenShrink(x, f, m);
  }

  /** With a factor below 1, a first step above the cap breaks the form at the second failure. */
  lemma CappedThenShrinks(cfg: Config)
    requires 0.0 <= cfg.factor < 1.0 && 0.0 < cfg.max < cfg.base * cfg.factor
    ensures Delay(cfg, 2) < Closed(cfg, 2)
  {
    PositiveFactor(cfg.base, cfg.factor);
    SecondStepShrinks(cfg.base * cfg.factor, cfg.factor, cfg.max);
    CutTwice(Times(cfg.factor), cfg.max, cfg.base);
    ClosedIsCutIterate(cfg, 2);
  }

  /** The cases in which the cap commutes with the powers: a factor of at least 1, a first
      step below the cap, or a cap of 0. */
  predicate CapCommutes(cfg: Config) {
    cfg.factor >= 1.0 || cfg.base * cfg.factor <= cfg.max || cfg.max == 0.0
  }

  lemma GrowthCommutes(f: real, m: real)
    requires f >= 1.0 && m >= 0.0
    ensures forall y :: Min(Times(f)(Min(y, m)), m) == Min(Times(f)(y), m)
  {
    forall y ensures Min(Times(f)(Min(y, m)), m) == Min(Times(f)(y), m) {
      CapStep(y, f, m);
    }
  }

  lemma ShrinkingStays(f: real, m: real)
    requires 0.0 <= f < 1.0
    ensures forall y :: 0.0 <= y <= m ==> 0.0 <= Times(f)(y) <= m
  {
    forall y | 0.0 <= y <= m ensures 0.0 <= Times(f)(y) <= m {
      ShrinkStep(y, f, m);
    }
  }

  lemma StaysNonNegative(f: real)
    requires 0.0 <= f
    ensures forall y :: y >= 0.0 ==> Times(f)(y) >= 0.0
  {
    forall y | y >= 0.0 ensures Times(f)(y) >= 0.0 {
      Monotone(0.0, y, f);
    }
  }

  lemma ClosedFormHolds(cfg: Config, k: nat)
    requires cfg.base >= 0.0 && cfg.factor >= 0.0 && cfg.max >= 0.0 && k >= 1
    requires CapCommutes(cfg)
    ensures Delay(cfg, k) == Closed(cfg, k)
  {
    var step := Times(cfg.factor);
    ClosedIsCutIterate(cfg, k);
    assert step(cfg.base) == cfg.base * cfg.factor;
    if cfg.factor >= 1.0 {
      GrowthCommutes(cfg.factor, cfg.max);
      CutOnceAtTheEnd(step, cfg.max, cfg.base, k);
    } else {
      StaysNonNegative(cfg.factor);
      if step(cfg.base) <= cfg.max {
        ShrinkingStays(cfg.factor, cfg.max);
        NeverCut(step, cfg.max, cfg.base, k);
      } else {
        CutAtZero(step, cfg.base, k);
      }
    }
  }

  /** The delay after any number k >= 1 of failures is min(base * factor^k, max) exactly
      when the factor is at least 1, or the first step stays below the cap, or the cap is 0. */
  lemma DelayClosedFormExactly(cfg: Config)
    requires cfg.base >= 0.0 && cfg.factor >= 0.0 && cfg.max >= 0.0
    ensures (forall k: nat :: k >= 1 ==> Delay(cfg, k) == Closed(cfg, k)) <==> CapCommutes(cfg)
  {
    if CapCommutes(cfg) {
      forall k: nat | k >= 1 ensures Delay(cfg, k) == Closed(cfg, k) {
        ClosedFormHolds(cfg, k);
      }
    } else {
      CappedThenShrinks(cfg);
    }
  }
}
