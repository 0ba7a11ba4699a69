/** One joint under soft start and rate limit, cycle by cycle. */
module Trajectory {
  import opened Bytes

  /** Largest moves per cycle while ramping in and after, and how close ends the ramp. */
  datatype Limits = Limits(rampStep: int, rampDone: int, maxStep: int)

  predicate Usable(l: Limits) {
    l.rampStep > 0 && l.maxStep > 0 && l.rampDone >= 0
  }

  datatype Axis = Axis(goal: int, ramping: bool)

  function Distance(x: int, y: int): (d: int)
    ensures d >= 0
  {
    if x < y then y - x else x - y
  }

  /** Conversion to a 16-bit integer. */
  function Int16(x: int): (y: int)
    ensures IsInt16(y) && (IsInt16(x) ==> y == x)
  {
    (x + 0x8000) % 0x1_0000 - 0x8000
  }

  function Limited(d: int, step: int): int {
    var e := if d > step then step else d;
    if e < -step then -step else e
  }

  /** One cycle: the ramp ends when the target is near, and the goal moves at the speed that leaves. */
  function AxisStep(l: Limits, a: Axis, target: int): Axis {
    var d := target - a.goal;
    var ramping := a.ramping && Distance(target, a.goal) > l.rampDone;
    Axis(Int16(a.goal + Limited(d, if ramping then l.rampStep else l.maxStep)), ramping)
  }

  /** A stay in one mode: one target per cycle. */
  function Track(l: Limits, a: Axis, targets: seq<int>): Axis {
    if targets == [] then a
    else AxisStep(l, Track(l, a, targets[..|targets| - 1]), targets[|targets| - 1])
  }

  predicate Between(x: int, y: int, z: int) {
    x <= y <= z || z <= y <= x
  }

  /** The goal moves towards the target by exactly the limit of the moment, never past it, and the 16-bit
      store does not wrap. */
  lemma StepMoves(l: Limits, a: Axis, target: int)
    requires Usable(l) && IsInt16(a.goal) && IsInt16(target)
    ensures var b := AxisStep(l, a, target);
            && Between(a.goal, b.goal, target) && IsInt16(b.goal)
            && Distance(a.goal, b.goal) == Min(Distance(a.goal, target), if b.ramping then l.rampStep else l.maxStep)
            && Distance(b.goal, target) == Distance(a.goal, target) - Distance(a.goal, b.goal)
            && (b.ramping <==> a.ramping && Distance(a.goal, target) > l.rampDone)
  {
  }

  predicate Within(xs: seq<int>, lo: int, hi: int) {
    forall i :: 0 <= i < |xs| ==> lo <= xs[i] <= hi
  }

  /** In every stay the goal remains where its first value and the targets are. */
  lemma {:induction false} GoalStaysInHull(l: Limits, a: Axis, targets: seq<int>, lo: int, hi: int)
    requires Usable(l) && -0x8000 <= lo <= a.goal <= hi < 0x8000 && Within(targets, lo, hi)
    ensures lo <= Track(l, a, targets).goal <= hi
  {
    if targets != [] {
      var front := targets[..|targets| - 1];
      GoalStaysInHull(l, a, front, lo, hi);
      StepMoves(l, Track(l, a, front), targets[|targets| - 1]);
    }
  }

  // ------------------------------------------------------------------- hold

  /** How many steps of `y` it takes to cover `x`: the quotient, rounded up. */
  function CeilDiv(x: int, y: int): nat
    requires y > 0
    decreases if x > 0 then x else 0
  {
    if x <= 0 then 0 else 1 + CeilDiv(x - y, y)
  }

  /** The product, by repeated addition. */
  function Product(n: nat, w: int): int {
    if n == 0 then 0 else Product(n - 1, w) + w
  }

  lemma {:induction false} CeilDivCovers(n: nat, x: int, y: int)
    requires y > 0 && n >= CeilDiv(x, y)
    ensures Product(n, y) >= x
    decreases n
  {
    if n > 0 {
      CeilDivCovers(n - 1, x - y, y);
    }
  }

  lemma {:induction false} CeilDivIsLeast(x: int, y: int)
    requires y > 0 && x > 0
    ensures CeilDiv(x, y) > 0 && Product(CeilDiv(x, y) - 1, y) < x
    decreases x
  {
    if x > y {
      CeilDivIsLeast(x - y, y);
    }
  }

  function Same(target: int, n: nat): seq<int> {
    seq(n, _ => target)
  }

  lemma SameGrows(target: int, n: nat)
    requires n > 0
    ensures Same(target, n)[..n - 1] == Same(target, n - 1) && Same(target, n)[n - 1] == target
  {
  }

  /** While a joint is held its distance never grows; it stays on its side of the pose. */
  lemma {:induction false} HoldNeverOvershoots(l: Limits, a: Axis, hold: int, n: nat)
    requires Usable(l) && IsInt16(a.goal) && IsInt16(hold) && n > 0
    ensures var b, c := Track(l, a, Same(hold, n - 1)), Track(l, a, Same(hold, n));
            && IsInt16(c.goal) && Between(a.goal, b.goal, hold) && Between(b.goal, c.goal, hold)
            && Distance(c.goal, hold) <= Distance(b.goal, hold)
  {
    SameGrows(hold, n);
    if n > 1 {
      HoldNeverOvershoots(l, a, hold, n - 1);
    }
    StepMoves(l, Track(l, a, Same(hold, n - 1)), hold);
  }

  /** How far `n` cycles of the slow ramp leave the goal from the pose. */
  lemma {:induction false} RampApproaches(l: Limits, a: Axis, hold: int, n: nat)
    requires Usable(l) && IsInt16(a.goal) && IsInt16(hold) && a.ramping
    ensures var b := Track(l, a, Same(hold, n));
            && IsInt16(b.goal)
            && (b.ramping ==> Distance(b.goal, hold) <= Distance(a.goal, hold) - Product(n, l.rampStep)
                              || Distance(b.goal, hold) == 0)
            && (!b.ramping ==> Distance(b.goal, hold) <= l.rampDone)
  {
    if n > 0 {
      SameGrows(hold, n);
      RampApproaches(l, a, hold, n - 1);
      StepMoves(l, Track(l, a, Same(hold, n - 1)), hold);
    }
  }

  lemma {:induction false} TrackOn(l: Limits, a: Axis, p: seq<int>, q: seq<int>)
    ensures Track(l, a, p + q) == Track(l, Track(l, a, p), q)
  {
    if q == [] {
      assert p + q == p;
    } else {
      TrackOn(l, a, p, q[..|q| - 1]);
      assert (p + q)[..|p + q| - 1] == p + q[..|q| - 1];
    }
  }

  /** Within `rampDone` of the pose the joint moves at full speed. */
  lemma {:induction false} FullSpeedApproaches(l: Limits, a: Axis, hold: int, n: nat)
    requires Usable(l) && IsInt16(a.goal) && IsInt16(hold) && Distance(a.goal, hold) <= l.rampDone
    ensures var b := Track(l, a, Same(hold, n));
            && IsInt16(b.goal)
            && (Distance(b.goal, hold) <= l.rampDone - Product(n, l.maxStep) || Distance(b.goal, hold) == 0)
    ensures Distance(Track(l, a, Same(hold, n)).goal, hold) <= l.rampDone
  {
    if n > 0 {
      SameGrows(hold, n);
      FullSpeedApproaches(l, a, hold, n - 1);
      StepMoves(l, Track(l, a, Same(hold, n - 1)), hold);
    }
  }

  /** Cycles of ramp until a joint that is `d` away is near, then cycles of full speed. */
  function HoldCycles(l: Limits, d: int): nat
    requires Usable(l)
  {
    CeilDiv(d - l.rampDone, l.rampStep) + CeilDiv(l.rampDone, l.maxStep)
  }

  /** A held joint has arrived after the cycles of ramp that bring it near and the cycles of full speed
      that are left, and stays there. */
  lemma HoldConverges(l: Limits, a: Axis, hold: int, n: nat)
    requires Usable(l) && IsInt16(a.goal) && IsInt16(hold) && a.ramping
    requires n >= HoldCycles(l, Distance(a.goal, hold))
    ensures Track(l, a, Same(hold, n)).goal == hold
  {
    hide Track, CeilDiv, Product;
    var m := CeilDiv(Distance(a.goal, hold) - l.rampDone, l.rampStep);
    var k := n - m;
    CeilDivCovers(m, Distance(a.goal, hold) - l.rampDone, l.rampStep);
    RampApproaches(l, a, hold, m);
    TrackOn(l, a, Same(hold, m), Same(hold, k));
    assert Same(hold, n) == Same(hold, m) + Same(hold, k);
    FullSpeedApproaches(l, Track(l, a, Same(hold, m)), hold, k);
    CeilDivCovers(k, l.rampDone, l.maxStep);
  }

  // ----------------------------------------------------------------- teleop

  /** The target moves by at most `v` ticks per cycle. */
  predicate Slow(targets: seq<int>, v: int) {
    forall i :: 0 < i < |targets| ==> Distance(targets[i - 1], targets[i]) <= v
  }

  /** The speed at which a target can jump clean over the window around the goal that ends the ramp. */
  function JumpSpeed(l: Limits): int {
    2 * l.rampDone + 2 - Min(l.rampStep, l.rampDone + 1)
  }

  /** What one cycle in the ramp moves at least. */
  function RampMove(l: Limits): int {
    Min(l.rampStep, l.rampDone + 1)
  }

  /** A joint in the ramp stays behind its target: after a cycle by at least what the window leaves. */
  predicate Behind(l: Limits, goal: int, target: int, up: bool) {
    (if up then target - goal else goal - target) >= l.rampDone + 1 - RampMove(l)
  }

  lemma RampStaysBehind(l: Limits, a: Axis, before: int, target: int, v: int, up: bool)
    requires Usable(l) && IsInt16(a.goal) && IsInt16(target) && AxisStep(l, a, target).ramping
    requires v < JumpSpeed(l) && Distance(before, target) <= v && Behind(l, a.goal, before, up)
    ensures var b := AxisStep(l, a, target);
            Behind(l, b.goal, target, up) && (if up then b.goal - a.goal else a.goal - b.goal) >= RampMove(l)
  {
  }

  lemma RampBegins(l: Limits, a: Axis, target: int)
    requires Usable(l) && IsInt16(a.goal) && IsInt16(target) && AxisStep(l, a, target).ramping
    ensures var b, up := AxisStep(l, a, target), target > a.goal;
            Behind(l, b.goal, target, up) && (if up then b.goal - a.goal else a.goal - b.goal) >= RampMove(l)
  {
    StepMoves(l, a, target);
  }

  /** The goal has moved towards these targets only, by at least as much as the ramp moves it each cycle. */
  predicate OneWay(l: Limits, from: int, goal: int, targets: seq<int>) {
    targets != [] &&
    var up := targets[0] > from;
    && Behind(l, goal, targets[|targets| - 1], up)
    && (if up then goal - from else from - goal) >= Product(|targets|, RampMove(l))
  }

  lemma OneWayOn(l: Limits, from: int, a: Axis, targets: seq<int>, target: int, v: int)
    requires Usable(l) && IsInt16(a.goal) && IsInt16(target) && AxisStep(l, a, target).ramping
    requires OneWay(l, from, a.goal, targets) && v < JumpSpeed(l) && Distance(targets[|targets| - 1], target) <= v
    ensures OneWay(l, from, AxisStep(l, a, target).goal, targets + [target])
  {
    RampStaysBehind(l, a, targets[|targets| - 1], target, v, targets[0] > from);
  }

  /** As long as a joint is in the ramp, its goal keeps moving the same way. */
  lemma {:induction false} RampGoesOneWay(l: Limits, a: Axis, targets: seq<int>, v: int, lo: int, hi: int)
    requires Usable(l) && v < JumpSpeed(l) && Slow(targets, v) && targets != []
    requires -0x8000 <= lo <= a.goal <= hi < 0x8000 && Within(targets, lo, hi)
    requires Track(l, a, targets).ramping
    ensures OneWay(l, a.goal, Track(l, a, targets).goal, targets)
  {
    var n := |targets| - 1;
    var front := targets[..n];
    if n == 0 {
      assert front == [];
      RampBegins(l, a, targets[0]);
      assert Product(1, RampMove(l)) == RampMove(l);
    } else {
      GoalStaysInHull(l, a, front, lo, hi);
      RampGoesOneWay(l, a, front, v, lo, hi);
      OneWayOn(l, a.goal, Track(l, a, front), front, targets[n], v);
      assert targets == front + [targets[n]];
    }
  }

  /** Cycles after which a joint in the ramp would have crossed the range. */
  function RampCycles(l: Limits, lo: int, hi: int): nat
    requires Usable(l)
  {
    CeilDiv(hi - lo + 1, RampMove(l))
  }

  /** A joint in the ramp leaves it before it has crossed the range, unless its target can jump. */
  lemma RampEnds(l: Limits, a: Axis, targets: seq<int>, v: int, lo: int, hi: int)
    requires Usable(l) && v < JumpSpeed(l) && Slow(targets, v)
    requires -0x8000 <= lo <= a.goal <= hi < 0x8000 && Within(targets, lo, hi)
    requires |targets| >= RampCycles(l, lo, hi)
    ensures !Track(l, a, targets).ramping
  {
    if Track(l, a, targets).ramping {
      assert targets != [];
      RampGoesOneWay(l, a, targets, v, lo, hi);
      GoalStaysInHull(l, a, targets, lo, hi);
      CeilDivCovers(|targets|, hi - lo + 1, RampMove(l));
    }
  }

  /** A target that jumps to and fro across the goal, always just outside the window. */
  function Swing(l: Limits, lo: int, n: nat): seq<int> {
    seq(n, i => if i % 2 == 0 then lo + JumpSpeed(l) else lo)
  }

  lemma SwingOnce(l: Limits, lo: int)
    requires Usable(l) && -0x8000 <= lo && lo + JumpSpeed(l) < 0x8000
    ensures var a, b := Axis(lo + l.rampDone + 1 - RampMove(l), true), Axis(lo + l.rampDone + 1, true);
            AxisStep(l, a, lo + JumpSpeed(l)) == b && AxisStep(l, b, lo) == a
  {
  }

  /** It keeps the joint in the ramp for ever. */
  lemma {:induction false} SwingTraps(l: Limits, lo: int, n: nat)
    requires Usable(l) && -0x8000 <= lo && lo + JumpSpeed(l) < 0x8000
    ensures var a := Axis(lo + l.rampDone + 1 - RampMove(l), true);
            Track(l, a, Swing(l, lo, n)) == if n % 2 == 0 then a else Axis(lo + l.rampDone + 1, true)
  {
    hide AxisStep, JumpSpeed, RampMove;
    if n > 0 {
      SwingTraps(l, lo, n - 1);
      assert Swing(l, lo, n)[..n - 1] == Swing(l, lo, n - 1);
      SwingOnce(l, lo);
    }
  }

  /** After `n` cycles of any target of speed `v` in the range, no joint is in the ramp. */
  ghost predicate RampOverAfter(l: Limits, v: int, lo: int, hi: int, n: nat) {
    forall a: Axis, targets :: lo <= a.goal <= hi && Within(targets, lo, hi) && Slow(targets, v) && |targets| == n
      ==> !Track(l, a, targets).ramping
  }

  /** The slow ramp is sure to end exactly when the target cannot jump over the window around the goal. */
  lemma RampEndsIff(l: Limits, v: int, lo: int, hi: int)
    requires Usable(l) && -0x8000 <= lo && hi < 0x8000 && hi - lo >= JumpSpeed(l)
    ensures v < JumpSpeed(l) <==> exists n: nat :: RampOverAfter(l, v, lo, hi, n)
  {
    if v < JumpSpeed(l) {
      var n := RampCycles(l, lo, hi);
      forall a: Axis, targets | lo <= a.goal <= hi && Within(targets, lo, hi) && Slow(targets, v) && |targets| == n
        ensures !Track(l, a, targets).ramping
      {
        RampEnds(l, a, targets, v, lo, hi);
      }
      assert RampOverAfter(l, v, lo, hi, n);
    } else {
      forall n: nat ensures !RampOverAfter(l, v, lo, hi, n) {
        var a := Axis(lo + l.rampDone + 1 - RampMove(l), true);
        SwingTraps(l, lo, n);
        assert Within(Swing(l, lo, n), lo, hi) && Slow(Swing(l, lo, n), v) && |Swing(l, lo, n)| == n;
        assert Track(l, a, Swing(l, lo, n)).ramping;
      }
    }
  }

  /** A joint out of the ramp that is at most `lag` behind its target gains on it. */
  lemma CatchStep(l: Limits, a: Axis, before: int, target: int, v: int, lag: int)
    requires Usable(l) && 0 <= v < l.maxStep && !a.ramping && IsInt16(a.goal) && IsInt16(target)
    requires Distance(before, target) <= v && (a.goal == before || Distance(a.goal, before) <= lag)
    ensures var b := AxisStep(l, a, target);
            !b.ramping && IsInt16(b.goal) && (b.goal == target || Distance(b.goal, target) <= lag - (l.maxStep - v))
  {
  }

  /** How far a joint out of the ramp is behind a slow target. */
  lemma {:induction false} CatchesUp(l: Limits, a: Axis, targets: seq<int>, v: int, lag: int)
    requires Usable(l) && 0 <= v < l.maxStep && Slow(targets, v) && targets != [] && !a.ramping
    requires IsInt16(a.goal) && Within(targets, -0x8000, 0x7FFF) && Distance(a.goal, targets[0]) <= lag
    ensures var b, t := Track(l, a, targets), targets[|targets| - 1];
            !b.ramping && IsInt16(b.goal)
            && (b.goal == t || Distance(b.goal, t) <= lag - Product(|targets|, l.maxStep - v))
  {
    var n := |targets| - 1;
    var front := targets[..n];
    if n > 0 {
      CatchesUp(l, a, front, v, lag);
      CatchStep(l, Track(l, a, front), front[n - 1], targets[n], v, lag - Product(n, l.maxStep - v));
    } else {
      assert front == [];
      StepMoves(l, a, targets[0]);
      assert Product(1, l.maxStep - v) == l.maxStep - v;
    }
  }

  /** Cycles in which a joint at full speed gains the whole range on a target of speed `v`. */
  function CatchCycles(l: Limits, v: int, lo: int, hi: int): nat
    requires v < l.maxStep
  {
    CeilDiv(hi - lo + 1, l.maxStep - v)
  }

  lemma FullSpeedTracks(l: Limits, a: Axis, targets: seq<int>, v: int, lo: int, hi: int)
    requires Usable(l) && 0 <= v < l.maxStep && Slow(targets, v) && targets != [] && !a.ramping
    requires -0x8000 <= lo <= a.goal <= hi < 0x8000 && Within(targets, lo, hi)
    requires |targets| >= CatchCycles(l, v, lo, hi)
    ensures Track(l, a, targets) == Axis(targets[|targets| - 1], false)
  {
    CatchesUp(l, a, targets, v, hi - lo);
    CeilDivCovers(|targets|, hi - lo + 1, l.maxStep - v);
  }

  lemma Halves(targets: seq<int>, n: nat, v: int, lo: int, hi: int)
    requires Slow(targets, v) && Within(targets, lo, hi) && n <= |targets|
    ensures Slow(targets[..n], v) && Within(targets[..n], lo, hi)
    ensures Slow(targets[n..], v) && Within(targets[n..], lo, hi)
    ensures targets[..n] + targets[n..] == targets
  {
  }

  /** In TELEOP, with a leader slower than the fast limit and too slow to jump the window, the ramp ends in
      bounded time (`n`), and from a bounded time on the goal is the target in every cycle. */
  lemma TeleopTracks(l: Limits, a: Axis, targets: seq<int>, n: nat, v: int, lo: int, hi: int)
    requires Usable(l) && 0 <= v < l.maxStep && v < JumpSpeed(l) && Slow(targets, v) && n < |targets|
    requires -0x8000 <= lo <= a.goal <= hi < 0x8000 && Within(targets, lo, hi)
    requires n >= RampCycles(l, lo, hi) && |targets| - n >= CatchCycles(l, v, lo, hi)
    ensures Track(l, a, targets) == Axis(targets[|targets| - 1], false)
  {
    Halves(targets, n, v, lo, hi);
    RampEnds(l, a, targets[..n], v, lo, hi);
    GoalStaysInHull(l, a, targets[..n], lo, hi);
    TrackOn(l, a, targets[..n], targets[n..]);
    FullSpeedTracks(l, Track(l, a, targets[..n]), targets[n..], v, lo, hi);
  }

  // ------------------------------------------------------------ failed reads

  /** One cycle in which the target may be unknown: then the goal is the target. */
  function AimStep(l: Limits, a: Axis, aim: Option<int>): Axis {
    AxisStep(l, a, if aim.Some? then aim.value else a.goal)
  }

  /** A stay in which some targets are unknown. */
  function Chase(l: Limits, a: Axis, aims: seq<Option<int>>): Axis {
    if aims == [] then a
    else AimStep(l, Chase(l, a, aims[..|aims| - 1]), aims[|aims| - 1])
  }

  predicate AllKnown(aims: seq<Option<int>>) {
    forall k :: 0 <= k < |aims| ==> aims[k].Some?
  }

  function Values(aims: seq<Option<int>>): (ts: seq<int>)
    requires AllKnown(aims)
    ensures |ts| == |aims|
  {
    seq(|aims|, k requires 0 <= k < |aims| => aims[k].value)
  }

  lemma {:induction false} ChaseIsTrack(l: Limits, a: Axis, aims: seq<Option<int>>)
    requires AllKnown(aims)
    ensures Chase(l, a, aims) == Track(l, a, Values(aims))
  {
    if aims != [] {
      var n := |aims| - 1;
      ChaseIsTrack(l, a, aims[..n]);
      assert Values(aims)[..n] == Values(aims[..n]);
    }
  }

  lemma {:induction false} ChaseOn(l: Limits, a: Axis, p: seq<Option<int>>, q: seq<Option<int>>)
    ensures Chase(l, a, p + q) == Chase(l, Chase(l, a, p), q)
  {
    if q == [] {
      assert p + q == p;
    } else {
      ChaseOn(l, a, p, q[..|q| - 1]);
      assert (p + q)[..|p + q| - 1] == p + q[..|q| - 1];
    }
  }

  predicate AimsWithin(aims: seq<Option<int>>, lo: int, hi: int) {
    forall k :: 0 <= k < |aims| && aims[k].Some? ==> lo <= aims[k].value <= hi
  }

  lemma {:induction false} ChaseStaysInHull(l: Limits, a: Axis, aims: seq<Option<int>>, lo: int, hi: int)
    requires Usable(l) && -0x8000 <= lo <= a.goal <= hi < 0x8000 && AimsWithin(aims, lo, hi)
    ensures lo <= Chase(l, a, aims).goal <= hi
  {
    if aims != [] {
      var n := |aims| - 1;
      ChaseStaysInHull(l, a, aims[..n], lo, hi);
      var b := Chase(l, a, aims[..n]);
      StepMoves(l, b, if aims[n].Some? then aims[n].value else b.goal);
    }
  }

  /** What ends the soft start in cycle `k`: an unknown target, or one that is near. */
  predicate Ends(l: Limits, a: Axis, aims: seq<Option<int>>, k: nat) {
    k < |aims| && (aims[k].None? || Distance(aims[k].value, Chase(l, a, aims[..k]).goal) <= l.rampDone)
  }

  /** The soft start is over exactly if something has ended it. */
  lemma {:induction false} RampOverIff(l: Limits, a: Axis, aims: seq<Option<int>>)
    requires Usable(l) && a.ramping
    ensures !Chase(l, a, aims).ramping <==> exists k :: Ends(l, a, aims, k)
  {
    if aims != [] {
      var n := |aims| - 1;
      var front := aims[..n];
      RampOverIff(l, a, front);
      forall k | 0 <= k < n ensures Ends(l, a, front, k) <==> Ends(l, a, aims, k) {
        assert aims[..k] == front[..k];
      }
      assert Ends(l, a, aims, n) || Chase(l, a, aims).ramping == Chase(l, a, front).ramping;
      if k: nat :| Ends(l, a, aims, k) {
        assert k < n ==> Ends(l, a, front, k);
      }
    }
  }

  /** With known targets from cycle `n` on, slow enough, and the soft start over by then, because a target was
      unknown or because it has had the time it takes: from a bounded time on the goal is the target. */
  lemma ChaseTracks(l: Limits, a: Axis, aims: seq<Option<int>>, n: nat, v: int, lo: int, hi: int)
    requires Usable(l) && 0 <= v < l.maxStep && n < |aims| && a.ramping
    requires -0x8000 <= lo <= a.goal <= hi < 0x8000 && AimsWithin(aims, lo, hi)
    requires AllKnown(aims[n..]) && Slow(Values(aims[n..]), v) && |aims| - n >= CatchCycles(l, v, lo, hi)
    requires SoftStartOver(l, aims[..n], v, lo, hi)
    ensures Chase(l, a, aims) == Axis(aims[|aims| - 1].value, false)
  {
    var p, q := aims[..n], aims[n..];
    var b := Chase(l, a, p);
    assert aims == p + q;
    ChaseOn(l, a, p, q);
    ChaseStaysInHull(l, a, p, lo, hi);
    OverByThen(l, a, p, v, lo, hi);
    ChaseIsTrack(l, b, q);
    assert Within(Values(q), lo, hi);
    FullSpeedTracks(l, b, Values(q), v, lo, hi);
  }

  /** A target was unknown, or all were known and slow for as long as it takes to cross the range. */
  predicate SoftStartOver(l: Limits, aims: seq<Option<int>>, v: int, lo: int, hi: int)
    requires Usable(l)
  {
    if AllKnown(aims) then v < JumpSpeed(l) && Slow(Values(aims), v) && |aims| >= RampCycles(l, lo, hi) else true
  }

  lemma OverByThen(l: Limits, a: Axis, aims: seq<Option<int>>, v: int, lo: int, hi: int)
    requires Usable(l) && a.ramping && -0x8000 <= lo <= a.goal <= hi < 0x8000 && AimsWithin(aims, lo, hi)
    requires SoftStartOver(l, aims, v, lo, hi)
    ensures !Chase(l, a, aims).ramping
  {
    if AllKnown(aims) {
      ChaseIsTrack(l, a, aims);
      RampEnds(l, a, Values(aims), v, lo, hi);
    } else {
      var k :| 0 <= k < |aims| && aims[k].None?;
      RampOverIff(l, a, aims);
      assert Ends(l, a, aims, k);
    }
  }
}
