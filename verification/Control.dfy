/** The control thread: what each cycle makes of its own state and of the follower's commands, from
    what it reads on the two buses and the mode the supervisor asks for. */
module Control {
  import opened Bytes
  import opened Modes
  import opened Calibration
  import opened Trajectory

  const NJ := 6

  /** Where joint `j` of the follower is sent for a raw position of the leader's, the ranges that keeps to,
      and the limits. */
  datatype Config = Config(lead: (nat, int) -> int, lo: seq<int>, hi: seq<int>, limits: Limits)

  ghost predicate Sane(c: Config) {
    && |c.lo| == |c.hi| == NJ && Usable(c.limits)
    && (forall j :: 0 <= j < NJ ==> -0x8000 <= c.lo[j] < c.hi[j] < 0x8000)
    && (forall j, raw :: 0 <= j < NJ ==> c.lo[j] <= c.lead(j, raw) <= c.hi[j])
  }

  /** The calibrations of the two arms. */
  ghost predicate Calibrated(rnd: real -> real, leader: seq<Joint>, follower: seq<Joint>) {
    && Rounds(rnd) && |leader| == |follower| == NJ
    && (forall j :: 0 <= j < NJ ==>
          Encoder(leader[j]) && Encoder(follower[j]) && leader[j].isGripper == follower[j].isGripper)
  }

  ghost function Lead(rnd: real -> real, leader: seq<Joint>, follower: seq<Joint>, j: nat, raw: int): int {
    if j < |leader| && j < |follower| then Follow(rnd, leader[j], follower[j], raw) else 0
  }

  ghost function ConfigOf(rnd: real -> real, leader: seq<Joint>, follower: seq<Joint>, limits: Limits): Config
    requires |follower| == NJ
  {
    Config((j: nat, raw: int) => Lead(rnd, leader, follower, j, raw),
           seq(NJ, j requires 0 <= j < NJ => follower[j].rangeMin),
           seq(NJ, j requires 0 <= j < NJ => follower[j].rangeMax),
           limits)
  }

  /** Calibrated arms never send a joint out of its range. */
  lemma CalibratedIsSane(rnd: real -> real, leader: seq<Joint>, follower: seq<Joint>, limits: Limits)
    requires Calibrated(rnd, leader, follower) && Usable(limits)
    ensures Sane(ConfigOf(rnd, leader, follower, limits))
  {
    forall j, raw | 0 <= j < NJ
      ensures follower[j].rangeMin <= Lead(rnd, leader, follower, j, raw) <= follower[j].rangeMax
    {
      FollowIsOrdered(rnd, leader[j], follower[j], raw, raw);
    }
  }

  /** What is written to the follower's servos. */
  datatype Command = Torque(on: bool) | Goal(at: seq<int>)

  /** The thread's own variables: the mode applied, whether torque is on, the joints still ramping in. */
  datatype Ctl = Ctl(applied: U32, torque: bool, ramp: set<nat>, goal: seq<int>, hold: seq<int>)

  /** What a cycle finds: positions, if the sync reads were good; whether it has reopened the follower's
      bus; the mode asked for. */
  datatype Inputs = Inputs(leader: Option<seq<int>>, follower: Option<seq<int>>, reopened: bool, req: U32)

  predicate Pose(p: seq<int>) {
    |p| == NJ && forall j :: 0 <= j < NJ ==> IsInt16(p[j])
  }

  predicate Read(seen: Inputs) {
    (seen.leader.Some? ==> Pose(seen.leader.value)) && (seen.follower.Some? ==> Pose(seen.follower.value))
  }

  function Asked(req: U32): U32 {
    if req > ESTOP then IDLE else req
  }

  predicate Moves(mode: U32) {
    mode == TELEOP || mode == HOLD
  }

  /** After a reconnection the servos are told to be limp. */
  function Reconnected(s: Ctl, seen: Inputs): Ctl {
    if seen.reopened then s.(torque := false) else s
  }

  predicate Wants(s: Ctl, seen: Inputs) {
    Asked(seen.req) != s.applied && Moves(Asked(seen.req))
  }

  /** Torque is asked for and refused, or switched on, in this cycle. */
  predicate Refuses(s: Ctl, seen: Inputs) {
    Wants(s, seen) && !Reconnected(s, seen).torque && seen.follower.None?
  }

  predicate Enables(s: Ctl, seen: Inputs) {
    Wants(s, seen) && !Reconnected(s, seen).torque && seen.follower.Some?
  }

  predicate Disables(s: Ctl, seen: Inputs) {
    Asked(seen.req) != s.applied && !Moves(Asked(seen.req)) && Reconnected(s, seen).torque
  }

  /** Where the goal stands before this cycle moves it. */
  function Base(s: Ctl, seen: Inputs): seq<int> {
    if Enables(s, seen) then seen.follower.value else s.goal
  }

  /** The mode transition. */
  function Switched(s: Ctl, seen: Inputs): Ctl {
    var r, req := Reconnected(s, seen), Asked(seen.req);
    if req == s.applied || Refuses(s, seen) then r
    else if Moves(req) then
      Ctl(req, true, UpTo(NJ), Base(s, seen),
          if req == TELEOP then s.hold else if seen.follower.Some? then seen.follower.value else s.goal)
    else Ctl(req, false, s.ramp, s.goal, s.hold)
  }

  /** Where joint `j` should be. */
  function Target(c: Config, s: Ctl, seen: Inputs, j: nat): int
    requires Sane(c) && Read(seen) && j < NJ && |s.goal| == |s.hold| == NJ
  {
    if s.applied == TELEOP && seen.leader.Some? then c.lead(j, seen.leader.value[j])
    else if s.applied == HOLD then s.hold[j]
    else s.goal[j]
  }

  function AxisOf(s: Ctl, j: nat): Axis
    requires j < |s.goal|
  {
    Axis(s.goal[j], j in s.ramp)
  }

  function AxisNext(c: Config, s: Ctl, seen: Inputs, j: nat): Axis
    requires Sane(c) && Read(seen) && j < NJ && |s.goal| == |s.hold| == NJ
  {
    AxisStep(c.limits, AxisOf(s, j), Target(c, s, seen, j))
  }

  function RampNext(c: Config, s: Ctl, seen: Inputs, n: nat): (r: set<nat>)
    requires Sane(c) && Read(seen) && n <= NJ && |s.goal| == |s.hold| == NJ
    ensures forall j :: j in r <==> 0 <= j < n && AxisNext(c, s, seen, j).ramping
  {
    if n == 0 then {} else RampNext(c, s, seen, n - 1) + if AxisNext(c, s, seen, n - 1).ramping then {n - 1} else {}
  }

  /** With torque on every joint moves; without, the goal follows the arm. */
  function Moved(c: Config, s: Ctl, seen: Inputs): Ctl
    requires Sane(c) && Read(seen) && |s.goal| == |s.hold| == NJ
  {
    if s.torque then
      s.(goal := seq(NJ, j requires 0 <= j < NJ => AxisNext(c, s, seen, j).goal), ramp := RampNext(c, s, seen, NJ))
    else
      s.(goal := if seen.follower.Some? then seen.follower.value else s.goal, ramp := {})
  }

  /** The whole cycle, and the commands it sends to the follower. */
  function Cycle(c: Config, s: Ctl, seen: Inputs): Ctl
    requires Sane(c) && Read(seen) && Shape(s)
  {
    Moved(c, Switched(s, seen), seen)
  }

  function Reconnecting(seen: Inputs): seq<Command> {
    if seen.reopened then [Torque(false)] else []
  }

  function Switching(s: Ctl, seen: Inputs): seq<Command> {
    if Enables(s, seen) then [Goal(seen.follower.value), Torque(true)]
    else if Disables(s, seen) then [Torque(false)] else []
  }

  function Moving(c: Config, s: Ctl, seen: Inputs): seq<Command>
    requires Sane(c) && Read(seen) && Shape(s)
  {
    if Switched(s, seen).torque then [Goal(Cycle(c, s, seen).goal)] else []
  }

  function Commands(c: Config, s: Ctl, seen: Inputs): seq<Command>
    requires Sane(c) && Read(seen) && Shape(s)
  {
    Reconnecting(seen) + Switching(s, seen) + Moving(c, s, seen)
  }

  predicate Shape(s: Ctl) {
    |s.goal| == |s.hold| == NJ
  }

  /** Torque is on only in a mode that moves; only then does anything ramp; every position is a 16-bit number. */
  predicate CtlInv(s: Ctl) {
    && Pose(s.goal) && Pose(s.hold) && s.applied <= ESTOP
    && (s.torque ==> Moves(s.applied))
    && (!s.torque ==> s.ramp == {})
    && forall j :: j in s.ramp ==> j < NJ
  }

  const START := Ctl(IDLE, false, {}, [0, 0, 0, 0, 0, 0], [0, 0, 0, 0, 0, 0])

  // ------------------------------------------------------------- one cycle

  lemma TargetIsInt16(c: Config, s: Ctl, seen: Inputs, j: nat)
    requires Sane(c) && Read(seen) && j < NJ && Pose(s.goal) && Pose(s.hold)
    ensures IsInt16(Target(c, s, seen, j))
    ensures s.applied == TELEOP && seen.leader.Some? ==>
              c.lo[j] <= Target(c, s, seen, j) <= c.hi[j]
  {
  }

  lemma CycleKeepsInv(c: Config, s: Ctl, seen: Inputs)
    requires Sane(c) && Read(seen) && CtlInv(s)
    ensures CtlInv(Cycle(c, s, seen))
  {
  }

  /** With torque on, each joint moves from where its goal stood towards its target and no further, by at
      most the slow step while its ramp bit is set and at most the fast step once it is clear; the bits
      are set all together on entering a mode, and are cleared near the target. In TELEOP the target is the
      leader's position only if that has just been read; otherwise it is the goal itself, and all bits are
      cleared (`LostReadEndsSoftStart`). */
  lemma CycleMoves(c: Config, s: Ctl, seen: Inputs, j: nat)
    requires Sane(c) && Read(seen) && CtlInv(s) && Cycle(c, s, seen).torque && j < NJ
    ensures var t, target, base := Cycle(c, s, seen), Target(c, Switched(s, seen), seen, j), Base(s, seen)[j];
            && Between(base, t.goal[j], target)
            && Distance(base, t.goal[j]) <= (if j in t.ramp then c.limits.rampStep else c.limits.maxStep)
            && (t.applied != s.applied ==> (j in t.ramp <==> Distance(base, target) > c.limits.rampDone))
            && (t.applied == s.applied ==> (j in t.ramp <==> j in s.ramp && Distance(base, target) > c.limits.rampDone))
  {
    var w := Switched(s, seen);
    TargetIsInt16(c, w, seen, j);
    StepMoves(c.limits, AxisOf(w, j), Target(c, w, seen, j));
  }

  /** Torque is switched on only after the goal has been set to where the arm was read to be in this cycle. */
  lemma EnableIsGentle(c: Config, s: Ctl, seen: Inputs, k: nat)
    requires Sane(c) && Read(seen) && CtlInv(s)
    requires k < |Commands(c, s, seen)| && Commands(c, s, seen)[k] == Torque(true)
    ensures k > 0 && seen.follower.Some? && Commands(c, s, seen)[k - 1] == Goal(seen.follower.value)
  {
  }

  // ------------------------------------------------------------ whole runs

  predicate AllRead(seen: seq<Inputs>) {
    forall k :: 0 <= k < |seen| ==> Read(seen[k])
  }

  /** The thread's variables after these cycles. */
  ghost function RunFrom(c: Config, s: Ctl, seen: seq<Inputs>): (t: Ctl)
    requires Sane(c) && AllRead(seen) && CtlInv(s)
    ensures CtlInv(t)
  {
    if seen == [] then s
    else
      var n := |seen| - 1;
      CycleKeepsInv(c, RunFrom(c, s, seen[..n]), seen[n]);
      Cycle(c, RunFrom(c, s, seen[..n]), seen[n])
  }

  /** Everything the follower has been sent. */
  ghost function StreamFrom(c: Config, s: Ctl, seen: seq<Inputs>): seq<Command>
    requires Sane(c) && AllRead(seen) && CtlInv(s)
  {
    if seen == [] then []
    else
      var n := |seen| - 1;
      StreamFrom(c, s, seen[..n]) + Commands(c, RunFrom(c, s, seen[..n]), seen[n])
  }

  /** One more cycle. */
  lemma RunGrows(c: Config, s: Ctl, seen: seq<Inputs>, x: Inputs)
    requires Sane(c) && AllRead(seen) && CtlInv(s) && Read(x)
    ensures AllRead(seen + [x]) && RunFrom(c, s, seen + [x]) == Cycle(c, RunFrom(c, s, seen), x)
    ensures StreamFrom(c, s, seen + [x]) == StreamFrom(c, s, seen) + Commands(c, RunFrom(c, s, seen), x)
  {
    assert (seen + [x])[..|seen|] == seen;
  }

  /** The thread starts by telling the follower to be limp. */
  ghost function Stream(c: Config, seen: seq<Inputs>): seq<Command>
    requires Sane(c) && AllRead(seen)
  {
    [Torque(false)] + StreamFrom(c, START, seen)
  }

  /** Whether the servos hold torque after these commands, if the commands arrive. */
  function Powered(cmds: seq<Command>): bool {
    if cmds == [] then false
    else if cmds[|cmds| - 1].Torque? then cmds[|cmds| - 1].on
    else Powered(cmds[..|cmds| - 1])
  }

  /** The last goal they were sent. */
  function LastGoal(cmds: seq<Command>): Option<seq<int>> {
    if cmds == [] then None
    else if cmds[|cmds| - 1].Goal? then Some(cmds[|cmds| - 1].at)
    else LastGoal(cmds[..|cmds| - 1])
  }

  function MaxStep(l: Limits): int {
    if l.rampStep > l.maxStep then l.rampStep else l.maxStep
  }

  ghost predicate Close(p: seq<int>, q: seq<int>, step: int) {
    |p| == |q| == NJ && forall j :: 0 <= j < NJ ==> Distance(p[j], q[j]) <= step
  }

  /** A stream that never jerks the arm: torque comes on right after a goal, and no goal that is sent
      while torque is on is further from the last one than the largest step. */
  ghost predicate Smooth(l: Limits, cmds: seq<Command>) {
    forall k :: 0 <= k < |cmds| ==> SmoothAt(l, cmds, k)
  }

  ghost predicate SmoothAt(l: Limits, cmds: seq<Command>, k: nat)
    requires k < |cmds|
  {
    && (cmds[k] == Torque(true) ==> k > 0 && cmds[k - 1].Goal?)
    && (cmds[k].Goal? && Powered(cmds[..k]) ==>
          LastGoal(cmds[..k]).Some? && Close(LastGoal(cmds[..k]).value, cmds[k].at, MaxStep(l)))
  }

  /** One more command at the end of a smooth stream. */
  lemma SmoothThen(l: Limits, cmds: seq<Command>, x: Command)
    requires Smooth(l, cmds)
    requires x == Torque(true) ==> cmds != [] && cmds[|cmds| - 1].Goal?
    requires x.Goal? && Powered(cmds) ==>
               LastGoal(cmds).Some? && Close(LastGoal(cmds).value, x.at, MaxStep(l))
    ensures Smooth(l, cmds + [x])
    ensures Powered(cmds + [x]) == if x.Torque? then x.on else Powered(cmds)
    ensures LastGoal(cmds + [x]) == if x.Goal? then Some(x.at) else LastGoal(cmds)
  {
    var more := cmds + [x];
    assert more[..|more| - 1] == cmds;
    forall k | 0 <= k < |more| ensures SmoothAt(l, more, k) {
      if k < |cmds| {
        assert SmoothAt(l, cmds, k);
        assert more[..k] == cmds[..k];
      } else {
        assert more[..k] == cmds;
      }
    }
  }

  /** A smooth stream that has left the arm like this. */
  ghost predicate Leaves(l: Limits, cmds: seq<Command>, torque: bool, goal: seq<int>) {
    Smooth(l, cmds) && Powered(cmds) == torque && (torque ==> LastGoal(cmds) == Some(goal))
  }

  /** Each part of a cycle continues a smooth stream. */
  lemma ReconnectingIsSmooth(l: Limits, s: Ctl, seen: Inputs, cmds: seq<Command>)
    requires Leaves(l, cmds, s.torque, s.goal)
    ensures Leaves(l, cmds + Reconnecting(seen), Reconnected(s, seen).torque, s.goal)
  {
    if seen.reopened {
      SmoothThen(l, cmds, Torque(false));
    } else {
      assert cmds + [] == cmds;
    }
  }

  lemma SwitchingIsSmooth(l: Limits, s: Ctl, seen: Inputs, cmds: seq<Command>)
    requires CtlInv(s) && Leaves(l, cmds, Reconnected(s, seen).torque, s.goal)
    ensures Leaves(l, cmds + Switching(s, seen), Switched(s, seen).torque, Switched(s, seen).goal)
  {
    if Enables(s, seen) {
      var p := seen.follower.value;
      SmoothThen(l, cmds, Goal(p));
      SmoothThen(l, cmds + [Goal(p)], Torque(true));
      assert cmds + [Goal(p), Torque(true)] == cmds + [Goal(p)] + [Torque(true)];
    } else if Disables(s, seen) {
      SmoothThen(l, cmds, Torque(false));
    } else {
      assert cmds + [] == cmds;
    }
  }

  lemma MovingIsSmooth(c: Config, s: Ctl, seen: Inputs, cmds: seq<Command>)
    requires Sane(c) && Read(seen) && CtlInv(s)
    requires Leaves(c.limits, cmds, Switched(s, seen).torque, Switched(s, seen).goal)
    ensures Leaves(c.limits, cmds + Moving(c, s, seen), Cycle(c, s, seen).torque, Cycle(c, s, seen).goal)
  {
    var w, t := Switched(s, seen), Cycle(c, s, seen);
    if w.torque {
      forall j | 0 <= j < NJ ensures Distance(w.goal[j], t.goal[j]) <= MaxStep(c.limits) {
        CycleMoves(c, s, seen, j);
      }
      assert Close(w.goal, t.goal, MaxStep(c.limits));
      SmoothThen(c.limits, cmds, Goal(t.goal));
    } else {
      assert cmds + [] == cmds;
    }
  }

  lemma CycleIsSmooth(c: Config, s: Ctl, seen: Inputs, cmds: seq<Command>)
    requires Sane(c) && Read(seen) && CtlInv(s) && Leaves(c.limits, cmds, s.torque, s.goal)
    ensures Leaves(c.limits, cmds + Commands(c, s, seen), Cycle(c, s, seen).torque, Cycle(c, s, seen).goal)
  {
    var a, b, d := Reconnecting(seen), Switching(s, seen), Moving(c, s, seen);
    ReconnectingIsSmooth(c.limits, s, seen, cmds);
    SwitchingIsSmooth(c.limits, s, seen, cmds + a);
    MovingIsSmooth(c, s, seen, cmds + a + b);
    assert cmds + (a + b + d) == cmds + a + b + d;
  }

  lemma StreamGrows(c: Config, seen: seq<Inputs>, x: Inputs)
    requires Sane(c) && AllRead(seen) && Read(x)
    ensures AllRead(seen + [x])
    ensures Stream(c, seen + [x]) == Stream(c, seen) + Commands(c, RunFrom(c, START, seen), x)
  {
    RunGrows(c, START, seen, x);
    Assoc([Torque(false)], StreamFrom(c, START, seen), Commands(c, RunFrom(c, START, seen), x));
  }

  lemma SmoothOn(c: Config, seen: seq<Inputs>, x: Inputs)
    requires Sane(c) && AllRead(seen) && Read(x)
    requires var t := RunFrom(c, START, seen); Leaves(c.limits, Stream(c, seen), t.torque, t.goal)
    ensures AllRead(seen + [x])
    ensures var t := RunFrom(c, START, seen + [x]); Leaves(c.limits, Stream(c, seen + [x]), t.torque, t.goal)
  {
    RunGrows(c, START, seen, x);
    StreamGrows(c, seen, x);
    CycleIsSmooth(c, RunFrom(c, START, seen), x, Stream(c, seen));
  }

  /** Over every run: the torque flag is what was last commanded, torque only ever comes on right after
      a goal, and goals never jump while it is on. */
  lemma {:induction false} RunIsSmooth(c: Config, seen: seq<Inputs>)
    requires Sane(c) && AllRead(seen)
    ensures var t := RunFrom(c, START, seen); Leaves(c.limits, Stream(c, seen), t.torque, t.goal)
  {
    if seen == [] {
      assert Smooth(c.limits, []);
      SmoothThen(c.limits, [], Torque(false));
      assert [] + [Torque(false)] == Stream(c, seen);
    } else {
      var n := |seen| - 1;
      RunIsSmooth(c, seen[..n]);
      SmoothOn(c, seen[..n], seen[n]);
      assert seen[..n] + [seen[n]] == seen;
    }
  }

  /** The goals of this cycle start from here, and move each joint by at most the slow step while its ramp bit
      is set and at most the fast step once it is clear. */
  ghost predicate Stepped(l: Limits, base: seq<int>, t: Ctl) {
    && |base| == |t.goal| == NJ
    && forall j :: 0 <= j < NJ ==> Distance(base[j], t.goal[j]) <= if j in t.ramp then l.rampStep else l.maxStep
  }

  /** A cycle from `s` to `t`, and the stream before and after it: if it ends with torque on it has sent one goal
      last. That goal is a step from the one sent last before, which is the position read in this cycle if
      torque has come on in this cycle, and the goal of the cycle before if it has been on. */
  ghost predicate Gentle(l: Limits, s: Ctl, x: Inputs, t: Ctl, before: seq<Command>, after: seq<Command>) {
    t.torque ==>
      var moded := before + (Reconnecting(x) + Switching(s, x));
      && after == moded + [Goal(t.goal)] && Powered(moded) && LastGoal(moded) == Some(Base(s, x))
      && Stepped(l, Base(s, x), t)
      && (if Enables(s, x) then x.follower == Some(Base(s, x)) else s.torque && Base(s, x) == s.goal)
  }

  lemma CycleSteps(c: Config, s: Ctl, x: Inputs)
    requires Sane(c) && Read(x) && CtlInv(s) && Cycle(c, s, x).torque
    ensures Stepped(c.limits, Base(s, x), Cycle(c, s, x))
  {
    forall j | 0 <= j < NJ
      ensures Distance(Base(s, x)[j], Cycle(c, s, x).goal[j]) <=
              if j in Cycle(c, s, x).ramp then c.limits.rampStep else c.limits.maxStep
    {
      CycleMoves(c, s, x, j);
    }
  }

  lemma CycleIsGentle(c: Config, s: Ctl, x: Inputs, before: seq<Command>)
    requires Sane(c) && Read(x) && CtlInv(s) && Leaves(c.limits, before, s.torque, s.goal)
    ensures Gentle(c.limits, s, x, Cycle(c, s, x), before, before + Commands(c, s, x))
  {
    if Cycle(c, s, x).torque {
      var a, b, d := Reconnecting(x), Switching(s, x), Moving(c, s, x);
      ReconnectingIsSmooth(c.limits, s, x, before);
      SwitchingIsSmooth(c.limits, s, x, before + a);
      Assoc(before, a, b);
      Assoc(before, a + b, d);
      CycleSteps(c, s, x);
    }
  }

  /** Every cycle of every run is gentle. */
  lemma RunIsGentle(c: Config, seen: seq<Inputs>, x: Inputs)
    requires Sane(c) && AllRead(seen) && Read(x)
    ensures AllRead(seen + [x])
    ensures Gentle(c.limits, RunFrom(c, START, seen), x, RunFrom(c, START, seen + [x]),
                   Stream(c, seen), Stream(c, seen + [x]))
  {
    RunGrows(c, START, seen, x);
    StreamGrows(c, seen, x);
    RunIsSmooth(c, seen);
    CycleIsGentle(c, RunFrom(c, START, seen), x, Stream(c, seen));
  }

  /** Command `i` of the stream is sent in cycle `k`, right after the goal to stay where that cycle has read the
      follower to be. */
  ghost predicate EnabledIn(c: Config, seen: seq<Inputs>, i: nat, k: nat)
    requires Sane(c) && AllRead(seen)
  {
    && k < |seen| && |Stream(c, seen[..k])| < i < |Stream(c, seen[..k + 1])| && i < |Stream(c, seen)|
    && seen[k].follower.Some? && Stream(c, seen)[i - 1] == Goal(seen[k].follower.value)
  }

  lemma EnabledStays(c: Config, seen: seq<Inputs>, x: Inputs, i: nat, k: nat)
    requires Sane(c) && AllRead(seen) && Read(x) && AllRead(seen + [x]) && EnabledIn(c, seen, i, k)
    ensures EnabledIn(c, seen + [x], i, k)
  {
    StreamGrows(c, seen, x);
    assert (seen + [x])[..k] == seen[..k] && (seen + [x])[..k + 1] == seen[..k + 1];
  }

  lemma EnabledNow(c: Config, seen: seq<Inputs>, x: Inputs, i: nat)
    requires Sane(c) && AllRead(seen) && Read(x) && AllRead(seen + [x]) && |Stream(c, seen)| <= i < |Stream(c, seen + [x])|
    requires Stream(c, seen + [x])[i] == Torque(true)
    ensures EnabledIn(c, seen + [x], i, |seen|)
  {
    EnabledInLast(c, seen, x, i);
    Prefixes(seen, x);
  }

  lemma Prefixes<T>(front: seq<T>, x: T)
    ensures (front + [x])[..|front|] == front && (front + [x])[..|front| + 1] == front + [x]
  {
  }

  lemma EnabledInLast(c: Config, seen: seq<Inputs>, x: Inputs, i: nat)
    requires Sane(c) && AllRead(seen) && Read(x) && AllRead(seen + [x]) && |Stream(c, seen)| <= i < |Stream(c, seen + [x])|
    requires Stream(c, seen + [x])[i] == Torque(true)
    ensures |Stream(c, seen)| < i && x.follower.Some? && Stream(c, seen + [x])[i - 1] == Goal(x.follower.value)
  {
    hide Stream, Commands, Sane, RunFrom;
    StreamGrows(c, seen, x);
    EnabledAtEnd(c, RunFrom(c, START, seen), x, Stream(c, seen), i);
  }

  lemma EnabledAtEnd(c: Config, s: Ctl, x: Inputs, front: seq<Command>, i: nat)
    requires Sane(c) && CtlInv(s) && Read(x) && |front| <= i < |front + Commands(c, s, x)|
    requires (front + Commands(c, s, x))[i] == Torque(true)
    ensures |front| < i && x.follower.Some? && (front + Commands(c, s, x))[i - 1] == Goal(x.follower.value)
  {
    EnableIsGentle(c, s, x, i - |front|);
  }

  /** In every run, every command that switches torque on is one of those. */
  lemma {:induction false} EnableInStream(c: Config, seen: seq<Inputs>, i: nat) returns (k: nat)
    requires Sane(c) && AllRead(seen) && i < |Stream(c, seen)| && Stream(c, seen)[i] == Torque(true)
    ensures EnabledIn(c, seen, i, k)
  {
    assert seen != [];
    var n := |seen| - 1;
    var front, x := seen[..n], seen[n];
    assert seen == front + [x];
    if i < |Stream(c, front)| {
      StreamGrows(c, front, x);
      k := EnableInStream(c, front, i);
      EnabledStays(c, front, x, i, k);
    } else {
      k := n;
      EnabledNow(c, front, x, i);
    }
  }

  // ------------------------------------------------------ stays in one mode

  /** The cycles of an unbroken stay: the first one enters the mode, the others find it applied. */
  predicate Stay(seen: seq<Inputs>, mode: U32) {
    seen != [] && forall k :: 0 <= k < |seen| ==> Asked(seen[k].req) == mode && (k > 0 ==> !seen[k].reopened)
  }

  /** The cycle that enters the mode sets every ramp bit. */
  lemma EntryCycle(c: Config, s: Ctl, seen: Inputs, j: nat)
    requires Sane(c) && Read(seen) && CtlInv(s) && j < NJ
    requires Moves(Asked(seen.req)) && s.applied != Asked(seen.req) && !Refuses(s, seen)
    ensures var t, w := Cycle(c, s, seen), Switched(s, seen);
            && t.torque && t.applied == w.applied == Asked(seen.req) && t.hold == w.hold && Shape(w)
            && AxisOf(t, j) == AxisStep(c.limits, Axis(Base(s, seen)[j], true), Target(c, w, seen, j))
  {
  }

  lemma StayCycle(c: Config, s: Ctl, seen: Inputs, j: nat)
    requires Sane(c) && Read(seen) && CtlInv(s) && j < NJ
    requires s.torque && s.applied == Asked(seen.req) && !seen.reopened
    ensures var t := Cycle(c, s, seen);
            && t.torque && t.applied == s.applied && t.hold == s.hold
            && AxisOf(t, j) == AxisStep(c.limits, AxisOf(s, j), Target(c, s, seen, j))
  {
  }

  /** The stay that began with cycle 0 soft-starts joint `j` to the pose latched then. */
  ghost predicate Held(c: Config, s: Ctl, seen: seq<Inputs>, j: nat)
    requires Sane(c) && AllRead(seen) && CtlInv(s) && j < NJ && seen != []
  {
    var t, w := RunFrom(c, s, seen), Switched(s, seen[0]);
    && t.torque && t.applied == HOLD && t.hold == w.hold && |w.hold| == |Base(s, seen[0])| == NJ
    && AxisOf(t, j) == Track(c.limits, Axis(Base(s, seen[0])[j], true), Same(w.hold[j], |seen|))
  }

  lemma HoldBegins(c: Config, s: Ctl, x: Inputs, j: nat)
    requires Sane(c) && AllRead([x]) && Read(x) && CtlInv(s) && j < NJ
    requires Asked(x.req) == HOLD && s.applied != HOLD && !Refuses(s, x)
    ensures Held(c, s, [x], j)
  {
    var hold := Switched(s, x).hold[j];
    assert [x][..0] == [];
    SameGrows(hold, 1);
    assert Same(hold, 0) == [];
    EntryCycle(c, s, x, j);
    EntryIsInt16(c, s, x, j);
  }

  lemma HoldGoesOn(c: Config, s: Ctl, seen: seq<Inputs>, x: Inputs, j: nat)
    requires Sane(c) && AllRead(seen) && Read(x) && AllRead(seen + [x]) && CtlInv(s) && j < NJ && seen != []
    requires Held(c, s, seen, j) && Asked(x.req) == HOLD && !x.reopened
    ensures Held(c, s, seen + [x], j)
  {
    SameGrows(Switched(s, seen[0]).hold[j], |seen| + 1);
    RunGrows(c, s, seen, x);
    StayCycle(c, RunFrom(c, s, seen), x, j);
  }

  /** In a HOLD stay each joint is soft-started to the pose latched on entry. */
  lemma {:induction false} HoldStay(c: Config, s: Ctl, seen: seq<Inputs>, j: nat)
    requires Sane(c) && AllRead(seen) && CtlInv(s) && j < NJ
    requires Stay(seen, HOLD) && s.applied != HOLD && !Refuses(s, seen[0])
    ensures Held(c, s, seen, j)
  {
    var n := |seen| - 1;
    if n == 0 {
      HoldBegins(c, s, seen[0], j);
      assert seen == [seen[0]];
    } else {
      HoldStay(c, s, seen[..n], j);
      HoldGoesOn(c, s, seen[..n], seen[n], j);
      assert seen == seen[..n] + [seen[n]];
    }
  }

  lemma EntryIsInt16(c: Config, s: Ctl, seen: Inputs, j: nat)
    requires Read(seen) && CtlInv(s) && j < NJ
    ensures |Base(s, seen)| == NJ == |Switched(s, seen).hold|
    ensures IsInt16(Base(s, seen)[j]) && IsInt16(Switched(s, seen).hold[j])
  {
  }

  /** So a held joint arrives in bounded time, and then stays, where the arm was read to be on entering
      HOLD or, failing that, where it was being sent. */
  lemma HoldArrives(c: Config, s: Ctl, seen: seq<Inputs>, j: nat)
    requires Sane(c) && AllRead(seen) && CtlInv(s) && j < NJ
    requires Stay(seen, HOLD) && s.applied != HOLD && !Refuses(s, seen[0])
    requires |seen| >= HoldCycles(c.limits, Distance(Base(s, seen[0])[j], Switched(s, seen[0]).hold[j]))
    ensures RunFrom(c, s, seen).goal[j] ==
            if seen[0].follower.Some? then seen[0].follower.value[j] else s.goal[j]
  {
    HoldStay(c, s, seen, j);
    EntryIsInt16(c, s, seen[0], j);
    var a, hold := Axis(Base(s, seen[0])[j], true), Switched(s, seen[0]).hold[j];
    HoldConverges(c.limits, a, hold, |seen|);
  }

  /** Where the leader sends joint `j` in each of these cycles, as far as it has been read. */
  ghost function Aims(c: Config, seen: seq<Inputs>, j: nat): (aims: seq<Option<int>>)
    requires Sane(c) && AllRead(seen) && j < NJ
    ensures |aims| == |seen|
  {
    seq(|seen|, k requires 0 <= k < |seen| => AimOf(c, seen[k], j))
  }

  ghost function AimOf(c: Config, x: Inputs, j: nat): Option<int>
    requires Sane(c) && Read(x) && j < NJ
  {
    if x.leader.Some? then Some(c.lead(j, x.leader.value[j])) else None
  }

  /** In a TELEOP stay each joint is soft-started to the leader's position, as far as that is read. */
  lemma {:induction false} TeleopStay(c: Config, s: Ctl, seen: seq<Inputs>, j: nat)
    requires Sane(c) && AllRead(seen) && CtlInv(s) && j < NJ
    requires Stay(seen, TELEOP) && s.applied != TELEOP && !Refuses(s, seen[0])
    ensures var t := RunFrom(c, s, seen);
            && t.torque && t.applied == TELEOP
            && AxisOf(t, j) == Chase(c.limits, Axis(Base(s, seen[0])[j], true), Aims(c, seen, j))
  {
    var n := |seen| - 1;
    assert Aims(c, seen, j)[..n] == Aims(c, seen[..n], j);
    if n > 0 {
      TeleopStay(c, s, seen[..n], j);
      StayCycle(c, RunFrom(c, s, seen[..n]), seen[n], j);
    } else {
      assert seen[..0] == [];
      assert Aims(c, [], j) == [];
      EntryCycle(c, s, seen[0], j);
    }
  }

  /** What ends the soft start of joint `j` in cycle `k` of a TELEOP stay: a failed read of the leader, however far away
      that is, or a leader that is near. */
  ghost predicate EndsIn(c: Config, s: Ctl, seen: seq<Inputs>, j: nat, k: nat)
    requires Sane(c) && AllRead(seen) && CtlInv(s) && j < NJ && seen != [] && |Base(s, seen[0])| == NJ
  {
    k < |seen| && (
      seen[k].leader.None? ||
      var goal := if k == 0 then Base(s, seen[0])[j] else RunFrom(c, s, seen[..k]).goal[j];
      Distance(c.lead(j, seen[k].leader.value[j]), goal) <= c.limits.rampDone)
  }

  /** In every TELEOP stay a joint is out of the soft start exactly if it has been near the leader or a read of the leader
      has failed. */
  lemma SoftStartOverIff(c: Config, s: Ctl, seen: seq<Inputs>, j: nat)
    requires Sane(c) && AllRead(seen) && CtlInv(s) && j < NJ
    requires Stay(seen, TELEOP) && s.applied != TELEOP && !Refuses(s, seen[0])
    ensures |Base(s, seen[0])| == NJ
    ensures j !in RunFrom(c, s, seen).ramp <==> exists k :: EndsIn(c, s, seen, j, k)
  {
    EntryIsInt16(c, s, seen[0], j);
    hide Chase, RunFrom, Stay, Base, Refuses, Aims, Ends, EndsIn;
    var a, aims := Axis(Base(s, seen[0])[j], true), Aims(c, seen, j);
    TeleopStay(c, s, seen, j);
    RampOverIff(c.limits, a, aims);
    forall k: nat ensures Ends(c.limits, a, aims, k) <==> EndsIn(c, s, seen, j, k) {
      EndsAlike(c, s, seen, j, k);
    }
  }

  lemma EndsAlike(c: Config, s: Ctl, seen: seq<Inputs>, j: nat, k: nat)
    requires Sane(c) && AllRead(seen) && CtlInv(s) && j < NJ
    requires Stay(seen, TELEOP) && s.applied != TELEOP && !Refuses(s, seen[0]) && |Base(s, seen[0])| == NJ
    ensures Ends(c.limits, Axis(Base(s, seen[0])[j], true), Aims(c, seen, j), k) <==> EndsIn(c, s, seen, j, k)
  {
    hide RunFrom, Base, Refuses;
    if 0 < k < |seen| {
      assert Aims(c, seen, j)[..k] == Aims(c, seen[..k], j);
      TeleopStay(c, s, seen[..k], j);
    }
  }

  /** A cycle of TELEOP with torque on that fails to read the leader ends the soft start of every joint where it is; the
      next one that does read it moves every joint at full speed, however far it has to go. */
  lemma LostReadEndsSoftStart(c: Config, s: Ctl, lost: Inputs, x: Inputs, j: nat)
    requires Sane(c) && Read(lost) && Read(x) && CtlInv(s) && j < NJ
    requires Cycle(c, s, lost).torque && Cycle(c, s, lost).applied == TELEOP && lost.leader.None?
    requires Asked(x.req) == TELEOP && !x.reopened && x.leader.Some?
    ensures CtlInv(Cycle(c, s, lost))
    ensures var t, target := Cycle(c, s, lost), c.lead(j, x.leader.value[j]);
            var u := Cycle(c, t, x);
            && t.ramp == {} && t.goal == Base(s, lost)
            && Between(t.goal[j], u.goal[j], target) && u.ramp == {}
            && Distance(t.goal[j], u.goal[j]) == Min(Distance(t.goal[j], target), c.limits.maxStep)
  {
    CycleKeepsInv(c, s, lost);
    var t := Cycle(c, s, lost);
    forall i | 0 <= i < NJ ensures t.goal[i] == Base(s, lost)[i] && i !in t.ramp {
      CycleMoves(c, s, lost, i);
    }
    StayCycle(c, t, x, j);
    StepMoves(c.limits, AxisOf(t, j), c.lead(j, x.leader.value[j]));
    forall i | 0 <= i < NJ ensures i !in Cycle(c, t, x).ramp {
      CycleMoves(c, t, x, i);
    }
  }

  /** With a leader that is slow enough the soft start ends, and the follower is then sent exactly where
      the leader points, in every cycle. Reads of the leader may fail before cycle `n`; that ends the soft start, too. */
  lemma TeleopArrives(c: Config, s: Ctl, seen: seq<Inputs>, j: nat, n: nat, v: int, lo: int, hi: int)
    requires Sane(c) && AllRead(seen) && CtlInv(s) && j < NJ && n < |seen|
    requires Stay(seen, TELEOP) && s.applied != TELEOP && !Refuses(s, seen[0])
    requires var aims := Aims(c, seen, j);
             && AllKnown(aims[n..]) && Slow(Values(aims[n..]), v) && SoftStartOver(c.limits, aims[..n], v, lo, hi)
    requires 0 <= v < c.limits.maxStep && |seen| - n >= CatchCycles(c.limits, v, lo, hi)
    requires -0x8000 <= lo <= c.lo[j] < c.hi[j] <= hi < 0x8000 && lo <= Base(s, seen[0])[j] <= hi
    ensures seen[|seen| - 1].leader.Some?
    ensures var t := RunFrom(c, s, seen);
            t.goal[j] == c.lead(j, seen[|seen| - 1].leader.value[j]) && j !in t.ramp
  {
    var aims, a := Aims(c, seen, j), Axis(Base(s, seen[0])[j], true);
    TeleopStay(c, s, seen, j);
    ChaseTracks(c.limits, a, aims, n, v, lo, hi);
    assert aims[n..][|seen| - 1 - n] == aims[|seen| - 1] == AimOf(c, seen[|seen| - 1], j);
  }
}
