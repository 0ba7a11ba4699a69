/** The control thread as it is written: one long loop over its own variables. */
module ControlThread {
  import opened Bytes
  import opened Modes
  import opened Calibration
  import opened Trajectory
  import opened Control
  import Reconnection

  /** What a cycle publishes of itself. */
  datatype Sample = Sample(
    cycle: nat, leaderOk: bool, followerOk: bool, leaderStreak: U16, followerStreak: U16,
    mode: U32, torqueOn: bool, ramping: set<nat>, goal: seq<int>)

  /** What the world does in one cycle: how late the thread wakes up and how long it works, what the two sync
      reads bring, and the mode it is asked for. */
  datatype Turn = Turn(delay: nat, work: nat, leader: Option<seq<int>>, follower: Option<seq<int>>, modeReq: U32)

  predicate Posed(turns: seq<Turn>) {
    forall k :: 0 <= k < |turns| ==>
      (turns[k].leader.Some? ==> Pose(turns[k].leader.value)) && (turns[k].follower.Some? ==> Pose(turns[k].follower.value))
  }

  /** How the two links stand after the first `n` turns. */
  function LeaderAt(turns: seq<Turn>, n: nat): Reconnection.Link
    requires n <= |turns|
  {
    if n == 0 then Reconnection.Link(0, 0) else Reconnection.Next(LeaderAt(turns, n - 1), turns[n - 1].leader.Some?, n)
  }

  function FollowerAt(turns: seq<Turn>, n: nat): Reconnection.Link
    requires n <= |turns|
  {
    if n == 0 then Reconnection.Link(0, 0) else Reconnection.Next(FollowerAt(turns, n - 1), turns[n - 1].follower.Some?, n)
  }

  /** Is the leader's, the follower's bus opened again in cycle `n`? */
  predicate LeaderReopens(turns: seq<Turn>, n: nat)
    requires 1 <= n <= |turns|
  {
    Reconnection.Reopens(LeaderAt(turns, n - 1), turns[n - 1].leader.Some?, n)
  }

  predicate FollowerReopens(turns: seq<Turn>, n: nat)
    requires 1 <= n <= |turns|
  {
    Reconnection.Reopens(FollowerAt(turns, n - 1), turns[n - 1].follower.Some?, n)
  }

  /** What the control thread finds in cycle `n`, and in the first `n` cycles. */
  function SeenIn(turns: seq<Turn>, n: nat): Inputs
    requires 1 <= n <= |turns|
  {
    var t := turns[n - 1];
    Inputs(t.leader, t.follower, FollowerReopens(turns, n), t.modeReq)
  }

  function Seen(turns: seq<Turn>, n: nat): (seen: seq<Inputs>)
    requires n <= |turns|
    ensures |seen| == n
  {
    if n == 0 then [] else Seen(turns, n - 1) + [SeenIn(turns, n)]
  }

  /** What the leader's servos have been sent: they stay passive. */
  function LeaderSent(turns: seq<Turn>, n: nat): seq<Command>
    requires n <= |turns|
  {
    if n == 0 then [Torque(false)]
    else LeaderSent(turns, n - 1) + if LeaderReopens(turns, n) then [Torque(false)] else []
  }

  /** What cycle `n` publishes. */
  function SampleOf(n: nat, seen: Inputs, t: Ctl, leader: Reconnection.Link, follower: Reconnection.Link): Sample {
    Sample(n, seen.leader.Some?, seen.follower.Some?, leader.streak, follower.streak, t.applied, t.torque, t.ramp, t.goal)
  }

  ghost function SampleIn(c: Config, turns: seq<Turn>, n: nat): Sample
    requires Sane(c) && 1 <= n <= |turns| && AllRead(Seen(turns, n))
  {
    SampleOf(n, SeenIn(turns, n), RunFrom(c, START, Seen(turns, n)), LeaderAt(turns, n), FollowerAt(turns, n))
  }

  class Thread {
    const rnd: real -> real
    const leader: seq<Joint>
    const follower: seq<Joint>
    const limits: Limits
    const period: int
    ghost const cfg: Config
    const goal: array<int>
    const hold: array<int>
    var applied: U32
    var torque: bool
    var ramp: set<nat>
    // What the last sync reads brought.
    var cycle: nat
    var leaderOk: bool
    var leaderNorm: seq<real>
    var followerOk: bool
    var followerPos: seq<int>
    var leaderErrs: U32
    var followerErrs: U32
    var leaderStreak: U16
    var followerStreak: U16
    var retryLeader: nat
    var retryFollower: nat
    // The fixed time grid.
    var next: int
    var overruns: U32
    var missedSlots: U32
    ghost const start: int
    ghost var late: nat
    ghost var skipped: nat
    /** Everything the follower and the leader have been sent. */
    var sent: seq<Command>
    var leaderSent: seq<Command>

    ghost predicate Valid()
      reads this, goal, hold
    {
      && Configured()
      && goal.Length == hold.Length == NJ && goal != hold
      && CtlInv(Now())
      && |leaderNorm| == |followerPos| == NJ
    }

    ghost function Now(): Ctl
      reads this, goal, hold
    {
      Ctl(applied, torque, ramp, goal[..], hold[..])
    }

    /** The configuration is the one the calibrations of the two arms give. */
    ghost predicate Configured() {
      && |leader| == |follower| == NJ && Sane(cfg) && cfg.limits == limits
      && forall j, raw :: 0 <= j < NJ ==> cfg.lead(j, raw) == Follow(rnd, leader[j], follower[j], raw)
    }

    ghost function LeaderLink(): Reconnection.Link
      reads this
    {
      Reconnection.Link(leaderStreak, retryLeader)
    }

    ghost function FollowerLink(): Reconnection.Link
      reads this
    {
      Reconnection.Link(followerStreak, retryFollower)
    }

    /** The grid: every cycle has used up one slot and the skipped ones are counted. */
    ghost predicate OnGrid()
      reads this
    {
      && period > 0 && next == start + period * (cycle + 1 + skipped)
      && overruns == late % U32_SIZE && missedSlots == skipped % U32_SIZE && late <= skipped
    }

    constructor (rnd: real -> real, leader: seq<Joint>, follower: seq<Joint>, limits: Limits, period: int, now: int)
      requires Calibrated(rnd, leader, follower) && Usable(limits) && period > 0
      ensures New() && fresh(goal) && fresh(hold) && next == now + period && skipped == 0
      ensures this.rnd == rnd && this.leader == leader && this.follower == follower && this.limits == limits
      ensures this.period == period && start == now
    {
      this.rnd, this.leader, this.follower, this.limits := rnd, leader, follower, limits;
      this.period := period;
      this.cfg := ConfigOf(rnd, leader, follower, limits);
      goal, hold := new int[NJ](_ => 0), new int[NJ](_ => 0);
      applied, torque, ramp := IDLE, false, {};
      cycle, leaderOk, followerOk := 0, false, false;
      leaderNorm, followerPos := seq(NJ, _ => 0.0), seq(NJ, _ => 0);
      leaderErrs, followerErrs, leaderStreak, followerStreak := 0, 0, 0, 0;
      retryLeader, retryFollower := 0, 0;
      next, overruns, missedSlots := now + period, 0, 0;
      start, late, skipped := now, 0, 0;
      sent, leaderSent := [Torque(false)], [Torque(false)];
      new;
      assert goal[..] == START.goal && hold[..] == START.hold;
      CalibratedIsSane(rnd, leader, follower, limits);
    }

    /** The first `n` joints' normalised positions are those of `pos`. */
    ghost predicate Normed(pos: seq<int>, n: nat)
      requires n <= |leader| && n <= |pos| && n <= |leaderNorm|
      reads this
    {
      forall j :: 0 <= j < n ==> leaderNorm[j] == Normalize(rnd, leader[j], pos[j])
    }

    /** The leader's sync read, and its reconnection. Says whether the bus was opened again. */
    method ReadLeader(pos: Option<seq<int>>) returns (reopened: bool)
      requires Configured() && |leaderNorm| == NJ && (pos.Some? ==> Pose(pos.value))
      modifies this`leaderOk, this`leaderNorm, this`leaderErrs, this`leaderStreak, this`retryLeader, this`leaderSent
      ensures leaderSent == old(leaderSent) + if reopened then [Torque(false)] else []
      ensures leaderOk == pos.Some? && |leaderNorm| == NJ
      ensures pos.Some? ==> Normed(pos.value, NJ)
      ensures leaderErrs == if pos.Some? then old(leaderErrs) else AddU32(old(leaderErrs), 1)
      ensures reopened == Reconnection.Reopens(old(LeaderLink()), pos.Some?, cycle)
      ensures LeaderLink() == Reconnection.Next(old(LeaderLink()), pos.Some?, cycle)
    {
      leaderOk := pos.Some?;
      if leaderOk {
        for j := 0 to NJ
          modifies this`leaderNorm
          invariant |leaderNorm| == NJ && Normed(pos.value, j)
        {
          leaderNorm := leaderNorm[j := Normalize(rnd, leader[j], pos.value[j])];
        }
      } else {
        leaderErrs := AddU32(leaderErrs, 1);
      }
      leaderStreak := if leaderOk then 0 else leaderStreak + if leaderStreak < 0xFFFF then 1 else 0;
      reopened := leaderStreak >= Reconnection.REOPEN_AFTER && cycle >= retryLeader;
      if reopened {
        leaderSent := leaderSent + [Torque(false)];
        retryLeader := cycle + Reconnection.REOPEN_AFTER;
      }
    }

    /** The follower's sync read, and its reconnection: the servos may have kept torque, so it is switched off. */
    method ReadFollower(pos: Option<seq<int>>) returns (reopened: bool)
      requires |followerPos| == NJ && (pos.Some? ==> Pose(pos.value))
      modifies this`followerOk, this`followerPos, this`followerErrs, this`followerStreak, this`retryFollower,
               this`torque, this`sent
      ensures followerOk == pos.Some? && |followerPos| == NJ && (pos.Some? ==> followerPos == pos.value)
      ensures followerErrs == if pos.Some? then old(followerErrs) else AddU32(old(followerErrs), 1)
      ensures reopened == Reconnection.Reopens(old(FollowerLink()), pos.Some?, cycle)
      ensures FollowerLink() == Reconnection.Next(old(FollowerLink()), pos.Some?, cycle)
      ensures torque == (old(torque) && !reopened)
      ensures sent == old(sent) + if reopened then [Torque(false)] else []
    {
      followerOk := pos.Some?;
      if followerOk {
        followerPos := pos.value;
      } else {
        followerErrs := AddU32(followerErrs, 1);
      }
      followerStreak := if followerOk then 0 else followerStreak + if followerStreak < 0xFFFF then 1 else 0;
      reopened := followerStreak >= Reconnection.REOPEN_AFTER && cycle >= retryFollower;
      if reopened {
        retryFollower := cycle + Reconnection.REOPEN_AFTER;
        SetTorque(false);
        torque := false;
      }
    }

    method SetTorque(on: bool)
      modifies this`sent
      ensures sent == old(sent) + [Torque(on)]
    {
      sent := sent + [Torque(on)];
    }

    method WriteGoal()
      modifies this`sent
      ensures sent == old(sent) + [Goal(goal[..])]
    {
      sent := sent + [Goal(goal[..])];
    }

    /** Copies the follower's position into `a`. */
    method Latch(a: array<int>)
      requires a.Length == |followerPos| == NJ
      modifies a
      ensures a[..] == followerPos
    {
      for j := 0 to NJ
        invariant a[..j] == followerPos[..j]
      {
        a[j] := followerPos[j];
      }
    }

    /** Applies the mode asked for. Answers true if torque has been refused, false if it has been switched on. */
    method ChangeMode(asked: U32, ghost s: Ctl, ghost seen: Inputs) returns (refused: Option<bool>)
      requires goal.Length == hold.Length == NJ && goal != hold && |followerPos| == NJ
      requires CtlInv(s) && Now() == Reconnected(s, seen) && asked == seen.req && Read(seen)
      requires followerOk == seen.follower.Some? && (followerOk ==> followerPos == seen.follower.value)
      modifies this`applied, this`torque, this`ramp, this`sent, goal, hold
      ensures Now() == Switched(s, seen)
      ensures sent == old(sent) + Switching(s, seen)
      ensures refused == if Refuses(s, seen) then Some(true) else if Enables(s, seen) then Some(false) else None
    {
      refused := None;
      var req := if asked > ESTOP then IDLE else asked;
      if req == applied {
        return;
      }
      if req == TELEOP || req == HOLD {
        if !torque {
          if !followerOk {
            refused := Some(true);
            req := applied;
          } else {
            Latch(goal);
            WriteGoal();
            SetTorque(true);
            torque := true;
            refused := Some(false);
          }
        }
        if req == HOLD && torque {
          LatchHold();
        }
      } else if torque {
        SetTorque(false);
        torque := false;
      }
      if req != applied && torque {
        ramp := UpTo(NJ);
      }
      applied := req;
    }

    /** The pose to hold: where the arm is, or where it is being sent if that is not known. */
    method LatchHold()
      requires goal.Length == hold.Length == |followerPos| == NJ && goal != hold
      modifies hold
      ensures hold[..] == if followerOk then followerPos else goal[..]
    {
      for j := 0 to NJ
        invariant hold[..j] == if followerOk then followerPos[..j] else goal[..j]
      {
        hold[j] := if followerOk then followerPos[j] else goal[j];
      }
    }

    /** Moves joint `j` towards its target. */
    method MoveJoint(j: nat, target: int)
      requires goal.Length == NJ && j < NJ
      modifies this`ramp, goal
      ensures forall i :: 0 <= i < NJ && i != j ==> goal[i] == old(goal[i]) && (i in ramp <==> i in old(ramp))
      ensures Axis(goal[j], j in ramp) == AxisStep(limits, old(Axis(goal[j], j in ramp)), target)
      ensures forall i :: i in ramp ==> i in old(ramp)
    {
      var d := target - goal[j];
      if j in ramp && Distance(target, goal[j]) <= limits.rampDone {
        ramp := ramp - {j};
      }
      var step := if j in ramp then limits.rampStep else limits.maxStep;
      if d > step {
        d := step;
      }
      if d < -step {
        d := -step;
      }
      goal[j] := Int16(goal[j] + d);
    }

    /** Where joint `j` should be: with the leader, at the pose to hold, or where it is being sent. */
    method TargetOf(j: nat) returns (target: int)
      requires goal.Length == hold.Length == |leaderNorm| == |follower| == NJ && j < NJ
      ensures target == if applied == TELEOP && leaderOk then Unnormalize(rnd, follower[j], leaderNorm[j])
                        else if applied == HOLD then hold[j] else goal[j]
    {
      target := goal[j];
      if applied == TELEOP && leaderOk {
        target := Unnormalize(rnd, follower[j], leaderNorm[j]);
      } else if applied == HOLD {
        target := hold[j];
      }
    }

    /** The target of joint `j` is the one the calibrations give. */
    lemma TargetIs(w: Ctl, seen: Inputs, j: nat)
      requires Configured() && |leaderNorm| == NJ
      requires j < NJ && Read(seen) && Shape(w)
      requires leaderOk == seen.leader.Some? && (leaderOk ==> Normed(seen.leader.value, NJ))
      ensures Target(cfg, w, seen, j) == if w.applied == TELEOP && leaderOk then Unnormalize(rnd, follower[j], leaderNorm[j])
                                       else if w.applied == HOLD then w.hold[j] else w.goal[j]
    {
    }

    /** Every joint takes its step. */
    method MoveJoints(ghost seen: Inputs)
      requires Configured() && goal.Length == hold.Length == NJ && goal != hold && |leaderNorm| == NJ
      requires forall i :: i in ramp ==> i < NJ
      requires Read(seen) && torque
      requires leaderOk == seen.leader.Some? && (leaderOk ==> Normed(seen.leader.value, NJ))
      modifies this`ramp, goal
      ensures Now() == Moved(cfg, old(Now()), seen)
    {
      ghost var w := Now();
      for j := 0 to NJ
        invariant forall i :: 0 <= i < j ==> Axis(goal[i], i in ramp) == AxisNext(cfg, w, seen, i)
        invariant forall i :: j <= i < NJ ==> goal[i] == w.goal[i] && (i in ramp <==> i in w.ramp)
        invariant forall i :: i in ramp ==> i < NJ
        invariant hold[..] == w.hold
      {
        TargetIs(w, seen, j);
        var target := TargetOf(j);
        MoveJoint(j, target);
      }
      assert goal[..] == Moved(cfg, w, seen).goal;
      assert ramp == Moved(cfg, w, seen).ramp;
    }

    /** What readers get to see of the cycle. */
    method Publish() returns (s: Sample)
      requires goal.Length == NJ
      modifies this`ramp
      ensures ramp == if torque then old(ramp) else {}
      ensures s == Sample(cycle, leaderOk, followerOk, leaderStreak, followerStreak, applied, torque, ramp, goal[..])
    {
      if !torque {
        ramp := {};
      }
      s := Sample(cycle, leaderOk, followerOk, leaderStreak, followerStreak, applied, torque, ramp, goal[..]);
    }

    /** Moves the goal, or lets it follow the arm. */
    method Drive(ghost w: Ctl, ghost seen: Inputs)
      requires Configured() && goal.Length == hold.Length == NJ && goal != hold && |leaderNorm| == |followerPos| == NJ
      requires Now() == w && Read(seen) && (torque ==> forall i :: i in ramp ==> i < NJ)
      requires leaderOk == seen.leader.Some? && (leaderOk ==> Normed(seen.leader.value, NJ))
      requires followerOk == seen.follower.Some? && (followerOk ==> followerPos == seen.follower.value)
      modifies this`ramp, this`sent, goal
      ensures applied == w.applied && torque == w.torque && hold[..] == w.hold
      ensures goal[..] == Moved(cfg, w, seen).goal && (torque ==> ramp == Moved(cfg, w, seen).ramp)
      ensures sent == old(sent) + if torque then [Goal(goal[..])] else []
    {
      if torque {
        MoveJoints(seen);
        WriteGoal();
      } else if followerOk {
        Latch(goal);
      }
    }

    /** Mode transition, goal and publication. */
    method Steer(modeReq: U32, ghost before: Ctl, ghost seen: Inputs, ghost sentBefore: seq<Command>)
      returns (s: Sample, refused: Option<bool>)
      requires Configured() && goal.Length == hold.Length == NJ && goal != hold && |leaderNorm| == |followerPos| == NJ
      requires CtlInv(before) && Now() == Reconnected(before, seen) && modeReq == seen.req && Read(seen)
      requires leaderOk == seen.leader.Some? && (leaderOk ==> Normed(seen.leader.value, NJ))
      requires followerOk == seen.follower.Some? && (followerOk ==> followerPos == seen.follower.value)
      requires sent == sentBefore + Reconnecting(seen)
      modifies this`applied, this`torque, this`ramp, this`sent, goal, hold
      ensures Valid() && Now() == Control.Cycle(cfg, before, seen)
      ensures sent == sentBefore + Commands(cfg, before, seen)
      ensures refused == if Refuses(before, seen) then Some(true) else if Enables(before, seen) then Some(false) else None
      ensures s == SampleOf(cycle, seen, Now(), LeaderLink(), FollowerLink())
    {
      CycleKeepsInv(cfg, before, seen);
      refused := ChangeMode(modeReq, before, seen);
      Drive(Switched(before, seen), seen);
      assert sent == sentBefore + Commands(cfg, before, seen);
      s := Publish();
    }

    /** The next slot of the grid: the ones that have already passed are skipped and counted. */
    method NextSlot(now: int)
      requires period > 0 && next == start + period * (cycle + skipped)
      requires overruns == late % U32_SIZE && missedSlots == skipped % U32_SIZE && late <= skipped && now >= next
      modifies this`next, this`overruns, this`missedSlots, this`late, this`skipped
      ensures OnGrid() && 0 <= next - now <= period
      ensures old(skipped) <= skipped && (skipped > old(skipped) <==> now > old(next) + period)
      ensures late == old(late) + if skipped > old(skipped) then 1 else 0
    {
      next := next + period;
      SlotAfter(period, cycle + skipped);
      if now > next {
        CountU32(late, 1);
        overruns, late := AddU32(overruns, 1), late + 1;
        while next < now
          modifies this`next, this`missedSlots, this`skipped
          invariant next == start + period * (cycle + 1 + skipped) && next < now + period
          invariant missedSlots == skipped % U32_SIZE && old(skipped) <= skipped
          invariant skipped == old(skipped) ==> next < now
          decreases now - next
        {
          SlotAfter(period, cycle + 1 + skipped);
          CountU32(skipped, 1);
          next := next + period;
          missedSlots, skipped := AddU32(missedSlots, 1), skipped + 1;
        }
      }
    }

    /** Both sync reads. */
    method ReadBuses(leaderPos: Option<seq<int>>, newPos: Option<seq<int>>, ghost modeReq: U32)
      returns (ghost seen: Inputs)
      requires Configured() && |leaderNorm| == |followerPos| == NJ
      requires (leaderPos.Some? ==> Pose(leaderPos.value)) && (newPos.Some? ==> Pose(newPos.value))
      modifies this`leaderOk, this`leaderNorm, this`leaderErrs, this`leaderStreak, this`retryLeader, this`leaderSent,
               this`followerOk, this`followerPos, this`followerErrs, this`followerStreak, this`retryFollower,
               this`torque, this`sent
      ensures seen == Inputs(leaderPos, newPos, Reconnection.Reopens(old(FollowerLink()), newPos.Some?, cycle), modeReq)
      ensures |leaderNorm| == |followerPos| == NJ && Read(seen)
      ensures leaderOk == leaderPos.Some? && (leaderOk ==> Normed(leaderPos.value, NJ))
      ensures followerOk == newPos.Some? && (followerOk ==> followerPos == newPos.value)
      ensures LeaderLink() == Reconnection.Next(old(LeaderLink()), leaderPos.Some?, cycle)
      ensures FollowerLink() == Reconnection.Next(old(FollowerLink()), newPos.Some?, cycle)
      ensures torque == (old(torque) && !seen.reopened) && sent == old(sent) + Reconnecting(seen)
      ensures leaderSent == old(leaderSent)
                + if Reconnection.Reopens(old(LeaderLink()), leaderPos.Some?, cycle) then [Torque(false)] else []
    {
      var leaderReopened := ReadLeader(leaderPos);
      var reopened := ReadFollower(newPos);
      seen := Inputs(leaderPos, newPos, reopened, modeReq);
    }

    /** What a cycle does between waking up and looking at the clock again. */
    method Act(leaderPos: Option<seq<int>>, newPos: Option<seq<int>>, modeReq: U32)
      returns (s: Sample, refused: Option<bool>, ghost seen: Inputs)
      requires Valid()
      requires (leaderPos.Some? ==> Pose(leaderPos.value)) && (newPos.Some? ==> Pose(newPos.value))
      modifies this`leaderOk, this`leaderNorm, this`leaderErrs, this`leaderStreak, this`retryLeader, this`leaderSent,
               this`followerOk, this`followerPos, this`followerErrs, this`followerStreak, this`retryFollower,
               this`applied, this`torque, this`ramp, this`sent, goal, hold
      ensures Valid()
      ensures seen == Inputs(leaderPos, newPos, Reconnection.Reopens(old(FollowerLink()), newPos.Some?, cycle), modeReq)
      ensures Read(seen) && Now() == Control.Cycle(cfg, old(Now()), seen)
      ensures sent == old(sent) + Commands(cfg, old(Now()), seen)
      ensures LeaderLink() == Reconnection.Next(old(LeaderLink()), leaderPos.Some?, cycle)
      ensures FollowerLink() == Reconnection.Next(old(FollowerLink()), newPos.Some?, cycle)
      ensures leaderSent == old(leaderSent)
                + if Reconnection.Reopens(old(LeaderLink()), leaderPos.Some?, cycle) then [Torque(false)] else []
      ensures refused == if Refuses(old(Now()), seen) then Some(true) else if Enables(old(Now()), seen) then Some(false) else None
      ensures s == SampleOf(cycle, seen, Now(), LeaderLink(), FollowerLink())
    {
      ghost var before := Now();
      seen := ReadBuses(leaderPos, newPos, modeReq);
      s, refused := Steer(modeReq, before, seen, old(sent));
    }

    /** One cycle, from waking up to the next slot. */
    method Cycle(wake: int, leaderPos: Option<seq<int>>, newPos: Option<seq<int>>, modeReq: U32, now: int)
      returns (s: Sample, refused: Option<bool>, ghost seen: Inputs)
      requires Valid() && OnGrid() && next <= wake <= now
      requires (leaderPos.Some? ==> Pose(leaderPos.value)) && (newPos.Some? ==> Pose(newPos.value))
      modifies this, goal, hold
      ensures Valid() && OnGrid() && cycle == old(cycle) + 1 && 0 <= next - now <= period
      ensures seen == Inputs(leaderPos, newPos, Reconnection.Reopens(old(FollowerLink()), newPos.Some?, cycle), modeReq)
      ensures Read(seen) && Now() == Control.Cycle(cfg, old(Now()), seen)
      ensures sent == old(sent) + Commands(cfg, old(Now()), seen)
      ensures LeaderLink() == Reconnection.Next(old(LeaderLink()), leaderPos.Some?, cycle)
      ensures FollowerLink() == Reconnection.Next(old(FollowerLink()), newPos.Some?, cycle)
      ensures leaderSent == old(leaderSent)
                + if Reconnection.Reopens(old(LeaderLink()), leaderPos.Some?, cycle) then [Torque(false)] else []
      ensures refused == if Refuses(old(Now()), seen) then Some(true) else if Enables(old(Now()), seen) then Some(false) else None
      ensures s == SampleOf(cycle, seen, Now(), LeaderLink(), FollowerLink())
    {
      hide Control.Cycle, Commands, SampleOf, Reconnection.Next, Reconnection.Reopens, Pose;
      cycle := cycle + 1;
      s, refused, seen := Act(leaderPos, newPos, modeReq);
      NextSlot(now);
    }

    /** After `k` of these turns. */
    ghost predicate Follows(turns: seq<Turn>, k: nat)
      reads this, goal, hold
    {
      && Valid() && OnGrid() && cycle == k
      && Recorded(cfg, turns, k, Now(), sent, leaderSent, LeaderLink(), FollowerLink())
    }

    /** One more turn. */
    method Advance(turns: seq<Turn>, k: nat) returns (s: Sample)
      requires k < |turns| && Posed(turns) && Follows(turns, k)
      modifies this, goal, hold
      ensures Follows(turns, k + 1) && PublishedIn(cfg, turns, s, k + 1)
    {
      var t := turns[k];
      RecordedMore(cfg, turns, k, Now(), sent, leaderSent, LeaderLink(), FollowerLink());
      var refused;
      ghost var x;
      s, refused, x := Cycle(next + t.delay, t.leader, t.follower, t.modeReq, next + t.delay + t.work);
    }

    /** The loop, until it is told to stop. */
    method Loop(turns: seq<Turn>) returns (samples: seq<Sample>)
      requires Posed(turns) && New()
      modifies this, goal, hold
      ensures Follows(turns, |turns|) && Published(cfg, turns, samples, |turns|)
    {
      hide Recorded, Published, New, Posed;
      Starts(turns);
      samples := [];
      for k := 0 to |turns|
        invariant Follows(turns, k) && Published(cfg, turns, samples, k)
      {
        var s := Advance(turns, k);
        PublishMore(cfg, turns, samples, k, s);
        samples := samples + [s];
      }
    }

    /** The thread has been set up and has not run yet. */
    ghost predicate New()
      reads this, goal, hold
    {
      && Valid() && OnGrid() && Now() == START && sent == leaderSent == [Torque(false)] && cycle == 0
      && LeaderLink() == FollowerLink() == Reconnection.Link(0, 0)
    }

    /** It has everything still to see. */
    lemma Starts(turns: seq<Turn>)
      requires New()
      ensures Follows(turns, 0) && Published(cfg, turns, [], 0)
    {
      assert StreamFrom(cfg, START, []) == [];
    }

    /** The whole thread, from start to shutdown. */
    method Run(turns: seq<Turn>) returns (samples: seq<Sample>)
      requires Posed(turns) && New()
      modifies this, goal, hold
      ensures OnGrid() && cycle == |turns| && Published(cfg, turns, samples, |turns|)
      ensures sent != [] && sent[|sent| - 1] == Torque(false)
      ensures Recorded(cfg, turns, |turns|, Now(), sent[..|sent| - 1], leaderSent, LeaderLink(), FollowerLink())
    {
      hide Recorded, Published, START, New, Posed;
      samples := Loop(turns);
      ghost var stream := sent;
      SetTorque(false);
      assert sent[..|sent| - 1] == stream;
    }
  }

  /** State, commands and links are those of the first `k` turns. */
  ghost predicate Recorded(c: Config, turns: seq<Turn>, k: nat, ctl: Ctl, sent: seq<Command>, leaderSent: seq<Command>,
                           leader: Reconnection.Link, follower: Reconnection.Link) {
    && Sane(c) && k <= |turns| && AllRead(Seen(turns, k))
    && ctl == RunFrom(c, START, Seen(turns, k)) && sent == Stream(c, Seen(turns, k))
    && leaderSent == LeaderSent(turns, k) && leader == LeaderAt(turns, k) && follower == FollowerAt(turns, k)
  }

  lemma RecordedMore(c: Config, turns: seq<Turn>, k: nat, ctl: Ctl, sent: seq<Command>, leaderSent: seq<Command>,
                     leader: Reconnection.Link, follower: Reconnection.Link)
    requires k < |turns| && Posed(turns) && Recorded(c, turns, k, ctl, sent, leaderSent, leader, follower)
    ensures var t := turns[k];
            var x := Inputs(t.leader, t.follower, Reconnection.Reopens(follower, t.follower.Some?, k + 1), t.modeReq);
            var limp := if Reconnection.Reopens(leader, t.leader.Some?, k + 1) then [Torque(false)] else [];
            var l := Reconnection.Next(leader, t.leader.Some?, k + 1);
            var f := Reconnection.Next(follower, t.follower.Some?, k + 1);
            && CtlInv(ctl) && Read(x)
            && Recorded(c, turns, k + 1, Control.Cycle(c, ctl, x), sent + Commands(c, ctl, x), leaderSent + limp, l, f)
            && PublishedIn(c, turns, SampleOf(k + 1, x, Control.Cycle(c, ctl, x), l, f), k + 1)
  {
    MoreSeen(c, turns, k);
  }

  /** These are the samples of the first `n` cycles. */
  ghost predicate Published(c: Config, turns: seq<Turn>, samples: seq<Sample>, n: nat) {
    && Sane(c) && |samples| == n <= |turns|
    && forall k :: 0 <= k < n ==> PublishedIn(c, turns, samples[k], k + 1)
  }

  ghost predicate PublishedIn(c: Config, turns: seq<Turn>, s: Sample, n: nat)
    requires Sane(c)
  {
    1 <= n <= |turns| && AllRead(Seen(turns, n)) && s == SampleIn(c, turns, n)
  }

  lemma PublishMore(c: Config, turns: seq<Turn>, samples: seq<Sample>, k: nat, s: Sample)
    requires Published(c, turns, samples, k) && PublishedIn(c, turns, s, k + 1)
    ensures Published(c, turns, samples + [s], k + 1)
  {
  }

  lemma MoreSeen(c: Config, turns: seq<Turn>, k: nat)
    requires Sane(c) && k < |turns| && Posed(turns) && AllRead(Seen(turns, k))
    ensures var x := SeenIn(turns, k + 1);
            && Read(x) && AllRead(Seen(turns, k + 1))
            && RunFrom(c, START, Seen(turns, k + 1)) == Control.Cycle(c, RunFrom(c, START, Seen(turns, k)), x)
            && Stream(c, Seen(turns, k + 1)) ==
               Stream(c, Seen(turns, k)) + Commands(c, RunFrom(c, START, Seen(turns, k)), x)
  {
    RunGrows(c, START, Seen(turns, k), SeenIn(turns, k + 1));
    StreamGrows(c, Seen(turns, k), SeenIn(turns, k + 1));
  }

  lemma {:induction false} AllSeen(turns: seq<Turn>, n: nat)
    requires Posed(turns) && n <= |turns|
    ensures AllRead(Seen(turns, n))
  {
    if n > 0 {
      AllSeen(turns, n - 1);
    }
  }

  lemma {:induction false} SeenPrefix(turns: seq<Turn>, n: nat, k: nat)
    requires k <= n <= |turns|
    ensures Seen(turns, n)[..k] == Seen(turns, k) && (k < n ==> Seen(turns, n)[k] == SeenIn(turns, k + 1))
  {
    if k < n {
      SeenPrefix(turns, n - 1, k);
    }
  }

  // ------------------------------------------------------ the whole thread

  /** From start to shutdown the follower gets a smooth stream of commands and is left limp, and the torque flag
      is what was last commanded. */
  lemma ThreadIsSmooth(c: Config, turns: seq<Turn>, n: nat)
    requires Sane(c) && Posed(turns) && n <= |turns|
    ensures AllRead(Seen(turns, n))
    ensures var t, sent := RunFrom(c, START, Seen(turns, n)), Stream(c, Seen(turns, n));
            Leaves(c.limits, sent, t.torque, t.goal) && Leaves(c.limits, sent + [Torque(false)], false, t.goal)
  {
    AllSeen(turns, n);
    RunIsSmooth(c, Seen(turns, n));
    SmoothThen(c.limits, Stream(c, Seen(turns, n)), Torque(false));
  }

  /** A cycle that publishes torque on has sent the goal it publishes, last, and moved each joint by at most the
      slow step if it publishes the joint as ramping, by at most the fast step if not; from the goal sent last
      before, which was the position read in this cycle if torque was not published in the one before. */
  lemma ThreadIsGentle(c: Config, turns: seq<Turn>, n: nat) returns (base: seq<int>)
    requires Sane(c) && Posed(turns) && 1 <= n <= |turns|
    ensures AllRead(Seen(turns, n - 1)) && AllRead(Seen(turns, n))
    ensures var p, sent := SampleIn(c, turns, n), Stream(c, Seen(turns, n));
            p.torqueOn ==>
              && sent != [] && sent[|sent| - 1] == Goal(p.goal)
              && Powered(sent[..|sent| - 1]) && LastGoal(sent[..|sent| - 1]) == Some(base)
              && |p.goal| == |base| == NJ
              && forall j :: 0 <= j < NJ ==>
                   Distance(base[j], p.goal[j]) <= if j in p.ramping then c.limits.rampStep else c.limits.maxStep
    ensures SampleIn(c, turns, n).torqueOn && (n == 1 || !SampleIn(c, turns, n - 1).torqueOn) ==>
              turns[n - 1].follower == Some(base)
  {
    AllSeen(turns, n - 1);
    AllSeen(turns, n);
    var seen, x := Seen(turns, n - 1), SeenIn(turns, n);
    RunIsGentle(c, seen, x);
    base := Base(RunFrom(c, START, seen), x);
    var sent := Stream(c, Seen(turns, n));
    if SampleIn(c, turns, n).torqueOn {
      assert sent[..|sent| - 1] == Stream(c, seen) + (Reconnecting(x) + Switching(RunFrom(c, START, seen), x));
    }
  }

  /** Whenever torque is switched on, the command before it is the goal to stay where the arm was read to be in
      the same cycle. */
  lemma ThreadEnablesInPlace(c: Config, turns: seq<Turn>, i: nat) returns (n: nat)
    requires Sane(c) && Posed(turns) && AllRead(Seen(turns, |turns|))
    requires var sent := Stream(c, Seen(turns, |turns|)); i < |sent| && sent[i] == Torque(true)
    ensures 1 <= n <= |turns| && AllRead(Seen(turns, n - 1)) && AllRead(Seen(turns, n))
    ensures |Stream(c, Seen(turns, n - 1))| < i < |Stream(c, Seen(turns, n))|
    ensures turns[n - 1].follower.Some?
    ensures Stream(c, Seen(turns, |turns|))[i - 1] == Goal(turns[n - 1].follower.value)
  {
    var k := EnableInStream(c, Seen(turns, |turns|), i);
    n := k + 1;
    AllSeen(turns, k);
    AllSeen(turns, n);
    SeenPrefix(turns, |turns|, k);
    SeenPrefix(turns, |turns|, n);
    assert EnabledIn(c, Seen(turns, |turns|), i, k);
  }

  /** Which reads were good. */
  function Reads(turns: seq<Turn>, leader: bool, n: nat): (oks: seq<bool>)
    requires n <= |turns|
    ensures |oks| == n
  {
    seq(n, k requires 0 <= k < n => if leader then turns[k].leader.Some? else turns[k].follower.Some?)
  }

  lemma {:induction false} LinksAreLinked(turns: seq<Turn>, n: nat)
    requires n <= |turns|
    ensures LeaderAt(turns, n) == Reconnection.Linked(Reads(turns, true, n))
    ensures FollowerAt(turns, n) == Reconnection.Linked(Reads(turns, false, n))
  {
    if n > 0 {
      LinksAreLinked(turns, n - 1);
      assert Reads(turns, true, n)[..n - 1] == Reads(turns, true, n - 1);
      assert Reads(turns, false, n)[..n - 1] == Reads(turns, false, n - 1);
    }
  }

  predicate BusReopens(turns: seq<Turn>, leader: bool, n: nat)
    requires 1 <= n <= |turns|
  {
    if leader then LeaderReopens(turns, n) else FollowerReopens(turns, n)
  }

  lemma ReopensIsAttempt(turns: seq<Turn>, leader: bool, n: nat)
    requires 1 <= n <= |turns|
    ensures BusReopens(turns, leader, n) == Reconnection.ReopensAt(Reads(turns, leader, |turns|), n)
  {
    LinksAreLinked(turns, n - 1);
    assert Reads(turns, leader, |turns|)[..n - 1] == Reads(turns, leader, n - 1);
  }

  /** Either bus is opened again only after 50 failed reads in a row, and 50 cycles after the last time. */
  lemma ThreadReopensRarely(turns: seq<Turn>, leader: bool, m: nat, n: nat)
    requires 1 <= m < n <= |turns| && BusReopens(turns, leader, m) && BusReopens(turns, leader, n)
    ensures n >= m + Reconnection.REOPEN_AFTER && n >= Reconnection.REOPEN_AFTER
    ensures forall k :: n - Reconnection.REOPEN_AFTER <= k < n ==>
              if leader then turns[k].leader.None? else turns[k].follower.None?
  {
    ReopensIsAttempt(turns, leader, m);
    ReopensIsAttempt(turns, leader, n);
    var oks := Reads(turns, leader, |turns|);
    Reconnection.AttemptsAreApart(oks, m, n);
    forall k | n - Reconnection.REOPEN_AFTER <= k < n
      ensures if leader then turns[k].leader.None? else turns[k].follower.None?
    {
      assert !oks[k];
    }
  }

  lemma SlotAfter(period: int, n: int)
    ensures period * (n + 1) == period * n + period
  {
  }
}
