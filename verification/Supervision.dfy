/** The supervisor thread: commands, fault detection and latching. */
module Supervision {
  import opened Bytes
  import opened Modes

  const STALL_MS := 200
  const PERSIST_TICKS := 5
  const OVERRUN_PER_S := 5

  datatype Command = Command(cmd: U32, arg: int)

  /** The fields of a control-cycle snapshot that the supervisor looks at. */
  datatype Snapshot = Snapshot(
    cycle: nat, leaderStreak: U16, followerStreak: U16, followerOk: bool,
    temp: seq<Byte>, volt: seq<Byte>, overruns: U32)

  datatype Limits = Limits(tempLimit: int, vmin: int, vmax: int, commStreak: int)

  /** One look at the arm: the supervisor's clock and a consistent snapshot. */
  datatype Look = Look(now: int, s: Snapshot)

  predicate Hot(s: Snapshot, c: Limits) {
    exists j :: 0 <= j < |s.temp| && s.temp[j] >= c.tempLimit
  }

  predicate BadVolt(s: Snapshot, c: Limits) {
    exists j :: 0 <= j < |s.volt| && (s.volt[j] < c.vmin || s.volt[j] > c.vmax)
  }

  /** Length of the latest unbroken run of bad looks, counting only looks at an answering follower. */
  function HotRun(looks: seq<Look>, c: Limits): nat {
    if looks == [] then 0
    else
      var front, s := looks[..|looks| - 1], looks[|looks| - 1].s;
      if !s.followerOk then HotRun(front, c) else if Hot(s, c) then HotRun(front, c) + 1 else 0
  }

  function BadVoltRun(looks: seq<Look>, c: Limits): nat {
    if looks == [] then 0
    else
      var front, s := looks[..|looks| - 1], looks[|looks| - 1].s;
      if !s.followerOk then BadVoltRun(front, c) else if BadVolt(s, c) then BadVoltRun(front, c) + 1 else 0
  }

  function LastCycle(looks: seq<Look>): nat {
    if looks == [] then 0 else looks[|looks| - 1].s.cycle
  }

  /** When the cycle last changed; `start` if it never has. */
  function LastAdvance(looks: seq<Look>, start: int): int {
    if looks == [] then start
    else
      var front, last := looks[..|looks| - 1], looks[|looks| - 1];
      if last.s.cycle != LastCycle(front) then last.now else LastAdvance(front, start)
  }

  /** Unsigned difference of two 32-bit counters. */
  function SubU32(x: U32, y: U32): U32 {
    (x - y) % U32_SIZE
  }

  /** The faults that the history of looks, the newest included, gives cause to raise. */
  ghost function Detected(looks: seq<Look>, start: int, c: Limits, ovrBase: U32, ovrT0: int): set<Fault>
    requires looks != []
  {
    var front, last := looks[..|looks| - 1], looks[|looks| - 1];
    Faulty(last.s.cycle == LastCycle(front) && last.now - LastAdvance(front, start) > STALL_MS,
           last.s.leaderStreak >= c.commStreak,
           last.s.followerStreak >= c.commStreak,
           last.s.followerOk && HotRun(looks, c) >= PERSIST_TICKS,
           last.s.followerOk && BadVoltRun(looks, c) >= PERSIST_TICKS,
           last.now - ovrT0 >= 1000 && SubU32(last.s.overruns, ovrBase) > OVERRUN_PER_S)
  }

  function Faulty(stall: bool, leader: bool, follower: bool, hot: bool, badv: bool, overrun: bool): set<Fault> {
    If(stall, Stall) + If(leader, LeaderComm) + If(follower, FollowerComm)
    + If(hot, Overtemp) + If(badv, Voltage) + If(overrun, Overrun)
  }

  function If(c: bool, f: Fault): set<Fault> {
    if c then {f} else {}
  }

  /** The mode that is left when these faults have been raised, in whatever order. */
  function Demoted(m: U32, raised: set<Fault>): U32 {
    if Stall in raised then ESTOP
    else if m != ESTOP && raised * {FollowerComm, Overtemp, Voltage} != {} then IDLE
    else if m == TELEOP && LeaderComm in raised then HOLD
    else m
  }

  /** Raising faults: they are latched, and the mode comes down. */
  function Demote(p: Panel, raised: set<Fault>): Panel {
    Panel(Demoted(p.modeReq, raised), p.faults + raised)
  }

  /** What the supervisor remembers: every consistent snapshot so far, and its overrun window. */
  datatype Memory = Memory(looks: seq<Look>, ovrBase: U32, ovrT0: int)

  function Remember(m: Memory, look: Look): Memory {
    if look.now - m.ovrT0 >= 1000 then Memory(m.looks + [look], look.s.overruns, look.now)
    else m.(looks := m.looks + [look])
  }

  ghost function Causes(m: Memory, start: int, c: Limits, look: Look): set<Fault> {
    Detected(m.looks + [look], start, c, m.ovrBase, m.ovrT0)
  }

  /** One turn of the loop, and the whole thread as a function of it. */
  datatype Turn = Turn(now: int, command: Option<Command>, lockValue: int, snapshot: Option<Snapshot>)

  datatype State = State(words: Panel, memory: Memory)

  ghost function Iterated(s: State, start: int, c: Limits, t: Turn): State {
    var words := if t.command.Some? then Served(s.words, t.command.value.cmd, t.command.value.arg) else s.words;
    if t.snapshot.None? then State(words, s.memory)
    else
      var look := Look(t.now, t.snapshot.value);
      State(Demote(words, Causes(s.memory, start, c, look)), Remember(s.memory, look))
  }

  predicate WellFormed(t: Turn) {
    t.snapshot.Some? ==> |t.snapshot.value.temp| == |t.snapshot.value.volt|
  }

  ghost function RunOf(s: State, start: int, c: Limits, turns: seq<Turn>): State {
    if turns == [] then s
    else Iterated(RunOf(s, start, c, turns[..|turns| - 1]), start, c, turns[|turns| - 1])
  }

  /** The answer in turn `k`, if there was a command: the decision on the panel as the turns before have left it. */
  ghost function AckOf(s: State, start: int, c: Limits, turns: seq<Turn>, k: nat): Option<int>
    requires k < |turns|
  {
    var words, t := RunOf(s, start, c, turns[..k]).words, turns[k];
    if t.command.Some? then Some(Verdict(words, t.command.value.cmd, t.command.value.arg)) else None
  }

  class Supervisor {
    const limits: Limits
    // Shared with the control thread.
    var modeReq: U32
    var faults: set<Fault>
    var supBeat: nat
    /** What the control thread does to its own fault bit between two accesses of the supervisor:
        sets it (true), clears it (false). */
    var toggles: seq<Option<bool>>
    // The thread's own variables.
    var lastCycle: nat
    var lastAdvance: int
    var tempTicks: nat
    var voltTicks: nat
    var ovrBase: U32
    var ovrT0: int
    var lockZeroSince: int
    // Every consistent snapshot so far, and when the thread started.
    ghost var looks: seq<Look>
    ghost const start: int

    ghost predicate Valid()
      reads this
    {
      && Coherent(Words())
      && lastCycle == LastCycle(looks)
      && lastAdvance == LastAdvance(looks, start)
      && tempTicks == HotRun(looks, limits)
      && voltTicks == BadVoltRun(looks, limits)
    }

    ghost function Words(): Panel
      reads this
    {
      Panel(modeReq, Own(faults))
    }

    ghost function Recall(): Memory
      reads this
    {
      Memory(looks, ovrBase, ovrT0)
    }

    ghost function Whole(): State
      reads this
    {
      State(Words(), Recall())
    }

    constructor (limits: Limits, initialMode: U32, now: int)
      requires initialMode in {IDLE, TELEOP, HOLD}
      ensures Valid() && looks == [] && modeReq == initialMode && faults == {} && supBeat == 0
    {
      this.limits, modeReq, faults, supBeat, toggles := limits, initialMode, {}, 0, [];
      lastCycle, lastAdvance, tempTicks, voltTicks := 0, now, 0, 0;
      ovrBase, ovrT0, lockZeroSince := 0, now, -1;
      looks, start := [], now;
    }

    /** The control thread may run here. */
    method ControlThreadRuns()
      modifies this`faults, this`toggles
      ensures Own(faults) == old(Own(faults))
    {
      if toggles != [] {
        match toggles[0]
        case None =>
        case Some(on) =>
          faults := if on then faults + {TorqueRefused} else faults - {TorqueRefused};
        toggles := toggles[1..];
      }
    }

    /** Latches a fault and forces the mode down. */
    method RaiseFault(bit: Fault, force: bool, safe: U32)
      requires bit != TorqueRefused
      modifies this`modeReq, this`faults, this`toggles
      ensures Own(faults) == old(Own(faults)) + {bit}
      ensures modeReq == if force then Forced(old(modeReq), safe) else old(modeReq)
    {
      faults := faults + {bit};
      ControlThreadRuns();
      if force {
        var m := modeReq;
        var lower := safe == ESTOP || (safe == IDLE && m != ESTOP) || (safe == HOLD && m == TELEOP);
        ControlThreadRuns();
        if lower && m != safe {
          modeReq := safe;
        }
      }
    }

    /** Carries out or refuses a command. */
    method ServeCommand(c: Command) returns (res: int)
      modifies this`modeReq, this`faults, this`toggles
      ensures res == Verdict(old(Words()), c.cmd, c.arg)
      ensures Words() == Served(old(Words()), c.cmd, c.arg)
    {
      var f := faults;
      ControlThreadRuns();
      if c.cmd == CMD_SET_MODE {
        if c.arg == IDLE {
          if modeReq == ESTOP {
            return RES_REFUSED;
          }
        } else if c.arg == TELEOP {
          if f * BLOCK_TELEOP != {} {
            return RES_REFUSED;
          }
        } else if c.arg == HOLD {
          if f * BLOCK_ALL != {} {
            return RES_REFUSED;
          }
        } else {
          return RES_BAD_CMD;
        }
        modeReq := c.arg;
        return RES_OK;
      } else if c.cmd == CMD_ESTOP {
        faults := faults + {Estop};
        ControlThreadRuns();
        modeReq := ESTOP;
        return RES_OK;
      } else if c.cmd == CMD_RESET {
        faults := {};
        ControlThreadRuns();
        modeReq := IDLE;
        return RES_OK;
      } else if c.cmd == CMD_PING {
        return RES_OK;
      }
      res := RES_BAD_CMD;
    }

    /** Is any servo too hot, is any supply voltage out of range? */
    method CheckServos(s: Snapshot) returns (hot: bool, badv: bool)
      requires |s.temp| == |s.volt|
      ensures hot == Hot(s, limits) && badv == BadVolt(s, limits)
    {
      hot, badv := false, false;
      for j := 0 to |s.temp|
        invariant hot <==> exists i :: 0 <= i < j && s.temp[i] >= limits.tempLimit
        invariant badv <==> exists i :: 0 <= i < j && (s.volt[i] < limits.vmin || s.volt[i] > limits.vmax)
      {
        if s.temp[j] >= limits.tempLimit {
          hot := true;
        }
        if s.volt[j] < limits.vmin || s.volt[j] > limits.vmax {
          badv := true;
        }
      }
    }

    /** Recovery of a mailbox that is held without a command. Answers whether to release it. */
    method CheckLock(now: int, lockValue: int) returns (posts: bool)
      modifies this`lockZeroSince
      ensures (lockZeroSince, posts) == LockTimer(old(lockZeroSince), lockValue, now)
    {
      posts := false;
      if lockValue > 0 {
        lockZeroSince := -1;
      } else if lockZeroSince < 0 {
        lockZeroSince := now;
      } else if now - lockZeroSince > LOCK_STUCK_MS {
        posts := true;
        lockZeroSince := -1;
      }
    }

    /** Latches a fault if there is cause to. */
    method RaiseIf(cause: bool, bit: Fault, ghost before: Panel, ghost raised: set<Fault>)
      requires bit in {LeaderComm, FollowerComm, Overtemp, Voltage, Overrun, Stall}
      requires Words() == Demote(before, raised)
      modifies this`modeReq, this`faults, this`toggles
      ensures Words() == Demote(before, raised + If(cause, bit))
    {
      if cause {
        RaiseFault(bit, !bit.Overrun?, SafeMode(bit));
        DemoteMore(before, raised, bit);
      } else {
        assert raised + If(cause, bit) == raised;
      }
    }

    /** Has the control loop stopped publishing? */
    method CheckStall(now: int, cycle: nat, ghost before: Panel)
      requires Words() == before
      modifies this`modeReq, this`faults, this`toggles, this`lastCycle, this`lastAdvance
      ensures lastCycle == cycle
      ensures lastAdvance == if cycle != old(lastCycle) then now else old(lastAdvance)
      ensures Words() == Demote(before, If(cycle == old(lastCycle) && now - old(lastAdvance) > STALL_MS, Stall))
    {
      if cycle != lastCycle {
        lastCycle, lastAdvance := cycle, now;
      } else if now - lastAdvance > STALL_MS {
        RaiseFault(Stall, true, ESTOP);
      }
    }

    /** Are the servos too hot, or their supply out of range, and for how long? */
    method CheckHistories(s: Snapshot, ghost before: Panel, ghost raised: set<Fault>)
      requires |s.temp| == |s.volt|
      requires Words() == Demote(before, raised)
      modifies this`modeReq, this`faults, this`toggles, this`tempTicks, this`voltTicks
      ensures tempTicks == if !s.followerOk then old(tempTicks) else if Hot(s, limits) then old(tempTicks) + 1 else 0
      ensures voltTicks == if !s.followerOk then old(voltTicks) else if BadVolt(s, limits) then old(voltTicks) + 1 else 0
      ensures Words() == Demote(before, raised + If(s.followerOk && tempTicks >= PERSIST_TICKS, Overtemp)
                                               + If(s.followerOk && voltTicks >= PERSIST_TICKS, Voltage))
    {
      if s.followerOk {
        var hot, badv := CheckServos(s);
        tempTicks := if hot then tempTicks + 1 else 0;
        voltTicks := if badv then voltTicks + 1 else 0;
        RaiseIf(tempTicks >= PERSIST_TICKS, Overtemp, before, raised);
        RaiseIf(voltTicks >= PERSIST_TICKS, Voltage, before, raised + If(tempTicks >= PERSIST_TICKS, Overtemp));
      } else {
        assert raised + {} + {} == raised;
      }
    }

    /** Were there too many deadline misses in the last second? */
    method CheckOverruns(now: int, overruns: U32, ghost before: Panel, ghost raised: set<Fault>)
      requires Words() == Demote(before, raised)
      modifies this`modeReq, this`faults, this`toggles, this`ovrBase, this`ovrT0
      ensures ovrBase == (if now - old(ovrT0) >= 1000 then overruns else old(ovrBase))
      ensures ovrT0 == if now - old(ovrT0) >= 1000 then now else old(ovrT0)
      ensures Words() == Demote(before, raised
                + If(now - old(ovrT0) >= 1000 && SubU32(overruns, old(ovrBase)) > OVERRUN_PER_S, Overrun))
    {
      if now - ovrT0 >= 1000 {
        RaiseIf(SubU32(overruns, ovrBase) > OVERRUN_PER_S, Overrun, before, raised);
        ovrBase, ovrT0 := overruns, now;
      } else {
        assert raised + {} == raised;
      }
    }

    /** All the checks, one after the other. */
    method CheckAll(now: int, s: Snapshot, ghost before: Panel)
      requires |s.temp| == |s.volt| && Words() == before
      modifies this`modeReq, this`faults, this`toggles, this`lastCycle, this`lastAdvance, this`tempTicks,
               this`voltTicks, this`ovrBase, this`ovrT0
      ensures lastCycle == s.cycle
      ensures lastAdvance == if s.cycle != old(lastCycle) then now else old(lastAdvance)
      ensures tempTicks == if !s.followerOk then old(tempTicks) else if Hot(s, limits) then old(tempTicks) + 1 else 0
      ensures voltTicks == if !s.followerOk then old(voltTicks) else if BadVolt(s, limits) then old(voltTicks) + 1 else 0
      ensures ovrBase == (if now - old(ovrT0) >= 1000 then s.overruns else old(ovrBase))
      ensures ovrT0 == if now - old(ovrT0) >= 1000 then now else old(ovrT0)
      ensures Words() == Demote(before, Faulty(
                s.cycle == old(lastCycle) && now - old(lastAdvance) > STALL_MS,
                s.leaderStreak >= limits.commStreak,
                s.followerStreak >= limits.commStreak,
                s.followerOk && tempTicks >= PERSIST_TICKS,
                s.followerOk && voltTicks >= PERSIST_TICKS,
                now - old(ovrT0) >= 1000 && SubU32(s.overruns, old(ovrBase)) > OVERRUN_PER_S))
    {
      ghost var stall := s.cycle == lastCycle && now - lastAdvance > STALL_MS;
      ghost var leader := s.leaderStreak >= limits.commStreak;
      ghost var follower := s.followerStreak >= limits.commStreak;
      CheckStall(now, s.cycle, before);
      RaiseIf(s.leaderStreak >= limits.commStreak, LeaderComm, before, If(stall, Stall));
      RaiseIf(s.followerStreak >= limits.commStreak, FollowerComm, before, If(stall, Stall) + If(leader, LeaderComm));
      CheckHistories(s, before, If(stall, Stall) + If(leader, LeaderComm) + If(follower, FollowerComm));
      ghost var hot := s.followerOk && tempTicks >= PERSIST_TICKS;
      ghost var badv := s.followerOk && voltTicks >= PERSIST_TICKS;
      CheckOverruns(now, s.overruns, before,
                    If(stall, Stall) + If(leader, LeaderComm) + If(follower, FollowerComm)
                    + If(hot, Overtemp) + If(badv, Voltage));
    }

    /** The safety checks on one consistent snapshot. */
    method Check(now: int, s: Snapshot)
      requires Valid() && |s.temp| == |s.volt|
      modifies this`modeReq, this`faults, this`toggles, this`lastCycle, this`lastAdvance, this`tempTicks,
               this`voltTicks, this`ovrBase, this`ovrT0, this`looks, this`supBeat
      ensures Valid() && Recall() == Remember(old(Recall()), Look(now, s)) && supBeat == old(supBeat) + 1
      ensures Words() == Demote(old(Words()), Causes(old(Recall()), start, limits, Look(now, s)))
    {
      ghost var before, memory, look := Words(), Recall(), Look(now, s);
      CheckAll(now, s, before);
      ghost var causes := Causes(memory, start, limits, look);
      looks := looks + [look];
      assert looks[..|looks| - 1] == memory.looks;
      CausesAreDetectable(memory, start, limits, look);
      DemotedIsCoherent(before, causes);
      supBeat := supBeat + 1;
    }

    /** One turn of the thread's loop: a command or the tick, then the checks if there is a snapshot. */
    method Iterate(t: Turn) returns (ack: Option<int>, posts: bool)
      requires Valid() && WellFormed(t)
      modifies this
      ensures Valid() && Whole() == Iterated(old(Whole()), start, limits, t)
      ensures ack == if t.command.Some? then Some(Verdict(old(Words()), t.command.value.cmd, t.command.value.arg)) else None
      ensures (lockZeroSince, posts) ==
              if t.command.Some? then (-1, false) else LockTimer(old(lockZeroSince), t.lockValue, t.now)
      ensures supBeat == old(supBeat) + if t.snapshot.Some? then 1 else 0
    {
      posts, ack := false, None;
      if t.command.Some? {
        ServedIsCoherent(Words(), t.command.value.cmd, t.command.value.arg);
        var res := ServeCommand(t.command.value);
        ack := Some(res);
        lockZeroSince := -1;
      } else {
        posts := CheckLock(t.now, t.lockValue);
      }
      if t.snapshot.Some? {
        Check(t.now, t.snapshot.value);
      }
    }

    /** The thread's loop. Answers what was answered to the commands. */
    method Run(turns: seq<Turn>) returns (acks: seq<Option<int>>)
      requires Valid() && forall k :: 0 <= k < |turns| ==> WellFormed(turns[k])
      modifies this
      ensures Valid() && Whole() == RunOf(old(Whole()), start, limits, turns)
      ensures |acks| == |turns| && forall k :: 0 <= k < |turns| ==> acks[k] == AckOf(old(Whole()), start, limits, turns, k)
    {
      acks := [];
      for k := 0 to |turns|
        invariant Valid() && Whole() == RunOf(old(Whole()), start, limits, turns[..k])
        invariant |acks| == k && forall i :: 0 <= i < k ==> acks[i] == AckOf(old(Whole()), start, limits, turns, i)
      {
        var ack, posts := Iterate(turns[k]);
        acks := acks + [ack];
        assert turns[..k + 1][..k] == turns[..k];
      }
      assert turns[..|turns|] == turns;
    }
  }

  // ------------------------------------------------------ fault/mode coherence

  /** Commands keep the latched faults and the requested mode coherent. */
  lemma ServedIsCoherent(p: Panel, cmd: U32, arg: int)
    requires Coherent(p)
    ensures Coherent(Served(p, cmd, arg))
  {
  }

  /** So does the detection of any set of faults. */
  lemma DemotedIsCoherent(p: Panel, raised: set<Fault>)
    requires Coherent(p) && Estop !in raised && TorqueRefused !in raised
    ensures Coherent(Demote(p, raised))
  {
    assert forall f :: f in raised * {FollowerComm, Overtemp, Voltage} <==> f in raised && f in {FollowerComm, Overtemp, Voltage};
  }

  /** A mode is granted exactly when it goes with the faults that are latched; ESTOP is not a mode to ask for. */
  lemma GrantedIffCoherent(p: Panel, arg: int)
    requires Coherent(p)
    ensures Verdict(p, CMD_SET_MODE, arg) == RES_OK <==> 0 <= arg < ESTOP && Coherent(p.(modeReq := arg))
    ensures Verdict(p, CMD_SET_MODE, arg) == RES_REFUSED <==> 0 <= arg < ESTOP && !Coherent(p.(modeReq := arg))
    ensures Verdict(p, CMD_SET_MODE, arg) == RES_OK ==> Served(p, CMD_SET_MODE, arg) == p.(modeReq := arg)
    ensures Verdict(p, CMD_SET_MODE, arg) != RES_OK ==> Served(p, CMD_SET_MODE, arg) == p
  {
  }

  /** TELEOP, HOLD, IDLE, ESTOP, from the top. */
  function Rank(mode: U32): int {
    if mode == TELEOP then 3 else if mode == HOLD then 2 else if mode == IDLE then 1 else 0
  }

  /** Detection takes away no more than it has to: of the modes that are not above the one requested, the
      highest that goes with the faults. */
  lemma DemotedIsHighest(p: Panel, raised: set<Fault>, mode: U32)
    requires Coherent(p) && Estop !in raised && mode <= ESTOP && Rank(mode) <= Rank(p.modeReq)
    requires Coherent(Panel(mode, p.faults + raised))
    ensures Rank(mode) <= Rank(Demoted(p.modeReq, raised)) <= Rank(p.modeReq)
  {
  }

  /** Faults may be raised one after the other: the last mode forced is the safest of all. */
  lemma DemoteMore(p: Panel, raised: set<Fault>, f: Fault)
    requires f in {LeaderComm, FollowerComm, Overtemp, Voltage, Overrun, Stall}
    ensures Demote(p, raised + {f}) ==
            Panel(if f.Overrun? then Demote(p, raised).modeReq else Forced(Demote(p, raised).modeReq, SafeMode(f)),
                  Demote(p, raised).faults + {f})
  {
    var idle := {FollowerComm, Overtemp, Voltage};
    assert forall g :: g in raised * idle <==> g in raised && g in idle;
    assert forall g :: g in (raised + {f}) * idle <==> g in raised + {f} && g in idle;
    assert p.faults + (raised + {f}) == p.faults + raised + {f};
  }

  // ------------------------------------------------------------ whole runs

  lemma CausesAreDetectable(m: Memory, start: int, c: Limits, look: Look)
    ensures Estop !in Causes(m, start, c, look) && TorqueRefused !in Causes(m, start, c, look)
  {
  }

  /** In every run the requested mode is ESTOP exactly when STALL or ESTOP is latched, IDLE or ESTOP
      under a fault that forbids torque, and never TELEOP without a leader. */
  lemma {:induction false} AlwaysCoherent(s: State, start: int, c: Limits, turns: seq<Turn>)
    requires Coherent(s.words)
    ensures Coherent(RunOf(s, start, c, turns).words)
  {
    if turns != [] {
      var front, t := RunOf(s, start, c, turns[..|turns| - 1]), turns[|turns| - 1];
      AlwaysCoherent(s, start, c, turns[..|turns| - 1]);
      var words := front.words;
      if t.command.Some? {
        words := Served(front.words, t.command.value.cmd, t.command.value.arg);
        ServedIsCoherent(front.words, t.command.value.cmd, t.command.value.arg);
      }
      if t.snapshot.Some? {
        var look := Look(t.now, t.snapshot.value);
        CausesAreDetectable(front.memory, start, c, look);
        DemotedIsCoherent(words, Causes(front.memory, start, c, look));
      }
    }
  }

  predicate Resets(t: Turn) {
    t.command.Some? && t.command.value.cmd == CMD_RESET
  }

  /** A latched bit stays until a RESET is served; until then, under a fault that forbids torque, the mode
      is IDLE or ESTOP. */
  lemma {:induction false} LatchedUntilReset(s: State, start: int, c: Limits, turns: seq<Turn>)
    requires Coherent(s.words) && forall t :: t in turns ==> !Resets(t)
    ensures s.words.faults <= RunOf(s, start, c, turns).words.faults
    ensures s.words.faults * BLOCK_ALL != {} ==> RunOf(s, start, c, turns).words.modeReq in {IDLE, ESTOP}
  {
    if turns != [] {
      LatchedUntilReset(s, start, c, turns[..|turns| - 1]);
      var front, t := RunOf(s, start, c, turns[..|turns| - 1]), turns[|turns| - 1];
      assert t in turns;
    }
    AlwaysCoherent(s, start, c, turns);
    var end := RunOf(s, start, c, turns);
    assert forall f :: f in s.words.faults * BLOCK_ALL ==> f in end.words.faults && f in BLOCK_ALL;
  }

  /** The control loop's clock never runs backwards. */
  predicate Monotone(looks: seq<Look>, start: int) {
    && (looks != [] ==> start <= looks[0].now)
    && forall i, j :: 0 <= i < j < |looks| ==> looks[i].now <= looks[j].now
  }

  /** From look `k` on, every look has shown the cycle that the last one shows. */
  predicate SilentFrom(looks: seq<Look>, k: nat) {
    forall i :: k <= i < |looks| ==> looks[i].s.cycle == LastCycle(looks)
  }

  /** Which look was the last to show a new cycle, -1 if none has. */
  lemma {:induction false} AdvanceIsSilence(looks: seq<Look>, start: int) returns (k: int)
    ensures -1 <= k < |looks|
    ensures LastAdvance(looks, start) == if k == -1 then start else looks[k].now
    ensures SilentFrom(looks, if k == -1 then 0 else k)
    ensures k == -1 ==> LastCycle(looks) == 0
    ensures k >= 0 ==> looks[k].s.cycle != if k == 0 then 0 else looks[k - 1].s.cycle
  {
    if looks == [] {
      k := -1;
    } else {
      var n := |looks| - 1;
      var front := looks[..n];
      k := AdvanceIsSilence(front, start);
      if looks[n].s.cycle != LastCycle(front) {
        k := n;
      } else {
        forall i | (if k == -1 then 0 else k) <= i < |looks| ensures looks[i].s.cycle == LastCycle(looks) {
          if i < n {
            assert front[i] == looks[i];
          }
        }
      }
    }
  }

  lemma StallIsLateAdvance(m: Memory, start: int, c: Limits, look: Look)
    ensures Stall in Causes(m, start, c, look) <==> look.now - LastAdvance(m.looks + [look], start) > STALL_MS
  {
  }

  /** STALL is detected exactly when the same cycle has been seen for more than 200 ms. */
  lemma StallIffSilent(m: Memory, start: int, c: Limits, look: Look)
    requires Monotone(m.looks + [look], start)
    ensures var looks := m.looks + [look];
            Stall in Causes(m, start, c, look) <==>
              (exists k :: 0 <= k < |looks| && SilentFrom(looks, k) && look.now - looks[k].now > STALL_MS)
              || (SilentFrom(looks, 0) && LastCycle(looks) == 0 && look.now - start > STALL_MS)
  {
    var looks := m.looks + [look];
    StallIsLateAdvance(m, start, c, look);
    var k := AdvanceIsSilence(looks, start);
    forall i | 0 <= i < |looks| && SilentFrom(looks, i) ensures LastAdvance(looks, start) <= looks[i].now {
      assert k <= i;
    }
  }

  /** The looks at an answering follower. */
  function Answering(looks: seq<Look>): seq<Look> {
    if looks == [] then []
    else
      var front, last := looks[..|looks| - 1], looks[|looks| - 1];
      Answering(front) + if last.s.followerOk then [last] else []
  }

  /** The temperature counter is the length of the latest unbroken run of hot looks. */
  lemma {:induction false} HotRunIsSuffix(looks: seq<Look>, c: Limits)
    ensures var seen, n := Answering(looks), HotRun(looks, c);
            && n <= |seen| && (forall i :: |seen| - n <= i < |seen| ==> Hot(seen[i].s, c))
            && (n < |seen| ==> !Hot(seen[|seen| - n - 1].s, c))
  {
    if looks != [] {
      HotRunIsSuffix(looks[..|looks| - 1], c);
    }
  }

  /** And the voltage counter that of looks at a supply out of range. */
  lemma {:induction false} BadVoltRunIsSuffix(looks: seq<Look>, c: Limits)
    ensures var seen, n := Answering(looks), BadVoltRun(looks, c);
            && n <= |seen| && (forall i :: |seen| - n <= i < |seen| ==> BadVolt(seen[i].s, c))
            && (n < |seen| ==> !BadVolt(seen[|seen| - n - 1].s, c))
  {
    if looks != [] {
      BadVoltRunIsSuffix(looks[..|looks| - 1], c);
    }
  }
}
