/** Supervisor and control thread as one system. Their steps are single accesses to the two shared words
    `mode_req` and `faults`, and they interleave freely. */
module TorqueSafety {
  import opened Bytes
  import opened Modes
  import opened Control

  /** Where the supervisor is in raising a fault or serving a command. */
  datatype Supervisor =
    | Ready
    | Raising(bit: Fault)
    | Lowering(bit: Fault, m: U32)
    | Setting(f: set<Fault>, arg: int)
    | SettingIdle(m: U32)
    | Stopping
    | Resetting

  /** The control thread has not yet looked at the mode in this cycle, or has. For the proofs, `under`
      says whether torque was blocked when it looked. */
  datatype Thread = Working | Loaded(req: U32, under: bool)

  /** A finished cycle: what it published and what it sent to the follower. */
  datatype Record = Record(under: bool, mode: U32, torqueOn: bool, ramping: set<nat>, sent: seq<Command>)

  /** `blocked` is set when the supervisor is done with forcing a safe mode for a fault that forbids
      torque, and cleared when it begins a RESET. */
  datatype System = System(
    modeReq: U32, faults: set<Fault>, supervisor: Supervisor, ctl: Ctl, thread: Thread,
    blocked: bool, records: seq<Record>)

  datatype Action =
    | Raise(bit: Fault) | LoadMode | Lower
    | LoadFaults(arg: int) | CheckMode | Set
    | BeginEstop | EndEstop | BeginReset | EndReset
    | Look | Finish(seen: Inputs)

  function Init(initial: U32): System {
    System(initial, {}, Ready, START, Working, false, [])
  }

  predicate Enabled(s: System, a: Action) {
    match a
    case Raise(bit) => s.supervisor.Ready? && Detectable(bit)
    case LoadMode => s.supervisor.Raising?
    case Lower => s.supervisor.Lowering?
    case LoadFaults(_) => s.supervisor.Ready?
    case CheckMode => s.supervisor.Setting? && s.supervisor.arg == IDLE
    case Set => s.supervisor.SettingIdle? || (s.supervisor.Setting? && s.supervisor.arg != IDLE)
    case BeginEstop => s.supervisor.Ready?
    case EndEstop => s.supervisor.Stopping?
    case BeginReset => s.supervisor.Ready?
    case EndReset => s.supervisor.Resetting?
    case Look => s.thread.Working?
    case Finish(seen) => s.thread.Loaded? && seen.req == s.thread.req && Read(seen)
  }

  /** The mode that a SET_MODE command stores, if it does. */
  function Stored(f: set<Fault>, arg: int): Option<U32> {
    if arg == TELEOP && f * BLOCK_TELEOP == {} then Some(TELEOP)
    else if arg == HOLD && f * BLOCK_ALL == {} then Some(HOLD)
    else None
  }

  function Apply(c: Config, s: System, a: Action): System
    requires Sane(c) && Shape(s.ctl) && Enabled(s, a)
  {
    match a
    case Raise(bit) =>
      s.(faults := s.faults + {bit}, supervisor := if bit.Overrun? then Ready else Raising(bit))
    case LoadMode => s.(supervisor := Lowering(s.supervisor.bit, s.modeReq))
    case Lower =>
      var bit := s.supervisor.bit;
      s.(modeReq := if Forced(s.supervisor.m, SafeMode(bit)) != s.supervisor.m then SafeMode(bit) else s.modeReq,
         supervisor := Ready, blocked := s.blocked || bit in BLOCK_ALL)
    case LoadFaults(arg) => s.(supervisor := Setting(s.faults, arg))
    case CheckMode => s.(supervisor := SettingIdle(s.modeReq))
    case Set =>
      if s.supervisor.SettingIdle? then
        s.(modeReq := if s.supervisor.m == ESTOP then s.modeReq else IDLE, supervisor := Ready)
      else
        var mode := Stored(s.supervisor.f, s.supervisor.arg);
        s.(modeReq := if mode.Some? then mode.value else s.modeReq, supervisor := Ready)
    case BeginEstop => s.(faults := s.faults + {Estop}, supervisor := Stopping)
    case EndEstop => s.(modeReq := ESTOP, supervisor := Ready, blocked := true)
    case BeginReset => s.(faults := {}, supervisor := Resetting, blocked := false)
    case EndReset => s.(modeReq := IDLE, supervisor := Ready)
    case Look => s.(thread := Loaded(s.modeReq, s.blocked))
    case Finish(seen) =>
      var t := Cycle(c, s.ctl, seen);
      s.(faults := if Refuses(s.ctl, seen) then s.faults + {TorqueRefused}
                   else if Enables(s.ctl, seen) then s.faults - {TorqueRefused} else s.faults,
         ctl := t, thread := Working,
         records := s.records + [Record(s.thread.under, t.applied, t.torque, t.ramp, Commands(c, s.ctl, seen))])
  }

  predicate Runs(c: Config, s: System, run: seq<Action>)
    requires Sane(c)
    decreases |run|
  {
    run == [] || (Shape(s.ctl) && Enabled(s, run[0]) && Runs(c, Apply(c, s, run[0]), run[1..]))
  }

  function After(c: Config, s: System, run: seq<Action>): System
    requires Sane(c) && Runs(c, s, run)
    decreases |run|
  {
    if run == [] then s else After(c, Apply(c, s, run[0]), run[1..])
  }

  // --------------------------------------------------------------- invariant

  predicate Safe(mode: U32) {
    mode == IDLE || mode == ESTOP
  }

  /** A fault is latched that forbids torque. */
  predicate Forbids(faults: set<Fault>) {
    faults * BLOCK_ALL != {}
  }

  /** A cycle that has left the arm limp. */
  predicate Limp(r: Record) {
    Safe(r.mode) && !r.torqueOn && r.ramping == {} && Torque(true) !in r.sent && forall x :: x in r.sent ==> !x.Goal?
  }

  ghost predicate SupervisorInv(s: System) {
    && (s.blocked ==> Forbids(s.faults) && Safe(s.modeReq))
    && match s.supervisor
       case Ready => Forbids(s.faults) ==> s.blocked
       case Raising(bit) =>
         bit in s.faults && Detectable(bit) && (s.blocked || (Forbids(s.faults) ==> bit in BLOCK_ALL))
       case Lowering(bit, m) =>
         && bit in s.faults && Detectable(bit) && (s.blocked || (Forbids(s.faults) ==> bit in BLOCK_ALL))
         && m == s.modeReq
       case Setting(f, arg) => Own(f) == Own(s.faults) && (Forbids(s.faults) ==> s.blocked)
       case SettingIdle(m) => m == s.modeReq && (Forbids(s.faults) ==> s.blocked)
       case Stopping => Estop in s.faults
       case Resetting => !s.blocked && !Forbids(s.faults)
  }

  ghost predicate Inv(s: System) {
    && CtlInv(s.ctl) && SupervisorInv(s)
    && (s.thread.Loaded? && s.thread.under ==> Safe(s.thread.req))
    && forall k :: 0 <= k < |s.records| && s.records[k].under ==> Limp(s.records[k])
  }

  /** The control thread obeys a safe mode at once, whatever it was doing. */
  lemma ObeysSafeMode(c: Config, s: Ctl, seen: Inputs)
    requires Sane(c) && CtlInv(s) && Read(seen) && Safe(Asked(seen.req))
    ensures var t := Cycle(c, s, seen);
            t.applied == Asked(seen.req) && Limp(Record(true, t.applied, t.torque, t.ramp, Commands(c, s, seen)))
  {
  }

  lemma ForbidsMore(faults: set<Fault>, f: Fault)
    ensures Forbids(faults + {f}) <==> Forbids(faults) || f in BLOCK_ALL
    ensures Forbids(faults + {TorqueRefused}) <==> Forbids(faults)
    ensures Forbids(faults - {TorqueRefused}) <==> Forbids(faults)
  {
    assert forall g :: g in faults * BLOCK_ALL <==> g in faults && g in BLOCK_ALL;
    assert forall g :: g in (faults + {f}) * BLOCK_ALL <==> g in faults + {f} && g in BLOCK_ALL;
    assert forall g :: g in (faults + {TorqueRefused}) * BLOCK_ALL <==> g in faults + {TorqueRefused} && g in BLOCK_ALL;
    assert forall g :: g in (faults - {TorqueRefused}) * BLOCK_ALL <==> g in faults - {TorqueRefused} && g in BLOCK_ALL;
  }

  lemma OwnForbids(f: set<Fault>, faults: set<Fault>)
    requires Own(f) == Own(faults)
    ensures Forbids(f) == Forbids(faults)
    ensures Forbids(f) ==> f * BLOCK_TELEOP != {}
  {
    assert forall g :: g in f * BLOCK_ALL <==> g in Own(f) && g in BLOCK_ALL;
    assert forall g :: g in faults * BLOCK_ALL <==> g in Own(faults) && g in BLOCK_ALL;
    assert forall g :: g in f * BLOCK_TELEOP <==> g in f && g in BLOCK_TELEOP;
  }

  lemma SupervisorKeepsInv(c: Config, s: System, a: Action)
    requires Sane(c) && Inv(s) && Enabled(s, a) && !a.Look? && !a.Finish?
    ensures Inv(Apply(c, s, a))
  {
    match a
    case Raise(bit) =>
      ForbidsMore(s.faults, bit);
    case BeginEstop =>
      ForbidsMore(s.faults, Estop);
    case EndEstop =>
      assert Estop in s.faults * BLOCK_ALL;
    case Lower =>
      assert s.supervisor.bit in BLOCK_ALL ==> s.supervisor.bit in s.faults * BLOCK_ALL;
    case Set =>
      if s.supervisor.Setting? {
        OwnForbids(s.supervisor.f, s.faults);
      }
    case _ =>
  }

  lemma ThreadKeepsInv(c: Config, s: System, a: Action)
    requires Sane(c) && Inv(s) && Enabled(s, a) && (a.Look? || a.Finish?)
    ensures Inv(Apply(c, s, a))
  {
    if a.Finish? {
      CycleKeepsInv(c, s.ctl, a.seen);
      ForbidsMore(s.faults, TorqueRefused);
      if s.thread.under {
        ObeysSafeMode(c, s.ctl, a.seen);
      }
    }
  }

  lemma {:induction false} RunKeepsInv(c: Config, s: System, run: seq<Action>)
    requires Sane(c) && Inv(s) && Runs(c, s, run)
    ensures Inv(After(c, s, run))
    decreases |run|
  {
    if run != [] {
      if run[0].Look? || run[0].Finish? {
        ThreadKeepsInv(c, s, run[0]);
      } else {
        SupervisorKeepsInv(c, s, run[0]);
      }
      RunKeepsInv(c, Apply(c, s, run[0]), run[1..]);
    }
  }

  // ---------------------------------------------------------------- theorems

  /** In every run: once the supervisor is done forcing a safe mode for a fault that forbids torque, and
      until it begins a RESET, every control cycle that looks at the mode publishes IDLE or ESTOP, torque
      off and nothing ramping, and sends the follower neither torque nor a goal. Whenever the supervisor
      is between two operations, every latched fault of that kind has been dealt with. */
  lemma TorqueStaysOff(c: Config, initial: U32, run: seq<Action>)
    requires Sane(c) && initial in {IDLE, TELEOP, HOLD} && Runs(c, Init(initial), run)
    ensures var s := After(c, Init(initial), run);
            && (forall k :: 0 <= k < |s.records| && s.records[k].under ==> Limp(s.records[k]))
            && (s.supervisor.Ready? ==> (s.blocked <==> Forbids(s.faults)))
            && (s.blocked ==> Safe(s.modeReq))
  {
    RunKeepsInv(c, Init(initial), run);
  }

  /** Only a RESET lifts the block. */
  lemma {:induction false} BlockedUntilReset(c: Config, s: System, run: seq<Action>)
    requires Sane(c) && Inv(s) && Runs(c, s, run) && s.blocked
    requires forall a :: a in run ==> !a.BeginReset?
    ensures After(c, s, run).blocked
    decreases |run|
  {
    if run != [] {
      if run[0].Look? || run[0].Finish? {
        ThreadKeepsInv(c, s, run[0]);
      } else {
        SupervisorKeepsInv(c, s, run[0]);
      }
      BlockedUntilReset(c, Apply(c, s, run[0]), run[1..]);
    }
  }

  // ------------------------------------------- the steps make the operations

  lemma {:induction false} ThreeSteps(c: Config, s: System, a: Action, b: Action, d: Action)
    requires Sane(c) && Shape(s.ctl) && Enabled(s, a)
    requires Shape(Apply(c, s, a).ctl) && Enabled(Apply(c, s, a), b)
    requires Shape(Apply(c, Apply(c, s, a), b).ctl) && Enabled(Apply(c, Apply(c, s, a), b), d)
    ensures Runs(c, s, [a, b, d]) && After(c, s, [a, b, d]) == Apply(c, Apply(c, Apply(c, s, a), b), d)
  {
    var s1, s2 := Apply(c, s, a), Apply(c, Apply(c, s, a), b);
    var s3 := Apply(c, s2, d);
    assert [d][1..] == [];
    assert Runs(c, s3, []) && After(c, s3, []) == s3;
    assert Runs(c, s2, [d]) && After(c, s2, [d]) == s3;
    assert [b, d][1..] == [d];
    assert Runs(c, s1, [b, d]) && After(c, s1, [b, d]) == s3;
    assert [a, b, d][1..] == [b, d];
  }

  /** Undisturbed, the three steps of raising a fault latch it and force the mode down. */
  lemma RaiseIsRaised(c: Config, s: System, bit: Fault)
    requires Sane(c) && Shape(s.ctl) && s.supervisor.Ready? && Detectable(bit) && !bit.Overrun?
    ensures Runs(c, s, [Raise(bit), LoadMode, Lower])
    ensures var t := After(c, s, [Raise(bit), LoadMode, Lower]);
            Panel(t.modeReq, t.faults) == Raised(Panel(s.modeReq, s.faults), bit) && t.supervisor.Ready?
  {
    ThreeSteps(c, s, Raise(bit), LoadMode, Lower);
  }

  /** And those of a SET_MODE command carry it out or refuse it. */
  lemma SetIsServed(c: Config, s: System, arg: int)
    requires Sane(c) && Shape(s.ctl) && s.supervisor.Ready?
    ensures var p := Panel(s.modeReq, s.faults);
            if arg == IDLE then
              Runs(c, s, [LoadFaults(arg), CheckMode, Set])
              && var t := After(c, s, [LoadFaults(arg), CheckMode, Set]);
                 Panel(t.modeReq, t.faults) == Served(p, CMD_SET_MODE, arg)
            else
              var t := Apply(c, Apply(c, s, LoadFaults(arg)), Set);
              Panel(t.modeReq, t.faults) == Served(p, CMD_SET_MODE, arg)
  {
    if arg == IDLE {
      ThreeSteps(c, s, LoadFaults(arg), CheckMode, Set);
    }
  }

  lemma TwoSteps(c: Config, s: System, a: Action, b: Action)
    requires Sane(c) && Shape(s.ctl) && Enabled(s, a)
    requires Shape(Apply(c, s, a).ctl) && Enabled(Apply(c, s, a), b)
    ensures Runs(c, s, [a, b]) && After(c, s, [a, b]) == Apply(c, Apply(c, s, a), b)
  {
    var s1, s2 := Apply(c, s, a), Apply(c, Apply(c, s, a), b);
    assert [b][1..] == [];
    assert Runs(c, s2, []) && After(c, s2, []) == s2;
    assert Runs(c, s1, [b]) && After(c, s1, [b]) == s2;
    assert [a, b][1..] == [b];
  }

  /** And those of an ESTOP and of a RESET. */
  lemma EstopAndResetAreServed(c: Config, s: System, arg: int)
    requires Sane(c) && Shape(s.ctl) && s.supervisor.Ready?
    ensures Runs(c, s, [BeginEstop, EndEstop]) && Runs(c, s, [BeginReset, EndReset])
    ensures var p, t := Panel(s.modeReq, s.faults), After(c, s, [BeginEstop, EndEstop]);
            Panel(t.modeReq, t.faults) == Served(p, CMD_ESTOP, arg) && t.supervisor.Ready?
    ensures var p, t := Panel(s.modeReq, s.faults), After(c, s, [BeginReset, EndReset]);
            Panel(t.modeReq, t.faults) == Served(p, CMD_RESET, arg) && t.supervisor.Ready?
  {
    TwoSteps(c, s, BeginEstop, EndEstop);
    TwoSteps(c, s, BeginReset, EndReset);
  }
}
