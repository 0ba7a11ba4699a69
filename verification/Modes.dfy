/** Modes, faults and commands, and what the two supervisor operations do to the pair of shared
    words `mode_req` and `faults`. */
module Modes {
  import opened Bytes

  const IDLE: U32 := 0
  const TELEOP: U32 := 1
  const HOLD: U32 := 2
  const ESTOP: U32 := 3

  const CMD_SET_MODE: U32 := 1
  const CMD_ESTOP: U32 := 2
  const CMD_RESET: U32 := 3
  const CMD_PING: U32 := 4

  /** How long the mailbox may be held without a command. */
  const LOCK_STUCK_MS := 2000

  const RES_OK := 0
  const RES_BAD_CMD := -1
  const RES_REFUSED := -2

  /** The bits of the fault word. */
  datatype Fault = LeaderComm | FollowerComm | Overtemp | Voltage | Overrun | Stall | Estop | TorqueRefused

  const BLOCK_ALL: set<Fault> := {FollowerComm, Overtemp, Voltage, Stall, Estop}
  const BLOCK_TELEOP: set<Fault> := BLOCK_ALL + {LeaderComm}

  /** The words the supervisor writes and the control thread obeys. */
  datatype Panel = Panel(modeReq: U32, faults: set<Fault>)

  /** What a forced mode makes of the requested one: it only ever goes down. */
  function Forced(m: U32, safe: U32): U32 {
    if safe == ESTOP || (safe == IDLE && m != ESTOP) || (safe == HOLD && m == TELEOP) then safe else m
  }

  /** Whether a command is carried out, refused or unknown. */
  function Verdict(p: Panel, cmd: U32, arg: int): int {
    if cmd == CMD_SET_MODE then
      if arg == IDLE then if p.modeReq == ESTOP then RES_REFUSED else RES_OK
      else if arg == TELEOP then if p.faults * BLOCK_TELEOP != {} then RES_REFUSED else RES_OK
      else if arg == HOLD then if p.faults * BLOCK_ALL != {} then RES_REFUSED else RES_OK
      else RES_BAD_CMD
    else if cmd in {CMD_ESTOP, CMD_RESET, CMD_PING} then RES_OK
    else RES_BAD_CMD
  }

  function Served(p: Panel, cmd: U32, arg: int): Panel {
    if Verdict(p, cmd, arg) != RES_OK then p
    else if cmd == CMD_SET_MODE then p.(modeReq := arg)
    else if cmd == CMD_ESTOP then Panel(ESTOP, p.faults + {Estop})
    else if cmd == CMD_RESET then Panel(IDLE, {})
    else p
  }

  /** The recovery timer: since when the lock has been seen taken (-1 if it has not), and whether to post it. */
  function LockTimer(since: int, lock: int, now: int): (int, bool) {
    if lock > 0 then (-1, false)
    else if since < 0 then (now, false)
    else if now - since > LOCK_STUCK_MS then (-1, true)
    else (since, false)
  }

  /** The bits the supervisor owns; the control thread owns TORQUE_REFUSED. */
  function Own(faults: set<Fault>): set<Fault> {
    faults - {TorqueRefused}
  }

  /** What the latched faults say about the requested mode, after every supervisor operation. */
  predicate Coherent(p: Panel) {
    && p.modeReq <= ESTOP
    && (p.modeReq == ESTOP <==> Stall in p.faults || Estop in p.faults)
    && (FollowerComm in p.faults || Overtemp in p.faults || Voltage in p.faults ==> p.modeReq in {IDLE, ESTOP})
    && (LeaderComm in p.faults ==> p.modeReq != TELEOP)
  }

  /** The mode a fault forces, if it forces one. */
  function SafeMode(f: Fault): U32 {
    match f
    case Stall => ESTOP
    case FollowerComm => IDLE
    case Overtemp => IDLE
    case Voltage => IDLE
    case LeaderComm => HOLD
    case _ => TELEOP
  }

  predicate Detectable(f: Fault) {
    f in {LeaderComm, FollowerComm, Overtemp, Voltage, Overrun, Stall}
  }

  /** Latching a detected fault. OVERRUN is only a warning. */
  function Raised(p: Panel, f: Fault): Panel {
    Panel(if f.Overrun? then p.modeReq else Forced(p.modeReq, SafeMode(f)), p.faults + {f})
  }
}
