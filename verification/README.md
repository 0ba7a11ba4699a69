# Verification of the SO-101 teleoperation daemon

A Dafny model of the daemon that lets a leader arm drive a follower arm over two serial servo buses: the
servo driver and the simulated bus it talks to, the shared-memory snapshot and command mailbox, the
supervisor, the control thread, the calibration mapping, and the loops that watch the snapshots. Everything
is checked with `dafny verify dfyconfig.toml`.

The code that changes state in place is modelled by classes whose methods do the same (`Bus.FtsBus`,
`FakeBus.Simulator`, `SharedMemory.Segment`, `SendCommand.Caller`, `Supervision.Supervisor`,
`ControlThread.Thread`); each is proved against functions on values, and the properties of whole runs are
lemmas about those functions. The two protocols with more than one party on shared memory, and the supervisor
together with the control thread, are state machines whose steps are single accesses; their theorems are
about every interleaving.

| file | what it models |
|---|---|
| `Bytes.dfy` | fixed-width integers, byte strings |
| `Framing.dfy` | checksum, packet builder and parser, sign-magnitude registers |
| `Resync.dfy` | the parser repeated over a stream: a leftmost scan |
| `Reception.dfy` | the same through a buffer of 1024 bytes: what is found in a stream and what is lost of it |
| `Bus.dfy` | the driver: receive and transmit paths, sync read, sync write |
| `FakeBus.dfy` | the simulated servo bus |
| `RoundTrip.dfy` | driver and simulator talking to each other |
| `Seqlock.dfy`, `SharedMemory.dfy` | the snapshot, as a machine and as it is written |
| `Mailbox.dfy`, `SendCommand.dfy` | the command mailbox, as a machine and the client's side as it is written |
| `Modes.dfy`, `Supervision.dfy` | modes, faults, commands; the supervisor thread |
| `Calibration.dfy` | normalised joint positions, with rounding |
| `Trajectory.dfy` | one joint under soft start and rate limit |
| `Reconnection.dfy`, `Control.dfy`, `ControlThread.dfy` | the control thread: reopening of buses, one cycle and whole runs, the loop as it is written |
| `TorqueSafety.dfy` | supervisor and control thread as one system |
| `Recorder.dfy` | the recorder and the watchdog |

## Where the code and its descriptions differ

The model follows the code.

- `daemon/src/supervisor.c:4` says that the supervisor is the only writer of the fault word. The control
  thread sets and clears TORQUE_REFUSED (`daemon/src/control.c:166`, `daemon/src/control.c:174`), so the
  supervisor is proved against a control thread that may do that between any two of its accesses.
- `docs/INTERFACE.md:54` has every fault refuse TELEOP. The code refuses it for the bits of `F_BLOCK_TELEOP`
  only (`daemon/src/supervisor.c:33-35`).
- `daemon/include/so101_shm.h:24-26` promises that holding the lock keeps `cmd` and `ack` from being
  overwritten, and recovery after 2 s. A client gives up after 1000 polls at least 1 ms apart
  (`daemon/tools/so101ctl.c:88-103`) and leaves READY posted. As long as recovery does not strike a live client, that
  is harmless exactly when the supervisor comes round sooner than a client gives up, or no client keeps the
  mailbox that long (`Mailbox.GivingUpIsHarmlessIff`); `Mailbox.GivingUpBreaksIt` is the run in which the
  supervisor serves a command that nobody has asked, half of it one client's and half another's, and
  `Mailbox.GivingUpHappens` a run in which giving up does no harm.
- Taking the mailbox with an id is safe exactly when that is not the id answered last, in every state that can
  be reached (`Mailbox.FreshIdIff`). The id is made of clock and pid (`daemon/tools/so101ctl.c:77-88`) and can repeat.
- Recovery adds up two holds if the supervisor does not happen to look between them. It is harmless exactly
  when twice the longest hold plus the longest supervisor pass is at most 2 s
  (`Mailbox.RecoveryIsHarmlessIff`), whatever the clients do; a bound on the hold alone is not enough. A client that
  waits for its whole second and is then slow to go leaves no such room.
- `daemon/src/control.c:13` says that a moving leader never traps the arm in the slow ramp. It does not
  exactly as long as its target moves by less than `2 * ramp_done + 2 - min(ramp_step, ramp_done + 1)` ticks
  per cycle (`Trajectory.RampEndsIff`; 96 with the default settings). A target that swings faster across the
  goal keeps the ramp bit set for ever. With `ramp_step` above `ramp_done + 1` a target slower than
  `ramp_step` can do that too.
- `daemon/src/control.c:7-12` promises that a joint moves at `ramp_step` until it reaches its target. One failed read of
  the leader ends the soft start of every joint wherever it is: the target is then the goal itself
  (`daemon/src/control.c:192`), and the next good read moves at `max_step`, 50 ticks instead of 6 with the
  default settings (`Control.LostReadEndsSoftStart`). In TELEOP a joint is out of the soft start exactly if it has been
  within `ramp_done` of the leader or a read of the leader has failed (`Control.SoftStartOverIff`).
- `write_goal` and `fts_decode_sm` bring back every 16-bit goal but -32768, which has no sign-magnitude form
  and is read back as 0 (`RoundTrip.Reported`).
- A full receive buffer is called impossible at `driver/src/feetech.c:201`. `Bus.Drown` fills it: 1000 bytes of
  noise and a packet of 30 bytes, and the packet is lost. While the parser waits `rx_status` does not drop what
  the parser has already given up (`consumed`). On a script without failures the buffer overflows before the
  next packet exactly when reception, moving on by parser errors, gets to a position from which 1024 bytes do
  not satisfy the parser and a further byte arrives (`Reception.LosesIff`, and the last clause of
  `Bus.FtsBus.NextPacket`). That takes 775 positions in a row without a header (`Reception.StuckIsGarbage`).
  What is lost are exactly those 1024 bytes; reception starts again behind them (`Reception.ReceiveRestarts`).
- Temperature and voltage have to persist for 5 looks at an answering follower, not for 100 ms
  (`daemon/src/supervisor.c:27`, `daemon/src/supervisor.c:221-236`).

## Model

| member | source | states |
|---|---|---|
| Framing.ComputeChecksum | driver/src/feetech.c:20-26 | the checksum completes the byte sum to 255 modulo 256, even when the 32-bit accumulator wraps |
| Framing.BuildPacket | driver/src/feetech.c:28-42 | writes exactly the packet's bytes at the front and touches nothing else, or writes nothing if the packet is too long |
| Framing.ParseStatus | driver/src/feetech.c:44-83 | answers for the first position that is not plain garbage: packet, bad header, bad checksum, or wait; says how much may be dropped |
| Framing.AcceptIffFrame | driver/src/feetech.c:56-82 | the parser accepts at a position exactly if an encoded packet of acceptable size and ID stands there, and yields that packet |
| Framing.VerdictStable | driver/src/feetech.c:44-83 | no verdict but "wait" changes when more bytes arrive |
| Framing.RejectionIsFinal | driver/src/feetech.c:63-76 | a rejected position never becomes the start of a packet |
| Framing.WaitIsOpen | driver/src/feetech.c:52-71 | a waiting position still can become one, except FF FF FF, which the parser holds on to until the next byte |
| Framing.SmRoundTrip | driver/src/feetech.c:85-98 | decode after encode is the identity exactly on the values whose magnitude fits below the sign bit |
| Framing.SmRoundTripRaw | driver/src/feetech.c:85-98 | encode after decode is the identity exactly on registers without bits above the sign bit, negative zero excepted |
| Resync.FramesAreLeftmost | driver/src/feetech.c:49-82 | the scan finds the packet at the least position that is not rejected, and goes on behind it |
| Resync.ParseSkips | driver/src/feetech.c:63-76 | what a parser call drops was all rejected: in particular the two bytes dropped on a bad checksum hide no packet |
| Resync.Drain | driver/src/feetech.c:255-283 | parsing and dropping until the parser waits reports what the scan finds, and terminates |
| Resync.ReceiveChunks | driver/src/feetech.c:44-83 | however a stream is cut into chunks, the packets received are those of a scan of the whole stream |
| Bus.FtsBus.FillRx | driver/src/feetech.c:185-213 | no byte is lost between port and buffer; a full buffer is counted as discarded and emptied; which failures end in which code |
| Bus.FtsBus.DropRx | driver/src/feetech.c:215-223 | the buffer keeps its tail |
| Bus.FtsBus.Settle | driver/src/feetech.c:278-284 | errors drop rejected positions only, counted as discarded |
| Bus.FtsBus.NextPacket | driver/src/feetech.c:255-297 | what it reports and what it loses, for every script: the packet stands in the byte log; every byte skipped to reach it was the start of a rejected position or in a full buffer of garbage; and packet, place and losses are those of reception from a buffer of 1024 bytes (`Reception.Seek`), however the bytes are cut; on a script without failures it overflows exactly under the condition of `Reception.LosesIff` |
| Bus.FtsBus.RxStatus | driver/src/feetech.c:250-298 | as above for one expected servo; keeps the conservation of bytes (`Valid`: bytes read = buffered + discarded + accepted + misaddressed + echoed + cleared, at most 1024 buffered, `bytes_discarded` the exact count modulo 2^32) and says where each byte of this call went |
| Bus.FtsBus.ReceiveAll | driver/src/feetech.c:250-298 | call after call until the bus is silent: delivers exactly `Reception.Receive` of the stream and loses exactly `Reception.Losses`; without a loss, the packets of a leftmost scan of the whole stream |
| Bus.Drown | driver/src/feetech.c:201-204 | the overflow happens: a complete packet arrives in time behind 1000 bytes of noise and the call times out |
| Reception.LosesIff | driver/src/feetech.c:201-204 | the exact condition of an overflow before the next packet, both ways |
| Reception.SeekIsScan | driver/src/feetech.c:255-297 | without a loss, the next packet through the buffer is the one of a leftmost scan, and there is none if the scan finds none |
| Reception.ReceiveIsFrames | driver/src/feetech.c:255-297 | a receiver that never overflows delivers the packets of a leftmost scan of the whole stream |
| Reception.ReceiveRestarts | driver/src/feetech.c:201-204 | one that does delivers those up to where it gets stuck, loses exactly the 1024 bytes from there, and goes on behind them |
| Reception.StuckIsGarbage | driver/src/feetech.c:263-285 | a buffer that is full while the parser waits begins with 775 positions without a header |
| Reception.HeadersPreventLoss | driver/src/feetech.c:201-204 | so a stream without so long a stretch loses nothing |
| Reception.Drowns | driver/src/feetech.c:201-204 | any packet that plain garbage keeps from being complete within the 1024 bytes is lost, though a scan of the stream finds it |
| Bus.FtsBus.TxPacket | driver/src/feetech.c:226-247 | stale input is forgotten, the packet is sent once, and exactly its echo is swallowed; keeps the conservation of bytes |
| Bus.FtsBus.SyncRead | driver/src/feetech.c:348-377 | the outcome for each servo and what the caller's buffer then holds, good read or not: the data of each servo that has answered, at its place, everything else untouched; the code is the first error, and only a silent servo ends the read early; a good read has taken, in order, disjoint packets of the servos asked with enough data each; a bus that calmly brings the expected answers gives a good read; when the call is refused |
| Bus.SpreadAt | driver/src/feetech.c:366-371 | what a servo has sent is found at its place in that buffer |
| Bus.SpreadElse | driver/src/feetech.c:366-371 | what no servo has sent is as before |
| Bus.FtsBus.SyncWrite | driver/src/feetech.c:379-398 | sends one broadcast packet that lists ID and registers of each servo, or refuses |
| FakeBus.Simulator.Step | driver/sim/fake_bus.py:74-114 | one packet is found, checked, executed and answered as the specification of the loop says |
| FakeBus.Simulator.Feed | driver/sim/fake_bus.py:68-114 | bytes that arrive are echoed if asked, and served until no whole packet is left |
| FakeBus.ServeInPieces | driver/sim/fake_bus.py:68-114 | however the bytes are cut into chunks, the same packets are served with the same replies |
| FakeBus.WriteThenRead | driver/sim/fake_bus.py:91-100 | what a write puts into a servo a read brings back, other servos are untouched, a broadcast reaches all and is answered by none |
| RoundTrip.ServesPacket | driver/sim/fake_bus.py:74-88 | the simulator decodes every packet the driver can build, whole |
| RoundTrip.RepliesAreAnswers | driver/sim/fake_bus.py:101-105 | its answer to a sync read is the encoding, back to back, of one status packet per servo |
| RoundTrip.Exchange | driver/sim/fake_bus.py:68-114 | what reaches the driver is echo and reply, however it is cut into reads |
| RoundTrip.ReadThrough | driver/src/feetech.c:348-377 | a sync read of present servos against the simulator is good and puts their registers into the buffer in order, with or without echo, for every cutting |
| RoundTrip.WriteGoal | daemon/src/control.c:63-72 | sends the goals of all joints as sign-magnitude words in one sync write |
| RoundTrip.WriteThrough | driver/sim/fake_bus.py:106-114 | goals written reach the goal and position registers of exactly the servos addressed |
| RoundTrip.GoalsComeBack | daemon/src/control.c:132-137 | for distinct present servos the positions read back are the goals written, -32768 excepted, for every cutting of the bytes |
| RoundTrip.ReportedGoal | driver/src/feetech.c:85-98 | what one goal comes back as |
| Seqlock.StepKeepsInv | daemon/include/so101_shm.h:166-191 | every step of writer and readers keeps: the sequence word counts, and a reader's copy belongs to one sample as long as the count stands |
| Seqlock.AcceptedIsSnapshot | daemon/include/so101_shm.h:175-191 | in every interleaving, an accepted read is exactly one published sample, current within the attempt, if fewer than 2^31 publications fall into the attempt |
| Seqlock.TornRead | daemon/include/so101_shm.h:181-188 | with exactly 2^31 publications a torn read is accepted |
| Seqlock.ReadsNeverGoBack | daemon/include/so101_shm.h:177-191 | successive accepted reads of one reader never go back |
| Seqlock.PeekedSnapshotIsNewer | clients/python/so101.py:146-153 | waiting on the unprotected cycle word returns only a snapshot newer than the last |
| SharedMemory.Segment.Publish | daemon/include/so101_shm.h:166-173 | one publication: the new sample in place, the sequence word up by two |
| SharedMemory.Segment.Read | daemon/include/so101_shm.h:177-191 | the retrying reader against a writer that runs at any access: retries counted, result one complete sample published no earlier than the call |
| Mailbox.MailboxIsSafe | daemon/tools/so101ctl.c:62-103 | over every run of patient clients that may die anywhere and give up, in which recovery strikes no live client: lock count plus live holders plus a dead holder is 1, READY at most once per hold, commands served whole, once, in order, each client's result the answer to its own command |
| Mailbox.GivingUpIsHarmlessIff | daemon/tools/so101ctl.c:88-103 | all those runs are safe, and serve only commands that were asked, if and only if the supervisor's pass is shorter than a client's patience, or no hold lasts that long |
| Mailbox.GivingUpHappens | daemon/tools/so101ctl.c:88-103 | wherever holds may last as long as the patience and that is at most 2 s, clients do give up in such runs |
| Mailbox.RoomSpares | daemon/src/supervisor.c:183-191 | with room for two holds and a pass in 2 s recovery strikes no live client in any run, whether clients keep to the protocol or not |
| Mailbox.MailboxIsSafeIff | daemon/tools/so101ctl.c:62-103 | exactly under which bounds on holds, supervisor passes and patience every run is safe, without a proviso on recovery |
| Mailbox.RecoveryIsForTheDead | daemon/src/supervisor.c:178-191 | with that room recovery posts the lock only of a dead holder, and, among clients that keep to the protocol, within 2 s and three passes of its death |
| Mailbox.DeadAreRelieved | daemon/src/supervisor.c:178-191 | that delay in every lawful run, room or not |
| Mailbox.RecoveryIsHarmlessIff | daemon/src/supervisor.c:183-191 | recovery never strikes a live holder, in any run, if and only if two holds and one supervisor pass fit into 2 s |
| Mailbox.GiveUpIsLate | daemon/tools/so101ctl.c:88-103 | where clients are patient, whoever may give up has had its command served |
| Mailbox.RecoveryStrikesTheLiving | daemon/src/supervisor.c:183-191 | without that room, a run of two clients in which it does |
| Mailbox.GivingUpBreaksIt | daemon/tools/so101ctl.c:88-103 | where they are not, a run with the real delay, without a recovery, in which the supervisor serves a command nobody asked |
| Mailbox.FreshIdIff | daemon/tools/so101ctl.c:77-88 | in every state of the invariant, taking the mailbox with an id never leads to a stale answer if and only if it is not the id answered last |
| Mailbox.RepeatedIdBreaksIt | daemon/tools/so101ctl.c:77-88 | a run from the start in which it does |
| Mailbox.ClientKeepsInv | daemon/tools/so101ctl.c:72-99 | every access of a client keeps the mailbox invariant |
| Mailbox.ServerKeepsInv | daemon/src/supervisor.c:165-192 | every access of the supervisor but a recovery from a live client, and the passing of time, keeps it |
| SendCommand.Caller.SendCmd | daemon/tools/so101ctl.c:62-103 | the client as written, with everybody else making any moves at any access, is a run of the mailbox machine; if that is a lawful one, an answer is the supervisor's decision on exactly this command, made after the call; without an answer the command has been served all the same; either way the mailbox is in order |
| Supervision.Supervisor.RaiseFault | daemon/src/supervisor.c:76-94 | latches the bit and forces the mode down, never up, whatever the control thread does to its own bit |
| Supervision.Supervisor.ServeCommand | daemon/src/supervisor.c:96-129 | result and effect of every command |
| Supervision.GrantedIffCoherent | daemon/src/supervisor.c:100-114 | a mode is granted exactly if it goes with the latched faults, refused exactly if it does not, unknown otherwise |
| Supervision.ServedIsCoherent | daemon/src/supervisor.c:96-129 | commands keep mode and faults coherent: ESTOP exactly under STALL or ESTOP, IDLE or ESTOP under a fault that forbids torque, no TELEOP without leader |
| Supervision.DemotedIsCoherent | daemon/src/supervisor.c:199-244 | so does detection of any set of faults |
| Supervision.DemotedIsHighest | daemon/src/supervisor.c:84-92 | detection takes the mode down no further than the faults demand |
| Supervision.DemoteMore | daemon/src/supervisor.c:79-93 | raising faults one after the other equals raising them together |
| Supervision.Supervisor.CheckServos | daemon/src/supervisor.c:222-228 | finds whether any servo is too hot or out of voltage |
| Supervision.Supervisor.CheckLock | daemon/src/supervisor.c:181-191 | when the stuck-mailbox timer starts, stops and fires; the mailbox machine runs on the same timer (`Modes.LockTimer`) |
| Supervision.Supervisor.CheckAll | daemon/src/supervisor.c:199-244 | all counters and the faults raised, from one snapshot |
| Supervision.Supervisor.Iterate | daemon/src/supervisor.c:156-246 | one turn of the loop as a function of everything seen so far; a failed snapshot skips every check; the beat counts the turns that had one |
| Supervision.Supervisor.Run | daemon/src/supervisor.c:156-261 | the whole loop as a function of its turns, with the control thread toggling its own bit between any two accesses; each answer is the decision on the words as the turns before have left them |
| Supervision.AlwaysCoherent | daemon/src/supervisor.c:140-263 | mode and faults are coherent after every run |
| Supervision.LatchedUntilReset | daemon/src/supervisor.c:75-94 | no latched bit clears and no torque-moving mode returns before a RESET |
| Supervision.StallIffSilent | daemon/src/supervisor.c:199-205 | STALL is detected exactly when one cycle has been on show for more than 200 ms |
| Supervision.HotRunIsSuffix | daemon/src/supervisor.c:221-233 | the temperature counter is the latest unbroken run of hot looks at an answering follower |
| Supervision.BadVoltRunIsSuffix | daemon/src/supervisor.c:221-236 | the same for the supply voltage |
| Calibration.FollowIsOrdered | daemon/src/calib.c:96-127 | for every rounding of single precision, subnormals included: the follower stays in its range, ends go to ends, order is kept or reversed as the drives say |
| Calibration.RoundTrip | daemon/src/calib.c:96-127 | for every such rounding, normalising and mapping back gives the position or the one before it |
| Calibration.FractionSurvives | daemon/src/calib.c:102-124 | for every such rounding, the error of the way through the normalised position, for body and gripper, either drive |
| Trajectory.StepMoves | daemon/src/control.c:198-205 | a step goes towards the target by the limit of the moment, not past it, and does not wrap; the ramp ends near the target |
| Trajectory.GoalStaysInHull | daemon/src/control.c:192-206 | the goal stays where its first value and the targets are |
| Trajectory.HoldNeverOvershoots | daemon/src/control.c:196-205 | a held joint never moves away from the pose or past it |
| Trajectory.HoldConverges | daemon/src/control.c:196-205 | it arrives within ceil((d0 - ramp_done) / ramp_step) + ceil(ramp_done / max_step) cycles |
| Trajectory.CeilDivCovers | daemon/src/control.c:198-205 | that many steps do cover the distance |
| Trajectory.CeilDivIsLeast | daemon/src/control.c:198-205 | and no fewer |
| Trajectory.RampEnds | daemon/src/control.c:200-204 | with a target that cannot jump the window the ramp ends within the cycles it takes to cross the range |
| Trajectory.RampEndsIff | daemon/src/control.c:200-204 | the ramp is sure to end in bounded time if and only if the target cannot jump over the window around the goal |
| Trajectory.SwingTraps | daemon/src/control.c:200-204 | the target that traps it |
| Trajectory.TeleopTracks | daemon/src/control.c:192-206 | with a slow enough target, after a bounded time the goal is the target in every cycle |
| Trajectory.ChaseTracks | daemon/src/control.c:191-206 | the same when the target has been unknown in some cycles |
| Trajectory.RampOverIff | daemon/src/control.c:191-206 | the ramp is over exactly if a target has been near or unknown |
| Reconnection.StreakCountsFailures | daemon/src/control.c:124-147 | the streaks are saturated counts of consecutive failures |
| Reconnection.AttemptsAreApart | daemon/src/control.c:125-155 | a bus is reopened only after 50 failures in a row and 50 cycles after the last attempt |
| Reconnection.AttemptsGoOn | daemon/src/control.c:125-155 | and while it fails there has been an attempt in the last 50 cycles |
| Control.CalibratedIsSane | daemon/src/control.c:195 | calibrated arms give the control thread targets in range |
| Control.CycleKeepsInv | daemon/src/control.c:157-221 | torque only in TELEOP or HOLD, ramp bits only with torque, positions 16-bit, through refusals and reopenings |
| Control.CycleMoves | daemon/src/control.c:185-206 | how far a cycle moves each joint, from where, towards what; when ramp bits are set and cleared; without a read of the leader the goal itself is the target |
| Control.EnableIsGentle | daemon/src/control.c:168-174 | torque on is preceded at once by a goal equal to the positions read in that cycle |
| Control.RunIsSmooth | daemon/src/control.c:93-240 | over every run: the torque flag is what was last commanded, torque comes on right after a goal, no goal jumps while it is on |
| Control.RunIsGentle | daemon/src/control.c:168-206 | every cycle of every run that ends with torque on sends one goal, last; it moves each joint by at most the slow step if the joint is ramping, the fast step if not, from the last goal sent, which is the position just read if torque has just come on |
| Control.EnableInStream | daemon/src/control.c:168-174 | every command of every run that switches torque on follows at once the goal to stay where that cycle has read the follower to be |
| Control.HoldArrives | daemon/src/control.c:177-206 | in an unbroken HOLD stay every joint arrives, in bounded time, where the arm was on entry |
| Control.SoftStartOverIff | daemon/src/control.c:191-204 | over every TELEOP stay, whatever reads fail: a joint is out of the soft start exactly if it has been near the leader or a read of the leader has failed |
| Control.LostReadEndsSoftStart | daemon/src/control.c:191-205 | one failed read of the leader clears every ramp bit and leaves the goal; the next good read moves every joint by the fast step, however far the leader is |
| Control.TeleopArrives | daemon/src/control.c:185-206 | in a TELEOP stay with a slow enough leader every joint's goal becomes the leader's position, in bounded time and for good; reads may fail until the soft start is over |
| ControlThread.Thread.ReadLeader | daemon/src/control.c:111-129 | normalised positions, error counter, streak and reconnection from one sync read |
| ControlThread.Thread.ReadFollower | daemon/src/control.c:131-155 | the same for the follower; reopening makes it limp |
| ControlThread.Thread.ChangeMode | daemon/src/control.c:157-188 | the mode transition, the commands it sends, when torque is refused |
| ControlThread.Thread.MoveJoint | daemon/src/control.c:198-205 | one joint's step, the others untouched |
| ControlThread.Thread.MoveJoints | daemon/src/control.c:190-206 | all joints' steps, in place |
| ControlThread.Thread.NextSlot | daemon/src/control.c:230-239 | next slot = start + period * (cycles + skipped slots), at most one period ahead and not behind; overruns at most the skipped slots; counters modulo 2^32; the loop ends |
| ControlThread.Thread.Cycle | daemon/src/control.c:101-240 | the whole cycle in place: state, commands, published sample, links and grid |
| ControlThread.Thread.Run | daemon/src/control.c:93-244 | the whole thread, start to shutdown: state, commands to either bus, samples and both buses' reconnections are those of the run over what it has found; the follower is left limp |
| ControlThread.ThreadIsSmooth | daemon/src/control.c:93-244 | so torque comes on right after a goal, no goal jumps while it is on, the flag is what was last commanded, and the arm is left limp |
| ControlThread.ThreadIsGentle | daemon/src/control.c:168-206 | in terms of what the thread publishes: while torque is on, every joint published as ramping moves by at most the slow step per cycle, every other by at most the fast one |
| ControlThread.ThreadEnablesInPlace | daemon/src/control.c:168-174 | whenever torque is switched on, the command before it is a goal equal to the positions read in that cycle |
| ControlThread.ThreadReopensRarely | daemon/src/control.c:125-155 | either bus is reopened only after 50 failed reads in a row, 50 cycles apart |
| TorqueSafety.ObeysSafeMode | daemon/src/control.c:158-188 | a cycle that looks at IDLE or ESTOP publishes it limp and sends neither torque nor goal |
| TorqueSafety.TorqueStaysOff | daemon/src/control.c:148-188 | over every interleaving: once a safe mode has been forced for a fault that forbids torque, every later look leads to a limp cycle, until a RESET begins |
| TorqueSafety.BlockedUntilReset | daemon/src/supervisor.c:76-129 | only a RESET lifts that |
| TorqueSafety.RaiseIsRaised | daemon/src/supervisor.c:76-94 | the machine's three accesses make up the raising of a fault |
| TorqueSafety.SetIsServed | daemon/src/supervisor.c:100-114 | and its accesses for SET_MODE make up the command |
| TorqueSafety.EstopAndResetAreServed | daemon/src/supervisor.c:115-123 | so do those of ESTOP and RESET |
| Recorder.Log | daemon/tools/so101_log.c:84-118 | every cycle found is recorded, and the missed count is the gaps between the rows; of snapshots that do not go back each cycle is one row, in increasing order, and rows plus missed cycles are the cycles from first to last |
| Recorder.FoundGoesForward | daemon/tools/so101_log.c:95 | in every run of the snapshot protocol, what one reader finds does not go back, if fewer than 2^31 publications fall into each attempt |
| Recorder.RecorderAccounts | daemon/tools/so101_log.c:84-118 | so for every such run the recorder's rows and gaps account for every cycle from first to last |
| Recorder.LaterReadLaterCycle | daemon/tools/so101_log.c:95 | the snapshots a recorder reads never go back in cycle |
| Recorder.Watch | daemon/src/so101d.c:349-376 | a ping at exactly the checks that find a new cycle and a new supervisor beat since the last check that found any |

## Left out

Assumptions and parameters:

- Operating-system calls (`poll`, `read`, `write`, `tcflush`, `open`, semaphores, clocks, threads, signals) are inputs or steps: a script of what each wait brings, a flag that says whether writes succeed, a clock reading, an interleaving.
- A partial `write` and its retry in the driver are one step that succeeds or fails.
- The byte copies of the two shared-memory protocols are sequentially consistent word accesses; a weaker memory model, and tearing inside a word, are not modelled.
- Float arithmetic is real arithmetic with one rounding per operation (section 4.3.1 of IEEE 754-2008), subnormal results included; a compiler that fuses a multiplication and an addition is not covered. Calibration files are assumed to have ranges within 0..4095; `calib_load` and `get_int` are not modelled.
- The supervisor's timed-out wait, its clock reading and its look at the lock count are one step of the mailbox machine; so is its pass over the safety checks.
- The Python client of the mailbox clears the id before it writes the other words; the machine has the order of the C client.
- The results on what reception finds assume that `poll` reports input only when there is some to read, at once or after an interruption (`Bus.Honest`).
- Resync.ReceiveChunks: has a buffer without limit; the 1024-byte buffer is that of `Bus.FtsBus.ReceiveAll`, and `Reception.ReceiveIsFrames` ties the two.
- ControlThread.Thread.Cycle: records commands, not their bytes, which `RoundTrip.WriteGoal` and `Bus.FtsBus.SyncWrite` have; the timing statistics it publishes are not recorded.
- Mailbox.MailboxIsSafe: is about clients that do not repeat the id answered last and about runs in which recovery strikes no live client; `Mailbox.FreshIdIff` and `Mailbox.RecoveryIsHarmlessIff` say exactly when that is so.
- SendCommand.Caller.SendCmd: promises nothing of runs that are not lawful in that sense.
- TorqueSafety.TorqueStaysOff: is about commands; that they arrive at the servos is not claimed, the code ignores the return codes.

Not modelled:

- `fts_ping`, `fts_read`, `fts_write`, `fts_raw_ping`, opening and closing of ports, baud rates.
- The simulator's corruption and wiggle options.
- Logging, status lines, CSV formatting, command-line parsing, systemd notification texts, the daemon's start and stop.
- The layout of the shared struct, the ROS 2 bridge, plotting and statistics scripts, the jitter test.
