/** The driver talking to the simulated bus: what the control thread writes is what it reads back. */
module RoundTrip {
  import opened Bytes
  import opened Framing
  import opened Bus
  import FakeBus

  type Registers = FakeBus.Registers

  // ------------------------------------------------- the simulator's answers

  /** The simulator takes one packet of the driver off the wire and executes it. */
  lemma ServesPacket(regs: Registers, p: Packet, out: seq<Byte>)
    requires Fits(p)
    ensures var effect := FakeBus.Execute(regs, p.id, p.code, p.body);
            FakeBus.Serve(regs, Encode(p), out) ==
              if effect.Crash? then FakeBus.Crashed else FakeBus.Served(effect.regs, [], out + effect.reply)
  {
    var e := Encode(p);
    assert FakeBus.Find(e) == 0;
    assert Total(e, 0) == |e|;
    assert e[0..|e|] == e;
    assert e[2..|e| - 1] == Header(p);
    assert e[5..|e| - 1] == p.body;
    assert e[|e|..] == [];
    assert FakeBus.TakeTurn(regs, []) == FakeBus.Idle;
  }

  /** The status packets a sync read of present servos should bring. */
  function Answers(regs: Registers, ids: seq<Byte>, a: nat, ln: nat): seq<Packet>
    requires forall t :: t in ids ==> t in regs
  {
    seq(|ids|, k requires 0 <= k < |ids| => Packet(ids[k], 0, FakeBus.Slice(regs[ids[k]], a, a + ln)))
  }

  /** The registers exist, and a reply of that length is one the driver's parser takes. */
  predicate Readout(regs: Registers, ids: seq<Byte>, a: nat, ln: nat) {
    && ln + 6 <= MAX_PKT
    && forall t :: t in ids ==> t in regs && t != 0xFF && a + ln <= |regs[t]|
  }

  lemma {:induction false} WireCons(p: Packet, ps: seq<Packet>, n: nat)
    requires n <= |ps| && Readable(p) && AllReadable(ps)
    ensures AllReadable([p] + ps)
    ensures Wire([p] + ps, n + 1) == Encode(p) + Wire(ps, n)
  {
    var q := [p] + ps;
    var last := q[n];
    assert Wire(q, n + 1) == Wire(q, n) + Encode(last);
    if n == 0 {
      assert Wire(q, 0) == [] == Wire(ps, 0) && last == p;
      assert [] + Encode(p) == Encode(p) == Encode(p) + [];
    } else {
      WireCons(p, ps, n - 1);
      assert last == ps[n - 1];
      var head, front, tail := Encode(p), Wire(ps, n - 1), Encode(last);
      assert Wire(ps, n) == front + tail;
      Assoc(head, front, tail);
    }
  }

  lemma AnswersFit(regs: Registers, ids: seq<Byte>, a: nat, ln: nat)
    requires Readout(regs, ids, a, ln)
    ensures AnswersTo(Answers(regs, ids, a, ln), ids, ln) && AllReadable(Answers(regs, ids, a, ln))
  {
  }

  lemma AnswersCons(regs: Registers, ids: seq<Byte>, a: nat, ln: nat)
    requires Readout(regs, ids, a, ln) && ids != []
    ensures Readout(regs, ids[1..], a, ln) && Readable(FirstAnswer(regs, ids, a, ln))
    ensures Answers(regs, ids, a, ln) == [FirstAnswer(regs, ids, a, ln)] + Answers(regs, ids[1..], a, ln)
  {
    assert ids[0] in ids;
  }

  function FirstAnswer(regs: Registers, ids: seq<Byte>, a: nat, ln: nat): Packet
    requires ids != [] && ids[0] in regs
  {
    Packet(ids[0], 0, FakeBus.Slice(regs[ids[0]], a, a + ln))
  }

  lemma {:induction false} RepliesAreAnswers(regs: Registers, ids: seq<Byte>, a: nat, ln: nat)
    requires Readout(regs, ids, a, ln) && AllReadable(Answers(regs, ids, a, ln))
    ensures FakeBus.Replies(regs, ids, a, ln) == FakeBus.Done(regs, Wire(Answers(regs, ids, a, ln), |ids|))
  {
    hide Encode, Answers;
    if ids != [] {
      var tail := ids[1..];
      AnswersCons(regs, ids, a, ln);
      AnswersFit(regs, tail, a, ln);
      RepliesAreAnswers(regs, tail, a, ln);
      WireCons(FirstAnswer(regs, ids, a, ln), Answers(regs, tail, a, ln), |tail|);
    }
  }

  // ------------------------------------------------------ cutting into reads

  /** A calm delivery of `bytes`: each cut is the size of one read, or 0 for an interrupted wait. */
  function Deliver(bytes: seq<Byte>, cuts: seq<nat>): seq<Event> {
    if bytes == [] then []
    else if cuts == [] then [Event(false, Data(bytes))]
    else if cuts[0] == 0 then [Event(false, PollInterrupted)] + Deliver(bytes, cuts[1..])
    else
      var n := Min(cuts[0], |bytes|);
      [Event(false, Data(bytes[..n]))] + Deliver(bytes[n..], cuts[1..])
  }

  lemma CalmCons(e: Event, tail: seq<Event>)
    requires CalmEvent(e) && Calm(tail)
    ensures Calm([e] + tail)
  {
  }

  lemma {:induction false} DeliverIsCalm(bytes: seq<Byte>, cuts: seq<nat>)
    ensures Calm(Deliver(bytes, cuts))
    decreases |cuts|
  {
    if bytes == [] {
    } else if cuts == [] {
      CalmCons(Event(false, Data(bytes)), []);
    } else if cuts[0] == 0 {
      DeliverIsCalm(bytes, cuts[1..]);
      CalmCons(Event(false, PollInterrupted), Deliver(bytes, cuts[1..]));
    } else {
      var n := Min(cuts[0], |bytes|);
      DeliverIsCalm(bytes[n..], cuts[1..]);
      CalmCons(Event(false, Data(bytes[..n])), Deliver(bytes[n..], cuts[1..]));
    }
  }

  lemma {:induction false} DeliverIsWhole(bytes: seq<Byte>, cuts: seq<nat>)
    ensures Payload(Deliver(bytes, cuts)) == bytes
    decreases |cuts|
  {
    if bytes == [] {
    } else if cuts == [] {
      PayloadCons(Event(false, Data(bytes)), []);
    } else if cuts[0] == 0 {
      DeliverIsWhole(bytes, cuts[1..]);
      PayloadCons(Event(false, PollInterrupted), Deliver(bytes, cuts[1..]));
      assert [] + bytes == bytes;
    } else {
      var n := Min(cuts[0], |bytes|);
      DeliverIsWhole(bytes[n..], cuts[1..]);
      PayloadCons(Event(false, Data(bytes[..n])), Deliver(bytes[n..], cuts[1..]));
      assert bytes[..n] + bytes[n..] == bytes;
    }
  }

  // -------------------------------------------------------------- sync read

  /** The simulator executes a packet that the driver has sent; its bytes will reach the driver in
      pieces of the given sizes. */
  method Exchange(sim: FakeBus.Simulator, p: Packet, cuts: seq<nat>) returns (script: seq<Event>)
    requires Fits(p) && !sim.crashed && sim.buf == [] && sim.out == []
    requires !FakeBus.Execute(sim.regs, p.id, p.code, p.body).Crash?
    modifies sim
    ensures var effect := FakeBus.Execute(old(sim.regs), p.id, p.code, p.body);
            && !sim.crashed && sim.buf == [] && sim.out == [] && sim.regs == effect.regs
            && Calm(script) && Payload(script) == (if sim.echo then Encode(p) else []) + effect.reply
  {
    hide Encode, FakeBus.Serve, FakeBus.Execute, Deliver, Calm, Payload;
    var bytes := new Byte[MAX_PKT](_ => 0);
    var n := BuildPacket(bytes, p.id, p.code, p.body);
    var request := bytes[..n];
    ServesPacket(sim.regs, p, if sim.echo then Encode(p) else []);
    assert [] + request == request;
    assert [] + (if sim.echo then request else []) == if sim.echo then request else [];
    sim.Feed(request);
    script := Deliver(sim.out, cuts);
    DeliverIsCalm(sim.out, cuts);
    DeliverIsWhole(sim.out, cuts);
    sim.out := [];
  }

  lemma ReadIsAnswered(regs: Registers, ids: seq<Byte>, addr: Byte, len: Byte)
    requires Readout(regs, ids, addr, len)
    ensures var p, expected := SyncReadPacket(ids, addr, len), Answers(regs, ids, addr, len);
            && AnswersTo(expected, ids, len) && AllReadable(expected)
            && FakeBus.Execute(regs, p.id, p.code, p.body) == FakeBus.Done(regs, Wire(expected, |expected|))
  {
    hide FakeBus.Replies, Wire;
    assert SyncReadPacket(ids, addr, len).body[2..] == ids;
    AnswersFit(regs, ids, addr, len);
    RepliesAreAnswers(regs, ids, addr, len);
  }

  /** A sync read of present servos puts their registers into the caller's buffer in order, however the adapter
      cuts the bytes of the echo and of the replies into reads. */
  method ReadThrough(bus: FtsBus, sim: FakeBus.Simulator, ids: seq<Byte>, addr: Byte, len: Byte, out: array<Byte>,
                     cuts: seq<nat>) returns (code: Code)
    requires bus.Valid() && bus.writable && bus.echo == sim.echo && out != bus.rxbuf
    requires !sim.crashed && sim.buf == [] && sim.out == [] && out.Length >= Place(len, |ids|)
    requires ids != [] && len > 0 && |ids| + 8 <= MAX_PKT && Readout(sim.regs, ids, addr, len)
    modifies bus, bus.rxbuf, sim, out
    ensures bus.Valid() && !sim.crashed && sim.regs == old(sim.regs) && sim.buf == sim.out == []
    ensures bus.sent == old(bus.sent) + [Encode(SyncReadPacket(ids, addr, len))]
    ensures code == Ok && Copied(old(out[..]), len, Contents(old(sim.regs), ids, addr, len), out[..])
  {
    hide Answers, AnswersTo, Encode, FakeBus.Execute, Wire, Calm, Payload, DataOf, InOrder, FromIds, Copied, Filled,
         Brought, Contents;
    ghost var expected := Answers(sim.regs, ids, addr, len);
    var p := SyncReadPacket(ids, addr, len);
    ReadIsAnswered(sim.regs, ids, addr, len);
    bus.wire := Exchange(sim, p, cuts);
    ghost var codes, replies, parts;
    code, codes, replies, parts := bus.SyncRead(ids, addr, len, out, expected);
    AnswersCarry(sim.regs, ids, addr, len, replies);
  }

  /** The registers of the servos, one part for each. */
  function Contents(regs: Registers, ids: seq<Byte>, a: nat, ln: nat): seq<seq<Byte>>
    requires forall t :: t in ids ==> t in regs
  {
    seq(|ids|, k requires 0 <= k < |ids| => FakeBus.Slice(regs[ids[k]], a, a + ln))
  }

  lemma AnswersCarry(regs: Registers, ids: seq<Byte>, a: nat, ln: nat, replies: seq<Bus.Reply>)
    requires Readout(regs, ids, a, ln) && Brought(replies) == Answers(regs, ids, a, ln)
    ensures DataOf(replies, ln) == Contents(regs, ids, a, ln)
  {
    assert |Brought(replies)| == |ids|;
    forall k | 0 <= k < |ids| ensures DataOf(replies, ln)[k] == Contents(regs, ids, a, ln)[k] {
      assert Brought(replies)[k] == Answers(regs, ids, a, ln)[k];
    }
  }

  // -------------------------------------------------------- goal positions

  /** The goal registers of the first `n` joints: sign-magnitude, little endian. */
  function GoalBytes(goals: seq<int>, n: nat): (d: seq<Byte>)
    requires n <= |goals|
    ensures |d| == n * 2
  {
    if n == 0 then []
    else
      var e := EncodeSm(goals[n - 1], 15);
      GoalBytes(goals, n - 1) + [LowByte(e), HighByte(e)]
  }

  lemma {:induction false} GoalBytesAt(goals: seq<int>, n: nat, k: nat)
    requires k < n <= |goals|
    ensures var e := EncodeSm(goals[k], 15);
            GoalBytes(goals, n)[2 * k..2 * k + 2] == [LowByte(e), HighByte(e)]
  {
    if k < n - 1 {
      GoalBytesAt(goals, n - 1, k);
      var front := GoalBytes(goals, n - 1);
      assert GoalBytes(goals, n)[2 * k..2 * k + 2] == front[2 * k..2 * k + 2];
    }
  }

  /** Where the k-th servo's group stands in the body of a sync write of two-byte registers. */
  lemma {:induction false} GroupsAt(ids: seq<Byte>, data: seq<Byte>, n: nat, k: nat)
    requires k < n <= |ids| && |ids| * 2 == |data|
    ensures var body := Groups(ids, data, 2, n);
            |body| == 3 * n && body[3 * k] == ids[k] && body[3 * k + 1..3 * k + 3] == data[2 * k..2 * k + 2]
  {
    GroupsLength(ids, data, 2, n);
    GroupsLength(ids, data, 2, n - 1);
    var body, front := Groups(ids, data, 2, n), Groups(ids, data, 2, n - 1);
    if k < n - 1 {
      GroupsAt(ids, data, n - 1, k);
      assert body[3 * k + 1..3 * k + 3] == front[3 * k + 1..3 * k + 3];
    } else {
      assert Group(data, 2, k) == data[2 * k..2 * k + 2];
    }
  }

  predicate Distinct(ids: seq<Byte>) {
    forall i, j :: 0 <= i < j < |ids| ==> ids[i] != ids[j]
  }

  /** The first `k` servos have been told where to go, and are there; nothing else has changed. */
  ghost predicate Moved(before: Registers, after: Registers, ids: seq<Byte>, data: seq<Byte>, k: nat)
    requires k <= |ids| && |ids| * 2 == |data|
  {
    && after.Keys == before.Keys
    && (forall t :: t in before && t !in ids[..k] ==> after[t] == before[t])
    && (forall t :: t in before ==> |after[t]| == |before[t]|)
    && (forall j :: 0 <= j < k && ids[j] in before && |before[ids[j]]| >= 58 ==>
          after[ids[j]][56..58] == after[ids[j]][42..44] == data[2 * j..2 * j + 2])
  }

  /** A register file in which one servo has taken its goal. */
  predicate Takes(r: seq<Byte>, r': seq<Byte>, goal: seq<Byte>) {
    |r'| == |r| >= 58 && |goal| == 2 && r'[56..58] == r'[42..44] == goal
  }

  lemma GroupWritten(regs: Registers, ids: seq<Byte>, data: seq<Byte>, body: seq<Byte>, k: nat)
    requires k < |ids| && |ids| * 2 == |data| && body == Groups(ids, data, 2, |ids|) && |body| == 3 * |ids|
    requires forall t :: t in regs ==> |regs[t]| >= 58
    ensures var t, regs' := ids[k], FakeBus.WriteGroup(regs, 42, 2, body, 3 * k);
            if t in regs then regs' == regs[t := regs'[t]] && Takes(regs[t], regs'[t], data[2 * k..2 * k + 2])
            else regs' == regs
  {
    GroupsAt(ids, data, |ids|, k);
    var t, d := ids[k], data[2 * k..2 * k + 2];
    assert FakeBus.Slice(body, 3 * k + 1, 3 * k + 3) == d;
    if t in regs {
      var r := FakeBus.Assign(regs[t], 42, 44, d);
      assert FakeBus.Slice(r, 42, 44) == r[42..44] == d;
      var r' := FakeBus.Assign(r, 56, 58, d);
      assert r'[56..58] == d && r'[42..44] == r[42..44];
    }
  }

  lemma MovedOn(before: Registers, regs: Registers, regs': Registers, ids: seq<Byte>, data: seq<Byte>, k: nat)
    requires k < |ids| && |ids| * 2 == |data| && Distinct(ids) && Moved(before, regs, ids, data, k)
    requires if ids[k] in regs then
               ids[k] in regs' && regs' == regs[ids[k] := regs'[ids[k]]]
               && Takes(regs[ids[k]], regs'[ids[k]], data[2 * k..2 * k + 2])
             else regs' == regs
    ensures Moved(before, regs', ids, data, k + 1)
  {
  }

  lemma MovedStep(before: Registers, regs: Registers, ids: seq<Byte>, data: seq<Byte>, body: seq<Byte>, k: nat)
    requires k < |ids| && |ids| * 2 == |data| && Distinct(ids) && body == Groups(ids, data, 2, |ids|)
    requires forall t :: t in before ==> |before[t]| >= 58
    requires Moved(before, regs, ids, data, k) && |body| == 3 * |ids|
    ensures Moved(before, FakeBus.WriteGroup(regs, 42, 2, body, 3 * k), ids, data, k + 1)
  {
    GroupWritten(regs, ids, data, body, k);
    MovedOn(before, regs, FakeBus.WriteGroup(regs, 42, 2, body, 3 * k), ids, data, k);
  }

  lemma {:induction false} GoalsWritten(before: Registers, regs: Registers, ids: seq<Byte>, data: seq<Byte>, k: nat)
    returns (after: Registers)
    requires k <= |ids| && |ids| * 2 == |data| && Distinct(ids)
    requires forall t :: t in before ==> |before[t]| >= 58
    requires Moved(before, regs, ids, data, k)
    ensures after == FakeBus.WriteGroups(regs, 42, 2, Groups(ids, data, 2, |ids|), 3 * k)
    ensures Moved(before, after, ids, data, |ids|)
    decreases |ids| - k
  {
    hide Moved, Groups, FakeBus.WriteGroup;
    var body := Groups(ids, data, 2, |ids|);
    GroupsLength(ids, data, 2, |ids|);
    after := regs;
    if k < |ids| {
      MovedStep(before, regs, ids, data, body, k);
      after := GoalsWritten(before, FakeBus.WriteGroup(regs, 42, 2, body, 3 * k), ids, data, k + 1);
    }
  }

  /** Writes the goal position of each joint. */
  method WriteGoal(bus: FtsBus, ids: seq<Byte>, goal: seq<int>) returns (code: Code)
    requires bus.Valid() && |ids| == |goal|
    modifies bus, bus.rxbuf
    ensures bus.Valid() && bus.writable == old(bus.writable)
    ensures code == Arg <==> ids == [] || !Fits(GoalPacket(ids, goal))
    ensures bus.sent == if code != Arg && old(bus.writable) then old(bus.sent) + [EncodeFit(GoalPacket(ids, goal))]
                        else old(bus.sent)
    ensures code != Arg && old(bus.writable) && Calm(old(bus.wire)) ==> code == Ok
  {
    var d: seq<Byte> := [];
    for j := 0 to |goal|
      invariant d == GoalBytes(goal, j)
    {
      var e := EncodeSm(goal[j], 15);
      d := d + [LowByte(e), HighByte(e)];
    }
    code := bus.SyncWrite(ids, FakeBus.GOAL_POSITION, 2, d);
  }

  function GoalPacket(ids: seq<Byte>, goal: seq<int>): Packet
    requires |ids| == |goal|
  {
    SyncWritePacket(ids, 42, 2, GoalBytes(goal, |goal|))
  }

  /** What the servos report after a goal has been written: the goal itself, except that the one
      16-bit value without a sign-magnitude form comes back as zero. */
  function Reported(goal: int): int {
    if goal == -0x8000 then 0 else goal
  }

  lemma ReportedGoal(goal: int)
    requires IsInt16(goal)
    ensures var e := EncodeSm(goal, 15); DecodeSm(Le16(LowByte(e), HighByte(e)), 15) == Reported(goal)
  {
    assert Pow2(5) == 32;
    assert Pow2(10) == 1024;
    assert Pow2(15) == 0x8000;
    SmRoundTrip(goal, 15);
  }

  lemma PositionAt(before: Registers, after: Registers, ids: seq<Byte>, goal: seq<int>, was: seq<Byte>, out: seq<Byte>,
                   k: nat)
    requires k < |ids| == |goal| && Moved(before, after, ids, GoalBytes(goal, |goal|), |ids|)
    requires forall j :: 0 <= j < |ids| ==> ids[j] in before && |before[ids[j]]| >= 58
    requires Copied(was, 2, Contents(after, ids, 56, 2), out) && |was| == 2 * |ids|
    ensures var e := EncodeSm(goal[k], 15); out[2 * k] == LowByte(e) && out[2 * k + 1] == HighByte(e)
  {
    hide Spread;
    var parts := Contents(after, ids, 56, 2);
    assert ids[k] in before;
    assert parts[k] == after[ids[k]][56..58] == GoalBytes(goal, |goal|)[2 * k..2 * k + 2];
    GoalBytesAt(goal, |goal|, k);
    assert Place(2, k) == 2 * k;
    SpreadAt(was, 2, parts, k, 2 * k);
    SpreadAt(was, 2, parts, k, 2 * k + 1);
  }

  lemma WriteIsServed(regs: Registers, ids: seq<Byte>, goal: seq<int>) returns (after: Registers)
    requires Distinct(ids) && |ids| == |goal| && forall t :: t in regs ==> |regs[t]| >= 58
    ensures var p := GoalPacket(ids, goal);
            |p.body| == 2 + 3 * |ids| && FakeBus.Execute(regs, p.id, p.code, p.body) == FakeBus.Done(after, [])
    ensures Moved(regs, after, ids, GoalBytes(goal, |goal|), |ids|)
  {
    hide Groups, FakeBus.WriteGroups, GoalBytes;
    var data := GoalBytes(goal, |goal|);
    GroupsLength(ids, data, 2, |ids|);
    after := GoalsWritten(regs, regs, ids, data, 0);
    assert GoalPacket(ids, goal).body[2..] == Groups(ids, data, 2, |ids|);
  }

  /** Goals written to the bus reach the registers of exactly the servos addressed. */
  method WriteThrough(bus: FtsBus, sim: FakeBus.Simulator, ids: seq<Byte>, goal: seq<int>, cuts: seq<nat>) returns (code: Code)
    requires bus.Valid() && bus.writable && bus.echo == sim.echo
    requires !sim.crashed && sim.buf == [] && sim.out == []
    requires ids != [] && Distinct(ids) && |ids| == |goal| && 3 * |ids| + 8 <= MAX_PKT
    requires forall t :: t in sim.regs ==> |sim.regs[t]| >= 58
    modifies bus, bus.rxbuf, sim
    ensures bus.Valid() && bus.writable && !sim.crashed && sim.buf == sim.out == [] && code == Ok
    ensures bus.sent == old(bus.sent) + [EncodeFit(GoalPacket(ids, goal))]
    ensures Moved(old(sim.regs), sim.regs, ids, GoalBytes(goal, |goal|), |ids|)
  {
    hide Moved, GoalBytes, GoalPacket, Encode, FakeBus.Execute, Calm, Payload, Distinct;
    var p := GoalPacket(ids, goal);
    ghost var after := WriteIsServed(sim.regs, ids, goal);
    bus.wire := Exchange(sim, p, cuts);
    code := WriteGoal(bus, ids, goal);
  }

  /** Goals written to distinct servos on the bus are the positions read back, for every 16-bit goal
      and however the adapter cuts the bytes. */
  method GoalsComeBack(bus: FtsBus, sim: FakeBus.Simulator, ids: seq<Byte>, goal: seq<int>, cuts: seq<nat>, cuts': seq<nat>)
    returns (pos: seq<int>)
    requires bus.Valid() && bus.writable && bus.echo == sim.echo
    requires !sim.crashed && sim.buf == [] && sim.out == []
    requires ids != [] && Distinct(ids) && |ids| == |goal| && 3 * |ids| + 8 <= MAX_PKT
    requires forall t :: t in sim.regs ==> |sim.regs[t]| >= 58
    requires forall k :: 0 <= k < |ids| ==> ids[k] in sim.regs && ids[k] != 0xFF && IsInt16(goal[k])
    modifies bus, bus.rxbuf, sim
    ensures |pos| == |ids| && forall k :: 0 <= k < |ids| ==> pos[k] == Reported(goal[k])
  {
    ghost var before := sim.regs;
    var code := WriteThrough(bus, sim, ids, goal, cuts);
    ghost var after := sim.regs;
    AllPresent(before, after, ids, GoalBytes(goal, |goal|));
    var out := new Byte[2 * |ids|](_ => 0);
    ghost var was := out[..];
    code := ReadThrough(bus, sim, ids, FakeBus.PRESENT_POSITION, 2, out, cuts');
    pos := DecodePositions(before, after, ids, goal, was, out[..]);
  }

  lemma AllPresent(before: Registers, after: Registers, ids: seq<Byte>, data: seq<Byte>)
    requires |ids| * 2 == |data| && Moved(before, after, ids, data, |ids|)
    requires forall t :: t in before ==> |before[t]| >= 58
    requires forall k :: 0 <= k < |ids| ==> ids[k] in before && ids[k] != 0xFF
    ensures Readout(after, ids, 56, 2)
  {
  }

  method DecodePositions(ghost before: Registers, ghost after: Registers, ids: seq<Byte>, ghost goal: seq<int>,
                         ghost was: seq<Byte>, out: seq<Byte>) returns (pos: seq<int>)
    requires |ids| == |goal| && |was| == |out| == 2 * |ids|
    requires Moved(before, after, ids, GoalBytes(goal, |goal|), |ids|)
    requires forall j :: 0 <= j < |ids| ==> ids[j] in before && |before[ids[j]]| >= 58 && IsInt16(goal[j])
    requires Copied(was, 2, Contents(after, ids, 56, 2), out)
    ensures |pos| == |ids| && forall k :: 0 <= k < |ids| ==> pos[k] == Reported(goal[k])
  {
    hide Copied, Moved, Contents, GoalBytes, Reported, EncodeSm;
    pos := [];
    for k := 0 to |ids|
      invariant |pos| == k && forall j :: 0 <= j < k ==> pos[j] == Reported(goal[j])
    {
      PositionAt(before, after, ids, goal, was, out, k);
      ReportedGoal(goal[k]);
      pos := pos + [DecodeSm(Le16(out[2 * k], out[2 * k + 1]), 15)];
    }
  }
}
