/** The simulated servo bus: the device end of the protocol, on one register table per servo. */
module FakeBus {
  import opened Bytes
  import opened Framing

  type Registers = map<Byte, seq<Byte>>

  const GOAL_POSITION := 42
  const PRESENT_POSITION := 56

  function Clip(i: nat, r: seq<Byte>): nat {
    if i < |r| then i else |r|
  }

  /** The slice r[a:b] of the simulator's language: clipped at the end. */
  function Slice(r: seq<Byte>, a: nat, b: nat): seq<Byte>
    requires a <= b
  {
    r[Clip(a, r)..Clip(b, r)]
  }

  /** The slice assignment r[a:b] = d: it may change the length of the table. */
  function Assign(r: seq<Byte>, a: nat, b: nat, d: seq<Byte>): seq<Byte>
    requires a <= b
  {
    r[..Clip(a, r)] + d + r[Clip(b, r)..]
  }

  /** The outcome of one packet. A packet that is too short, or a reply that is too long for its
      length byte, raises an exception the simulator does not catch. */
  datatype Effect = Crash | Done(regs: Registers, reply: seq<Byte>)

  function Reply(id: Byte, data: seq<Byte>, regs: Registers): Effect {
    if |data| + 2 > 255 then Crash else Done(regs, Encode(Packet(id, 0, data)))
  }

  /** The replies to a sync read from `ids` on, back to back; unknown servos stay silent. */
  function Replies(regs: Registers, ids: seq<Byte>, a: nat, ln: nat): Effect {
    if ids == [] then Done(regs, [])
    else if ids[0] !in regs then Replies(regs, ids[1..], a, ln)
    else
      match (Reply(ids[0], Slice(regs[ids[0]], a, a + ln), regs), Replies(regs, ids[1..], a, ln))
      case (Done(_, head), Done(_, tail)) => Done(regs, head + tail)
      case _ => Crash
  }

  /** The groups of a sync write, one servo each, from byte `k` of the body on.
      A servo told to go somewhere is there at once. */
  function WriteGroups(regs: Registers, a: nat, ln: nat, body: seq<Byte>, k: nat): Registers
    decreases if k < |body| then |body| - k else 0
  {
    if k >= |body| then regs
    else WriteGroups(WriteGroup(regs, a, ln, body, k), a, ln, body, k + ln + 1)
  }

  function WriteGroup(regs: Registers, a: nat, ln: nat, body: seq<Byte>, k: nat): Registers
    requires k < |body|
  {
    var t := body[k];
    if t !in regs then regs
    else
      var r := Assign(regs[t], a, a + ln, Slice(body, k + 1, k + 1 + ln));
      regs[t := if a == GOAL_POSITION then Assign(r, 56, 58, Slice(r, 42, 44)) else r]
  }

  function Execute(regs: Registers, id: Byte, inst: Byte, params: seq<Byte>): Effect {
    if inst == INST_PING && id in regs then Reply(id, [], regs)
    else if inst == INST_READ && id in regs then
      if |params| < 2 then Crash
      else
        var a: int, ln: int := params[0], params[1];
        Reply(id, Slice(regs[id], a, a + ln), regs)
    else if inst == INST_WRITE then
      if |params| < 1 then Crash
      else
        var a: int, data := params[0], params[1..];
        var written := map t | t in regs ::
                         if id == BROADCAST_ID || t == id then Assign(regs[t], a, a + |data|, data) else regs[t];
        if id in regs then Reply(id, [], written) else Done(written, [])
    else if inst == INST_SYNC_READ then
      if |params| < 2 then Crash else Replies(regs, params[2..], params[0], params[1])
    else if inst == INST_SYNC_WRITE then
      if |params| < 2 then Crash else Done(WriteGroups(regs, params[0], params[1], params[2..], 0), [])
    else Done(regs, [])
  }

  /** Position of the first FF FF, or the length of the buffer. */
  function Find(buf: seq<Byte>): (i: nat)
    ensures i <= |buf|
    ensures i < |buf| ==> i + 1 < |buf| && buf[i] == 0xFF && buf[i + 1] == 0xFF
  {
    if |buf| < 2 then |buf|
    else if buf[0] == 0xFF && buf[1] == 0xFF then 0
    else 1 + Find(buf[1..])
  }

  /** One turn of the simulator: nothing complete to serve, an exception, or one packet taken off the buffer.
      Unlike the driver's parser the simulator believes any length byte, and it drops a packet whose
      checksum is wrong as a whole. */
  datatype Turn = Idle | Fail | Next(regs: Registers, rest: seq<Byte>, reply: seq<Byte>)

  function TakeTurn(regs: Registers, buf: seq<Byte>): Turn {
    var i := Find(buf);
    if i == |buf| || |buf| - i < 4 || |buf| - i < Total(buf, i) then Idle
    else
      var n := i + Total(buf, i);
      var pkt, rest := buf[i..n], buf[n..];
      if |pkt| < 5 then Fail
      else if Checksum(pkt[2..|pkt| - 1]) != pkt[|pkt| - 1] then Next(regs, rest, [])
      else
        match Execute(regs, pkt[2], pkt[4], if |pkt| < 6 then [] else pkt[5..|pkt| - 1])
        case Crash => Fail
        case Done(regs', reply) => Next(regs', rest, reply)
  }

  datatype Served = Crashed | Served(regs: Registers, buf: seq<Byte>, out: seq<Byte>)

  /** Serves every complete packet of the buffer; `out` is what has been sent before. */
  function Serve(regs: Registers, buf: seq<Byte>, out: seq<Byte>): Served
    decreases |buf|
  {
    match TakeTurn(regs, buf)
    case Idle => Served(regs, buf, out)
    case Fail => Crashed
    case Next(regs', rest, reply) => Serve(regs', rest, out + reply)
  }

  // ------------------------------------------------------ what that means

  lemma {:induction false} FindExtends(a: seq<Byte>, b: seq<Byte>)
    requires Find(a) < |a|
    ensures Find(a + b) == Find(a)
    decreases |a|
  {
    if !(a[0] == 0xFF && a[1] == 0xFF) {
      FindExtends(a[1..], b);
      assert (a + b)[1..] == a[1..] + b;
    }
  }

  /** A packet that is complete is served the same whatever has arrived behind it. */
  lemma TurnExtends(regs: Registers, a: seq<Byte>, b: seq<Byte>)
    requires !TakeTurn(regs, a).Idle?
    ensures if TakeTurn(regs, a).Fail? then TakeTurn(regs, a + b).Fail?
            else TakeTurn(regs, a + b) == TakeTurn(regs, a).(rest := TakeTurn(regs, a).rest + b)
  {
    var i := Find(a);
    FindExtends(a, b);
    var n := i + Total(a, i);
    assert (a + b)[i..n] == a[i..n];
    assert (a + b)[n..] == a[n..] + b;
  }

  /** So it does not matter in which pieces the bytes arrive. */
  lemma {:induction false} ServeInPieces(regs: Registers, a: seq<Byte>, b: seq<Byte>, out: seq<Byte>)
    ensures var first := Serve(regs, a, out);
            Serve(regs, a + b, out) == if first.Crashed? then Crashed else Serve(first.regs, first.buf + b, first.out)
    decreases |a|
  {
    var turn := TakeTurn(regs, a);
    if !turn.Idle? {
      TurnExtends(regs, a, b);
      if turn.Next? {
        ServeInPieces(turn.regs, turn.rest, b, out + turn.reply);
      }
    }
  }

  /** What is written to a servo is what it then reads, and nothing else has changed; a broadcast is
      written to every servo and answered by none. */
  lemma WriteThenRead(regs: Registers, id: Byte, a: Byte, data: seq<Byte>, t: Byte)
    requires t in regs && |data| < 254 && BROADCAST_ID !in regs && (id == t || id == BROADCAST_ID)
    requires var start: int := a; start + |data| <= |regs[t]|
    ensures var written := Execute(regs, id, INST_WRITE, [a] + data);
            && written.Done? && written.regs.Keys == regs.Keys
            && written.reply == (if id == t then Encode(Packet(t, 0, [])) else [])
            && (forall u :: u in regs && u != t && id == t ==> written.regs[u] == regs[u])
            && Execute(written.regs, t, INST_READ, [a, |data|]) == Done(written.regs, Encode(Packet(t, 0, data)))
  {
    var start: int, params := a, [a] + data;
    assert params[1..] == data;
    var r := Assign(regs[t], start, start + |data|, data);
    var written := Execute(regs, id, INST_WRITE, params);
    assert written.regs[t] == r;
    assert Slice(r, start, start + |data|) == data;
  }

  class Simulator {
    const echo: bool
    var regs: Registers
    var buf: seq<Byte>
    var out: seq<Byte>
    var crashed: bool

    constructor (echo: bool, regs: Registers)
      ensures this.echo == echo && this.regs == regs && buf == [] && out == [] && !crashed
    {
      this.echo, this.regs, buf, out, crashed := echo, regs, [], [], false;
    }

    /** Serves the first complete packet of the buffer, if there is one. */
    method Step() returns (more: bool)
      requires !crashed
      modifies this
      ensures match old(TakeTurn(regs, buf))
              case Idle => !more && !crashed && regs == old(regs) && buf == old(buf) && out == old(out)
              case Fail => !more && crashed
              case Next(regs', rest, reply) => more && !crashed && regs == regs' && buf == rest && out == old(out) + reply
    {
      var i := Find(buf);
      if i == |buf| || |buf| - i < 4 {
        return false;
      }
      var len: int := buf[i + 3];
      var n := i + len + 4;
      if |buf| < n {
        return false;
      }
      var pkt := buf[i..n];
      if |pkt| < 5 {
        crashed := true;
        return false;
      }
      var c := ComputeChecksum(pkt[2..|pkt| - 1]);
      if c != pkt[|pkt| - 1] {
        buf, out := buf[n..], out + [];
        return true;
      }
      match Execute(regs, pkt[2], pkt[4], if |pkt| < 6 then [] else pkt[5..|pkt| - 1])
      case Crash =>
        crashed := true;
        more := false;
      case Done(regs', reply) =>
        buf, regs, out := buf[n..], regs', out + reply;
        more := true;
    }

    /** Bytes arrive on the bus; what the simulator sends is appended to `out`. */
    method Feed(chunk: seq<Byte>)
      requires !crashed
      modifies this
      ensures match Serve(old(regs), old(buf) + chunk, old(out) + if echo then chunk else [])
              case Crashed => crashed
              case Served(regs', buf', out') => !crashed && regs == regs' && buf == buf' && out == out'
    {
      out := out + if echo then chunk else [];
      buf := buf + chunk;
      ghost var goal := Serve(regs, buf, out);
      var more := true;
      while more
        invariant if crashed then !more && goal == Crashed else Serve(regs, buf, out) == goal
        invariant !more && !crashed ==> TakeTurn(regs, buf) == Idle
        decreases more, |buf|
      {
        more := Step();
      }
    }
  }
}
