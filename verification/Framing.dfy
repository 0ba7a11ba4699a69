/** The wire format of the Feetech bus: checksum, packet builder, packet parser
    and the sign-magnitude register encoding.

    A packet is FF FF ID LEN CODE BODY.. CHK. CODE is an instruction on the way
    out and an error byte on the way back; the two directions share one shape. */
module Framing {
  import opened Bytes

  const MAX_PKT := 250

  const INST_PING := 0x01
  const INST_READ := 0x02
  const INST_WRITE := 0x03
  const INST_SYNC_READ := 0x82
  const INST_SYNC_WRITE := 0x83
  const BROADCAST_ID := 0xFE

  datatype Packet = Packet(id: Byte, code: Byte, body: seq<Byte>)

  // ---------------------------------------------------------------- checksum

  function Checksum(s: seq<Byte>): Byte {
    255 - Sum(s) % 256
  }

  /** The accumulator is a 32-bit unsigned integer and may wrap; the low byte does not care. */
  method ComputeChecksum(bytes: seq<Byte>) returns (c: Byte)
    ensures c == Checksum(bytes)
    ensures (Sum(bytes) + c) % 256 == 255
  {
    var sum: U32 := 0;
    for i := 0 to |bytes|
      invariant sum == Sum(bytes[..i]) % U32_SIZE
    {
      CountU32(Sum(bytes[..i]), bytes[i]);
      sum := AddU32(sum, bytes[i]);
      assert bytes[..i + 1][..i] == bytes[..i];
    }
    assert bytes[..|bytes|] == bytes;
    LowByteWraps(Sum(bytes));
    c := 255 - sum % 256;
  }

  // ----------------------------------------------------------------- encoder

  function Header(p: Packet): seq<Byte>
    requires |p.body| + 2 < 256
  {
    [p.id, |p.body| + 2, p.code] + p.body
  }

  function Encode(p: Packet): seq<Byte>
    requires |p.body| + 2 < 256
  {
    [0xFF, 0xFF] + Header(p) + [Checksum(Header(p))]
  }

  /** Packets the parser is able to recognise. */
  predicate Readable(p: Packet) {
    p.id != 0xFF && |p.body| + 6 <= MAX_PKT
  }

  /** Writes a packet at the front of `out`; answers 0 and writes nothing when it cannot fit a bus packet. */
  method BuildPacket(out: array<Byte>, id: Byte, inst: Byte, params: seq<Byte>) returns (n: nat)
    requires |params| + 6 <= MAX_PKT ==> |params| + 6 <= out.Length
    modifies out
    ensures |params| + 6 > MAX_PKT ==> n == 0 && out[..] == old(out[..])
    ensures |params| + 6 <= MAX_PKT ==>
              n == |params| + 6 && out[..n] == Encode(Packet(id, inst, params)) && out[n..] == old(out[n..])
  {
    if |params| + 6 > MAX_PKT {
      return 0;
    }
    out[0] := 0xFF;
    out[1] := 0xFF;
    out[2] := id;
    out[3] := |params| + 2;
    out[4] := inst;
    forall i | 0 <= i < |params| {
      out[5 + i] := params[i];
    }
    ghost var p := Packet(id, inst, params);
    var mid := out[2..|params| + 5];
    assert mid == Header(p);
    var sum := ComputeChecksum(mid);
    n := |params| + 6;
    out[n - 1] := sum;
    assert out[2..n - 1] == mid;
    assert out[..n] == [0xFF, 0xFF] + out[2..n - 1] + [sum];
  }

  // ------------------------------------------------------------------ parser

  /** What can be said about a packet starting at one position of a byte stream
      of which only a prefix has arrived. */
  datatype Verdict = NoHeader | BadHeader | BadSum | Wait | Accept

  /** The 4-byte prefix with a plausible LEN has arrived. */
  function Total(s: seq<Byte>, i: nat): nat
    requires i + 3 < |s|
  {
    var len: int := s[i + 3];
    len + 4
  }

  function Judge(s: seq<Byte>, i: nat): Verdict
    requires i <= |s|
  {
    if i == |s| then Wait
    else if s[i] != 0xFF then NoHeader
    else if i + 1 == |s| then Wait
    else if s[i + 1] != 0xFF then NoHeader
    else if |s| - i < 4 then Wait
    else if s[i + 2] == 0xFF || s[i + 3] < 2 || s[i + 3] > MAX_PKT - 4 then BadHeader
    else if |s| - i < Total(s, i) then Wait
    else if Checksum(s[i + 2..i + Total(s, i) - 1]) != s[i + Total(s, i) - 1] then BadSum
    else Accept
  }

  predicate Rejected(s: seq<Byte>, i: nat)
    requires i <= |s|
  {
    Judge(s, i) in {NoHeader, BadHeader, BadSum}
  }

  /** The packet at an accepted position. */
  function PacketAt(s: seq<Byte>, i: nat): Packet
    requires i <= |s| && Judge(s, i) == Accept
  {
    Packet(s[i + 2], s[i + 4], s[i + 5..i + Total(s, i) - 1])
  }

  /** One past the last byte of the packet at an accepted position. */
  function EndAt(s: seq<Byte>, i: nat): nat
    requires i <= |s| && Judge(s, i) == Accept
  {
    i + Total(s, i)
  }

  ghost predicate FrameAt(s: seq<Byte>, i: nat, p: Packet) {
    && Readable(p)
    && i + |p.body| + 6 <= |s|
    && s[i..i + |p.body| + 6] == Encode(p)
  }

  lemma AcceptedIsFrame(s: seq<Byte>, i: nat)
    requires i <= |s| && Judge(s, i) == Accept
    ensures FrameAt(s, i, PacketAt(s, i))
  {
    var n, p := Total(s, i), PacketAt(s, i);
    var mid := s[i + 2..i + n - 1];
    assert mid == Header(p);
    assert s[i..i + n] == [s[i], s[i + 1]] + mid + [s[i + n - 1]];
  }

  lemma FrameIsAccepted(s: seq<Byte>, i: nat, p: Packet)
    requires FrameAt(s, i, p)
    ensures Judge(s, i) == Accept && PacketAt(s, i) == p
  {
    var n := |p.body| + 6;
    var f := s[i..i + n];
    assert forall k :: 0 <= k < n ==> s[i + k] == f[k];
    assert f[0] == 0xFF && f[1] == 0xFF && f[2] == p.id && f[3] == n - 4 && f[4] == p.code;
    assert s[i + 2..i + n - 1] == f[2..n - 1] == Header(p);
    assert f[n - 1] == Checksum(Header(p));
    assert s[i + 5..i + n - 1] == f[5..n - 1] == p.body;
  }

  /** Acceptance is exactly the presence of an encoded readable packet, and the parser returns that packet. */
  lemma AcceptIffFrame(s: seq<Byte>, i: nat, p: Packet)
    requires i <= |s|
    ensures FrameAt(s, i, p) <==> Judge(s, i) == Accept && PacketAt(s, i) == p
  {
    if Judge(s, i) == Accept {
      AcceptedIsFrame(s, i);
    }
    if FrameAt(s, i, p) {
      FrameIsAccepted(s, i, p);
    }
  }

  /** Anything but `Wait` survives the arrival of more bytes. */
  lemma VerdictStable(s: seq<Byte>, t: seq<Byte>, i: nat)
    requires i <= |s| && Judge(s, i) != Wait
    ensures Judge(s + t, i) == Judge(s, i)
    ensures Judge(s, i) == Accept ==> PacketAt(s + t, i) == PacketAt(s, i) && EndAt(s + t, i) == EndAt(s, i)
  {
    if Judge(s, i) in {BadSum, Accept} {
      var n := Total(s, i);
      assert (s + t)[i + 2..i + n - 1] == s[i + 2..i + n - 1];
      assert (s + t)[i + 5..i + n - 1] == s[i + 5..i + n - 1];
    }
  }

  /** A rejected position can never become the start of a packet, whatever arrives next. */
  lemma RejectionIsFinal(s: seq<Byte>, t: seq<Byte>, i: nat, p: Packet)
    requires i <= |s| && Rejected(s, i)
    ensures !FrameAt(s + t, i, p)
  {
    VerdictStable(s, t, i);
    AcceptIffFrame(s + t, i, p);
  }

  /** Extends the 4 header bytes, or whatever has arrived after them, to a whole packet. */
  lemma Complete(have: seq<Byte>) returns (p: Packet)
    requires 4 <= |have| && Judge(have, 0) == Wait
    ensures Readable(p) && have <= Encode(p)
  {
    var n := Total(have, 0);
    var padded := have + seq(n - |have|, _ => 0);
    p := Packet(padded[2], padded[4], padded[5..n - 1]);
    assert padded[2..n - 1] == Header(p);
    var frame := Encode(p);
    assert frame[2..n - 1] == Header(p);
    assert forall k :: 2 <= k < n - 1 ==> frame[k] == Header(p)[k - 2] == padded[k];
    assert have == frame[..|have|];
  }

  /** A waiting position can still become the start of a packet. The one exception is
      FF FF FF, where the parser asks for a fourth byte although the ID is already bad. */
  lemma WaitIsOpen(s: seq<Byte>, i: nat) returns (t: seq<Byte>, p: Packet)
    requires i <= |s| && Judge(s, i) == Wait
    requires !(i + 3 == |s| && s[i + 2] == 0xFF)
    ensures FrameAt(s + t, i, p)
  {
    var have := s[i..];
    var fill: seq<Byte> := [0xFF, 0xFF, 0x00, 0x02];
    var head := if |have| < 4 then have + fill[|have|..] else have;
    JudgeSuffix(s, i);
    p := Complete(head);
    var frame := Encode(p);
    assert have <= frame;
    t := frame[|have|..];
    SliceAppend(s, t, i);
    assert have + t == frame;
  }

  /** A verdict depends only on the bytes from its position on. */
  lemma JudgeSuffix(s: seq<Byte>, i: nat)
    requires i <= |s|
    ensures Judge(s[i..], 0) == Judge(s, i)
  {
    var u := s[i..];
    if 4 <= |u| && Total(u, 0) <= |u| {
      assert u[2..Total(u, 0) - 1] == s[i + 2..i + Total(u, 0) - 1];
    }
  }

  /** The parser's answer; every case says how many leading bytes the caller may drop. */
  datatype ParseResult =
    | NeedMore(consumed: nat)
    | BadPacket(consumed: nat)
    | ChecksumError(consumed: nat)
    | Found(pkt: Packet, consumed: nat)

  predicate FirstHeader(s: seq<Byte>, i: nat)
    requires i <= |s|
  {
    forall j :: 0 <= j < i ==> Judge(s, j) == NoHeader
  }

  /** What `ParseStatus` promises: the verdict at the first position that is not plain garbage. */
  ghost predicate Parsed(s: seq<Byte>, r: ParseResult) {
    match r
    case NeedMore(c) => c <= |s| && FirstHeader(s, c) && Judge(s, c) == Wait
    case BadPacket(c) => 1 <= c <= |s| && FirstHeader(s, c - 1) && Judge(s, c - 1) == BadHeader
    case ChecksumError(c) => 2 <= c <= |s| && FirstHeader(s, c - 2) && Judge(s, c - 2) == BadSum
    case Found(p, c) =>
      && |p.body| + 6 <= c <= |s|
      && var i := c - (|p.body| + 6);
      && FirstHeader(s, i) && FrameAt(s, i, p)
  }

  method ParseStatus(buf: seq<Byte>) returns (r: ParseResult)
    ensures Parsed(buf, r)
  {
    var i, len := 0, |buf|;
    while i + 1 < len && !(buf[i] == 0xFF && buf[i + 1] == 0xFF)
      invariant i <= len && (len > 0 ==> i < len)
      invariant FirstHeader(buf, i)
    {
      i := i + 1;
    }
    if i + 1 >= len {
      return NeedMore(if len > 0 && buf[len - 1] == 0xFF then len - 1 else len);
    }
    if len - i < 4 {
      return NeedMore(i);
    }
    var id, plen := buf[i + 2], buf[i + 3];
    if id == 0xFF || plen < 2 || plen > MAX_PKT - 4 {
      return BadPacket(i + 1);
    }
    var total := plen + 4;
    if len - i < total {
      return NeedMore(i);
    }
    var sum := ComputeChecksum(buf[i + 2..i + total - 1]);
    if sum != buf[i + total - 1] {
      return ChecksumError(i + 2);
    }
    r := Found(Packet(id, buf[i + 4], buf[i + 5..i + total - 1]), i + total);
    AcceptIffFrame(buf, i, r.pkt);
  }

  // ---------------------------------------------------------- sign-magnitude

  function Pow2(n: nat): (p: int)
    ensures p >= 1
  {
    if n == 0 then 1 else 2 * Pow2(n - 1)
  }

  /** Decodes a register of `signBit` magnitude bits below a sign bit. */
  function DecodeSm(raw: U16, signBit: nat): int
    requires signBit < 16
  {
    var word: int, mask := raw, Pow2(signBit);
    if word / mask % 2 == 1 then -(word % mask) else word % mask
  }

  function EncodeSm(value: int, signBit: nat): U16
    requires signBit < 16
  {
    Pow2Bound(signBit);
    var mask := Pow2(signBit);
    if value < 0 then (-value) % mask + mask else value % mask
  }

  lemma Pow2Bound(n: nat)
    requires n < 16
    ensures Pow2(n) <= 0x8000
  {
    Pow2Grows(n, 15);
    assert Pow2(5) == 32;
    assert Pow2(10) == 1024;
  }

  lemma {:induction false} Pow2Grows(m: nat, n: nat)
    requires m <= n
    ensures Pow2(m) <= Pow2(n)
    decreases n
  {
    if m < n {
      Pow2Grows(m, n - 1);
    }
  }

  lemma Digits(x: int, m: int)
    requires 0 <= x < m
    ensures x % m == x && x / m == 0
    ensures (x + m) % m == x && (x + m) / m == 1
  {
    assert (x + m) / m == 1;
  }

  /** Encoding loses a value exactly when its magnitude does not fit below the sign bit. */
  lemma SmRoundTrip(value: int, signBit: nat)
    requires signBit < 16
    ensures DecodeSm(EncodeSm(value, signBit), signBit) == value <==> -Pow2(signBit) < value < Pow2(signBit)
  {
    var mask := Pow2(signBit);
    var size := if value < 0 then -value else value;
    var mag := size % mask;
    Digits(mag, mask);
    if size < mask {
      Digits(size, mask);
    }
  }

  /** Decoding loses a register value only for bits above the sign bit and for negative zero. */
  lemma SmRoundTripRaw(raw: U16, signBit: nat)
    requires signBit < 16
    ensures EncodeSm(DecodeSm(raw, signBit), signBit) == raw <==> raw < 2 * Pow2(signBit) && raw != Pow2(signBit)
  {
    hide Pow2;
    var word: int, mask := raw, Pow2(signBit);
    var mag := word % mask;
    Digits(mag, mask);
    if word < mask {
      Digits(word, mask);
    } else if word < 2 * mask {
      Digits(word - mask, mask);
    }
  }
}
