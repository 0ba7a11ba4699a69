/** Resynchronisation: repeating the parser and dropping what it says may be dropped
    is a leftmost scan of the byte stream, whatever the sizes of the chunks in which the
    stream arrives. */
module Resync {
  import opened Bytes
  import opened Framing

  // ------------------------------------------------------------ leftmost scan

  /** The least position at or after `i` that is not rejected. */
  function Lead(s: seq<Byte>, i: nat): (p: nat)
    requires i <= |s|
    ensures i <= p <= |s|
    decreases |s| - i
  {
    if Rejected(s, i) then Lead(s, i + 1) else i
  }

  ghost predicate AllRejected(s: seq<Byte>, i: nat, j: nat)
    requires j <= |s|
  {
    forall q :: i <= q < j ==> Rejected(s, q)
  }

  lemma {:induction false} LeadSkips(s: seq<Byte>, i: nat)
    requires i <= |s|
    ensures !Rejected(s, Lead(s, i)) && AllRejected(s, i, Lead(s, i))
    decreases |s| - i
  {
    if Rejected(s, i) {
      LeadSkips(s, i + 1);
    }
  }

  lemma RejectedExtends(s: seq<Byte>, t: seq<Byte>, i: nat, j: nat)
    requires j <= |s| && AllRejected(s, i, j)
    ensures AllRejected(s + t, i, j)
  {
    forall q | i <= q < j ensures Rejected(s + t, q) {
      assert Rejected(s, q);
      VerdictStable(s, t, q);
    }
  }

  /** The packets a leftmost scan from `i` finds in what has arrived. */
  function Frames(s: seq<Byte>, i: nat): seq<Packet>
    requires i <= |s|
    decreases |s| - i
  {
    if Rejected(s, i) then Frames(s, i + 1)
    else if Judge(s, i) == Accept then [PacketAt(s, i)] + Frames(s, EndAt(s, i))
    else []
  }

  /** From `i` the scan reports `pkts` and reaches `j`, whatever bytes follow `s`. */
  ghost predicate Moves(s: seq<Byte>, i: nat, pkts: seq<Packet>, j: nat) {
    && i <= |s| && j <= |s|
    && forall t: seq<Byte> :: Frames(s + t, i) == pkts + Frames(s + t, j)
  }

  lemma MovesCompose(s: seq<Byte>, i: nat, p: seq<Packet>, j: nat, q: seq<Packet>, k: nat)
    requires Moves(s, i, p, j) && Moves(s, j, q, k)
    ensures Moves(s, i, p + q, k)
  {
  }

  lemma MovesExtend(s: seq<Byte>, u: seq<Byte>, i: nat, p: seq<Packet>, j: nat)
    requires Moves(s, i, p, j)
    ensures Moves(s + u, i, p, j)
  {
    forall t: seq<Byte> ensures Frames((s + u) + t, i) == p + Frames((s + u) + t, j) {
      assert (s + u) + t == s + (u + t);
    }
  }

  lemma {:induction false} FramesSkip(s: seq<Byte>, i: nat, j: nat)
    requires i <= j <= |s| && AllRejected(s, i, j)
    ensures Frames(s, i) == Frames(s, j)
    decreases j - i
  {
    if i < j {
      FramesSkip(s, i + 1, j);
    }
  }

  /** The scan finds the packet at the least position that is not rejected, and goes on behind it. */
  lemma FramesAreLeftmost(s: seq<Byte>, i: nat)
    requires i <= |s|
    ensures var p := Lead(s, i);
            && !Rejected(s, p) && AllRejected(s, i, p)
            && Frames(s, i) == if Judge(s, p) == Accept then [PacketAt(s, p)] + Frames(s, EndAt(s, p)) else []
  {
    LeadSkips(s, i);
    FramesSkip(s, i, Lead(s, i));
  }

  lemma SkipMoves(s: seq<Byte>, i: nat, j: nat)
    requires i <= j <= |s| && AllRejected(s, i, j)
    ensures Moves(s, i, [], j)
  {
    forall t: seq<Byte> ensures Frames(s + t, i) == [] + Frames(s + t, j) {
      RejectedExtends(s, t, i, j);
      FramesSkip(s + t, i, j);
    }
  }

  lemma AcceptMoves(s: seq<Byte>, i: nat, p: nat, pkt: Packet, end: nat)
    requires i <= p <= |s| && AllRejected(s, i, p)
    requires Judge(s, p) == Accept && PacketAt(s, p) == pkt && EndAt(s, p) == end
    ensures Moves(s, i, [pkt], end)
  {
    forall t: seq<Byte> ensures Frames(s + t, i) == [pkt] + Frames(s + t, end) {
      RejectedExtends(s, t, i, p);
      FramesSkip(s + t, i, p);
      VerdictStable(s, t, p);
    }
  }

  // ---------------------------------------------------- the parser as a scan

  lemma JudgeShift(s: seq<Byte>, k: nat, i: nat)
    requires k <= i <= |s|
    ensures Judge(s[k..], i - k) == Judge(s, i)
    ensures Judge(s, i) == Accept ==>
              PacketAt(s[k..], i - k) == PacketAt(s, i) && EndAt(s[k..], i - k) == EndAt(s, i) - k
  {
    var u, j := s[k..], i - k;
    if i + 4 <= |s| && i + Total(s, i) <= |s| && 2 <= s[i + 3] {
      var n := Total(s, i);
      assert u[j + 2..j + n - 1] == s[i + 2..i + n - 1];
      assert u[j + 5..j + n - 1] == s[i + 5..i + n - 1];
    }
  }

  /** Where a parser call leaves the scan: the packet found or awaited, or what follows the dropped bytes. */
  function Target(r: ParseResult): int {
    if r.Found? then r.consumed - (|r.pkt.body| + 6) else r.consumed
  }

  /** A parser call skips rejected positions only. In particular the two bytes dropped after a bad
      checksum hide no packet: the second one is followed by an ID that was already known not to be FF. */
  lemma ParseSkips(s: seq<Byte>, r: ParseResult)
    requires Parsed(s, r)
    ensures 0 <= Target(r) <= r.consumed <= |s| && AllRejected(s, 0, Target(r))
    ensures r.NeedMore? ==> Judge(s, Target(r)) == Wait
    ensures r.BadPacket? || r.ChecksumError? ==> r.consumed > 0
    ensures r.Found? ==>
              && Judge(s, Target(r)) == Accept
              && PacketAt(s, Target(r)) == r.pkt && EndAt(s, Target(r)) == r.consumed
  {
    if r.Found? {
      FrameIsAccepted(s, Target(r), r.pkt);
    }
    if r.ChecksumError? {
      var c := r.consumed;
      assert s[c - 1] == 0xFF && s[c] != 0xFF;
      assert Judge(s, c - 1) == NoHeader;
      forall q | 0 <= q < c ensures Rejected(s, q) {
        assert q < c - 2 || q == c - 2 || q == c - 1;
      }
    }
  }

  /** The same, when the buffer is the part from `k` on of the stream `s`. */
  lemma ParseSkipsAt(s: seq<Byte>, k: nat, r: ParseResult)
    requires k <= |s| && Parsed(s[k..], r)
    ensures 0 <= Target(r) <= r.consumed <= |s| - k && AllRejected(s, k, k + Target(r))
    ensures r.NeedMore? ==> Judge(s, k + Target(r)) == Wait
    ensures r.BadPacket? || r.ChecksumError? ==> r.consumed > 0
    ensures r.Found? ==>
              && Judge(s, k + Target(r)) == Accept
              && PacketAt(s, k + Target(r)) == r.pkt && EndAt(s, k + Target(r)) == k + r.consumed
  {
    ParseSkips(s[k..], r);
    JudgeShift(s, k, k + Target(r));
    forall q | k <= q < k + Target(r) ensures Rejected(s, q) {
      assert Rejected(s[k..], q - k);
      JudgeShift(s, k, q);
    }
  }

  lemma WaitMoves(s: seq<Byte>, i: nat, p: nat)
    requires i <= p <= |s| && AllRejected(s, i, p) && Judge(s, p) == Wait
    ensures Moves(s, i, [], p) && Frames(s, i) == []
  {
    SkipMoves(s, i, p);
    FramesSkip(s, i, p);
  }

  // ------------------------------------------------------------ the receiver

  /** One parser call on the buffer, which is the part from `k` on of the stream `s`. */
  method Turn(ghost s: seq<Byte>, ghost k: nat, buf: seq<Byte>) returns (pkts: seq<Packet>, used: nat, more: bool)
    requires k <= |s| && buf == s[k..]
    ensures used <= |buf| && Moves(s, k, pkts, k + used)
    ensures if more then Frames(s, k) == [] && pkts == [] else used > 0
  {
    var r := ParseStatus(buf);
    ParseSkipsAt(s, k, r);
    ghost var p := k + Target(r);
    used := r.consumed;
    match r
    case Found(pkt, _) =>
      AcceptMoves(s, k, p, pkt, k + used);
      pkts, more := [pkt], false;
    case NeedMore(_) =>
      WaitMoves(s, k, p);
      pkts, more := [], true;
    case _ =>
      SkipMoves(s, k, p);
      pkts, more := [], false;
  }

  /** Parse, drop `consumed` on errors and after each packet, until the parser asks for more.
      `trim` tells whether the caller also drops `consumed` then, as the parser's interface allows.
      The buffer is the part from `k` on of the stream `s`. */
  method Drain(ghost s: seq<Byte>, ghost k: nat, buf: seq<Byte>, trim: bool)
    returns (pkts: seq<Packet>, rest: seq<Byte>, ghost end: nat)
    requires k <= |s| && buf == s[k..]
    ensures Moves(s, k, pkts, end) && Frames(s, end) == []
    ensures k <= end <= |s| && rest == s[end..]
  {
    hide Moves, Frames;
    pkts, rest, end := [], buf, k;
    SkipMoves(s, k, k);
    while true
      invariant k <= end <= |s| && rest == s[end..]
      invariant Moves(s, k, pkts, end)
      decreases |rest|
    {
      var found, used, more := Turn(s, end, rest);
      if more && !trim {
        return;
      }
      MovesCompose(s, k, pkts, end, found, end + used);
      pkts, rest, end := pkts + found, rest[used..], end + used;
      if more {
        QuietAfter(s, end - used, end);
        return;
      }
    }
  }

  lemma QuietAfter(s: seq<Byte>, i: nat, j: nat)
    requires Moves(s, i, [], j) && Frames(s, i) == []
    ensures Frames(s, j) == []
  {
    assert s + [] == s;
  }

  /** Receives a stream chunk by chunk. The packets are those of the whole stream: no way of
      cutting it into chunks loses, adds or reorders one. */
  method ReceiveChunks(chunks: seq<seq<Byte>>, trim: bool) returns (pkts: seq<Packet>)
    ensures pkts == Frames(Flatten(chunks), 0)
  {
    pkts := [];
    var buf: seq<Byte> := [];
    ghost var k: nat, s: seq<Byte> := 0, [];
    SkipMoves(s, 0, 0);
    for n := 0 to |chunks|
      invariant s == Flatten(chunks[..n]) && k <= |s| && buf == s[k..]
      invariant Moves(s, 0, pkts, k) && Frames(s, k) == []
    {
      var chunk := chunks[n];
      assert chunks[..n + 1][..n] == chunks[..n];
      MovesExtend(s, chunk, 0, pkts, k);
      assert buf + chunk == (s + chunk)[k..];
      s := s + chunk;
      var more, rest, end := Drain(s, k, buf + chunk, trim);
      MovesCompose(s, 0, pkts, k, more, end);
      pkts, buf, k := pkts + more, rest, end;
    }
    assert chunks[..|chunks|] == chunks;
    assert s + [] == s;
  }
}
