/** The Feetech driver's receive and transmit paths over a half-duplex serial port.

    The operating system is a script of events: what each wait for input will bring, in order.
    A script that has run out is a silent bus. */
module Bus {
  import opened Bytes
  import opened Framing
  import opened Resync
  import opened Reception

  datatype Code = Ok | Io | Timeout | BadPkt | Arg | WrongId

  /** The outcome of one poll() and, when it reports input, of the read() that follows.
      `Data([])` is end of file. */
  datatype Arrival =
    | PollInterrupted | PollFailed | Silence | HangUp
    | ReadInterrupted | ReadFailed | Data(bytes: seq<Byte>)

  /** `late`: the deadline of the status packet has passed when the driver looks at the clock. */
  datatype Event = Event(late: bool, what: Arrival)

  function Carried(e: Event): seq<Byte> {
    if e.what.Data? then e.what.bytes else []
  }

  /** All bytes the script will deliver. */
  function Payload(wire: seq<Event>): seq<Byte> {
    if wire == [] then [] else Carried(wire[0]) + Payload(wire[1..])
  }

  function Size(wire: seq<Event>): nat {
    if wire == [] then 0 else 1 + |Carried(wire[0])| + Size(wire[1..])
  }

  predicate CalmEvent(e: Event) {
    !e.late && (e.what.PollInterrupted? || e.what.ReadInterrupted? || (e.what.Data? && e.what.bytes != []))
  }

  /** A script without failures and missed deadlines: it only cuts its payload into pieces. */
  predicate Calm(wire: seq<Event>) {
    wire == [] || (CalmEvent(wire[0]) && Calm(wire[1..]))
  }

  predicate HasInput(what: Arrival) {
    what.ReadInterrupted? || what.ReadFailed? || what.Data?
  }

  /** A script in which poll() reports input only when there is some to read, now or after an interruption. */
  predicate Honest(wire: seq<Event>) {
    wire == [] || ((HasInput(wire[0].what) ==> Payload(wire) != []) && Honest(wire[1..]))
  }

  /** What is left of the script when `n` bytes of its first event were taken. */
  function After(wire: seq<Event>, n: nat): seq<Event>
    requires wire != [] && n <= |Carried(wire[0])|
  {
    var rest := Carried(wire[0])[n..];
    if rest == [] then wire[1..] else [Event(wire[0].late, Data(rest))] + wire[1..]
  }

  lemma PayloadCons(e: Event, tail: seq<Event>)
    ensures Payload([e] + tail) == Carried(e) + Payload(tail)
  {
  }

  /** No byte of the script is lost between what was taken and what is left. */
  lemma AfterKeepsBytes(wire: seq<Event>, n: nat)
    requires wire != [] && n <= |Carried(wire[0])|
    ensures Payload(wire) == Carried(wire[0])[..n] + Payload(After(wire, n))
  {
  }

  lemma AfterIsShorter(wire: seq<Event>, n: nat)
    requires wire != [] && n <= |Carried(wire[0])| && (n == 0 ==> Carried(wire[0]) == [])
    ensures Size(After(wire, n)) < Size(wire)
    ensures Calm(wire) ==> Calm(After(wire, n))
    ensures Honest(wire) ==> Honest(After(wire, n))
  {
    var rest := Carried(wire[0])[n..];
    if rest != [] {
      assert After(wire, n)[1..] == wire[1..];
      PayloadCons(Event(wire[0].late, Data(rest)), wire[1..]);
    }
  }

  /** A look at the buffer, which holds the log from `k` on. */
  ghost predicate Looked(log: seq<Byte>, k: nat, r: ParseResult, at: nat) {
    && k + r.consumed <= |log| && k <= at <= |log| && AllRejected(log, k, at) && r == Parse(View(log, k))
    && (r.NeedMore? ==> Judge(log, at) == Wait)
    && (r.BadPacket? || r.ChecksumError? ==> 0 < r.consumed == at - k)
    && (r.Found? ==> FrameAt(log, at, r.pkt) && r.consumed == at - k + |r.pkt.body| + 6)
  }

  lemma LookAt(log: seq<Byte>, k: nat, buf: seq<Byte>, r: ParseResult) returns (at: nat)
    requires k <= |log| <= k + RXBUF_SIZE && buf == log[k..] && Parsed(buf, r)
    ensures Looked(log, k, r, at)
  {
    ParseSkipsAt(log, k, r);
    at := k + Target(r);
    ParsedIsParse(buf, r);
    ViewParse(log, k);
    if r.Found? {
      AcceptedIsFrame(log, at);
    }
  }

  // ------------------------------------------------------------- sync read

  datatype Reply = Reply(at: nat, pkt: Packet) {
    function End(): nat { at + |pkt.body| + 6 }
  }

  function Brought(replies: seq<Reply>): seq<Packet> {
    seq(|replies|, k requires 0 <= k < |replies| => replies[k].pkt)
  }

  lemma BroughtMore(replies: seq<Reply>, r: Reply)
    ensures Brought(replies + [r]) == Brought(replies) + [r.pkt]
  {
  }

  /** Packets that stand in the byte log one after the other, within [from, to). */
  ghost predicate InOrder(log: seq<Byte>, from: nat, replies: seq<Reply>, to: nat) {
    && from <= to
    && forall k :: 0 <= k < |replies| ==>
         && FrameAt(log, replies[k].at, replies[k].pkt)
         && from <= replies[k].at && replies[k].End() <= to
         && (k > 0 ==> replies[k - 1].End() <= replies[k].at)
  }

  /** The replies come from the first servos of `ids`, in that order, and none is too short. */
  predicate FromIds(replies: seq<Reply>, ids: seq<Byte>, len: nat) {
    && |replies| <= |ids|
    && forall k :: 0 <= k < |replies| ==> replies[k].pkt.id == ids[k] && |replies[k].pkt.body| >= len
  }

  /** The first `len` data bytes of each reply, or as many as there are. */
  function DataOf(replies: seq<Reply>, len: nat): seq<seq<Byte>> {
    seq(|replies|, k requires 0 <= k < |replies| => Front(replies[k].pkt.body, len))
  }

  function Front(body: seq<Byte>, len: nat): seq<Byte> {
    body[..Min(|body|, len)]
  }

  lemma DataMore(replies: seq<Reply>, r: Reply, len: nat)
    ensures DataOf(replies + [r], len) == DataOf(replies, len) + [Front(r.pkt.body, len)]
  {
  }

  // ---------------------------------------------------- the caller's buffer

  /** Where the k-th part of `len` bytes begins. */
  function Place(len: nat, k: nat): nat {
    k * len
  }

  lemma PlaceNext(len: nat, k: nat)
    ensures Place(len, 0) == 0 && Place(len, k + 1) == Place(len, k) + len
  {
    GroupBounds(len, k);
  }

  lemma PlaceBefore(len: nat, k: nat, n: nat)
    requires k < n
    ensures Place(len, k) + len <= Place(len, n)
  {
    GroupBounds(len, k);
    GroupFits(len, k, n);
  }

  /** There is room for the parts, and no part is longer than `len`. */
  predicate Slots(parts: seq<seq<Byte>>, len: nat, room: nat) {
    Place(len, |parts|) <= room && forall k :: 0 <= k < |parts| ==> |parts[k]| <= len
  }

  function Overlay(s: seq<Byte>, at: nat, part: seq<Byte>): (r: seq<Byte>)
    requires at + |part| <= |s|
    ensures |r| == |s|
  {
    s[..at] + part + s[at + |part|..]
  }

  lemma OverlayAt(s: seq<Byte>, at: nat, part: seq<Byte>, i: nat)
    requires at + |part| <= |s| && i < |s|
    ensures Overlay(s, at, part)[i] == if at <= i < at + |part| then part[i - at] else s[i]
  {
  }

  /** A buffer after each part has been copied to its place, one after the other. */
  function Spread(before: seq<Byte>, len: nat, parts: seq<seq<Byte>>): (r: seq<Byte>)
    requires Slots(parts, len, |before|)
    ensures |r| == |before|
  {
    if parts == [] then before
    else
      var n := |parts| - 1;
      PlaceNext(len, n);
      Overlay(Spread(before, len, parts[..n]), Place(len, n), parts[n])
  }

  lemma SpreadNone(before: seq<Byte>, len: nat)
    ensures Copied(before, len, [], before)
  {
  }

  /** The buffer, which was `before`, is now `after`. */
  predicate Copied(before: seq<Byte>, len: nat, parts: seq<seq<Byte>>, after: seq<Byte>) {
    |after| == |before| && Slots(parts, len, |before|) && after == Spread(before, len, parts)
  }

  lemma SpreadMore(before: seq<Byte>, len: nat, parts: seq<seq<Byte>>, part: seq<Byte>)
    requires Slots(parts, len, |before|) && |part| <= len && Place(len, |parts| + 1) <= |before|
    ensures Place(len, |parts|) + |part| <= |before| && Slots(parts + [part], len, |before|)
    ensures Spread(before, len, parts + [part]) == Overlay(Spread(before, len, parts), Place(len, |parts|), part)
  {
    hide Place, Overlay;
    PlaceNext(len, |parts|);
    assert (parts + [part])[..|parts|] == parts;
  }

  /** The k-th part covers position `i`. */
  predicate Covers(parts: seq<seq<Byte>>, len: nat, k: nat, i: nat) {
    k < |parts| && Place(len, k) <= i < Place(len, k) + |parts[k]|
  }

  /** Each part is found at its place. */
  lemma {:induction false} SpreadAt(before: seq<Byte>, len: nat, parts: seq<seq<Byte>>, k: nat, i: nat)
    requires Slots(parts, len, |before|) && i < |before| && Covers(parts, len, k, i)
    ensures Spread(before, len, parts)[i] == parts[k][i - Place(len, k)]
  {
    hide Overlay, Place;
    var n := |parts| - 1;
    PlaceNext(len, n);
    OverlayAt(Spread(before, len, parts[..n]), Place(len, n), parts[n], i);
    if k < n {
      PlaceBefore(len, k, n);
      SpreadAt(before, len, parts[..n], k, i);
    }
  }

  /** What no part covers is as before. */
  lemma {:induction false} SpreadElse(before: seq<Byte>, len: nat, parts: seq<seq<Byte>>, i: nat)
    requires Slots(parts, len, |before|) && i < |before| && forall k :: !Covers(parts, len, k, i)
    ensures Spread(before, len, parts)[i] == before[i]
  {
    hide Overlay, Place;
    if parts != [] {
      var n := |parts| - 1;
      PlaceNext(len, n);
      OverlayAt(Spread(before, len, parts[..n]), Place(len, n), parts[n], i);
      assert !Covers(parts, len, n, i);
      forall k ensures !Covers(parts[..n], len, k, i) {
        assert !Covers(parts, len, k, i);
      }
      SpreadElse(before, len, parts[..n], i);
    }
  }

  /** The outcome for each servo, and the part of the buffer that it has filled. */
  ghost predicate Filled(log: seq<Byte>, replies: seq<Reply>, ids: seq<Byte>, len: nat, parts: seq<seq<Byte>>,
                         codes: seq<Code>) {
    && |codes| == |parts| == |replies| <= |ids|
    && forall k :: 0 <= k < |parts| ==> FilledBy(log, replies[k], ids[k], len, parts[k], codes[k])
  }

  /** A servo that has answered fills as much as it has sent, which may be too little; after any other outcome
      nothing is written. */
  ghost predicate FilledBy(log: seq<Byte>, r: Reply, id: Byte, len: nat, part: seq<Byte>, code: Code) {
    && code != Arg
    && (code in {Ok, WrongId, BadPkt} ==> FrameAt(log, r.at, r.pkt) && (r.pkt.id == id <==> code != WrongId))
    && (code in {Ok, BadPkt} ==> (code == Ok <==> |r.pkt.body| >= len))
    && part == if code in {Ok, BadPkt} then Front(r.pkt.body, len) else []
  }

  lemma FilledMore(log: seq<Byte>, log': seq<Byte>, replies: seq<Reply>, ids: seq<Byte>, len: nat,
                   parts: seq<seq<Byte>>, codes: seq<Code>, r: Reply, part: seq<Byte>, code: Code)
    requires Filled(log, replies, ids, len, parts, codes) && log <= log' && |parts| < |ids|
    requires FilledBy(log', r, ids[|parts|], len, part, code)
    ensures Filled(log', replies + [r], ids, len, parts + [part], codes + [code])
  {
    hide Front, FrameAt;
    assert log' == log + log'[|log|..];
    forall k | 0 <= k < |parts| ensures FilledBy(log', replies[k], ids[k], len, parts[k], codes[k]) {
      if FrameAt(log, replies[k].at, replies[k].pkt) {
        FrameExtends(log, log'[|log|..], replies[k].at, replies[k].pkt);
      }
    }
  }

  /** The first code that is not good. */
  function FirstError(codes: seq<Code>): (code: Code)
    ensures code == Ok || code in codes
    ensures code == Ok <==> forall c :: c in codes ==> c == Ok
  {
    if codes == [] then Ok
    else
      var n := |codes| - 1;
      assert codes == codes[..n] + [codes[n]];
      var front := FirstError(codes[..n]);
      if front == Ok then codes[n] else front
  }

  lemma FirstErrorMore(codes: seq<Code>, code: Code)
    ensures FirstError(codes + [code]) == if FirstError(codes) == Ok then code else FirstError(codes)
  {
    assert (codes + [code])[..|codes|] == codes;
  }

  /** The first `n` servos have been heard, well or badly. */
  predicate Heard(codes: seq<Code>, n: nat, code: Code) {
    |codes| == n && code == FirstError(codes) && Timeout !in codes
  }

  /** One code for each of `n` servos, unless one was silent: then that one is the last. */
  predicate Round(codes: seq<Code>, n: nat, code: Code) {
    && codes != [] && |codes| <= n && code == FirstError(codes)
    && Timeout !in codes[..|codes| - 1] && (|codes| < n ==> codes[|codes| - 1] == Timeout)
  }

  lemma HeardNone()
    ensures Heard([], 0, Ok)
  {
  }

  lemma HeardMore(codes: seq<Code>, n: nat, code: Code, rc: Code, ids: nat)
    requires Heard(codes, n, code) && n < ids
    ensures var code' := if code == Ok then rc else code;
            && code' == FirstError(codes + [rc])
            && (rc != Timeout ==> Heard(codes + [rc], n + 1, code'))
            && (rc == Timeout || n + 1 == ids ==> Round(codes + [rc], ids, code'))
  {
    assert (codes + [rc])[..n] == codes;
  }

  /** Where the packets of a gapless stream that starts at `start` begin. */
  function StartOf(pkts: seq<Packet>, start: nat, k: nat): nat
    requires k <= |pkts|
  {
    if k == 0 then start else StartOf(pkts, start, k - 1) + |pkts[k - 1].body| + 6
  }

  /** The first `n` of these packets stand in the stream without gaps, from `start` on. */
  ghost predicate Laid(stream: seq<Byte>, start: nat, pkts: seq<Packet>, n: nat)
    requires n <= |pkts|
  {
    n == 0 || (Laid(stream, start, pkts, n - 1) && FrameAt(stream, StartOf(pkts, start, n - 1), pkts[n - 1]))
  }

  lemma {:induction false} LaidAt(stream: seq<Byte>, start: nat, pkts: seq<Packet>, n: nat, k: nat)
    requires k < n <= |pkts| && Laid(stream, start, pkts, n)
    ensures FrameAt(stream, StartOf(pkts, start, k), pkts[k])
  {
    if k < n - 1 {
      LaidAt(stream, start, pkts, n - 1, k);
    }
  }

  lemma {:induction false} LaidExtends(stream: seq<Byte>, more: seq<Byte>, start: nat, pkts: seq<Packet>, n: nat)
    requires n <= |pkts| && Laid(stream, start, pkts, n)
    ensures Laid(stream + more, start, pkts, n)
  {
    if n > 0 {
      LaidExtends(stream, more, start, pkts, n - 1);
      FrameExtends(stream, more, StartOf(pkts, start, n - 1), pkts[n - 1]);
    }
  }

  /** Every servo of `ids` answers, in order and with enough data. */
  predicate AnswersTo(pkts: seq<Packet>, ids: seq<Byte>, len: nat) {
    && |pkts| == |ids|
    && forall k :: 0 <= k < |ids| ==> Readable(pkts[k]) && pkts[k].id == ids[k] && |pkts[k].body| >= len
  }

  predicate AllReadable(pkts: seq<Packet>) {
    forall k :: 0 <= k < |pkts| ==> Readable(pkts[k])
  }

  /** The bytes of the first `n` packets, without gaps. */
  function Wire(pkts: seq<Packet>, n: nat): seq<Byte>
    requires n <= |pkts| && AllReadable(pkts)
  {
    if n == 0 then [] else Wire(pkts, n - 1) + Encode(pkts[n - 1])
  }

  lemma {:induction false} WireIsLaid(before: seq<Byte>, pkts: seq<Packet>, n: nat)
    requires n <= |pkts| && AllReadable(pkts)
    ensures Laid(before + Wire(pkts, n), |before|, pkts, n)
    ensures StartOf(pkts, |before|, n) == |before + Wire(pkts, n)|
  {
    if n > 0 {
      WireIsLaid(before, pkts, n - 1);
      var head, last := before + Wire(pkts, n - 1), Encode(pkts[n - 1]);
      LaidExtends(head, last, |before|, pkts, n - 1);
      FrameAtEnd(head, pkts[n - 1]);
      Assoc(before, Wire(pkts, n - 1), last);
    }
  }

  lemma KnownStream(log: seq<Byte>, request: seq<Byte>, payload: seq<Byte>, pkts: seq<Packet>)
    requires AllReadable(pkts) && payload == request + Wire(pkts, |pkts|)
    ensures Laid(log + payload, |log| + |request|, pkts, |pkts|)
  {
    WireIsLaid(log + request, pkts, |pkts|);
    Assoc(log, request, Wire(pkts, |pkts|));
  }

  lemma FrameAtEnd(head: seq<Byte>, p: Packet)
    requires Readable(p)
    ensures FrameAt(head + Encode(p), |head|, p)
  {
  }

  function SyncReadPacket(ids: seq<Byte>, addr: Byte, len: Byte): Packet {
    Packet(BROADCAST_ID, INST_SYNC_READ, [addr, len] + ids)
  }

  // ------------------------------------------------------------ sync write

  /** The k-th group of `len` bytes. */
  function Group(data: seq<Byte>, len: nat, k: nat): seq<Byte>
    requires (k + 1) * len <= |data|
  {
    GroupBounds(len, k);
    data[k * len..(k + 1) * len]
  }

  lemma GroupBounds(len: nat, k: nat)
    ensures 0 <= k * len <= (k + 1) * len == k * len + len
  {
  }

  lemma GroupFits(len: nat, k: nat, n: nat)
    requires k < n
    ensures (k + 1) * len <= n * len
  {
  }

  /** ID and registers of the first `n` servos. */
  function Groups(ids: seq<Byte>, data: seq<Byte>, len: nat, n: nat): seq<Byte>
    requires n <= |ids| && |ids| * len == |data|
  {
    if n == 0 then []
    else
      GroupFits(len, n - 1, |ids|);
      Groups(ids, data, len, n - 1) + [ids[n - 1]] + Group(data, len, n - 1)
  }

  function SyncWritePacket(ids: seq<Byte>, addr: Byte, len: Byte, data: seq<Byte>): Packet
    requires |ids| * len == |data|
  {
    Packet(BROADCAST_ID, INST_SYNC_WRITE, [addr, len] + Groups(ids, data, len, |ids|))
  }

  predicate Fits(p: Packet) {
    |p.body| + 6 <= MAX_PKT
  }

  /** The bytes sent for a packet; nothing is sent for one that does not fit. */
  function EncodeFit(p: Packet): seq<Byte> {
    if Fits(p) then Encode(p) else []
  }

  lemma {:induction false} GroupsLength(ids: seq<Byte>, data: seq<Byte>, len: nat, n: nat)
    requires n <= |ids| && |ids| * len == |data|
    ensures |Groups(ids, data, len, n)| == n * (len + 1)
  {
    if n > 0 {
      GroupsLength(ids, data, len, n - 1);
      GroupFits(len, n - 1, |ids|);
      GroupBounds(len, n - 1);
      assert n * (len + 1) == (n - 1) * (len + 1) + len + 1;
    }
  }

  lemma FrameExtends(log: seq<Byte>, more: seq<Byte>, i: nat, p: Packet)
    requires FrameAt(log, i, p)
    ensures FrameAt(log + more, i, p)
  {
  }

  lemma InOrderAppend(log: seq<Byte>, log': seq<Byte>, from: nat, replies: seq<Reply>, mid: nat, r: Reply)
    requires InOrder(log, from, replies, mid) && log <= log'
    requires mid <= r.at && FrameAt(log', r.at, r.pkt)
    ensures InOrder(log', from, replies + [r], r.End())
  {
    assert log' == log + log'[|log|..];
    forall k | 0 <= k < |replies| ensures FrameAt(log', replies[k].at, replies[k].pkt) {
      FrameExtends(log, log'[|log|..], replies[k].at, replies[k].pkt);
    }
  }

  /** A sound answer to a sync read: replies in order, from the right servos, and `parts` is what they carry. */
  ghost predicate Collected(log: seq<Byte>, from: nat, replies: seq<Reply>, to: nat,
                            ids: seq<Byte>, len: nat, parts: seq<seq<Byte>>) {
    InOrder(log, from, replies, to) && FromIds(replies, ids, len) && parts == DataOf(replies, len)
  }

  lemma CollectedAppend(log: seq<Byte>, log': seq<Byte>, from: nat, replies: seq<Reply>, mid: nat,
                        ids: seq<Byte>, len: nat, parts: seq<seq<Byte>>, r: Reply)
    requires Collected(log, from, replies, mid, ids, len, parts) && log <= log'
    requires mid <= r.at && FrameAt(log', r.at, r.pkt)
    requires |replies| < |ids| && r.pkt.id == ids[|replies|] && |r.pkt.body| >= len
    ensures Collected(log', from, replies + [r], r.End(), ids, len, parts + [Front(r.pkt.body, len)])
  {
    InOrderAppend(log, log', from, replies, mid, r);
    DataMore(replies, r, len);
  }

  lemma FilledLength(log: seq<Byte>, replies: seq<Reply>, ids: seq<Byte>, len: nat, parts: seq<seq<Byte>>,
                     codes: seq<Code>)
    requires Filled(log, replies, ids, len, parts, codes)
    ensures |parts| == |replies|
  {
  }

  lemma NoneIsArg(log: seq<Byte>, replies: seq<Reply>, ids: seq<Byte>, len: nat, parts: seq<seq<Byte>>,
                  codes: seq<Code>)
    requires Filled(log, replies, ids, len, parts, codes)
    ensures Arg !in codes
  {
    forall k | 0 <= k < |codes| ensures codes[k] != Arg {
      assert FilledBy(log, replies[k], ids[k], len, parts[k], codes[k]);
    }
  }

  lemma CollectedNone(log: seq<Byte>, from: nat, to: nat, ids: seq<Byte>, len: nat)
    requires from <= to
    ensures Collected(log, from, [], to, ids, len, []) && Filled(log, [], ids, len, [], [])
  {
  }

  lemma TailOfTail(log: seq<Byte>, at: nat, n: nat)
    requires at + n <= |log|
    ensures log[at..][n..] == log[at + n..]
  {
  }

  /** If a packet starts where reception starts, the scan stops there. */
  lemma Hit(log: seq<Byte>, rest: seq<Byte>, base: nat, at: nat, losses: seq<nat>, e: Packet)
    requires FrameAt(log + rest, base, e) && Skipped(log, base, at, losses)
    ensures losses == [] && at == base
    ensures rest == [] ==> Judge(log, at) == Accept
    ensures forall p :: FrameAt(log, at, p) ==> p == e
  {
    FrameIsAccepted(log + rest, base, e);
    if base < |log| && Rejected(log, base) {
      VerdictStable(log, rest, base);
      assert false;
    }
    if losses != [] {
      LossIsGarbage(log, base, at, losses);
      assert false;
    }
    if rest == [] {
      assert log + rest == log;
    }
    forall p | FrameAt(log, at, p) ensures p == e {
      FrameExtends(log, rest, at, p);
      FrameIsAccepted(log + rest, at, p);
    }
  }

  /** What a call that began at `base` and ended at `o` has found in the stream and lost of it. */
  ghost predicate Sought(s: seq<Byte>, base: nat, o: nat, code: Code, pkt: Packet, at: nat, losses: seq<nat>) {
    && base <= |s| && o <= |s|
    && Seek(s, base) == if code == Io || code == Timeout then Losing(losses, Seek(s, o)) else Frame(pkt, at, losses)
  }

  /** The parser refuses what is in the buffer. */
  lemma Refused(log: seq<Byte>, base: nat, o: nat, losses: seq<nat>, at: nat, r: ParseResult)
    requires base <= |log| && o <= |log| && Scans(log, base, o, losses) && Looked(log, o, r, at)
    requires r.BadPacket? || r.ChecksumError?
    ensures 0 < r.consumed <= |log| - o && Scans(log, base, o + r.consumed, losses)
  {
    hide Parse, View, Scans, Judge;
    ScansError(log, base, o, losses);
  }

  /** More bytes have arrived in a buffer that did not satisfy the parser; if they `overflow` it, it is lost. */
  lemma GoOn(log: seq<Byte>, log': seq<Byte>, base: nat, o: nat, losses: seq<nat>, overflow: bool)
    requires base <= |log| && o <= |log| <= o + RXBUF_SIZE && Scans(log, base, o, losses) && log <= log'
    requires Parse(View(log, o)).NeedMore? && (overflow ==> |log| == o + RXBUF_SIZE)
    ensures Scans(log', base, if overflow then |log| else o, losses + if overflow then [o] else [])
  {
    hide Parse, View, Scans;
    var more := log'[|log|..];
    assert log' == log + more;
    if overflow {
      ScansLoss(log, base, o, losses);
      ScansExtend(log, more, base, |log|, losses + [o]);
    } else {
      assert losses + [] == losses;
      ScansExtend(log, more, base, o, losses);
    }
  }

  lemma FedNone(s: seq<Byte>)
    ensures Fed(s, [])
  {
  }

  lemma Waits(log: seq<Byte>, o: nat, r: ParseResult, at: nat)
    requires o <= |log| && Looked(log, o, r, at) && r.NeedMore?
    ensures Waiting(log, o, at) && Parse(View(log, o)).NeedMore? && Waiting(log, |log|, |log|)
  {
  }

  /** The scan from `o` waits at `at`. */
  ghost predicate Waiting(log: seq<Byte>, o: nat, at: nat) {
    o <= at <= |log| && AllRejected(log, o, at) && Judge(log, at) == Wait
  }

  lemma FedMore(s: seq<Byte>, losses: seq<nat>, o: nat)
    requires Fed(s, losses) && o + RXBUF_SIZE < |s|
    ensures Fed(s, losses + [o])
  {
  }

  /** A packet is in the buffer. */
  lemma Landed(log: seq<Byte>, rest: seq<Byte>, base: nat, o: nat, losses: seq<nat>, at: nat, r: ParseResult)
    requires base <= |log| && o <= |log| && Scans(log, base, o, losses) && Looked(log, o, r, at) && r.Found?
    ensures |r.pkt.body| + 6 <= r.consumed && FrameAt(log, at, r.pkt) && o + (r.consumed - (|r.pkt.body| + 6)) == at
    ensures Skipped(log, base, at, losses)
    ensures Fed(log + rest, losses) ==> Sought(log + rest, base, o, Ok, r.pkt, at, losses)
  {
    hide Parse, View, Scans, Seek;
    ScansSkips(log, base, o, losses, at);
    if Fed(log + rest, losses) {
      SeekFound(log, rest, base, o, losses);
    }
  }

  /** There is no packet; the buffer has perhaps been lost last. */
  lemma Ended(log: seq<Byte>, rest: seq<Byte>, base: nat, o: nat, losses: seq<nat>, at: nat, code: Code)
    requires base <= |log| && Waiting(log, o, at) && Scans(log, base, o, losses) && (code == Io || code == Timeout)
    ensures at <= |log| && Judge(log, at) == Wait
    ensures Skipped(log, base, at, losses)
    ensures forall pkt :: Fed(log + rest, losses) ==> Sought(log + rest, base, o, code, pkt, at, losses)
    ensures Fed(log + rest, losses) && rest == [] && |log| <= o + RXBUF_SIZE && Parse(View(log, o)).NeedMore? ==>
              Seek(log + rest, base) == Dry(o, losses)
  {
    hide Parse, View, Scans, Seek;
    ScansSkips(log, base, o, losses, at);
    if Fed(log + rest, losses) {
      SeekOpen(log, rest, base, o, losses);
      if rest == [] && |log| <= o + RXBUF_SIZE && Parse(View(log, o)).NeedMore? {
        assert log + rest == log;
        SeekDry(log, base, o, losses);
      }
    }
  }

  /** One more call has been made. */
  lemma Resumed(s: seq<Byte>, from: nat, pkts: seq<Packet>, losses: seq<nat>, base: nat, o: nat,
                code: Code, pkt: Packet, at: nat, more: seq<nat>)
    requires Onward(s, from, pkts, losses, base) && Sought(s, base, o, code, pkt, at, more)
    requires code !in {Io, Timeout} ==> o == at + |pkt.body| + 6
    ensures Onward(s, from, if code in {Io, Timeout} then pkts else pkts + [pkt], losses + more, o)
  {
    hide Seek, Receive, Losses, Onward;
    if code in {Io, Timeout} {
      OnwardNone(s, from, pkts, losses, base, more, o);
    } else {
      OnwardFrame(s, from, pkts, losses, base, Frame(pkt, at, more));
    }
  }

  /** Moves the bytes from `n` to `len` to the front. */
  method MoveDown(a: array<Byte>, n: nat, len: nat)
    requires n <= len <= a.Length
    modifies a
    ensures a[..len - n] == old(a[..len])[n..]
  {
    forall i | 0 <= i < len - n {
      a[i] := a[i + n];
    }
  }

  method CopyIn(a: array<Byte>, at: nat, part: seq<Byte>)
    requires at + |part| <= a.Length
    modifies a
    ensures a[..] == Overlay(old(a[..]), at, part)
  {
    forall i | 0 <= i < |part| {
      a[at + i] := part[i];
    }
  }

  class FtsBus {
    const echo: bool
    const rxbuf: array<Byte>
    var rxlen: nat
    var lastServoError: Byte
    var txPackets: U32
    var rxOk: U32
    var timeouts: U32
    var checksumErrors: U32
    var bytesDiscarded: U32

    // The port.
    var wire: seq<Event>
    var writable: bool
    var sent: seq<seq<Byte>>

    // Every byte read() ever returned, and where each of them went.
    ghost var log: seq<Byte>
    ghost var discarded: nat
    ghost var accepted: nat
    ghost var misaddressed: nat
    ghost var echoed: nat
    ghost var cleared: nat
    /** Where the full buffer was when it had to be emptied. */
    ghost var lost: seq<nat>

    /** The buffer is the tail of the byte log, and every byte is accounted for. */
    ghost predicate Valid()
      reads this, rxbuf
    {
      && rxbuf.Length == RXBUF_SIZE
      && rxlen <= RXBUF_SIZE && rxlen <= |log|
      && rxbuf[..rxlen] == log[|log| - rxlen..]
      && |log| == rxlen + discarded + accepted + misaddressed + echoed + cleared
      && bytesDiscarded == discarded % U32_SIZE
    }

    /** Position in the log of the first buffered byte. */
    ghost function Offset(): int
      reads this
    {
      |log| - rxlen
    }

    /** The whole byte stream: what has been read and what the script still holds. */
    ghost function Stream(): seq<Byte>
      reads this
    {
      log + Payload(wire)
    }

    constructor (echo: bool)
      ensures Valid() && this.echo == echo && fresh(rxbuf)
      ensures log == [] && lost == [] && rxlen == 0 && wire == [] && sent == [] && writable
    {
      this.echo := echo;
      rxbuf := new Byte[RXBUF_SIZE](_ => 0);
      rxlen, lastServoError := 0, 0;
      txPackets, rxOk, timeouts, checksumErrors, bytesDiscarded := 0, 0, 0, 0, 0;
      wire, writable, sent := [], true, [];
      log, discarded, accepted, misaddressed, echoed, cleared, lost := [], 0, 0, 0, 0, 0, [];
    }

    /** Appends received bytes to the buffer. */
    method Store(bytes: seq<Byte>)
      requires Valid() && rxlen + |bytes| <= RXBUF_SIZE
      modifies this`rxlen, this`log, rxbuf
      ensures Valid() && log == old(log) + bytes && Offset() == old(Offset())
    {
      forall i | 0 <= i < |bytes| {
        rxbuf[rxlen + i] := bytes[i];
      }
      rxlen := rxlen + |bytes|;
      log := log + bytes;
      assert rxbuf[..rxlen] == rxbuf[..rxlen - |bytes|] + bytes;
    }

    /** HasInput whatever is available, at most the free space of the buffer. */
    method FillRx() returns (code: Code)
      requires Valid()
      modifies this`rxlen, this`wire, this`bytesDiscarded, this`log, this`discarded, this`lost, rxbuf
      ensures Valid() && code in {Ok, Io, Timeout}
      ensures old(log) <= log && Stream() == old(Stream())
      ensures code == Ok ==> Size(wire) < Size(old(wire))
      ensures code != Ok ==> log == old(log)
      ensures if lost == old(lost) then Offset() == old(Offset()) && discarded == old(discarded)
              else
                && old(rxlen) == RXBUF_SIZE && lost == old(lost) + [|old(log)| - RXBUF_SIZE]
                && Offset() == |old(log)| && discarded == old(discarded) + RXBUF_SIZE
      ensures Honest(old(wire)) ==> Honest(wire) && (lost != old(lost) ==> |old(log)| < |Stream()|)
      ensures Calm(old(wire)) ==> Calm(wire) && (code == Ok || (code == Timeout && wire == [] && lost == old(lost)))
    {
      if wire == [] {
        return Timeout;
      }
      var e := wire[0];
      if HasInput(e.what) && rxlen >= RXBUF_SIZE {
        CountU32(discarded, rxlen);
        bytesDiscarded := AddU32(bytesDiscarded, rxlen);
        discarded, lost := discarded + rxlen, lost + [|log| - rxlen];
        rxlen := 0;
      }
      code := Deliver();
    }

    /** The event at the head of the script happens. */
    method Deliver() returns (code: Code)
      requires Valid() && wire != [] && (Carried(wire[0]) != [] ==> rxlen < RXBUF_SIZE)
      modifies this`rxlen, this`wire, this`log, rxbuf
      ensures Valid() && code in {Ok, Io, Timeout}
      ensures old(log) <= log && Stream() == old(Stream()) && Offset() == old(Offset())
      ensures Size(wire) < Size(old(wire))
      ensures code != Ok ==> log == old(log)
      ensures Calm(old(wire)) ==> Calm(wire) && code == Ok
      ensures Honest(old(wire)) ==> Honest(wire)
    {
      var e := wire[0];
      var n := Min(|Carried(e)|, RXBUF_SIZE - rxlen);
      AfterKeepsBytes(wire, n);
      AfterIsShorter(wire, n);
      var bytes := Carried(e)[..n];
      wire := After(wire, n);
      Assoc(log, bytes, Payload(wire));
      if bytes == [] {
        assert log + bytes == log;
        return if e.what.PollInterrupted? || e.what.ReadInterrupted? then Ok
               else if e.what.Silence? then Timeout else Io;
      }
      Store(bytes);
      code := Ok;
    }

    /** Drops the first `n` buffered bytes, or all of them. */
    method DropRx(n: nat)
      requires rxbuf.Length == RXBUF_SIZE && rxlen <= RXBUF_SIZE && rxlen <= |log|
      requires rxbuf[..rxlen] == log[|log| - rxlen..]
      modifies this`rxlen, rxbuf
      ensures rxlen == old(rxlen) - Min(n, old(rxlen))
      ensures rxbuf[..rxlen] == log[|log| - rxlen..]
    {
      if n >= rxlen {
        rxlen := 0;
        return;
      }
      ghost var was, at := rxbuf[..rxlen], |log| - rxlen;
      MoveDown(rxbuf, n, rxlen);
      TailOfTail(log, at, n);
      rxlen := rxlen - n;
    }

    /** Counts and drops `n` buffered bytes that belong to no packet. */
    method Discard(n: nat)
      requires Valid() && n <= rxlen
      modifies this`rxlen, this`bytesDiscarded, this`discarded, rxbuf
      ensures Valid() && Offset() == old(Offset()) + n && discarded == old(discarded) + n
    {
      CountU32(discarded, n);
      bytesDiscarded := AddU32(bytesDiscarded, n);
      discarded := discarded + n;
      DropRx(n);
    }

    /** Takes a packet, and the `junk` bytes before it, out of the buffer. */
    method Take(pkt: Packet, junk: nat, expectId: Byte, cap: nat) returns (code: Code, got: seq<Byte>)
      requires Valid() && junk + |pkt.body| + 6 <= rxlen
      modifies this`rxlen, this`rxOk, this`lastServoError, this`bytesDiscarded,
               this`discarded, this`accepted, this`misaddressed, rxbuf
      ensures Valid() && Offset() == old(Offset()) + junk + |pkt.body| + 6
      ensures discarded == old(discarded) + junk
      ensures code == if pkt.id == expectId then Ok else WrongId
      ensures code == Ok ==>
                && got == pkt.body[..Min(|pkt.body|, cap)]
                && accepted == old(accepted) + |pkt.body| + 6 && misaddressed == old(misaddressed)
                && rxOk == AddU32(old(rxOk), 1) && lastServoError == pkt.code
      ensures code == WrongId ==>
                && got == [] && misaddressed == old(misaddressed) + |pkt.body| + 6 && accepted == old(accepted)
                && rxOk == old(rxOk) && lastServoError == old(lastServoError)
    {
      Discard(junk);
      DropRx(|pkt.body| + 6);
      if pkt.id != expectId {
        misaddressed := misaddressed + |pkt.body| + 6;
        return WrongId, [];
      }
      lastServoError := pkt.code;
      accepted := accepted + |pkt.body| + 6;
      rxOk := AddU32(rxOk, 1);
      code, got := Ok, pkt.body[..Min(|pkt.body|, cap)];
    }

    /** Parses the buffer. `at` is where the scan of the byte log gets to. */
    method Look() returns (r: ParseResult, ghost at: nat)
      requires Valid()
      ensures Looked(log, Offset(), r, at)
    {
      var buf := rxbuf[..rxlen];
      r := ParseStatus(buf);
      at := LookAt(log, Offset(), buf, r);
    }

    /** Parses and drops what the parser refuses, until there is a packet or more bytes are needed. */
    method Settle(ghost base: nat, ghost losses: seq<nat>) returns (r: ParseResult, ghost at: nat)
      requires Valid() && base <= |log| && Scans(log, base, Offset(), losses)
      modifies this`rxlen, this`bytesDiscarded, this`checksumErrors, this`discarded, rxbuf
      ensures Valid() && (r.Found? || r.NeedMore?) && Looked(log, Offset(), r, at)
      ensures Scans(log, base, Offset(), losses)
      ensures Offset() - old(Offset()) == discarded - old(discarded) >= 0
    {
      hide Parse, View, Scans, Looked;
      r, at := Look();
      while !r.Found? && !r.NeedMore?
        invariant Valid() && Scans(log, base, Offset(), losses) && Looked(log, Offset(), r, at)
        invariant Offset() - old(Offset()) == discarded - old(discarded) >= 0
        decreases rxlen
      {
        if r.ChecksumError? {
          checksumErrors := AddU32(checksumErrors, 1);
        }
        Refused(log, base, Offset(), losses, at, r);
        Discard(r.consumed);
        r, at := Look();
      }
    }

    /** Waits for more bytes. Reception has come from `base` to the bytes in the buffer, which do not satisfy the
        parser; if they fill it they are lost. */
    method Await(ghost base: nat, ghost losses: seq<nat>) returns (code: Code, ghost more: seq<nat>)
      requires Valid() && base <= |log| && Scans(log, base, Offset(), losses) && Parse(View(log, Offset())).NeedMore?
      modifies this`rxlen, this`wire, this`bytesDiscarded, this`timeouts, this`log, this`discarded, this`lost, rxbuf
      ensures Valid() && code in {Ok, Io, Timeout}
      ensures old(log) <= log && Stream() == old(Stream()) && lost == old(lost) + more
      ensures Offset() - old(Offset()) == discarded - old(discarded)
      ensures timeouts == if code == Timeout then AddU32(old(timeouts), 1) else old(timeouts)
      ensures code == Ok ==> Size(wire) < Size(old(wire))
      ensures code != Ok ==> log == old(log)
      ensures more == [] ==> Offset() == old(Offset())
      ensures more != [] ==> Offset() == |old(log)|
      ensures Scans(log, base, Offset(), losses + more)
      ensures Honest(old(wire)) && Fed(Stream(), losses) ==> Honest(wire) && Fed(Stream(), losses + more)
      ensures Calm(old(wire)) ==> Calm(wire) && code != Io && (code == Timeout ==> wire == [] && more == [])
    {
      hide Parse, View, Scans, Fed;
      more := [];
      if wire != [] && wire[0].late {
        timeouts := AddU32(timeouts, 1);
        assert losses + [] == losses;
        return Timeout, more;
      }
      ghost var was, from: nat, count := log, Offset(), lost;
      code := FillRx();
      GoOn(was, log, base, from, losses, lost != count);
      if lost != count {
        more := [from];
        if Fed(Stream(), losses) && from + RXBUF_SIZE < |Stream()| {
          FedMore(Stream(), losses, from);
        }
      } else {
        assert losses + [] == losses;
      }
      if code == Timeout {
        timeouts := AddU32(timeouts, 1);
      }
    }

    /** Looks for a packet in the buffer and, if there is none, waits for more bytes. */
    method Turn(ghost base: nat, ghost losses: seq<nat>)
      returns (r: ParseResult, code: Code, ghost at: nat, ghost more: seq<nat>)
      requires Valid() && base <= |log| && Scans(log, base, Offset(), losses)
      modifies this`rxlen, this`wire, this`bytesDiscarded, this`checksumErrors, this`timeouts,
               this`log, this`discarded, this`lost, rxbuf
      ensures Valid() && code in {Ok, Io, Timeout} && (r.Found? || r.NeedMore?)
      ensures old(log) <= log && Stream() == old(Stream()) && lost == old(lost) + more
      ensures discarded - old(discarded) == Offset() - old(Offset())
      ensures timeouts == if code == Timeout then AddU32(old(timeouts), 1) else old(timeouts)
      ensures Scans(log, base, Offset(), losses + more)
      ensures r.Found? ==> code == Ok && more == [] && Looked(log, Offset(), r, at)
      ensures !r.Found? && code == Ok ==> Size(wire) < Size(old(wire))
      ensures code != Ok ==> Waiting(log, Offset(), at)
      ensures Honest(old(wire)) && Fed(Stream(), losses) ==> Honest(wire) && Fed(Stream(), losses + more)
      ensures Calm(old(wire)) ==> Calm(wire) && code != Io
      ensures Calm(old(wire)) && code == Timeout ==> wire == [] && Parse(View(log, Offset())).NeedMore?
    {
      hide Parse, View, Scans, Looked, Fed;
      r, at := Settle(base, losses);
      if r.Found? {
        assert losses + [] == losses;
        return r, Ok, at, [];
      }
      Waits(log, Offset(), r, at);
      code, more := Await(base, losses);
      if code != Ok && more != [] {
        at := |log|;
      }
    }

    /** Takes turns until there is a packet in the buffer or no hope of one. */
    method Hunt() returns (r: ParseResult, code: Code, ghost at: nat, ghost losses: seq<nat>)
      requires Valid()
      modifies this`rxlen, this`wire, this`bytesDiscarded, this`checksumErrors, this`timeouts,
               this`log, this`discarded, this`lost, rxbuf
      ensures Valid() && code in {Ok, Io, Timeout} && (code == Ok ==> r.Found?)
      ensures old(log) <= log && Stream() == old(Stream()) && lost == old(lost) + losses
      ensures discarded - old(discarded) == Offset() - old(Offset())
      ensures timeouts == if code == Timeout then AddU32(old(timeouts), 1) else old(timeouts)
      ensures Scans(log, old(Offset()), Offset(), losses)
      ensures if code == Ok then Looked(log, Offset(), r, at) else Waiting(log, Offset(), at)
      ensures Honest(old(wire)) ==> Honest(wire) && Fed(Stream(), losses)
      ensures Calm(old(wire)) ==> Calm(wire) && code != Io
      ensures Calm(old(wire)) && code == Timeout ==> wire == [] && Parse(View(log, Offset())).NeedMore?
    {
      hide Parse, View, Scans, Looked, Fed, Waiting, Calm, Honest, Payload, AddU32, Stream, Size;
      ghost var base: nat := Offset();
      ScansStart(log, base);
      FedNone(Stream());
      r, code, at, losses := NeedMore(0), Ok, 0, [];
      while !r.Found? && code == Ok
        invariant Valid() && code in {Ok, Io, Timeout} && (r.Found? ==> code == Ok)
        invariant old(log) <= log && Stream() == old(Stream()) && lost == old(lost) + losses
        invariant Scans(log, base, Offset(), losses)
        invariant discarded - old(discarded) == Offset() - base
        invariant timeouts == if code == Timeout then AddU32(old(timeouts), 1) else old(timeouts)
        invariant r.Found? ==> Looked(log, Offset(), r, at)
        invariant code != Ok ==> Waiting(log, Offset(), at)
        invariant Calm(old(wire)) ==> Calm(wire) && code != Io
        invariant Calm(old(wire)) && code == Timeout ==> wire == [] && Parse(View(log, Offset())).NeedMore?
        invariant Honest(old(wire)) ==> Honest(wire) && Fed(Stream(), losses)
        decreases if !r.Found? && code == Ok then Size(wire) + 1 else 0
      {
        ghost var more;
        r, code, at, more := Turn(base, losses);
        losses := losses + more;
      }
    }

    /** Receives until a packet is in the buffer (`Ok`), `junk` bytes from its front, or until it gives up.
        `at` is where the scan of the byte log ended: at the packet, or waiting for more. */
    method NextPacket() returns (code: Code, pkt: Packet, junk: nat, ghost at: nat, ghost losses: seq<nat>)
      requires Valid()
      modifies this`rxlen, this`wire, this`bytesDiscarded, this`checksumErrors, this`timeouts,
               this`log, this`discarded, this`lost, rxbuf
      ensures Valid() && code in {Ok, Io, Timeout}
      ensures old(log) <= log && Stream() == old(Stream()) && lost == old(lost) + losses
      ensures discarded - old(discarded) == Offset() - old(Offset())
      ensures timeouts == if code == Timeout then AddU32(old(timeouts), 1) else old(timeouts)
      ensures code == Ok ==> FrameAt(log, at, pkt) && Offset() + junk == at
      ensures code != Ok ==> at <= |log| && Judge(log, at) == Wait
      ensures Skipped(log, old(Offset()), at, losses)
      ensures Honest(old(wire)) ==> Honest(wire) && Sought(Stream(), old(Offset()), Offset(), code, pkt, at, losses)
      ensures Calm(old(wire)) ==> Calm(wire) && code != Io && (code == Timeout ==> wire == [])
      ensures Calm(old(wire)) && Honest(old(wire)) ==>
                Seek(Stream(), old(Offset())) == if code == Timeout then Dry(Offset(), losses) else Frame(pkt, at, losses)
      ensures Calm(old(wire)) && Honest(old(wire)) ==>
                (losses != [] <==> exists c :: Reaches(Stream(), old(Offset()), c) && Chokes(Stream(), c))
    {
      hide Parse, View, Scans, Seek, Looked, Skipped, Fed, Judge, Waiting, FrameAt, Calm, Honest, Reaches, Chokes;
      ghost var base: nat := Offset();
      var r;
      r, code, at, losses := Hunt();
      pkt, junk := Packet(0, 0, []), 0;
      if code == Ok {
        Landed(log, Payload(wire), base, Offset(), losses, at, r);
        pkt, junk := r.pkt, r.consumed - (|r.pkt.body| + 6);
      } else {
        Ended(log, Payload(wire), base, Offset(), losses, at, code);
      }
      LosesIff(Stream(), base);
    }

    /** Receives one status packet from `expectId`; `got` is at most `cap` bytes of its data. */
    method RxStatus(expectId: Byte, cap: nat)
      returns (code: Code, got: seq<Byte>, ghost pkt: Packet, ghost at: nat, ghost losses: seq<nat>)
      requires Valid()
      modifies this`rxlen, this`wire, this`bytesDiscarded, this`checksumErrors, this`timeouts, this`rxOk,
               this`lastServoError, this`log, this`discarded, this`accepted, this`misaddressed, this`lost, rxbuf
      ensures Valid() && code in {Ok, Io, Timeout, WrongId}
      ensures old(log) <= log && Stream() == old(Stream())
      ensures code in {Ok, WrongId} ==>
                && FrameAt(log, at, pkt) && Offset() == at + |pkt.body| + 6
                && discarded - old(discarded) == at - old(Offset())
                && (code == Ok <==> pkt.id == expectId)
      ensures code in {Io, Timeout} ==> discarded - old(discarded) == Offset() - old(Offset())
      ensures code == Ok ==>
                && got == pkt.body[..Min(|pkt.body|, cap)] && lastServoError == pkt.code
                && accepted == old(accepted) + |pkt.body| + 6 && rxOk == AddU32(old(rxOk), 1)
      ensures code != Ok ==> got == [] && accepted == old(accepted) && rxOk == old(rxOk)
      ensures timeouts == if code == Timeout then AddU32(old(timeouts), 1) else old(timeouts)
      ensures lost == old(lost) + losses && Skipped(log, old(Offset()), at, losses)
      ensures code in {Io, Timeout} ==> at <= |log| && Judge(log, at) == Wait
      ensures Honest(old(wire)) ==> Honest(wire) && Sought(Stream(), old(Offset()), Offset(), code, pkt, at, losses)
      ensures Calm(old(wire)) && Honest(old(wire)) ==>
                Seek(Stream(), old(Offset())) == if code == Timeout then Dry(Offset(), losses) else Frame(pkt, at, losses)
      ensures Calm(old(wire)) ==> Calm(wire) && code != Io && (code == Timeout ==> wire == [])
    {
      var p, junk;
      code, p, junk, at, losses := NextPacket();
      got, pkt := [], p;
      if code == Ok {
        code, got := Take(p, junk, expectId, cap);
      }
    }

    /** Receives one more status packet after those received since `from`. */
    method ReceiveNext(expectId: Byte, cap: nat, ghost from: nat, ghost pkts: seq<Packet>, ghost losses: seq<nat>)
      returns (code: Code, ghost pkts': seq<Packet>, ghost losses': seq<nat>)
      requires Valid()
      modifies this`rxlen, this`wire, this`bytesDiscarded, this`checksumErrors, this`timeouts, this`rxOk,
               this`lastServoError, this`log, this`discarded, this`accepted, this`misaddressed, this`lost, rxbuf
      ensures Valid() && code in {Ok, Io, Timeout, WrongId} && Stream() == old(Stream())
      ensures losses <= losses' && lost == old(lost) + losses'[|losses|..]
      ensures code in {Ok, WrongId} ==> Offset() > old(Offset())
      ensures Calm(old(wire)) ==> Calm(wire) && code != Io
      ensures Honest(old(wire)) && Onward(Stream(), from, pkts, losses, old(Offset())) ==>
                && Honest(wire) && Onward(Stream(), from, pkts', losses', Offset())
                && (Calm(old(wire)) && code == Timeout ==>
                      pkts' == Receive(Stream(), from) && losses' == Losses(Stream(), from))
    {
      hide Seek, Skipped, FrameAt, Calm, Honest, Receive, Losses, Onward, Sought, Judge, Payload, AddU32, Min;
      ghost var base: nat, calm, honest := Offset(), Calm(wire), Honest(wire);
      var got;
      ghost var pkt, at, more;
      code, got, pkt, at, more := RxStatus(expectId, cap);
      SkippedForward(log, base, at, more);
      if honest && Onward(Stream(), from, pkts, losses, base) {
        Resumed(Stream(), from, pkts, losses, base, Offset(), code, pkt, at, more);
        if calm && code == Timeout {
          OnwardDry(Stream(), from, pkts, losses, base, Dry(Offset(), more));
        }
      }
      pkts' := if code in {Ok, WrongId} then pkts + [pkt] else pkts;
      losses' := losses + more;
    }

    /** Receives status packets until the bus is silent or fails. */
    method ReceiveAll(expectId: Byte, cap: nat) returns (code: Code, ghost pkts: seq<Packet>, ghost losses: seq<nat>)
      requires Valid()
      modifies this`rxlen, this`wire, this`bytesDiscarded, this`checksumErrors, this`timeouts, this`rxOk,
               this`lastServoError, this`log, this`discarded, this`accepted, this`misaddressed, this`lost, rxbuf
      ensures Valid() && code in {Io, Timeout} && Stream() == old(Stream()) && lost == old(lost) + losses
      ensures Honest(old(wire)) ==> Onward(Stream(), old(Offset()), pkts, losses, Offset())
      ensures Calm(old(wire)) && Honest(old(wire)) ==>
                code == Timeout && pkts == Receive(Stream(), old(Offset())) && losses == Losses(Stream(), old(Offset()))
      ensures Calm(old(wire)) && Honest(old(wire)) && losses == [] ==> pkts == Frames(Stream(), old(Offset()))
    {
      hide Seek, Skipped, FrameAt, Calm, Honest, Receive, Losses, Frames, Onward, Sought, Judge, Payload, AddU32, Min;
      ghost var from: nat, calm, honest := Offset(), Calm(wire), Honest(wire);
      OnwardStart(Stream(), from);
      code, pkts, losses := Ok, [], [];
      while code in {Ok, WrongId}
        invariant Valid() && code != Arg && code != BadPkt
        invariant Stream() == old(Stream()) && lost == old(lost) + losses
        invariant calm ==> Calm(wire) && code != Io
        invariant honest ==> Honest(wire) && Onward(Stream(), from, pkts, losses, Offset())
        invariant calm && honest && code == Timeout ==>
                    pkts == Receive(Stream(), from) && losses == Losses(Stream(), from)
        decreases if code in {Ok, WrongId} then |Stream()| - Offset() + 1 else 0
      {
        code, pkts, losses := ReceiveNext(expectId, cap, from, pkts, losses);
      }
      if calm && honest && losses == [] {
        ReceiveIsFrames(Stream(), from);
      }
    }

    /** Transmits a packet: forgets stale input, writes, and swallows the echo if the adapter has one. */
    method TxPacket(pkt: seq<Byte>) returns (code: Code)
      requires Valid() && |pkt| <= MAX_PKT
      modifies this`rxlen, this`wire, this`bytesDiscarded, this`txPackets, this`sent, this`log, this`discarded,
               this`echoed, this`cleared, this`lost, rxbuf
      ensures Valid() && code in {Ok, Io}
      ensures old(log) <= log && Stream() == old(Stream())
      ensures lost == old(lost) && discarded == old(discarded)
      ensures sent == if old(writable) then old(sent) + [pkt] else old(sent)
      ensures txPackets == if old(writable) then AddU32(old(txPackets), 1) else old(txPackets)
      ensures !old(writable) ==> code == Io && wire == old(wire)
      ensures Offset() >= |old(log)|
      ensures code == Ok ==> Offset() == if echo then Min(|old(log)| + |pkt|, |log|) else |old(log)|
      ensures old(writable) && Calm(old(wire)) ==> Calm(wire) && code == Ok
      ensures old(writable) && Calm(old(wire)) && echo && |pkt| <= |Payload(old(wire))| ==> |log| >= |old(log)| + |pkt|
    {
      cleared := cleared + rxlen;
      rxlen := 0;
      if !writable {
        return Io;
      }
      sent := sent + [pkt];
      txPackets := AddU32(txPackets, 1);
      if echo {
        code := SwallowEcho(|pkt|);
        return;
      }
      code := Ok;
    }

    /** Fills the empty buffer with at least `n` bytes, unless the bus falls silent or fails first. */
    method FillTo(n: nat) returns (code: Code)
      requires Valid() && n <= MAX_PKT && rxlen == 0
      modifies this`rxlen, this`wire, this`bytesDiscarded, this`log, this`discarded, this`lost, rxbuf
      ensures Valid() && code in {Ok, Io, Timeout}
      ensures old(log) <= log && Stream() == old(Stream())
      ensures lost == old(lost) && discarded == old(discarded) && Offset() == |old(log)|
      ensures code == Ok ==> rxlen >= n
      ensures Calm(old(wire)) ==> Calm(wire) && code != Io && (code == Timeout ==> wire == [])
    {
      code := Ok;
      while rxlen < n
        invariant Valid() && old(log) <= log && Stream() == old(Stream())
        invariant lost == old(lost) && discarded == old(discarded) && Offset() == |old(log)|
        invariant code == Ok && (Calm(old(wire)) ==> Calm(wire))
        decreases Size(wire)
      {
        code := FillRx();
        if code != Ok {
          return;
        }
      }
    }

    /** Discards exactly `n` echoed bytes, or what came before the bus fell silent. */
    method SwallowEcho(n: nat) returns (code: Code)
      requires Valid() && n <= MAX_PKT && rxlen == 0
      modifies this`rxlen, this`wire, this`bytesDiscarded, this`log, this`discarded, this`echoed, this`lost, rxbuf
      ensures Valid() && code in {Ok, Io}
      ensures old(log) <= log && Stream() == old(Stream())
      ensures lost == old(lost) && discarded == old(discarded)
      ensures Offset() == if code == Ok then Min(|old(log)| + n, |log|) else |old(log)|
      ensures Calm(old(wire)) ==> Calm(wire) && code == Ok
      ensures Calm(old(wire)) && n <= |Payload(old(wire))| ==> |log| >= |old(log)| + n
    {
      code := FillTo(n);
      if code == Io {
        return;
      }
      assert |Stream()| == |old(Stream())|;
      echoed := echoed + Min(n, rxlen);
      DropRx(n);
      code := Ok;
    }

    /** The stream holds the packets `expected` from `start` on, the answers of `ids`,
        and reception has got to the k-th of them. */
    ghost predicate Primed(expected: seq<Packet>, ids: seq<Byte>, len: nat, start: nat, k: nat)
      reads this
    {
      && Calm(wire) && AnswersTo(expected, ids, len) && k <= |ids|
      && Laid(Stream(), start, expected, |expected|) && Offset() == StartOf(expected, start, k)
    }

    /** Receives the reply of the k-th servo of a sync read.
        On a calm bus known to hold the answers `expected` it is the k-th of them. */
    method ReadReply(ids: seq<Byte>, k: nat, len: Byte, ghost known: bool, ghost expected: seq<Packet>, ghost start: nat)
      returns (code: Code, got: seq<Byte>, ghost reply: Reply)
      requires Valid() && k < |ids|
      requires known ==> Primed(expected, ids, len, start, k)
      modifies this`rxlen, this`wire, this`bytesDiscarded, this`checksumErrors, this`timeouts, this`rxOk,
               this`lastServoError, this`log, this`discarded, this`accepted, this`misaddressed, this`lost, rxbuf
      ensures Valid() && code in {Ok, Io, Timeout, WrongId, BadPkt}
      ensures old(log) <= log && Stream() == old(Stream())
      ensures code == Ok ==>
                && FrameAt(log, reply.at, reply.pkt) && old(Offset()) <= reply.at && reply.End() == Offset()
                && reply.pkt.id == ids[k] && |reply.pkt.body| >= len && got == Front(reply.pkt.body, len)
      ensures FilledBy(log, reply, ids[k], len, got, code)
      ensures known ==> code == Ok && Primed(expected, ids, len, start, k + 1) && reply.pkt == expected[k]
    {
      ghost var base: nat := Offset();
      if known {
        LaidAt(Stream(), start, expected, |expected|, k);
      }
      ghost var pkt, at, losses;
      code, got, pkt, at, losses := RxStatus(ids[k], len);
      reply := Reply(at, pkt);
      if known {
        Hit(log, Payload(wire), base, at, losses, expected[k]);
      }
      if code == Ok && |got| != len {
        code := BadPkt;
      }
    }

    /** What a sync read has collected from the first `k` servos. */
    ghost predicate Gathered(codes: seq<Code>, parts: seq<seq<Byte>>, replies: seq<Reply>, from: nat, ids: seq<Byte>,
                             len: nat, known: bool, expected: seq<Packet>, start: nat, k: nat)
      reads this, rxbuf
    {
      && Valid() && |replies| == k && Filled(log, replies, ids, len, parts, codes)
      && (FirstError(codes) == Ok ==> Collected(log, from, replies, Offset(), ids, len, parts))
      && (known ==>
            && FirstError(codes) == Ok && k <= |expected| == |ids| && Primed(expected, ids, len, start, k)
            && Brought(replies) == expected[..k])
    }

    /** Receives one more reply and adds it to those collected so far. */
    method CollectNext(ids: seq<Byte>, k: nat, len: Byte, ghost codes: seq<Code>, ghost parts: seq<seq<Byte>>,
                       ghost replies: seq<Reply>, ghost from: nat, ghost known: bool, ghost expected: seq<Packet>,
                       ghost start: nat)
      returns (rc: Code, got: seq<Byte>, ghost replies': seq<Reply>)
      requires k < |ids| && Gathered(codes, parts, replies, from, ids, len, known, expected, start, k)
      modifies this`rxlen, this`wire, this`bytesDiscarded, this`checksumErrors, this`timeouts, this`rxOk,
               this`lastServoError, this`log, this`discarded, this`accepted, this`misaddressed, this`lost, rxbuf
      ensures Gathered(codes + [rc], parts + [got], replies', from, ids, len, known, expected, start, k + 1)
      ensures Stream() == old(Stream()) && |got| <= len
    {
      hide Primed, Collected, Brought, FrameAt, FirstError;
      ghost var log0, mid: nat := log, Offset();
      ghost var reply;
      rc, got, reply := ReadReply(ids, k, len, known, expected, start);
      if FirstError(codes) == Ok && rc == Ok {
        CollectedAppend(log0, log, from, replies, mid, ids, len, parts, reply);
      }
      FirstErrorMore(codes, rc);
      FilledMore(log0, log, replies, ids, len, parts, codes, reply, got, rc);
      BroughtMore(replies, reply);
      assert known ==> expected[..k + 1] == expected[..k] + [expected[k]];
      replies' := replies + [reply];
    }

    /** Receives one more reply and copies its data to its place in `out`. */
    method FillNext(ids: seq<Byte>, k: nat, len: Byte, out: array<Byte>, ghost was: seq<Byte>, ghost codes: seq<Code>,
                    ghost parts: seq<seq<Byte>>, ghost replies: seq<Reply>, ghost from: nat, ghost known: bool,
                    ghost expected: seq<Packet>, ghost start: nat)
      returns (rc: Code, ghost parts': seq<seq<Byte>>, ghost replies': seq<Reply>)
      requires k < |ids| && out != rxbuf && out.Length >= Place(len, |ids|)
      requires Gathered(codes, parts, replies, from, ids, len, known, expected, start, k)
      requires Copied(was, len, parts, out[..])
      modifies this`rxlen, this`wire, this`bytesDiscarded, this`checksumErrors, this`timeouts, this`rxOk,
               this`lastServoError, this`log, this`discarded, this`accepted, this`misaddressed, this`lost, rxbuf, out
      ensures Gathered(codes + [rc], parts', replies', from, ids, len, known, expected, start, k + 1)
      ensures Stream() == old(Stream()) && Copied(was, len, parts', out[..])
    {
      hide Primed, Collected, Brought, Filled, FrameAt, Spread, Overlay, Slots, Place, Stream, FirstError;
      FilledLength(log, replies, ids, len, parts, codes);
      var got;
      rc, got, replies' := CollectNext(ids, k, len, codes, parts, replies, from, known, expected, start);
      parts' := parts + [got];
      if k + 1 < |ids| {
        PlaceBefore(len, k + 1, |ids|);
      }
      SpreadMore(was, len, parts, got);
      CopyIn(out, Place(len, k), got);
    }

    lemma GatheredNone(from: nat, ids: seq<Byte>, len: nat, known: bool, expected: seq<Packet>, start: nat)
      requires Valid() && from <= Offset() && (known ==> Primed(expected, ids, len, start, 0))
      ensures Gathered([], [], [], from, ids, len, known, expected, start, 0)
    {
      CollectedNone(log, from, Offset(), ids, len);
    }

    lemma AllGathered(codes: seq<Code>, parts: seq<seq<Byte>>, replies: seq<Reply>, from: nat, ids: seq<Byte>, len: nat,
                      known: bool, expected: seq<Packet>, start: nat, k: nat, code: Code)
      requires Gathered(codes, parts, replies, from, ids, len, known, expected, start, k) && Round(codes, |ids|, code)
      ensures Valid() && code != Arg && Filled(log, replies, ids, len, parts, codes)
      ensures code == Ok ==> |replies| == |ids| && Collected(log, from, replies, Offset(), ids, len, parts)
      ensures known ==> code == Ok && Brought(replies) == expected
    {
      hide Primed, Collected, FrameAt, Brought, FilledBy;
      assert code == Ok ==> |codes| == |ids|;
      assert known ==> expected[..|expected|] == expected;
      assert Arg !in codes by { NoneIsArg(log, replies, ids, len, parts, codes); }
    }

    /** Receives the replies of a sync read, servo by servo; a silent bus ends it at once. */
    method CollectReplies(ids: seq<Byte>, len: Byte, out: array<Byte>, ghost from: nat, ghost known: bool,
                          ghost expected: seq<Packet>, ghost start: nat)
      returns (code: Code, ghost codes: seq<Code>, ghost replies: seq<Reply>, ghost parts: seq<seq<Byte>>)
      requires Valid() && from <= Offset() && out != rxbuf && out.Length >= Place(len, |ids|) && ids != []
      requires known ==> Primed(expected, ids, len, start, 0)
      modifies this`rxlen, this`wire, this`bytesDiscarded, this`checksumErrors, this`timeouts, this`rxOk,
               this`lastServoError, this`log, this`discarded, this`accepted, this`misaddressed, this`lost, rxbuf, out
      ensures Valid() && Stream() == old(Stream())
      ensures Filled(log, replies, ids, len, parts, codes) && Copied(old(out[..]), len, parts, out[..])
      ensures code != Arg && Round(codes, |ids|, code)
      ensures code == Ok ==> |replies| == |ids| && Collected(log, from, replies, Offset(), ids, len, parts)
      ensures known ==> code == Ok && Brought(replies) == expected
    {
      hide Primed, Collected, Filled, FrameAt, Stream, Copied, Place, Brought, Heard, Round;
      GatheredNone(from, ids, len, known, expected, start);
      ghost var was := out[..];
      SpreadNone(was, len);
      codes, replies, code, parts := [], [], Ok, [];
      HeardNone();
      for k := 0 to |ids|
        invariant Gathered(codes, parts, replies, from, ids, len, known, expected, start, k)
        invariant Stream() == old(Stream()) && Copied(was, len, parts, out[..])
        invariant Heard(codes, k, code) && (k == |ids| ==> Round(codes, k, code))
      {
        var rc;
        rc, parts, replies := FillNext(ids, k, len, out, was, codes, parts, replies, from, known, expected, start);
        HeardMore(codes, k, code, rc, |ids|);
        codes, code := codes + [rc], if code == Ok then rc else code;
        if rc == Timeout {
          break;
        }
      }
      AllGathered(codes, parts, replies, from, ids, len, known, expected, start, |replies|, code);
    }

    /** Sends the request of a sync read. If the script is known to hold the echo of it and then the
        packets `expected`, reception starts at the first of them. */
    method RequestSyncRead(ids: seq<Byte>, addr: Byte, len: Byte, ghost expected: seq<Packet>)
      returns (code: Code, ghost start: nat)
      requires Valid() && |ids| + 8 <= MAX_PKT
      modifies this`rxlen, this`wire, this`bytesDiscarded, this`txPackets, this`sent, this`log, this`discarded,
               this`echoed, this`cleared, this`lost, rxbuf
      ensures Valid() && code in {Ok, Io}
      ensures old(log) <= log && Stream() == old(Stream()) && |old(log)| <= Offset()
      ensures sent == if old(writable) then old(sent) + [Encode(SyncReadPacket(ids, addr, len))] else old(sent)
      ensures old(Answered(ids, addr, len, expected)) ==> code == Ok && Primed(expected, ids, len, start, 0)
    {
      hide Encode, Calm, Laid, Wire, Payload, AddU32;
      var pkt := new Byte[MAX_PKT](_ => 0);
      var n := BuildPacket(pkt, BROADCAST_ID, INST_SYNC_READ, [addr, len] + ids);
      var request := pkt[..n];
      ghost var known := Answered(ids, addr, len, expected);
      ghost var stream, skip := Stream(), if echo then request else [];
      start := |log| + |skip|;
      if known {
        KnownStream(log, skip, Payload(wire), expected);
      }
      code := TxPacket(request);
      if known {
        assert Stream() == stream;
        assert Offset() == start;
      }
    }

    /** The script will calmly deliver the echo of the request, if there is one, and the packets
        `expected`, which are the answers of `ids`. */
    ghost predicate Answered(ids: seq<Byte>, addr: Byte, len: Byte, expected: seq<Packet>)
      requires |ids| + 8 <= MAX_PKT
      reads this
    {
      && writable && Calm(wire) && AnswersTo(expected, ids, len)
      && Payload(wire) == (if echo then Encode(SyncReadPacket(ids, addr, len)) else []) + Wire(expected, |expected|)
    }

    /** Asks the servos `ids` for `len` registers each and puts what the k-th servo sends to k times `len` in `out`.
        A calm bus that holds the packets `expected` delivers exactly those. */
    method SyncRead(ids: seq<Byte>, addr: Byte, len: Byte, out: array<Byte>, ghost expected: seq<Packet>)
      returns (code: Code, ghost codes: seq<Code>, ghost replies: seq<Reply>, ghost parts: seq<seq<Byte>>)
      requires Valid() && out != rxbuf && out.Length >= Place(len, |ids|)
      modifies this, rxbuf, out
      ensures Valid() && Stream() == old(Stream())
      ensures code == Arg <==> ids == [] || len == 0 || |ids| + 8 > MAX_PKT
      ensures sent == if code != Arg && old(writable) then old(sent) + [Encode(SyncReadPacket(ids, addr, len))] else old(sent)
      ensures Filled(log, replies, ids, len, parts, codes) && Copied(old(out[..]), len, parts, out[..])
      ensures code != Arg ==> if codes == [] then code == Io else Round(codes, |ids|, code)
      ensures code == Ok ==> |replies| == |ids| && Collected(log, |old(log)|, replies, Offset(), ids, len, parts)
      ensures code != Arg && old(Answered(ids, addr, len, expected)) ==>
                code == Ok && Brought(replies) == expected
    {
      codes, replies, parts := [], [], [];
      if ids == [] || len == 0 || |ids| + 8 > MAX_PKT {
        return Arg, codes, replies, parts;
      }
      ghost var known := Answered(ids, addr, len, expected);
      ghost var start;
      code, start := RequestSyncRead(ids, addr, len, expected);
      if code == Ok {
        code, codes, replies, parts := CollectReplies(ids, len, out, |old(log)|, known, expected, start);
      }
    }

    /** The parameters of a sync write: address, length, then ID and registers of each servo. */
    method WriteParams(ids: seq<Byte>, addr: Byte, len: Byte, data: seq<Byte>) returns (params: seq<Byte>)
      requires |ids| * len == |data|
      ensures params == SyncWritePacket(ids, addr, len, data).body
    {
      params := [addr, len];
      for k := 0 to |ids|
        invariant params == [addr, len] + Groups(ids, data, len, k)
      {
        GroupFits(len, k, |ids|);
        Assoc([addr, len], Groups(ids, data, len, k), [ids[k]]);
        Assoc([addr, len], Groups(ids, data, len, k) + [ids[k]], Group(data, len, k));
        params := params + [ids[k]] + Group(data, len, k);
      }
    }

    /** Builds a broadcast packet and transmits it. */
    method Broadcast(inst: Byte, params: seq<Byte>) returns (code: Code)
      requires Valid() && |params| + 6 <= MAX_PKT
      modifies this`rxlen, this`wire, this`bytesDiscarded, this`txPackets, this`sent, this`log, this`discarded,
               this`echoed, this`cleared, this`lost, rxbuf
      ensures Valid() && code in {Ok, Io} && Stream() == old(Stream())
      ensures sent == if old(writable) then old(sent) + [Encode(Packet(BROADCAST_ID, inst, params))] else old(sent)
      ensures old(writable) && Calm(old(wire)) ==> code == Ok && Calm(wire)
    {
      var pkt := new Byte[MAX_PKT](_ => 0);
      var n := BuildPacket(pkt, BROADCAST_ID, inst, params);
      code := TxPacket(pkt[..n]);
    }

    /** Writes `len` registers of each servo with one broadcast packet. No reply is expected. */
    method SyncWrite(ids: seq<Byte>, addr: Byte, len: Byte, data: seq<Byte>) returns (code: Code)
      requires Valid() && |ids| * len == |data|
      modifies this`rxlen, this`wire, this`bytesDiscarded, this`txPackets, this`sent, this`log, this`discarded,
               this`echoed, this`cleared, this`lost, rxbuf
      ensures Valid() && Stream() == old(Stream())
      ensures code == Arg <==> ids == [] || len == 0 || !Fits(SyncWritePacket(ids, addr, len, data))
      ensures sent == if code != Arg && old(writable) then old(sent) + [EncodeFit(SyncWritePacket(ids, addr, len, data))]
                      else old(sent)
      ensures code != Arg && old(writable) && Calm(old(wire)) ==> code == Ok && Calm(wire)
    {
      var nparams: int := 2 + |ids| * (len + 1);
      GroupsLength(ids, data, len, |ids|);
      if ids == [] || len == 0 || nparams + 6 > MAX_PKT {
        return Arg;
      }
      var params := WriteParams(ids, addr, len, data);
      code := Broadcast(INST_SYNC_WRITE, params);
    }
  }

  lemma OnePiece(bytes: seq<Byte>)
    requires bytes != []
    ensures var wire := [Event(false, Data(bytes))];
            Calm(wire) && Honest(wire) && Payload(wire) == bytes
  {
    assert bytes + [] == bytes;
  }

  /** The receive buffer does overflow: 1000 bytes of noise and a packet of 30 arrive in time, in one piece, and
      the packet is lost. */
  method Drown(p: Packet) returns (bus: FtsBus, code: Code)
    requires Readable(p) && p.body == Zeros(24)
    ensures fresh(bus) && bus.Valid() && bus.Stream() == Noisy(p) && FrameAt(bus.Stream(), 1000, p)
    ensures code == Timeout && bus.wire == [] && bus.lost == [0] && bus.Offset() == RXBUF_SIZE
  {
    hide Seek, Judge, Skipped, Noisy, Zeros, Encode, FrameAt, Calm, Honest, Payload, AddU32, Sought, Min;
    NoiseDrowns(p);
    bus := new FtsBus(false);
    bus.wire := [Event(false, Data(Noisy(p)))];
    OnePiece(Noisy(p));
    assert [] + Noisy(p) == Noisy(p);
    var got;
    ghost var pkt, at, losses;
    code, got, pkt, at, losses := bus.RxStatus(p.id, 24);
    assert [] + losses == losses;
  }
}
