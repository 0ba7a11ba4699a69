/** Reception through a buffer of 1024 bytes: what the driver's receiver finds in a byte stream, and what it
    loses when the buffer fills up with garbage. Neither depends on how the stream is cut into reads. */
module Reception {
  import opened Bytes
  import opened Framing
  import opened Resync

  const RXBUF_SIZE := 1024

  // ------------------------------------------------------------- the parser

  /** The first position from `i` on that is not plain garbage. */
  function Start(s: seq<Byte>, i: nat): (p: nat)
    requires i <= |s|
    ensures i <= p <= |s| && Judge(s, p) != NoHeader && forall j :: i <= j < p ==> Judge(s, j) == NoHeader
    decreases |s| - i
  {
    if Judge(s, i) == NoHeader then Start(s, i + 1) else i
  }

  /** The parser's answer as a function. */
  function Parse(s: seq<Byte>): (r: ParseResult)
    ensures r.consumed <= |s|
    ensures !r.NeedMore? ==> r.consumed > 0
    ensures r.Found? ==> |r.pkt.body| + 6 <= r.consumed
  {
    var p := Start(s, 0);
    var v := Judge(s, p);
    if v == BadHeader then BadPacket(p + 1)
    else if v == BadSum then ChecksumError(p + 2)
    else if v == Accept then Found(PacketAt(s, p), EndAt(s, p))
    else NeedMore(p)
  }

  lemma StartUnique(s: seq<Byte>, p: nat)
    requires p <= |s| && FirstHeader(s, p) && Judge(s, p) != NoHeader
    ensures Start(s, 0) == p
  {
    var q := Start(s, 0);
    assert !(q < p) && !(p < q);
  }

  /** `ParseStatus` answers just that. */
  lemma ParsedIsParse(s: seq<Byte>, r: ParseResult)
    requires Parsed(s, r)
    ensures r == Parse(s)
  {
    var p := if r.NeedMore? then r.consumed else if r.BadPacket? then r.consumed - 1
             else if r.ChecksumError? then r.consumed - 2 else r.consumed - (|r.pkt.body| + 6);
    if r.Found? {
      FrameIsAccepted(s, p, r.pkt);
    }
    StartUnique(s, p);
  }

  lemma ParseIsParsed(s: seq<Byte>)
    ensures Parsed(s, Parse(s))
  {
    var p := Start(s, 0);
    if Judge(s, p) == Accept {
      AcceptedIsFrame(s, p);
    }
  }

  /** Anything but the wish for more bytes is final. */
  lemma ParseStable(s: seq<Byte>, t: seq<Byte>)
    requires !Parse(s).NeedMore?
    ensures Parse(s + t) == Parse(s)
  {
    var p := Start(s, 0);
    VerdictStable(s, t, p);
    forall j | 0 <= j < p ensures Judge(s + t, j) == NoHeader {
      VerdictStable(s, t, j);
    }
    StartUnique(s + t, p);
  }

  // ------------------------------------------------------------- the buffer

  /** What the buffer can hold of the stream from `o` on. */
  function View(s: seq<Byte>, o: nat): seq<Byte>
    requires o <= |s|
  {
    if o + RXBUF_SIZE <= |s| then s[o..o + RXBUF_SIZE] else s[o..]
  }

  /** The buffer is full and the parser still wants more. */
  predicate Stuck(s: seq<Byte>, o: nat) {
    o + RXBUF_SIZE <= |s| && Parse(View(s, o)).NeedMore?
  }

  predicate Errs(s: seq<Byte>, o: nat)
    requires o <= |s|
  {
    Parse(View(s, o)).BadPacket? || Parse(View(s, o)).ChecksumError?
  }

  /** Where an error of the parser moves the buffer. */
  function Past(s: seq<Byte>, o: nat): (p: nat)
    requires o <= |s| && Errs(s, o)
    ensures o < p <= |s|
  {
    o + Parse(View(s, o)).consumed
  }

  lemma ViewGrows(s: seq<Byte>, t: seq<Byte>, o: nat)
    requires o <= |s|
    ensures View(s, o) <= View(s + t, o)
    ensures !Parse(View(s, o)).NeedMore? ==> Parse(View(s + t, o)) == Parse(View(s, o))
    ensures o + RXBUF_SIZE <= |s| ==> View(s + t, o) == View(s, o)
  {
    var v, w := View(s, o), View(s + t, o);
    assert w == v + w[|v|..];
    if !Parse(v).NeedMore? {
      ParseStable(v, w[|v|..]);
    }
  }

  /** What the parser decides in the buffer holds in the stream. */
  lemma ViewParse(s: seq<Byte>, o: nat)
    requires o <= |s|
    ensures !Parse(View(s, o)).NeedMore? ==> Parse(s[o..]) == Parse(View(s, o))
    ensures |s| <= o + RXBUF_SIZE ==> View(s, o) == s[o..]
  {
    var v := View(s, o);
    assert s[o..] == v + s[o + |v|..];
    if !Parse(v).NeedMore? {
      ParseStable(v, s[o + |v|..]);
    }
  }

  /** Errors move the buffer over rejected positions only. */
  lemma PastSkips(s: seq<Byte>, o: nat)
    requires o <= |s| && Errs(s, o)
    ensures AllRejected(s, o, Past(s, o))
  {
    ViewParse(s, o);
    ParseIsParsed(s[o..]);
    ParseSkipsAt(s, o, Parse(s[o..]));
  }

  /** A position that waits is near the end: no packet is longer than 250 bytes. */
  lemma WaitIsNear(s: seq<Byte>, p: nat)
    requires p <= |s| && Judge(s, p) == Wait
    ensures |s| - p < MAX_PKT
  {
  }

  /** A buffer gets stuck on garbage only: 775 positions without so much as a header. */
  lemma StuckIsGarbage(s: seq<Byte>, o: nat)
    requires Stuck(s, o)
    ensures forall q :: o <= q < o + 775 ==> q < |s| && Judge(s, q) == NoHeader
  {
    var v := View(s, o);
    var p := Start(v, 0);
    assert |v| == RXBUF_SIZE && Judge(v, p) == Wait;
    WaitIsNear(v, p);
    forall q | o <= q < o + 775 ensures Judge(s, q) == NoHeader {
      assert s[o..] == v + s[o + |v|..];
      VerdictStable(v, s[o + |v|..], q - o);
      JudgeShift(s, o, q);
    }
  }

  // --------------------------------------------------------------- the path

  /** The buffer has come from `base` to `o` by errors of the parser, and by being emptied, full and stuck, at
      each of `losses`. */
  ghost predicate Scans(s: seq<Byte>, base: nat, o: nat, losses: seq<nat>)
    requires base <= |s|
    decreases |s| - base
  {
    || (base == o && losses == [])
    || (Errs(s, base) && Scans(s, Past(s, base), o, losses))
    || (Stuck(s, base) && losses != [] && losses[0] == base && Scans(s, base + RXBUF_SIZE, o, losses[1..]))
  }

  lemma ScansStart(s: seq<Byte>, base: nat)
    requires base <= |s|
    ensures Scans(s, base, base, [])
  {
  }

  lemma ErrsGrows(s: seq<Byte>, t: seq<Byte>, o: nat)
    requires o <= |s| && Errs(s, o)
    ensures Errs(s + t, o) && Past(s + t, o) == Past(s, o)
  {
    ViewGrows(s, t, o);
  }

  lemma StuckGrows(s: seq<Byte>, t: seq<Byte>, o: nat)
    requires Stuck(s, o)
    ensures Stuck(s + t, o)
  {
    ViewGrows(s, t, o);
  }

  lemma {:induction false} ScansExtend(s: seq<Byte>, t: seq<Byte>, base: nat, o: nat, losses: seq<nat>)
    requires base <= |s| && Scans(s, base, o, losses)
    ensures Scans(s + t, base, o, losses)
    decreases |s| - base
  {
    hide Parse, View, Judge;
    if base == o && losses == [] {
    } else if Errs(s, base) {
      ErrsGrows(s, t, base);
      ScansExtend(s, t, Past(s, base), o, losses);
    } else {
      StuckGrows(s, t, base);
      ScansExtend(s, t, base + RXBUF_SIZE, o, losses[1..]);
    }
  }

  lemma {:induction false} ScansError(s: seq<Byte>, base: nat, o: nat, losses: seq<nat>)
    requires base <= |s| && o <= |s| && Scans(s, base, o, losses) && Errs(s, o)
    ensures Scans(s, base, Past(s, o), losses)
    decreases |s| - base
  {
    hide Parse, View, Judge;
    if base == o && losses == [] {
    } else if Errs(s, base) {
      ScansError(s, Past(s, base), o, losses);
    } else {
      ScansError(s, base + RXBUF_SIZE, o, losses[1..]);
    }
  }

  lemma {:induction false} ScansLoss(s: seq<Byte>, base: nat, o: nat, losses: seq<nat>)
    requires base <= |s| && Scans(s, base, o, losses) && Stuck(s, o)
    ensures Scans(s, base, o + RXBUF_SIZE, losses + [o])
    decreases |s| - base
  {
    hide Parse, View, Judge;
    if base == o && losses == [] {
      assert ([o] + [])[1..] == [];
      assert Scans(s, o + RXBUF_SIZE, o + RXBUF_SIZE, []);
    } else if Errs(s, base) {
      ScansLoss(s, Past(s, base), o, losses);
    } else {
      ScansLoss(s, base + RXBUF_SIZE, o, losses[1..]);
      assert (losses + [o])[1..] == losses[1..] + [o];
    }
  }

  /** What reception from `base` to `i` has passed over: rejected positions, and the buffers full of garbage
      that it has lost. */
  ghost predicate Skipped(s: seq<Byte>, base: nat, i: nat, losses: seq<nat>)
    decreases |losses|
  {
    if losses == [] then base <= i <= |s| && AllRejected(s, base, i)
    else
      && base <= losses[0] && Stuck(s, losses[0]) && AllRejected(s, base, losses[0])
      && Skipped(s, losses[0] + RXBUF_SIZE, i, losses[1..])
  }

  lemma {:induction false} SkippedForward(s: seq<Byte>, base: nat, i: nat, losses: seq<nat>)
    requires Skipped(s, base, i, losses)
    ensures base <= i <= |s|
    decreases |losses|
  {
    if losses != [] {
      SkippedForward(s, losses[0] + RXBUF_SIZE, i, losses[1..]);
    }
  }

  lemma {:induction false} ScansSkips(s: seq<Byte>, base: nat, o: nat, losses: seq<nat>, i: nat)
    requires base <= |s| && Scans(s, base, o, losses) && o <= i <= |s| && AllRejected(s, o, i)
    ensures Skipped(s, base, i, losses)
    decreases |s| - base
  {
    hide Parse, View, Judge;
    if base == o && losses == [] {
    } else if Errs(s, base) {
      PastSkips(s, base);
      ScansSkips(s, Past(s, base), o, losses, i);
    } else {
      ScansSkips(s, base + RXBUF_SIZE, o, losses[1..], i);
    }
  }

  /** Where something was lost, reception had started on garbage. */
  lemma LossIsGarbage(s: seq<Byte>, base: nat, i: nat, losses: seq<nat>)
    requires Skipped(s, base, i, losses) && losses != []
    ensures base < |s| && Rejected(s, base)
  {
    StuckIsGarbage(s, losses[0]);
  }

  // ------------------------------------------------------------- the outcome

  /** What the next call of the receiver finds: a packet, or nothing more; and what it loses on the way. */
  datatype Find = Frame(pkt: Packet, at: nat, losses: seq<nat>) | Dry(at: nat, losses: seq<nat>)

  function Losing(losses: seq<nat>, f: Find): Find {
    f.(losses := losses + f.losses)
  }

  /** Reception from `o` in a stream that arrives to its end. */
  function Seek(s: seq<Byte>, o: nat): (f: Find)
    requires o <= |s|
    ensures f.Frame? ==> o <= f.at && f.at + |f.pkt.body| + 6 <= |s|
    decreases |s| - o
  {
    var r := Parse(View(s, o));
    if r.Found? then Frame(r.pkt, o + r.consumed - (|r.pkt.body| + 6), [])
    else if Errs(s, o) then Seek(s, Past(s, o))
    else if |s| > o + RXBUF_SIZE then Losing([o], Seek(s, o + RXBUF_SIZE))
    else Dry(o, [])
  }

  /** Each loss was followed by another byte: that is what made the driver look at the full buffer. */
  predicate Fed(s: seq<Byte>, losses: seq<nat>) {
    forall k :: 0 <= k < |losses| ==> losses[k] + RXBUF_SIZE < |s|
  }

  lemma SeekOn(s: seq<Byte>, o: nat)
    requires o <= |s|
    ensures Errs(s, o) ==> Seek(s, o) == Seek(s, Past(s, o))
    ensures Stuck(s, o) && |s| > o + RXBUF_SIZE ==> Seek(s, o) == Losing([o], Seek(s, o + RXBUF_SIZE))
  {
  }

  lemma LosingMore(o: nat, losses: seq<nat>, f: Find)
    requires losses != [] && losses[0] == o
    ensures Losing([o], Losing(losses[1..], f)) == Losing(losses, f)
    ensures Losing([], f) == f
  {
    assert [o] + (losses[1..] + f.losses) == losses + f.losses;
  }

  lemma {:induction false} ScansIsSeek(s: seq<Byte>, base: nat, o: nat, losses: seq<nat>)
    requires base <= |s| && o <= |s| && Scans(s, base, o, losses) && Fed(s, losses)
    ensures Seek(s, base) == Losing(losses, Seek(s, o))
    decreases |s| - base
  {
    hide Parse, View, Judge;
    SeekOn(s, base);
    if base == o && losses == [] {
      assert [] + Seek(s, o).losses == Seek(s, o).losses;
    } else if Errs(s, base) {
      ScansIsSeek(s, Past(s, base), o, losses);
    } else {
      ScansIsSeek(s, base + RXBUF_SIZE, o, losses[1..]);
      LosingMore(base, losses, Seek(s, o));
    }
  }

  /** Reception is at `o`, and `t` is still to come. */
  lemma SeekOpen(s: seq<Byte>, t: seq<Byte>, base: nat, o: nat, losses: seq<nat>)
    requires base <= |s| && o <= |s| && Scans(s, base, o, losses) && Fed(s + t, losses)
    ensures Seek(s + t, base) == Losing(losses, Seek(s + t, o))
  {
    hide Parse, View, Judge, Seek, Scans;
    ScansExtend(s, t, base, o, losses);
    ScansIsSeek(s + t, base, o, losses);
  }

  lemma SeekFound(s: seq<Byte>, t: seq<Byte>, base: nat, o: nat, losses: seq<nat>)
    requires base <= |s| && o <= |s| && Scans(s, base, o, losses) && Fed(s + t, losses) && Parse(View(s, o)).Found?
    ensures var r := Parse(View(s, o));
            Seek(s + t, base) == Frame(r.pkt, o + Target(r), losses)
  {
    hide Parse, View, Judge, Scans;
    ViewGrows(s, t, o);
    SeekOpen(s, t, base, o, losses);
    assert losses + [] == losses;
  }

  lemma SeekDry(s: seq<Byte>, base: nat, o: nat, losses: seq<nat>)
    requires base <= |s| && o <= |s| <= o + RXBUF_SIZE && Scans(s, base, o, losses) && Fed(s, losses)
    requires Parse(View(s, o)).NeedMore?
    ensures Seek(s, base) == Dry(o, losses)
  {
    hide Parse, View, Judge, Scans;
    ScansIsSeek(s, base, o, losses);
    assert losses + [] == losses;
  }

  // ---------------------------------------------------------------- theorems

  /** Reception gets to `c` before it finds a packet or loses anything. */
  predicate Reaches(s: seq<Byte>, o: nat, c: nat)
    requires o <= |s|
    decreases |s| - o
  {
    o == c || (Errs(s, o) && Reaches(s, Past(s, o), c))
  }

  /** The buffer overflows at `c`: it is full, the parser wants more, and more arrives. */
  predicate Chokes(s: seq<Byte>, c: nat) {
    c + RXBUF_SIZE < |s| && Parse(View(s, c)).NeedMore?
  }

  lemma {:induction false} ReachesOn(s: seq<Byte>, o: nat, c: nat)
    requires o <= |s| && Errs(s, o) && Reaches(s, o, c) && o != c
    ensures Reaches(s, Past(s, o), c)
  {
  }

  /** The receiver overflows before it finds a packet exactly if it reaches a position from which 1024 bytes
      do not satisfy the parser, and a further byte arrives. */
  lemma {:induction false} LosesIff(s: seq<Byte>, o: nat)
    requires o <= |s|
    ensures Seek(s, o).losses != [] <==> exists c :: Reaches(s, o, c) && Chokes(s, c)
    ensures Seek(s, o).losses != [] ==> Reaches(s, o, Seek(s, o).losses[0]) && Chokes(s, Seek(s, o).losses[0])
    decreases |s| - o
  {
    hide Parse, View, Judge;
    SeekOn(s, o);
    if Errs(s, o) {
      LosesIff(s, Past(s, o));
      if c :| Reaches(s, o, c) && Chokes(s, c) {
        ReachesOn(s, o, c);
      }
    } else if Chokes(s, o) {
      assert Reaches(s, o, o);
    } else {
      forall c | Reaches(s, o, c) ensures !Chokes(s, c) {
        assert c == o;
      }
    }
  }

  lemma FoundIsFrame(s: seq<Byte>, o: nat)
    requires o <= |s| && Parse(View(s, o)).Found?
    ensures var r := Parse(View(s, o));
            FrameAt(s, o + Target(r), r.pkt) && Frames(s, o) == [r.pkt] + Frames(s, o + r.consumed)
  {
    hide Parse, View;
    var r := Parse(View(s, o));
    ViewParse(s, o);
    ParseIsParsed(s[o..]);
    FoundAt(s, o, r);
  }

  lemma FoundAt(s: seq<Byte>, o: nat, r: ParseResult)
    requires o <= |s| && r.Found? && Parsed(s[o..], r)
    ensures FrameAt(s, o + Target(r), r.pkt) && o + r.consumed <= |s|
    ensures Frames(s, o) == [r.pkt] + Frames(s, o + r.consumed)
  {
    ParseSkipsAt(s, o, r);
    AcceptedIsFrame(s, o + Target(r));
    FramesSkip(s, o, o + Target(r));
  }

  lemma ErrsKeepFrames(s: seq<Byte>, o: nat)
    requires o <= |s| && Errs(s, o)
    ensures Frames(s, o) == Frames(s, Past(s, o))
  {
    PastSkips(s, o);
    FramesSkip(s, o, Past(s, o));
  }

  lemma DryIsQuiet(s: seq<Byte>, o: nat)
    requires o <= |s| <= o + RXBUF_SIZE && Parse(View(s, o)).NeedMore?
    ensures Frames(s, o) == []
  {
    var r := Parse(s[o..]);
    ViewParse(s, o);
    ParseIsParsed(s[o..]);
    ParseSkipsAt(s, o, r);
    FramesSkip(s, o, o + Target(r));
  }

  /** The packet found, if there is one, stands in the stream where it is said to, and the scan from `o` finds it
      first. */
  ghost predicate IsScan(s: seq<Byte>, o: nat, f: Find)
    requires o <= |s|
  {
    if f.Frame? then FrameAt(s, f.at, f.pkt) && Frames(s, o) == [f.pkt] + Frames(s, f.at + |f.pkt.body| + 6)
    else Frames(s, o) == []
  }

  /** Without a loss the next packet is the one a leftmost scan finds, and there is none if it finds none. */
  lemma {:induction false} SeekIsScan(s: seq<Byte>, o: nat)
    requires o <= |s| && Seek(s, o).losses == []
    ensures IsScan(s, o, Seek(s, o))
    decreases |s| - o
  {
    hide Parse, View, Judge;
    SeekOn(s, o);
    if Parse(View(s, o)).Found? {
      FoundIsFrame(s, o);
    } else if Errs(s, o) {
      ErrsKeepFrames(s, o);
      SeekIsScan(s, Past(s, o));
    } else {
      DryIsQuiet(s, o);
    }
  }

  /** All packets received from `o` on, and all that is lost meanwhile. */
  function Receive(s: seq<Byte>, o: nat): seq<Packet>
    requires o <= |s|
    decreases |s| - o
  {
    var f := Seek(s, o);
    if f.Frame? then [f.pkt] + Receive(s, f.at + |f.pkt.body| + 6) else []
  }

  function Losses(s: seq<Byte>, o: nat): seq<nat>
    requires o <= |s|
    decreases |s| - o
  {
    var f := Seek(s, o);
    f.losses + if f.Frame? then Losses(s, f.at + |f.pkt.body| + 6) else []
  }

  lemma ReceiveOn(s: seq<Byte>, o: nat)
    requires o <= |s| && Seek(s, o).losses == []
    ensures var f := Seek(s, o);
            if f.Frame? then
              var next := f.at + |f.pkt.body| + 6;
              Losses(s, o) == Losses(s, next) && Receive(s, o) == [f.pkt] + Receive(s, next)
            else Losses(s, o) == [] && Receive(s, o) == []
  {
    hide Parse, View, Judge;
  }

  /** A receiver that never overflows delivers the packets of a leftmost scan of the whole stream. */
  lemma {:induction false} ReceiveIsFrames(s: seq<Byte>, o: nat)
    requires o <= |s| && Losses(s, o) == []
    ensures Receive(s, o) == Frames(s, o)
    decreases |s| - o
  {
    hide Parse, View, Judge;
    var f := Seek(s, o);
    assert f.losses == [];
    SeekIsScan(s, o);
    if f.Frame? {
      var next := f.at + |f.pkt.body| + 6;
      assert Losses(s, next) == [];
      ReceiveIsFrames(s, next);
    }
  }

  lemma {:induction false} FirstLoss(s: seq<Byte>, o: nat) returns (c: nat)
    requires o <= |s| && Seek(s, o).losses != []
    ensures o <= c && Chokes(s, c) && Frames(s, o) == Frames(s, c)
    ensures Seek(s, o) == Losing([c], Seek(s, c + RXBUF_SIZE))
    decreases |s| - o
  {
    hide Parse, View, Judge;
    SeekOn(s, o);
    if Errs(s, o) {
      ErrsKeepFrames(s, o);
      c := FirstLoss(s, Past(s, o));
    } else {
      c := o;
    }
  }

  /** Emptying the buffer at `c` is all that a loss does. */
  lemma LossOnly(s: seq<Byte>, o: nat, c: nat)
    requires o <= c && Chokes(s, c) && Seek(s, o) == Losing([c], Seek(s, c + RXBUF_SIZE))
    ensures Receive(s, o) == Receive(s, c + RXBUF_SIZE)
    ensures Losses(s, o) == [c] + Losses(s, c + RXBUF_SIZE)
  {
    hide Parse, View, Judge, Frames, Seek;
    var f := Seek(s, c + RXBUF_SIZE);
    var rest: seq<nat> := if f.Frame? then Losses(s, f.at + |f.pkt.body| + 6) else [];
    assert [c] + f.losses + rest == [c] + (f.losses + rest);
  }

  /** One that overflows delivers those of the scan up to where it first gets stuck, loses exactly the 1024
      bytes from there, and starts again behind them. */
  lemma {:induction false} ReceiveRestarts(s: seq<Byte>, o: nat) returns (pkts: seq<Packet>, c: nat)
    requires o <= |s| && Losses(s, o) != []
    ensures o <= c && Chokes(s, c) && Losses(s, o) == [c] + Losses(s, c + RXBUF_SIZE)
    ensures Frames(s, o) == pkts + Frames(s, c) && Receive(s, o) == pkts + Receive(s, c + RXBUF_SIZE)
    decreases |s| - o
  {
    hide Parse, View, Judge, Frames, Receive, Losses, Seek;
    var f := Seek(s, o);
    if f.losses == [] {
      SeekIsScan(s, o);
      ReceiveOn(s, o);
      var next := f.at + |f.pkt.body| + 6;
      pkts, c := ReceiveRestarts(s, next);
      Assoc([f.pkt], pkts, Frames(s, c));
      Assoc([f.pkt], pkts, Receive(s, c + RXBUF_SIZE));
      pkts := [f.pkt] + pkts;
    } else {
      pkts := [];
      c := FirstLoss(s, o);
      LossOnly(s, o, c);
    }
  }

  /** 775 positions in a row without so much as a header. */
  predicate Barren(s: seq<Byte>, c: nat) {
    c + 775 <= |s| && forall q :: c <= q < c + 775 ==> Judge(s, q) == NoHeader
  }

  /** A stream without so much garbage loses nothing. */
  lemma HeadersPreventLoss(s: seq<Byte>, o: nat)
    requires o <= |s| && forall c :: !Barren(s, c)
    ensures Losses(s, o) == []
  {
    if Losses(s, o) != [] {
      var pkts, c := ReceiveRestarts(s, o);
      StuckIsGarbage(s, c);
      assert Barren(s, c);
    }
  }

  /** A packet behind garbage that fills the buffer before the packet is complete is lost, though it is there. */
  lemma Drowns(s: seq<Byte>, o: nat, i: nat, p: Packet)
    requires o <= i < o + RXBUF_SIZE < i + |p.body| + 6 && FrameAt(s, i, p)
    requires forall j :: o <= j < i ==> Judge(s, j) == NoHeader
    ensures Chokes(s, o) && Receive(s, o) == Receive(s, o + RXBUF_SIZE)
    ensures Losses(s, o) == [o] + Losses(s, o + RXBUF_SIZE)
    ensures Frames(s, o) == [p] + Frames(s, i + |p.body| + 6)
  {
    hide Parse, View, Judge, Frames, Receive, Losses, Seek, FrameAt;
    FillsUp(s, o, i, p);
    SeekOn(s, o);
    LossOnly(s, o, o);
    FrameIsFirst(s, o, i, p);
  }

  lemma FrameIsFirst(s: seq<Byte>, o: nat, i: nat, p: Packet)
    requires o <= i && FrameAt(s, i, p) && forall j :: o <= j < i ==> Judge(s, j) == NoHeader
    ensures Frames(s, o) == [p] + Frames(s, i + |p.body| + 6)
  {
    FramesSkip(s, o, i);
    FrameIsAccepted(s, i, p);
  }

  lemma FillsUp(s: seq<Byte>, o: nat, i: nat, p: Packet)
    requires o <= i < o + RXBUF_SIZE < i + |p.body| + 6 && FrameAt(s, i, p)
    requires forall j :: o <= j < i ==> Judge(s, j) == NoHeader
    ensures Chokes(s, o)
  {
    var v := View(s, o);
    FrameIsAccepted(s, i, p);
    assert Judge(v, i - o) == Wait;
    forall j | 0 <= j < i - o ensures Judge(v, j) == NoHeader {
      assert Judge(s, o + j) == NoHeader;
    }
    StartUnique(v, i - o);
  }

  function Zeros(n: nat): seq<Byte> {
    seq(n, _ => 0)
  }

  /** A packet of 30 bytes behind 1000 bytes of noise. */
  function Noisy(p: Packet): seq<Byte>
    requires Readable(p)
  {
    Zeros(1000) + Encode(p)
  }

  /** The packet is lost, and nothing is found. */
  lemma NoiseDrowns(p: Packet)
    requires p.id != 0xFF && p.body == Zeros(24)
    ensures |Noisy(p)| == 1030 && FrameAt(Noisy(p), 1000, p) && Seek(Noisy(p), 0) == Dry(RXBUF_SIZE, [0])
  {
    hide Seek, Parse;
    var s := Noisy(p);
    FillsUp(s, 0, 1000, p);
    SeekOn(s, 0);
    assert forall j :: 1024 <= j < 1029 ==> s[j] == Header(p)[j - 1002] == 0;
    QuietTail(s);
  }

  lemma QuietTail(s: seq<Byte>)
    requires |s| == 1030 && forall j :: 1024 <= j < 1029 ==> s[j] == 0
    ensures Seek(s, 1024) == Dry(1024, [])
  {
    var v := View(s, 1024);
    var p := Start(v, 0);
    assert v == s[1024..];
    assert Judge(v, p) == Wait;
  }

  // --------------------------------------------------------- call after call

  /** Reception from `from` has delivered `pkts` and lost `losses` when it gets to `o`. */
  ghost predicate Onward(s: seq<Byte>, from: nat, pkts: seq<Packet>, losses: seq<nat>, o: nat) {
    && from <= |s| && o <= |s|
    && Receive(s, from) == pkts + Receive(s, o) && Losses(s, from) == losses + Losses(s, o)
  }

  lemma OnwardStart(s: seq<Byte>, from: nat)
    requires from <= |s|
    ensures Onward(s, from, [], [], from)
  {
    hide Receive, Losses;
    assert [] + Receive(s, from) == Receive(s, from);
    assert [] + Losses(s, from) == Losses(s, from);
  }

  lemma OnwardFrame(s: seq<Byte>, from: nat, pkts: seq<Packet>, losses: seq<nat>, o: nat, f: Find)
    requires Onward(s, from, pkts, losses, o) && Seek(s, o) == f && f.Frame?
    ensures Onward(s, from, pkts + [f.pkt], losses + f.losses, f.at + |f.pkt.body| + 6)
  {
    hide Parse, View, Seek;
    var next := f.at + |f.pkt.body| + 6;
    Assoc(pkts, [f.pkt], Receive(s, next));
    Assoc(losses, f.losses, Losses(s, next));
  }

  lemma OnwardNone(s: seq<Byte>, from: nat, pkts: seq<Packet>, losses: seq<nat>, o: nat, more: seq<nat>, o': nat)
    requires Onward(s, from, pkts, losses, o) && o' <= |s| && Seek(s, o) == Losing(more, Seek(s, o'))
    ensures Onward(s, from, pkts, losses + more, o')
  {
    hide Parse, View, Seek;
    var f := Seek(s, o');
    var rest: seq<nat> := if f.Frame? then Losses(s, f.at + |f.pkt.body| + 6) else [];
    Assoc(more, f.losses, rest);
    Assoc(losses, more, Losses(s, o'));
  }

  lemma OnwardDry(s: seq<Byte>, from: nat, pkts: seq<Packet>, losses: seq<nat>, o: nat, f: Find)
    requires Onward(s, from, pkts, losses, o) && Seek(s, o) == f && f.Dry?
    ensures pkts == Receive(s, from) && losses + f.losses == Losses(s, from)
  {
    hide Parse, View, Seek;
    assert pkts + [] == pkts && f.losses + [] == f.losses;
  }
}
