/** Two loops that watch the snapshots go by: the recorder, and the daemon's own watchdog. */
module Recorder {
  import opened Bytes
  import opened Seqlock

  /** What the recorder finds when it looks: the daemon gone, no consistent snapshot, or one. */
  datatype Poll = Gone | Torn | Got(cycle: nat, t: int)

  /** The cycle of the last snapshot found in the first `n` polls, 0 before there is one. */
  function LastGot(polls: seq<Poll>, n: nat): nat
    requires n <= |polls|
  {
    if n == 0 then 0 else if polls[n - 1].Got? then polls[n - 1].cycle else LastGot(polls, n - 1)
  }

  /** Each cycle found in them, once. */
  function Distinct(polls: seq<Poll>, n: nat): seq<nat>
    requires n <= |polls|
  {
    if n == 0 then []
    else if polls[n - 1].Got? && polls[n - 1].cycle != LastGot(polls, n - 1) then
      Distinct(polls, n - 1) + [polls[n - 1].cycle]
    else Distinct(polls, n - 1)
  }

  /** Successive snapshots never go back. */
  predicate Forward(polls: seq<Poll>) {
    forall i, j :: 0 <= i < j < |polls| && polls[i].Got? && polls[j].Got? ==> polls[i].cycle <= polls[j].cycle
  }

  predicate Increasing(rows: seq<nat>) {
    forall i, j :: 0 <= i < j < |rows| ==> rows[i] < rows[j]
  }

  /** The cycles skipped from one row to the next. */
  function Gaps(rows: seq<nat>): nat {
    if |rows| < 2 then 0
    else
      var n := |rows| - 1;
      Gaps(rows[..n]) + if rows[n] > rows[n - 1] + 1 then rows[n] - rows[n - 1] - 1 else 0
  }

  /** Rows and gaps make up the cycles from the first row to the last. */
  lemma {:induction false} GapsAccount(rows: seq<nat>)
    requires Increasing(rows) && rows != []
    ensures |rows| + Gaps(rows) == rows[|rows| - 1] - rows[0] + 1
  {
    if |rows| > 1 {
      GapsAccount(rows[..|rows| - 1]);
    }
  }

  lemma {:induction false} LastGotBelow(polls: seq<Poll>, n: nat)
    requires n < |polls| && Forward(polls) && polls[n].Got?
    ensures forall k :: 0 <= k <= n ==> LastGot(polls, k) <= polls[n].cycle
  {
    var k := 0;
    while k < n
      invariant k <= n && forall i :: 0 <= i <= k ==> LastGot(polls, i) <= polls[n].cycle
    {
      k := k + 1;
    }
  }

  /** The rows end with the last cycle found, and begin with one that is not 0. */
  lemma {:induction false} DistinctEnds(polls: seq<Poll>, n: nat)
    requires n <= |polls|
    ensures var rows := Distinct(polls, n);
            if rows == [] then LastGot(polls, n) == 0 else rows[|rows| - 1] == LastGot(polls, n) && rows[0] > 0
  {
    if n > 0 {
      DistinctEnds(polls, n - 1);
    }
  }

  /** Nothing found is left out. */
  lemma {:induction false} DistinctIsComplete(polls: seq<Poll>, n: nat, k: nat)
    requires k < n <= |polls| && polls[k].Got? && polls[k].cycle > 0
    ensures polls[k].cycle in Distinct(polls, n)
  {
    if k < n - 1 {
      DistinctIsComplete(polls, n - 1, k);
    } else {
      DistinctEnds(polls, n - 1);
    }
  }

  /** Of snapshots that never go back each cycle is one row, in increasing order. */
  lemma {:induction false} DistinctIncreases(polls: seq<Poll>, n: nat)
    requires n <= |polls| && Forward(polls)
    ensures Increasing(Distinct(polls, n))
  {
    if n > 0 {
      DistinctIncreases(polls, n - 1);
      DistinctEnds(polls, n - 1);
      if polls[n - 1].Got? {
        LastGotBelow(polls, n - 1);
      }
    }
  }

  /** Nothing found is left out, and snapshots that never go back are accounted for. */
  lemma RowsAccount(polls: seq<Poll>, n: nat)
    requires n <= |polls|
    ensures var rows := Distinct(polls, n);
            && (forall k :: 0 <= k < n && polls[k].Got? && polls[k].cycle > 0 ==> polls[k].cycle in rows)
            && (Forward(polls) ==>
                  Increasing(rows) && (rows != [] ==> |rows| + Gaps(rows) == rows[|rows| - 1] - rows[0] + 1))
  {
    hide Distinct, Gaps, Forward, Increasing;
    var rows := Distinct(polls, n);
    forall k | 0 <= k < n && polls[k].Got? && polls[k].cycle > 0 ensures polls[k].cycle in rows {
      DistinctIsComplete(polls, n, k);
    }
    if Forward(polls) {
      DistinctIncreases(polls, n);
      if rows != [] {
        GapsAccount(rows);
      }
    }
  }

  lemma GapsNone()
    ensures Gaps([]) == 0
  {
  }

  lemma GapsMore(rows: seq<nat>, cycle: nat)
    ensures rows == [] ==> Gaps(rows + [cycle]) == 0
    ensures rows != [] ==>
              Gaps(rows + [cycle]) ==
              Gaps(rows) + if cycle > rows[|rows| - 1] + 1 then cycle - rows[|rows| - 1] - 1 else 0
  {
    assert (rows + [cycle])[..|rows|] == rows;
  }

  /** Records each new cycle until the daemon is gone, `duration` has passed, or the polls end; counts the
      cycles it has missed. */
  method Log(polls: seq<Poll>, duration: int) returns (rows: seq<nat>, first: nat, last: nat, missed: int, seen: nat)
    ensures seen <= |polls| && rows == Distinct(polls, seen) && missed == Gaps(rows)
    ensures if rows == [] then first == last == 0 else 0 < first == rows[0] && last == rows[|rows| - 1]
    ensures forall k :: 0 <= k < seen && polls[k].Got? && polls[k].cycle > 0 ==> polls[k].cycle in rows
    ensures Forward(polls) ==> Increasing(rows) && (rows != [] ==> |rows| + missed == last - first + 1)
    ensures seen < |polls| ==> polls[seen].Gone? || duration > 0
  {
    hide Gaps, Forward, Increasing;
    GapsNone();
    rows, first, last, missed, seen := [], 0, 0, 0, 0;
    var t0 := 0;
    while seen < |polls|
      invariant seen <= |polls| && rows == Distinct(polls, seen) && missed == Gaps(rows)
      invariant last == LastGot(polls, seen) && first == if rows == [] then 0 else rows[0]
    {
      var p := polls[seen];
      if p.Gone? {
        break;
      }
      DistinctEnds(polls, seen);
      seen := seen + 1;
      if p.Got? && p.cycle != last {
        if first == 0 {
          first := p.cycle;
          t0 := p.t;
        } else if p.cycle > last + 1 {
          missed := missed + (p.cycle - last - 1);
        }
        last := p.cycle;
        GapsMore(rows, p.cycle);
        rows := rows + [p.cycle];
        if duration > 0 && p.t - t0 >= duration {
          break;
        }
      }
    }
    DistinctEnds(polls, seen);
    RowsAccount(polls, seen);
  }

  // -------------------------------------------- the recorder's own snapshots

  predicate Ends(s: State, a: Action, r: nat)
    requires Enabled(s, a)
  {
    a == LoadSecond(r) && r < |s.readers| && !Apply(s, a).readers[r].Trying?
  }

  /** What reader `r` finds in a run: the first word of a snapshot is its cycle. */
  function Found(s: State, run: seq<Action>, r: nat): seq<Poll>
    requires Runs(s, run)
    decreases |run|
  {
    if run == [] then []
    else
      var t := Apply(s, run[0]);
      (if Ends(s, run[0], r) then [PollOf(t.readers[r])] else []) + Found(t, run[1..], r)
  }

  function PollOf(x: Reader): Poll {
    if x.Accepted? && x.dst != [] && x.dst[0] >= 0 then Got(x.dst[0], if |x.dst| > 1 then x.dst[1] else 0) else Torn
  }

  /** Fewer than 2^31 publications fall into each attempt that reader `r` accepts. */
  predicate Brisk(s: State, run: seq<Action>, r: nat)
    requires Runs(s, run)
    decreases |run|
  {
    run == [] || (
      var t := Apply(s, run[0]);
      && (Ends(s, run[0], r) && t.readers[r].Accepted? ==> t.readers[r].t2 - t.readers[r].t1 < U32_SIZE)
      && Brisk(t, run[1..], r))
  }

  /** Reader `r` is not going to find anything older than `low`. */
  ghost predicate NotBefore(s: State, r: nat, low: nat) {
    && low <= s.ticks / 2
    && (r < |s.readers| ==>
          var x := s.readers[r];
          (x.Trying? ==> low <= x.begin / 2) && (x.Reading? ==> low <= x.begin / 2))
  }

  /** A read that is accepted finds the number of its sample. */
  lemma AcceptedCycle(s: State, a: Action, r: nat, low: nat)
    requires Inv(s) && Numbered(s) && Enabled(s, a) && NotBefore(s, r, low) && Ends(s, a, r)
    requires var x := Apply(s, a).readers[r]; x.Accepted? && x.t2 - x.t1 < U32_SIZE
    ensures var t := Apply(s, a); var p := PollOf(t.readers[r]);
            p.Got? && low <= p.cycle && NotBefore(t, r, p.cycle)
  {
    StepKeepsInv(s, a);
    var t := Apply(s, a);
    var x := t.readers[r];
    assert ReaderInv(x, |t.mem|, t.ticks, t.hist);
    assert x.dst == t.hist[x.t1 / 2];
  }

  /** What one reader finds never goes back, in every run. */
  lemma {:induction false} FoundGoesForward(s: State, run: seq<Action>, r: nat, low: nat)
    requires Inv(s) && Numbered(s) && Runs(s, run) && NumberedRun(s, run) && Brisk(s, run, r) && NotBefore(s, r, low)
    ensures Forward(Found(s, run, r))
    ensures forall k :: 0 <= k < |Found(s, run, r)| && Found(s, run, r)[k].Got? ==> low <= Found(s, run, r)[k].cycle
    decreases |run|
  {
    hide Inv, Numbered;
    if run != [] {
      var t := Apply(s, run[0]);
      StepKeepsInv(s, run[0]);
      NumbersGoOn(s, run);
      var next := low;
      if Ends(s, run[0], r) && t.readers[r].Accepted? {
        AcceptedCycle(s, run[0], r, low);
        next := PollOf(t.readers[r]).cycle;
      }
      FoundGoesForward(t, run[1..], r, next);
    }
  }

  lemma NumbersGoOn(s: State, run: seq<Action>)
    requires Inv(s) && Numbered(s) && Runs(s, run) && NumberedRun(s, run) && run != []
    ensures Numbered(Apply(s, run[0]))
  {
    var first := [run[0]];
    assert first[1..] == [];
    assert Runs(Apply(s, run[0]), []) && Runs(s, first) && NumberedRun(s, first);
    RunKeepsNumbers(s, first);
  }

  /** Of two accepted reads of one reader, the later one has the same cycle or a later one. */
  lemma LaterReadLaterCycle(s: State, run: seq<Action>, r: nat)
    requires Inv(s) && Numbered(s) && Runs(s, run) && NumberedRun(s, run) && r < |s.readers|
    requires s.readers[r].Accepted? && s.readers[r].t2 - s.readers[r].t1 < U32_SIZE
    requires r < |After(s, run).readers| && After(s, run).readers[r].Accepted?
    requires After(s, run).readers[r].t2 - After(s, run).readers[r].t1 < U32_SIZE
    ensures var x, y := s.readers[r], After(s, run).readers[r];
            x.dst != [] && y.dst != [] && x.dst[0] <= y.dst[0]
  {
    RunKeepsInv(s, run);
    RunKeepsNumbers(s, run);
    ReadsNeverGoBack(s, run, r);
    var x, y := s.readers[r], After(s, run).readers[r];
    assert x.dst == s.hist[x.t1 / 2];
    assert y.dst == After(s, run).hist[y.t1 / 2];
  }

  /** So a recorder's rows and the cycles it has missed account for every cycle from the first to the last. */
  lemma RecorderAccounts(s: State, run: seq<Action>, r: nat)
    requires Inv(s) && Numbered(s) && Runs(s, run) && NumberedRun(s, run) && Brisk(s, run, r)
    ensures var polls := Found(s, run, r);
            var rows := Distinct(polls, |polls|);
            Increasing(rows) && (rows != [] ==> |rows| + Gaps(rows) == rows[|rows| - 1] - rows[0] + 1)
  {
    var polls := Found(s, run, r);
    FoundGoesForward(s, run, r, 0);
    RowsAccount(polls, |polls|);
  }

  // --------------------------------------------------------------- watchdog

  /** What the daemon's main thread finds: a signal to stop, no consistent snapshot, or both counters. */
  datatype Check = Stop | Failed | Counters(cycle: nat, beat: nat)

  /** The counters at the last check that found any. */
  function Before(checks: seq<Check>): (nat, nat) {
    if checks == [] then (0, 0)
    else if checks[|checks| - 1].Counters? then (checks[|checks| - 1].cycle, checks[|checks| - 1].beat)
    else Before(checks[..|checks| - 1])
  }

  /** Control loop and supervisor have both moved on since then. */
  predicate Alive(checks: seq<Check>, k: nat)
    requires k < |checks|
  {
    checks[k].Counters? && checks[k].cycle != Before(checks[..k]).0 && checks[k].beat != Before(checks[..k]).1
  }

  /** Pings the service manager at exactly the checks that find both threads alive. */
  method Watch(checks: seq<Check>) returns (pings: seq<bool>, healthy: bool)
    ensures |pings| <= |checks| && (|pings| < |checks| ==> checks[|pings|].Stop?)
    ensures forall k :: 0 <= k < |pings| ==> !checks[k].Stop? && (pings[k] <==> Alive(checks, k))
    ensures forall k :: 0 <= k < |pings| && checks[k].Counters? && (forall i :: k < i < |pings| ==> checks[i].Failed?) ==>
              healthy == pings[k]
  {
    pings, healthy := [], true;
    var lastCycle, lastBeat := 0, 0;
    for k := 0 to |checks|
      invariant |pings| == k && (lastCycle, lastBeat) == Before(checks[..k])
      invariant forall i :: 0 <= i < k ==> !checks[i].Stop? && (pings[i] <==> Alive(checks, i))
      invariant forall j :: 0 <= j < k && checks[j].Counters? && (forall i :: j < i < k ==> checks[i].Failed?) ==>
                  healthy == pings[j]
    {
      if checks[k].Stop? {
        return;
      }
      assert checks[..k + 1][..k] == checks[..k];
      if checks[k].Failed? {
        pings := pings + [false];
        continue;
      }
      var alive := checks[k].cycle != lastCycle && checks[k].beat != lastBeat;
      lastCycle, lastBeat := checks[k].cycle, checks[k].beat;
      healthy := alive;
      pings := pings + [alive];
    }
  }
}
