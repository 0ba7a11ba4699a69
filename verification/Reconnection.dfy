/** How the control thread counts failed reads of a bus and decides when to open it again. */
module Reconnection {
  import opened Bytes

  /** A bus is opened again after this many failed cycles, and not sooner after the last attempt. */
  const REOPEN_AFTER := 50

  /** The consecutive failures so far, and the first cycle at which the bus may be opened again. */
  datatype Link = Link(streak: U16, retry: nat)

  function Streak(k: Link, ok: bool): U16 {
    if ok then 0 else if k.streak < 0xFFFF then k.streak + 1 else k.streak
  }

  predicate Reopens(k: Link, ok: bool, cycle: nat) {
    Streak(k, ok) >= REOPEN_AFTER && cycle >= k.retry
  }

  function Next(k: Link, ok: bool, cycle: nat): Link {
    Link(Streak(k, ok), if Reopens(k, ok, cycle) then cycle + REOPEN_AFTER else k.retry)
  }

  /** The link after these cycles, numbered from 1. */
  function Linked(oks: seq<bool>): Link {
    if oks == [] then Link(0, 0) else Next(Linked(oks[..|oks| - 1]), oks[|oks| - 1], |oks|)
  }

  /** Is the bus opened again in cycle `n`? */
  predicate ReopensAt(oks: seq<bool>, n: nat)
    requires 1 <= n <= |oks|
  {
    Reopens(Linked(oks[..n - 1]), oks[n - 1], n)
  }

  /** The failures at the end of a history. */
  function Failures(oks: seq<bool>): nat {
    if oks == [] || oks[|oks| - 1] then 0 else Failures(oks[..|oks| - 1]) + 1
  }

  /** That many cycles at the end have failed, and the one before them, if there is one, has not. */
  lemma {:induction false} FailuresIsSuffix(oks: seq<bool>)
    ensures Failures(oks) <= |oks|
    ensures forall k :: |oks| - Failures(oks) <= k < |oks| ==> !oks[k]
    ensures Failures(oks) < |oks| ==> oks[|oks| - Failures(oks) - 1]
  {
    if oks != [] && !oks[|oks| - 1] {
      FailuresIsSuffix(oks[..|oks| - 1]);
    }
  }

  /** The streak is the number of consecutive failures, saturated. */
  lemma {:induction false} StreakCountsFailures(oks: seq<bool>)
    ensures Linked(oks).streak == if Failures(oks) > 0xFFFF then 0xFFFF else Failures(oks)
  {
    if oks != [] {
      StreakCountsFailures(oks[..|oks| - 1]);
    }
  }

  /** After an attempt in cycle `m` the next one has to wait. */
  lemma {:induction false} RetryIsLate(oks: seq<bool>, m: nat)
    requires 1 <= m <= |oks| && ReopensAt(oks, m)
    ensures Linked(oks).retry >= m + REOPEN_AFTER
  {
    var front := oks[..|oks| - 1];
    if m < |oks| {
      assert oks[..m - 1] == front[..m - 1];
      RetryIsLate(front, m);
    } else {
      assert oks[..m - 1] == front;
    }
  }

  /** An attempt is made only after 50 failed cycles in a row, and at least 50 cycles after the last one. */
  lemma AttemptsAreApart(oks: seq<bool>, m: nat, n: nat)
    requires 1 <= m < n <= |oks| && ReopensAt(oks, m) && ReopensAt(oks, n)
    ensures n >= m + REOPEN_AFTER
    ensures n >= REOPEN_AFTER && forall k :: n - REOPEN_AFTER <= k < n ==> !oks[k]
  {
    var before, now := oks[..n - 1], oks[..n];
    assert oks[..m - 1] == before[..m - 1];
    RetryIsLate(before, m);
    assert now[..n - 1] == before;
    StreakCountsFailures(now);
    FailuresIsSuffix(now);
  }

  /** And as long as the bus fails there has been one in the last 50 cycles. */
  lemma {:induction false} AttemptsGoOn(oks: seq<bool>) returns (m: nat)
    requires Failures(oks) >= REOPEN_AFTER
    ensures |oks| - REOPEN_AFTER < m && 1 <= m <= |oks| && ReopensAt(oks, m)
    ensures Linked(oks).retry == m + REOPEN_AFTER
  {
    var n := |oks|;
    var front := oks[..n - 1];
    StreakCountsFailures(oks);
    StreakCountsFailures(front);
    if ReopensAt(oks, n) {
      m := n;
    } else {
      m := RetryIsAttempt(front);
      assert oks[..m - 1] == front[..m - 1];
    }
  }

  /** The retry cycle is 50 cycles after the last attempt, or 0 if there has been none. */
  lemma {:induction false} RetryIsAttempt(oks: seq<bool>) returns (m: nat)
    ensures if Linked(oks).retry == 0 then m == 0
            else 1 <= m <= |oks| && ReopensAt(oks, m) && Linked(oks).retry == m + REOPEN_AFTER
  {
    if oks == [] {
      return 0;
    }
    var n := |oks|;
    var front := oks[..n - 1];
    if ReopensAt(oks, n) {
      m := n;
    } else {
      m := RetryIsAttempt(front);
      if m > 0 {
        assert oks[..m - 1] == front[..m - 1];
      }
    }
  }
}
