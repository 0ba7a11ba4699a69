/** The mapping between raw ticks and normalised joint positions. Float arithmetic is real arithmetic
    with a rounding after each operation. */
module Calibration {

  /** Half a unit in the last place of a normal single-precision number, relative to the number. */
  const EPS: real := 1.0 / 16777216.0

  /** Half the smallest subnormal number, 2^-150. */
  const TINY: real := 1.0 / 1427247692705959881058285969449495136382746624.0

  function Abs(x: real): real {
    if x < 0.0 then -x else x
  }

  predicate Keeps(rnd: real -> real, n: int) {
    rnd(n as real) == n as real
  }

  predicate Rounded(rnd: real -> real, x: real) {
    Abs(rnd(x) - x) <= Abs(x) * EPS + TINY
  }

  /** What is assumed of the rounding: it keeps order, does not touch integers of up to 24 bits, and of numbers up to
      2^24 it is off by at most one part in 2^24 or, where numbers are subnormal, half the distance between two of them
      (round to nearest, section 4.3.1 of IEEE 754-2008). */
  ghost predicate Rounds(rnd: real -> real) {
    && (forall x, y :: x <= y ==> rnd(x) <= rnd(y))
    && (forall n: int :: -16777216 <= n <= 16777216 ==> Keeps(rnd, n))
    && (forall x :: -16777216.0 <= x <= 16777216.0 ==> Rounded(rnd, x))
  }

  datatype Joint = Joint(rangeMin: int, rangeMax: int, driveMode: bool, isGripper: bool)

  /** The range of a 12-bit encoder. */
  predicate Encoder(j: Joint) {
    0 <= j.rangeMin < j.rangeMax <= 4095
  }

  function Clamp(x: real, lo: real, hi: real): real {
    var y := if x < lo then lo else x;
    if y > hi then hi else y
  }

  /** The width of a joint's range. */
  function Span(rnd: real -> real, j: Joint): real {
    rnd(rnd(j.rangeMax as real) - rnd(j.rangeMin as real))
  }

  /** Where in its range a joint is, 0 to 1. A calibrated joint has a range to divide by. */
  function Fraction(rnd: real -> real, j: Joint, raw: int): real {
    var lo, hi := rnd(j.rangeMin as real), rnd(j.rangeMax as real);
    var v := Clamp(rnd(raw as real), lo, hi);
    if Span(rnd, j) == 0.0 then 0.0 else rnd(rnd(v - lo) / Span(rnd, j))
  }

  function FromFraction(rnd: real -> real, j: Joint, u: real): real {
    if j.isGripper then
      var n := rnd(u * 100.0);
      if j.driveMode then rnd(100.0 - n) else n
    else
      var n := rnd(rnd(u * 200.0) - 100.0);
      if j.driveMode then -n else n
  }

  function Normalize(rnd: real -> real, j: Joint, raw: int): real {
    FromFraction(rnd, j, Fraction(rnd, j, raw))
  }

  function ToFraction(rnd: real -> real, j: Joint, norm: real): real {
    if j.isGripper then
      var n := if j.driveMode then rnd(100.0 - norm) else norm;
      rnd(Clamp(n, 0.0, 100.0) / 100.0)
    else
      var n := if j.driveMode then -norm else norm;
      rnd(rnd(Clamp(n, -100.0, 100.0) + 100.0) / 200.0)
  }

  function Scaled(x: real, y: real): real {
    x * y
  }

  function ToTicks(rnd: real -> real, j: Joint, u: real): real {
    rnd(rnd(Scaled(u, rnd((j.rangeMax - j.rangeMin) as real))) + rnd(j.rangeMin as real))
  }

  /** C's conversion to an integer drops the fraction. */
  function Trunc(x: real): int {
    if x < 0.0 then -((-x).Floor) else x.Floor
  }

  function Unnormalize(rnd: real -> real, j: Joint, norm: real): int {
    Trunc(ToTicks(rnd, j, ToFraction(rnd, j, norm)))
  }

  lemma SpanIsExact(rnd: real -> real, j: Joint)
    requires Rounds(rnd) && Encoder(j)
    ensures rnd(j.rangeMin as real) == j.rangeMin as real && rnd(j.rangeMax as real) == j.rangeMax as real
    ensures Span(rnd, j) == (j.rangeMax - j.rangeMin) as real
    ensures rnd((j.rangeMax - j.rangeMin) as real) == (j.rangeMax - j.rangeMin) as real
  {
    assert Keeps(rnd, j.rangeMin) && Keeps(rnd, j.rangeMax) && Keeps(rnd, j.rangeMax - j.rangeMin);
    assert j.rangeMax as real - j.rangeMin as real == (j.rangeMax - j.rangeMin) as real;
  }

  /** Where the follower should go when the leader's joint is at `raw`. */
  function Follow(rnd: real -> real, leader: Joint, follower: Joint, raw: int): int {
    Unnormalize(rnd, follower, Normalize(rnd, leader, raw))
  }

  // -------------------------------------------------- one operation at a time

  lemma RoundsWithin(rnd: real -> real, x: real, lo: int, hi: int)
    requires Rounds(rnd) && -16777216 <= lo <= hi <= 16777216 && lo as real <= x <= hi as real
    ensures lo as real <= rnd(x) <= hi as real
  {
    assert Keeps(rnd, lo) && Keeps(rnd, hi);
  }

  lemma Error(rnd: real -> real, x: real, m: real)
    requires Rounds(rnd) && -m <= x <= m <= 16777216.0
    ensures -(m * EPS + TINY) <= rnd(x) - x <= m * EPS + TINY
  {
    assert Rounded(rnd, x);
    assert Abs(x) * EPS <= m * EPS;
  }

  /** Where the clamped position is, counted from the start of the range. */
  function Offset(j: Joint, raw: int): (k: int)
    requires Encoder(j)
    ensures 0 <= k <= j.rangeMax - j.rangeMin
  {
    if raw < j.rangeMin then 0 else if raw > j.rangeMax then j.rangeMax - j.rangeMin else raw - j.rangeMin
  }

  /** The clamp and the differences are exact: only the division rounds. */
  lemma FractionIsQuotient(rnd: real -> real, j: Joint, raw: int)
    requires Rounds(rnd) && Encoder(j)
    ensures Fraction(rnd, j, raw) == rnd(Offset(j, raw) as real / (j.rangeMax - j.rangeMin) as real)
  {
    SpanIsExact(rnd, j);
    var lo, hi, v := j.rangeMin as real, j.rangeMax as real, rnd(raw as real);
    var c := j.rangeMin + Offset(j, raw);
    assert Clamp(v, lo, hi) == c as real by {
      assert raw <= j.rangeMin ==> v <= lo;
      assert raw >= j.rangeMax ==> v >= hi;
      if j.rangeMin <= raw <= j.rangeMax {
        assert Keeps(rnd, raw);
      }
    }
    assert Keeps(rnd, Offset(j, raw));
    assert c as real - lo == Offset(j, raw) as real;
  }

  lemma Quotient(k: int, k': int, d: int)
    requires 0 <= k <= k' <= d && d > 0
    ensures 0.0 <= k as real / d as real <= k' as real / d as real <= 1.0
    ensures k == 0 ==> k as real / d as real == 0.0
    ensures k == d ==> k as real / d as real == 1.0
    ensures (k as real / d as real) * d as real == k as real
  {
  }

  /** The fraction grows with the position, from exactly 0 to exactly 1. */
  lemma FractionGrows(rnd: real -> real, j: Joint, raw: int, raw': int)
    requires Rounds(rnd) && Encoder(j) && raw <= raw'
    ensures 0.0 <= Fraction(rnd, j, raw) <= Fraction(rnd, j, raw') <= 1.0
    ensures raw <= j.rangeMin ==> Fraction(rnd, j, raw) == 0.0
    ensures raw' >= j.rangeMax ==> Fraction(rnd, j, raw') == 1.0
  {
    FractionIsQuotient(rnd, j, raw);
    FractionIsQuotient(rnd, j, raw');
    Quotient(Offset(j, raw), Offset(j, raw'), j.rangeMax - j.rangeMin);
    Quotient(Offset(j, raw'), Offset(j, raw'), j.rangeMax - j.rangeMin);
    RoundsWithin(rnd, Offset(j, raw) as real / (j.rangeMax - j.rangeMin) as real, 0, 1);
    RoundsWithin(rnd, Offset(j, raw') as real / (j.rangeMax - j.rangeMin) as real, 0, 1);
    assert Keeps(rnd, 0) && Keeps(rnd, 1);
  }

  /** Half-way through: the normalised position grows, or falls if the drive is reversed, with the
      fraction, and the ends are exact. */
  lemma NormGrows(rnd: real -> real, j: Joint, u: real, u': real)
    requires Rounds(rnd) && 0.0 <= u <= u' <= 1.0
    ensures var n, n' := FromFraction(rnd, j, u), FromFraction(rnd, j, u');
            && (if j.driveMode then n' <= n else n <= n')
            && (if j.isGripper then 0.0 else -100.0) <= n <= 100.0
            && (if j.isGripper then 0.0 else -100.0) <= n' <= 100.0
            && (u == 0.0 ==> n == if j.driveMode then 100.0 else if j.isGripper then 0.0 else -100.0)
            && (u' == 1.0 ==> n' == if j.driveMode then if j.isGripper then 0.0 else -100.0 else 100.0)
  {
    assert Keeps(rnd, 0) && Keeps(rnd, 100) && Keeps(rnd, 200) && Keeps(rnd, -100);
  }

  lemma FractionBack(rnd: real -> real, j: Joint, norm: real, norm': real)
    requires Rounds(rnd) && norm <= norm'
    ensures var u, u' := ToFraction(rnd, j, norm), ToFraction(rnd, j, norm');
            && (if j.driveMode then u' <= u else u <= u')
            && 0.0 <= u <= 1.0 && 0.0 <= u' <= 1.0
            && (norm == (if j.isGripper then 0.0 else -100.0) ==> u == if j.driveMode then 1.0 else 0.0)
            && (norm' == 100.0 ==> u' == if j.driveMode then 0.0 else 1.0)
  {
    assert Keeps(rnd, 0) && Keeps(rnd, 1) && Keeps(rnd, 100) && Keeps(rnd, 200);
  }

  /** The product, by repeated addition. */
  function Along(u: real, d: nat): real {
    if d == 0 then 0.0 else Along(u, d - 1) + u
  }

  lemma {:induction false} AlongIsProduct(u: real, d: nat)
    ensures Along(u, d) == Scaled(u, d as real)
  {
    if d > 0 {
      AlongIsProduct(u, d - 1);
    }
  }

  lemma {:induction false} AlongGrows(u: real, u': real, d: nat)
    requires 0.0 <= u <= u' <= 1.0
    ensures 0.0 <= Along(u, d) <= Along(u', d) <= d as real
    ensures u == 0.0 ==> Along(u, d) == 0.0
    ensures u' == 1.0 ==> Along(u', d) == d as real
  {
    if d > 0 {
      AlongGrows(u, u', d - 1);
    }
  }

  /** An error in the fraction, in ticks. */
  lemma {:induction false} AlongErrs(x: real, y: real, d: nat, c: real)
    requires -c <= x - y <= c
    ensures -(d as real * c) <= Along(x, d) - Along(y, d) <= d as real * c
  {
    if d > 0 {
      AlongErrs(x, y, d - 1, c);
      assert d as real * c == (d - 1) as real * c + c;
    }
  }

  /** From an offset along the range to ticks. */
  function Ticks(rnd: real -> real, x: real, lo: int): real {
    rnd(rnd(x) + lo as real)
  }

  lemma TicksGrowWith(rnd: real -> real, x: real, x': real, lo: int, hi: int)
    requires Rounds(rnd) && 0 <= lo <= hi <= 4095 && 0.0 <= x <= x' <= (hi - lo) as real
    ensures lo as real <= Ticks(rnd, x, lo) <= Ticks(rnd, x', lo) <= hi as real
    ensures x == 0.0 ==> Ticks(rnd, x, lo) == lo as real
    ensures x' == (hi - lo) as real ==> Ticks(rnd, x', lo) == hi as real
  {
    assert rnd(x) <= rnd(x');
    RoundsWithin(rnd, x, 0, hi - lo);
    RoundsWithin(rnd, x', 0, hi - lo);
    assert Keeps(rnd, 0) && Keeps(rnd, hi - lo) && Keeps(rnd, lo) && Keeps(rnd, hi);
    RoundsWithin(rnd, rnd(x) + lo as real, lo, hi);
    RoundsWithin(rnd, rnd(x') + lo as real, lo, hi);
  }

  lemma TicksError(rnd: real -> real, x: real, lo: int, hi: int)
    requires Rounds(rnd) && 0 <= lo <= hi <= 4095 && 0.0 <= x <= (hi - lo) as real
    ensures -8191.0 * EPS <= Ticks(rnd, x, lo) - (x + lo as real) <= 8191.0 * EPS
  {
    RoundsWithin(rnd, x, 0, hi - lo);
    Error(rnd, x, 4095.0);
    Error(rnd, rnd(x) + lo as real, 4095.0);
  }

  lemma TicksAlong(rnd: real -> real, j: Joint, u: real)
    requires Rounds(rnd) && Encoder(j)
    ensures ToTicks(rnd, j, u) == Ticks(rnd, Along(u, j.rangeMax - j.rangeMin), j.rangeMin)
  {
    SpanIsExact(rnd, j);
    AlongIsProduct(u, j.rangeMax - j.rangeMin);
  }

  lemma TicksGrow(rnd: real -> real, j: Joint, u: real, u': real)
    requires Rounds(rnd) && Encoder(j) && 0.0 <= u <= u' <= 1.0
    ensures j.rangeMin as real <= ToTicks(rnd, j, u) <= ToTicks(rnd, j, u') <= j.rangeMax as real
    ensures u == 0.0 ==> ToTicks(rnd, j, u) == j.rangeMin as real
    ensures u' == 1.0 ==> ToTicks(rnd, j, u') == j.rangeMax as real
  {
    var d := j.rangeMax - j.rangeMin;
    TicksAlong(rnd, j, u);
    TicksAlong(rnd, j, u');
    AlongGrows(u, u', d);
    TicksGrowWith(rnd, Along(u, d), Along(u', d), j.rangeMin, j.rangeMax);
  }

  lemma TruncGrows(x: real, x': real, lo: int, hi: int)
    requires lo as real <= x <= x' <= hi as real
    ensures lo <= Trunc(x) <= Trunc(x') <= hi
    ensures x == lo as real ==> Trunc(x) == lo
    ensures x' == hi as real ==> Trunc(x') == hi
  {
  }

  // ---------------------------------------------------------------- theorems

  /** The way back from a normalised position is in order, too, or reversed with the drive. */
  lemma UnnormalizeOrdered(rnd: real -> real, j: Joint, n: real, n': real)
    requires Rounds(rnd) && Encoder(j) && n <= n'
    ensures var f, f' := Unnormalize(rnd, j, n), Unnormalize(rnd, j, n');
            && j.rangeMin <= f <= j.rangeMax && j.rangeMin <= f' <= j.rangeMax
            && (if j.driveMode then f' <= f else f <= f')
            && (n == (if j.isGripper then 0.0 else -100.0) ==> f == if j.driveMode then j.rangeMax else j.rangeMin)
            && (n' == 100.0 ==> f' == if j.driveMode then j.rangeMin else j.rangeMax)
  {
    FractionBack(rnd, j, n, n');
    var w, w' := ToFraction(rnd, j, n), ToFraction(rnd, j, n');
    if j.driveMode {
      TicksGrow(rnd, j, w', w);
      TruncGrows(ToTicks(rnd, j, w'), ToTicks(rnd, j, w), j.rangeMin, j.rangeMax);
    } else {
      TicksGrow(rnd, j, w, w');
      TruncGrows(ToTicks(rnd, j, w), ToTicks(rnd, j, w'), j.rangeMin, j.rangeMax);
    }
  }

  /** Whatever the leader reports, the follower is sent somewhere in its range; the ends of one range go
      to the ends of the other; and the follower goes the same way as the leader, or the opposite way
      when exactly one of the two drives is reversed. */
  lemma FollowIsOrdered(rnd: real -> real, leader: Joint, follower: Joint, raw: int, raw': int)
    requires Rounds(rnd) && Encoder(leader) && Encoder(follower) && leader.isGripper == follower.isGripper
    requires raw <= raw'
    ensures var f, f' := Follow(rnd, leader, follower, raw), Follow(rnd, leader, follower, raw');
            var reversed := leader.driveMode != follower.driveMode;
            && follower.rangeMin <= f <= follower.rangeMax
            && follower.rangeMin <= f' <= follower.rangeMax
            && (if reversed then f' <= f else f <= f')
            && (raw <= leader.rangeMin ==> f == if reversed then follower.rangeMax else follower.rangeMin)
            && (raw' >= leader.rangeMax ==> f' == if reversed then follower.rangeMin else follower.rangeMax)
  {
    FractionGrows(rnd, leader, raw, raw');
    var u, u' := Fraction(rnd, leader, raw), Fraction(rnd, leader, raw');
    NormGrows(rnd, leader, u, u');
    var n, n' := FromFraction(rnd, leader, u), FromFraction(rnd, leader, u');
    if leader.driveMode {
      UnnormalizeOrdered(rnd, follower, n', n);
    } else {
      UnnormalizeOrdered(rnd, follower, n, n');
    }
  }

  lemma GripperSurvives(rnd: real -> real, u: real)
    requires Rounds(rnd) && 0.0 <= u <= 1.0
    ensures forall reversed :: var j := Joint(0, 1, reversed, true);
              Survives(ToFraction(rnd, j, FromFraction(rnd, j, u)), u)
  {
    var n := rnd(u * 100.0);
    RoundsWithin(rnd, u * 100.0, 0, 100);
    Error(rnd, u * 100.0, 100.0);
    Error(rnd, n / 100.0, 1.0);
    var r := rnd(100.0 - n);
    RoundsWithin(rnd, 100.0 - n, 0, 100);
    Error(rnd, 100.0 - n, 100.0);
    var m := rnd(100.0 - r);
    RoundsWithin(rnd, 100.0 - r, 0, 100);
    Error(rnd, 100.0 - r, 100.0);
    Error(rnd, m / 100.0, 1.0);
  }

  lemma BodySurvives(rnd: real -> real, u: real)
    requires Rounds(rnd) && 0.0 <= u <= 1.0
    ensures forall reversed :: var j := Joint(0, 1, reversed, false);
              Survives(ToFraction(rnd, j, FromFraction(rnd, j, u)), u)
  {
    var a := rnd(u * 200.0);
    RoundsWithin(rnd, u * 200.0, 0, 200);
    Error(rnd, u * 200.0, 200.0);
    var n := rnd(a - 100.0);
    RoundsWithin(rnd, a - 100.0, -100, 100);
    Error(rnd, a - 100.0, 100.0);
    assert -(-n) == n;
    var b := rnd(n + 100.0);
    RoundsWithin(rnd, n + 100.0, 0, 200);
    Error(rnd, n + 100.0, 200.0);
    Error(rnd, b / 200.0, 1.0);
  }

  predicate Survives(x: real, y: real) {
    -5.5 * EPS <= x - y <= 5.5 * EPS
  }

  /** The fraction survives the way to the normalised position and back, but for a few roundings. */
  lemma FractionSurvives(rnd: real -> real, j: Joint, u: real)
    requires Rounds(rnd) && 0.0 <= u <= 1.0
    ensures Survives(ToFraction(rnd, j, FromFraction(rnd, j, u)), u)
  {
    var plain := Joint(0, 1, j.driveMode, j.isGripper);
    assert FromFraction(rnd, j, u) == FromFraction(rnd, plain, u);
    var n := FromFraction(rnd, j, u);
    assert ToFraction(rnd, j, n) == ToFraction(rnd, plain, n);
    if j.isGripper {
      GripperSurvives(rnd, u);
    } else {
      BodySurvives(rnd, u);
    }
  }

  /** What is left of the fraction `k / d` of the range is within three thousandths of a tick of its place. */
  lemma TicksSurvive(rnd: real -> real, j: Joint, k: int, q: real, w: real)
    requires Rounds(rnd) && Encoder(j) && 0.0 <= w <= 1.0 && -7.0 * EPS <= w - q <= 7.0 * EPS
    requires Along(q, j.rangeMax - j.rangeMin) == k as real
    ensures (k + j.rangeMin) as real - 0.003 <= ToTicks(rnd, j, w) <= (k + j.rangeMin) as real + 0.003
  {
    var d := j.rangeMax - j.rangeMin;
    TicksAlong(rnd, j, w);
    AlongGrows(w, w, d);
    AlongErrs(w, q, d, 7.0 * EPS);
    assert d as real * (7.0 * EPS) <= 28665.0 * EPS;
    TicksError(rnd, Along(w, d), j.rangeMin, j.rangeMax);
  }

  lemma TruncNear(x: real, n: int)
    requires 0.0 <= x && n as real - 1.0 < x < n as real + 1.0
    ensures Trunc(x) in {n, n - 1}
  {
  }

  lemma QuotientAlong(k: int, d: int) returns (q: real)
    requires 0 <= k <= d && d > 0
    ensures q == k as real / d as real && 0.0 <= q <= 1.0 && Along(q, d) == k as real
  {
    q := k as real / d as real;
    Quotient(k, k, d);
    AlongIsProduct(q, d);
  }

  /** The exact fraction that the computed one stands for. */
  lemma ExactFraction(rnd: real -> real, j: Joint, raw: int) returns (q: real)
    requires Rounds(rnd) && Encoder(j) && j.rangeMin <= raw <= j.rangeMax
    ensures Along(q, j.rangeMax - j.rangeMin) == (raw - j.rangeMin) as real
    ensures -1.5 * EPS <= Fraction(rnd, j, raw) - q <= 1.5 * EPS
  {
    FractionIsQuotient(rnd, j, raw);
    q := QuotientAlong(raw - j.rangeMin, j.rangeMax - j.rangeMin);
    Error(rnd, q, 1.0);
  }

  /** Normalising a position and mapping it back gives the position, or the one before it. */
  lemma RoundTrip(rnd: real -> real, j: Joint, raw: int)
    requires Rounds(rnd) && Encoder(j) && j.rangeMin <= raw <= j.rangeMax
    ensures Follow(rnd, j, j, raw) in {raw, raw - 1}
  {
    var q := ExactFraction(rnd, j, raw);
    FractionGrows(rnd, j, raw, raw);
    var u := Fraction(rnd, j, raw);
    FractionSurvives(rnd, j, u);
    var norm := FromFraction(rnd, j, u);
    FractionBack(rnd, j, norm, norm);
    var w := ToFraction(rnd, j, norm);
    TicksSurvive(rnd, j, raw - j.rangeMin, q, w);
    TicksGrow(rnd, j, w, w);
    TruncNear(ToTicks(rnd, j, w), raw);
  }
}
