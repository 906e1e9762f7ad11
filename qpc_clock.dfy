/** The clock adapter: conversion of performance-counter ticks (QPC units,
    1/perf_freq seconds each) to microseconds. The conversion is split into a
    whole-seconds term and a remainder term so that no intermediate value leaves
    the range of `int64_t` for any counter value reached within 100 years. */
module QpcClock {
  import opened CTypes

  const MICROS_PER_SECOND: int := 1000000

  /** 100 years of 365 days, in seconds: the horizon within which the
      performance counter is guaranteed not to roll over. */
  const SECONDS_IN_100_YEARS: int := 100 * 365 * 24 * 3600

  /** The bound on perf_freq that follows from that horizon and the int64 range. */
  const MAX_PERF_FREQ: int := 2_900_000_000

  /** qpc_to_us: `qpc / perf_freq * 1000000 + qpc % perf_freq * 1000000 / perf_freq`
      with C's truncating `/` and `%`. */
  function QpcToUs(qpc: int, perfFreq: int): (us: int)
    requires perfFreq > 0
    ensures 0 <= qpc ==> 0 <= us
    ensures qpc <= 0 ==> us <= 0
  {
    TruncDiv(qpc, perfFreq) * MICROS_PER_SECOND
      + TruncDiv(TruncRem(qpc, perfFreq) * MICROS_PER_SECOND, perfFreq)
  }

  /** Euclidean division is determined by any quotient/remainder pair. */
  lemma DivUnique(n: int, d: int, q: int, r: int)
    requires d > 0 && 0 <= r < d && n == q * d + r
    ensures n / d == q && n % d == r
  {
    var q0, r0 := n / d, n % d;
    assert n == q0 * d + r0;
    if q0 < q {
      assert (q - q0) * d == q * d - q0 * d;
      MulAtLeastDivisor(q - q0, d);
    } else if q0 > q {
      assert (q0 - q) * d == q0 * d - q * d;
      MulAtLeastDivisor(q0 - q, d);
    }
  }

  lemma MulAtLeastDivisor(k: int, d: int)
    requires k >= 1 && d > 0
    ensures k * d >= d
  {
    assert k * d == (k - 1) * d + d;
  }

  /** Adding whole multiples of the divisor moves the quotient by exactly that many. */
  lemma DivAddMultiple(k: int, x: int, d: int)
    requires d > 0 && x >= 0
    ensures (k * d + x) / d == k + x / d
  {
    var q, r := x / d, x % d;
    assert x == q * d + r;
    assert k * d + x == (k + q) * d + r;
    DivUnique(k * d + x, d, k + q, r);
  }

  /** The conversion is exact for non-negative tick counts: the two terms add up
      to floor(qpc * 1000000 / perf_freq). */
  lemma {:induction false} QpcToUsExactNonNegative(qpc: int, perfFreq: int)
    requires qpc >= 0 && perfFreq > 0
    ensures QpcToUs(qpc, perfFreq) == qpc * MICROS_PER_SECOND / perfFreq
  {
    var q, r := qpc / perfFreq, qpc % perfFreq;
    assert qpc == q * perfFreq + r;
    assert qpc * MICROS_PER_SECOND == (q * MICROS_PER_SECOND) * perfFreq + r * MICROS_PER_SECOND;
    DivAddMultiple(q * MICROS_PER_SECOND, r * MICROS_PER_SECOND, perfFreq);
  }

  /** The conversion is exact for every tick count, negative ones included:
      it equals C's truncating `qpc * 1000000 / perf_freq` computed without
      overflow, and for `qpc >= 0` that is floor(qpc * 1000000 / perf_freq). */
  lemma {:induction false} QpcToUsExact(qpc: int, perfFreq: int)
    requires perfFreq > 0
    ensures QpcToUs(qpc, perfFreq) == TruncDiv(qpc * MICROS_PER_SECOND, perfFreq)
    ensures qpc >= 0 ==> QpcToUs(qpc, perfFreq) == qpc * MICROS_PER_SECOND / perfFreq
  {
    if qpc >= 0 {
      QpcToUsExactNonNegative(qpc, perfFreq);
    } else {
      QpcToUsExactNonNegative(-qpc, perfFreq);
      assert QpcToUs(qpc, perfFreq) == -QpcToUs(-qpc, perfFreq);
      assert (-qpc) * MICROS_PER_SECOND == -(qpc * MICROS_PER_SECOND);
    }
  }

  /** The remainder term fits in int64 for every int64 tick count, provided
      perf_freq is below 2.9 * 10^9. */
  lemma RemainderTermInRange(qpc: int, perfFreq: int)
    requires IsInt64(qpc) && 0 < perfFreq < MAX_PERF_FREQ
    ensures IsInt64(TruncRem(qpc, perfFreq) * MICROS_PER_SECOND)
    ensures IsInt64(TruncDiv(TruncRem(qpc, perfFreq) * MICROS_PER_SECOND, perfFreq))
  {
    var r := TruncRem(qpc, perfFreq);
    assert -MAX_PERF_FREQ < r < MAX_PERF_FREQ;
    assert -MAX_PERF_FREQ * MICROS_PER_SECOND < r * MICROS_PER_SECOND < MAX_PERF_FREQ * MICROS_PER_SECOND;
  }

  /** No intermediate of the conversion overflows int64 when the counter has not
      run for more than 100 years (|qpc| <= perf_freq * 100 years) and
      perf_freq is below 2.9 * 10^9; the counter value itself is then an int64. */
  lemma NoOverflow(qpc: int, perfFreq: int)
    requires 0 < perfFreq < MAX_PERF_FREQ
    requires -perfFreq * SECONDS_IN_100_YEARS <= qpc <= perfFreq * SECONDS_IN_100_YEARS
    ensures IsInt64(qpc)
    ensures IsInt64(TruncDiv(qpc, perfFreq))
    ensures IsInt64(TruncDiv(qpc, perfFreq) * MICROS_PER_SECOND)
    ensures IsInt64(TruncRem(qpc, perfFreq) * MICROS_PER_SECOND)
    ensures IsInt64(TruncDiv(TruncRem(qpc, perfFreq) * MICROS_PER_SECOND, perfFreq))
    ensures IsInt64(QpcToUs(qpc, perfFreq))
  {
    MulMonotone(perfFreq, MAX_PERF_FREQ, SECONDS_IN_100_YEARS);
    RemainderTermInRange(qpc, perfFreq);
    RemainderQuotientBound(qpc, perfFreq);
    WholeSecondsBound(qpc, perfFreq);
  }

  /** The remainder term contributes less than one second. */
  lemma RemainderQuotientBound(qpc: int, perfFreq: int)
    requires perfFreq > 0
    ensures -MICROS_PER_SECOND <= TruncDiv(TruncRem(qpc, perfFreq) * MICROS_PER_SECOND, perfFreq)
                               <= MICROS_PER_SECOND
  {
    var r := TruncRem(qpc, perfFreq);
    var a := if r >= 0 then r else -r;
    DivMonotone(a * MICROS_PER_SECOND, perfFreq * MICROS_PER_SECOND, perfFreq);
    DivUnique(perfFreq * MICROS_PER_SECOND, perfFreq, MICROS_PER_SECOND, 0);
    assert r < 0 ==> (-r) * MICROS_PER_SECOND == -(r * MICROS_PER_SECOND);
  }

  lemma MulMonotone(a: int, b: int, c: int)
    requires 0 <= a <= b && 0 <= c
    ensures 0 <= a * c <= b * c
  {
    assert b * c == a * c + (b - a) * c;
  }

  /** The whole-seconds term never exceeds the horizon in seconds. */
  lemma WholeSecondsBound(qpc: int, perfFreq: int)
    requires perfFreq > 0
    requires -perfFreq * SECONDS_IN_100_YEARS <= qpc <= perfFreq * SECONDS_IN_100_YEARS
    ensures -SECONDS_IN_100_YEARS <= TruncDiv(qpc, perfFreq) <= SECONDS_IN_100_YEARS
  {
    var a := if qpc >= 0 then qpc else -qpc;
    DivMonotone(a, SECONDS_IN_100_YEARS * perfFreq, perfFreq);
    DivUnique(SECONDS_IN_100_YEARS * perfFreq, perfFreq, SECONDS_IN_100_YEARS, 0);
  }

  lemma DivMonotone(a: int, b: int, d: int)
    requires 0 <= a <= b && d > 0
    ensures a / d <= b / d
  {
    var qa, qb := a / d, b / d;
    if qa > qb {
      assert a == qa * d + a % d;
      assert b == qb * d + b % d;
      assert (qa - qb) * d == qa * d - qb * d;
      MulAtLeastDivisor(qa - qb, d);
    }
  }

  /** Later tick counts never convert to earlier times. */
  lemma QpcToUsMonotone(a: int, b: int, perfFreq: int)
    requires a <= b && perfFreq > 0
    ensures QpcToUs(a, perfFreq) <= QpcToUs(b, perfFreq)
  {
    QpcToUsExact(a, perfFreq);
    QpcToUsExact(b, perfFreq);
    TruncDivMonotone(a * MICROS_PER_SECOND, b * MICROS_PER_SECOND, perfFreq);
  }

  lemma TruncDivMonotone(x: int, y: int, d: int)
    requires x <= y && d > 0
    ensures TruncDiv(x, d) <= TruncDiv(y, d)
  {
    if 0 <= x {
      DivMonotone(x, y, d);
    } else if y < 0 {
      DivMonotone(-y, -x, d);
    } else {
      DivMonotone(0, -x, d);
      DivMonotone(0, y, d);
    }
  }

  /** Whole seconds convert without loss: perf_freq * k ticks is k * 10^6 us. */
  lemma QpcToUsWholeSeconds(k: int, perfFreq: int)
    requires perfFreq > 0
    ensures QpcToUs(k * perfFreq, perfFreq) == k * MICROS_PER_SECOND
  {
    QpcToUsExact(k * perfFreq, perfFreq);
    var m := k * MICROS_PER_SECOND;
    assert k * perfFreq * MICROS_PER_SECOND == m * perfFreq;
    TruncDivExact(m, perfFreq);
  }

  /** C's division of an exact multiple gives the factor back. */
  lemma TruncDivExact(m: int, d: int)
    requires d > 0
    ensures TruncDiv(m * d, d) == m
  {
    if m >= 0 {
      DivUnique(m * d, d, m, 0);
    } else {
      assert -(m * d) == (-m) * d;
      DivUnique((-m) * d, d, -m, 0);
    }
  }
}
