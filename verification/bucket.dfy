/**
 * The time-bucketing rule (`PGStats#now_floored`): the cycle's timestamp is the
 * wall-clock second minus its remainder modulo the interval, so every sample
 * of one cycle lands on the same interval boundary.
 */
module Bucket {

  /** Products of non-negative integers are non-negative. */
  lemma MulNonneg(a: int, b: int)
    requires a >= 0 && b >= 0
    ensures a * b >= 0
  {}

  /** An exact multiple leaves no remainder. */
  lemma ModOfMultiple(k: int, b: int)
    requires b != 0
    ensures (b * k) % b == 0
  {
    var x := b * k;
    var q := x / b;
    var m := x % b;
    assert x == b * q + m;
    assert m == b * (k - q);
    if k - q > 0 {
      if b > 0 { MulNonneg(b, k - q - 1); } else { MulNonneg(-b, k - q - 1); }
      assert false;
    } else if k - q < 0 {
      if b > 0 { MulNonneg(b, q - k - 1); } else { MulNonneg(-b, q - k - 1); }
      assert false;
    }
  }

  /**
   * Ruby's `Integer#%`: floored division, so the remainder takes the sign of
   * the divisor. A zero divisor raises `ZeroDivisionError`, hence the
   * precondition.
   */
  function FloorMod(a: int, b: int): (r: int)
    requires b != 0
    ensures (a - r) % b == 0
    ensures b > 0 ==> 0 <= r < b
    ensures b < 0 ==> b < r <= 0
  {
    var m := a % b;
    assert a - m == b * (a / b);
    ModOfMultiple(a / b, b);
    if b < 0 && m != 0 then
      assert a - (m + b) == b * (a / b - 1);
      ModOfMultiple(a / b - 1, b);
      m + b
    else m
  }

  /**
   * The start of the interval bucket holding `time` (the current epoch
   * second): the time minus its Ruby remainder by the interval.
   */
  function NowFloored(time: int, interval: int): (r: int)
    requires interval != 0
    ensures r % interval == 0
    ensures interval > 0 ==> r <= time < r + interval
    ensures interval < 0 ==> r + interval < time <= r
  {
    time - FloorMod(time, interval)
  }

  /** A positive multiple of a positive interval is at least one interval long. */
  lemma PositiveMultiple(x: int, interval: int)
    requires interval > 0 && x > 0 && x % interval == 0
    ensures x >= interval
  {
    assert x == interval * (x / interval);
  }

  /** The difference of two multiples of `interval` is a multiple of it. */
  lemma MultipleDifference(m: int, r: int, interval: int)
    requires interval != 0 && m % interval == 0 && r % interval == 0
    ensures (m - r) % interval == 0
  {
    assert m == interval * (m / interval);
    assert r == interval * (r / interval);
    assert m - r == interval * (m / interval - r / interval);
    ModOfMultiple(m / interval - r / interval, interval);
  }

  /**
   * For a positive interval the bucket is the greatest multiple of the
   * interval not after `time`.
   */
  lemma NowFlooredIsGreatestMultiple(time: int, interval: int, m: int)
    requires interval > 0 && m % interval == 0 && m <= time
    ensures m <= NowFloored(time, interval)
  {
    var r := NowFloored(time, interval);
    if m > r {
      MultipleDifference(m, r, interval);
      PositiveMultiple(m - r, interval);
    }
  }

  /**
   * Conversely, the only multiple of a positive interval in `(time - interval, time]`
   * is the bucket.
   */
  lemma NowFlooredUnique(time: int, interval: int, m: int)
    requires interval > 0 && m % interval == 0 && m <= time < m + interval
    ensures m == NowFloored(time, interval)
  {
    var r := NowFloored(time, interval);
    NowFlooredIsGreatestMultiple(time, interval, m);
    if m < r {
      MultipleDifference(r, m, interval);
      PositiveMultiple(r - m, interval);
    }
  }

  /** Flooring a bucket again leaves it where it is. */
  lemma NowFlooredIdempotent(time: int, interval: int)
    requires interval > 0
    ensures NowFloored(NowFloored(time, interval), interval) == NowFloored(time, interval)
  {
    var r := NowFloored(time, interval);
    NowFlooredUnique(r, interval, r);
  }

  /** A five-minute interval floors second 1000 to second 900. */
  lemma FiveMinuteBucket()
    ensures NowFloored(1000, 300) == 900
  {
    NowFlooredUnique(1000, 300, 900);
  }
}
