/**
 * `Duration` (main/Time.hpp, main/Time.cpp): a 32-bit millisecond count
 * with `UINT32_MAX` reserved for "wait forever". The FreeRTOS conversions
 * `pdMS_TO_TICKS` and `pdTICKS_TO_MS` compute in 64 bits and truncate the
 * quotient to the 32-bit tick type; the tick rate `configTICK_RATE_HZ` is a
 * parameter of the model.
 */
module Time {
  const U32Max: int := 0xFFFF_FFFF
  const Two32: int := 0x1_0000_0000

  newtype U32 = x: int | 0 <= x <= 0xFFFF_FFFF

  /** `portMAX_DELAY`: the largest tick count, meaning "block indefinitely". */
  const PortMaxDelay: U32 := 0xFFFF_FFFF

  /** A tick rate the 32-bit `configTICK_RATE_HZ` can hold. */
  predicate ValidRate(rate: nat) {
    0 < rate <= U32Max
  }

  /** The stored millisecond count is exactly the factory argument; nothing normalises it. */
  datatype Duration = Duration(millis: U32)

  function Millis(m: U32): (d: Duration)
    ensures d.millis == m
  {
    Duration(m)
  }

  function None(): (d: Duration)
    ensures d.millis == 0
  {
    Duration(0)
  }

  function Max(): (d: Duration)
    ensures d.millis as int == U32Max
  {
    Duration(0xFFFF_FFFF)
  }

  /** `pdMS_TO_TICKS(ms)`: ms * rate / 1000 in 64 bits, cast to the 32-bit tick type. */
  function MsToTicks(ms: U32, rate: nat): (t: U32)
    requires ValidRate(rate)
    ensures ms as int * rate / 1000 < Two32 ==> t as int == ms as int * rate / 1000
  {
    MulBound(ms as int, rate);
    ((ms as int * rate / 1000) % Two32) as U32
  }

  /** `pdTICKS_TO_MS(t)`: t * 1000 / rate in 64 bits, cast to 32 bits. */
  function TicksToMs(t: U32, rate: nat): (ms: U32)
    requires ValidRate(rate)
    ensures t as int * 1000 / rate < Two32 ==> ms as int == t as int * 1000 / rate
  {
    ((t as int * 1000 / rate) % Two32) as U32
  }

  /** The 64-bit intermediate of both conversions never overflows. */
  lemma MulBound(a: int, b: int)
    requires 0 <= a <= U32Max && 0 <= b <= U32Max
    ensures a * b < 0x1_0000_0000_0000_0000
  {
    assert a * b <= U32Max * b <= U32Max * U32Max;
  }

  /** `Duration::ticks()`: the sentinel maps to `portMAX_DELAY`, anything else converts. */
  function Ticks(d: Duration, rate: nat): (t: U32)
    requires ValidRate(rate)
    ensures d == Max() ==> t == PortMaxDelay
    ensures d != Max() ==> t == MsToTicks(d.millis, rate)
  {
    if d.millis as int != U32Max then MsToTicks(d.millis, rate) else PortMaxDelay
  }

  /** `Duration::ticks(t)`: the millisecond value of `t` ticks. */
  function FromTicks(t: U32, rate: nat): (d: Duration)
    requires ValidRate(rate)
    ensures d.millis == TicksToMs(t, rate)
  {
    Duration(TicksToMs(t, rate))
  }

  lemma NoneTicks(rate: nat)
    requires ValidRate(rate)
    ensures Ticks(None(), rate) == 0
  {
  }

  /** At a tick rate of at most 1 kHz a wait never lasts more ticks than milliseconds. */
  lemma TicksAtMostMillis(d: Duration, rate: nat)
    requires ValidRate(rate) && rate <= 1000 && d != Max()
    ensures Ticks(d, rate) as int == d.millis as int * rate / 1000 <= d.millis as int
  {
    assert d.millis as int * rate <= d.millis as int * 1000;
  }

  lemma MulAtLeast(b: int, k: int)
    requires b > 0
    ensures k >= 1 ==> b * k >= b
    ensures k <= -1 ==> b * k <= -b
  {
    if k >= 1 {
      assert b * k == b + b * (k - 1);
    } else if k <= -1 {
      assert b * k == -b + b * (k + 1);
    }
  }

  lemma DivUnique(a: int, b: int, q: int, r: int)
    requires b > 0 && a == b * q + r && 0 <= r < b
    ensures a / b == q
  {
    var k := a / b - q;
    assert b * k == r - a % b;
    MulAtLeast(b, k);
  }

  /**
   * When the rate divides 1000, a millisecond duration converted to ticks
   * and back loses exactly the part below one tick period.
   */
  lemma MillisRoundTrip(m: U32, rate: nat)
    requires ValidRate(rate) && 1000 % rate == 0 && m as int != U32Max
    ensures FromTicks(Ticks(Millis(m), rate), rate).millis as int == m as int - m as int % (1000 / rate)
  {
    var q := 1000 / rate;
    var n := m as int;
    assert rate * q == 1000;
    assert n == q * (n / q) + n % q;
    assert n * rate == 1000 * (n / q) + rate * (n % q);
    assert rate * (n % q) < 1000 by {
      assert n % q < q;
      assert rate * (n % q) < rate * q;
    }
    DivUnique(n * rate, 1000, n / q, rate * (n % q));
    var t := Ticks(Millis(m), rate);
    assert t as int == n / q;
    assert t as int * 1000 == rate * (q * (n / q));
    DivUnique(t as int * 1000, rate, q * (n / q), 0);
  }

  /**
   * When the rate divides 1000 and the millisecond value fits, a tick count
   * converted to milliseconds and back is unchanged.
   */
  lemma TicksRoundTrip(t: U32, rate: nat)
    requires ValidRate(rate) && 1000 % rate == 0 && t as int * (1000 / rate) < U32Max
    ensures Ticks(FromTicks(t, rate), rate) == t
  {
    var q := 1000 / rate;
    assert rate * q == 1000;
    assert t as int * 1000 == rate * (t as int * q);
    DivUnique(t as int * 1000, rate, t as int * q, 0);
    var m := FromTicks(t, rate).millis;
    assert m as int == t as int * q;
    assert m as int * rate == 1000 * t as int;
    DivUnique(m as int * rate, 1000, t as int, 0);
  }
}
