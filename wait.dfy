/**
 * The polling `waitUntil(pred, timeout)` of main/WsStreamer.cpp and
 * main/MarvinSession.cpp: read a millisecond clock once, then test the
 * predicate; while it is false, give up once the clock minus the start
 * reaches the timeout, else sleep a tick and test again. The predicate's
 * answers and the clock's readings are an oracle: one `Probe` per test.
 *
 * Both files read the same 32-bit tick-derived clock but subtract
 * differently (`Clock`): MarvinSession.cpp subtracts the 32-bit values, so
 * the difference is right across a wrap of the clock; WsStreamer.cpp's
 * `millis()` widens the reading to 64 bits first, so a reading taken after
 * a wrap gives a difference near 2^64, and the wait times out at once.
 */
module Wait {
  import opened Time

  /** One test of the predicate and, if it failed, the clock reading that followed it. */
  datatype Probe = Probe(holds: bool, now: U32)

  datatype Outcome = Satisfied(at: nat) | TimedOut(at: nat) | Pending

  /** How a `waitUntil` subtracts two clock readings. */
  datatype Clock =
    | Narrow  // 32-bit unsigned difference (MarvinSession.cpp)
    | Wide    // the readings widened to 64 bits, then subtracted (WsStreamer.cpp)

  const Two64: int := 0x1_0000_0000_0000_0000

  /** `now - start` in unsigned 32-bit arithmetic: correct across one wrap of the clock. */
  function Elapsed(start: U32, now: U32): (e: U32)
    ensures start <= now ==> e as int == now as int - start as int
    ensures now < start ==> e as int == now as int - start as int + Two32
  {
    ((now as int - start as int) % Two32) as U32
  }

  /** `now - start` on the readings widened to unsigned 64 bits. */
  function Elapsed64(start: U32, now: U32): (e: nat)
    ensures start <= now ==> e == now as int - start as int
    ensures now < start ==> e == now as int - start as int + Two64
  {
    (now as int - start as int) % Two64
  }

  /** The difference the given `waitUntil` compares with its timeout. */
  function Since(clock: Clock, start: U32, now: U32): nat {
    match clock
    case Narrow => Elapsed(start, now) as nat
    case Wide => Elapsed64(start, now)
  }

  /** Readings of a clock that advanced by less than 2^32 ms give the true elapsed time. */
  lemma ElapsedIsDuration(t0: nat, t1: nat)
    requires t0 <= t1 < t0 + Two32
    ensures Since(Narrow, (t0 % Two32) as U32, (t1 % Two32) as U32) == t1 - t0
  {
    var a, b := t0 % Two32, t1 % Two32;
    var q0, q1 := t0 / Two32, t1 / Two32;
    assert t0 == Two32 * q0 + a && t1 == Two32 * q1 + b;
    if q1 == q0 + 1 {
      assert t1 - t0 == Two32 + b - a;
    }
  }

  /**
   * The widened difference is the true elapsed time while the clock has not
   * wrapped since the start; once it has, it exceeds every 32-bit timeout.
   */
  lemma WideElapsed(t0: nat, t1: nat, timeout: U32)
    requires t0 <= t1 < t0 + Two32
    ensures var start, now := (t0 % Two32) as U32, (t1 % Two32) as U32;
            && (t0 / Two32 == t1 / Two32 ==> Since(Wide, start, now) == t1 - t0)
            && (t0 / Two32 < t1 / Two32 ==> now < start && Since(Wide, start, now) > timeout as int)
  {
    var a, b := t0 % Two32, t1 % Two32;
    var q0, q1 := t0 / Two32, t1 / Two32;
    assert t0 == Two32 * q0 + a && t1 == Two32 * q1 + b;
    if q0 < q1 {
      assert q1 == q0 + 1;
      assert t1 - t0 == Two32 + b - a;
    }
  }

  /**
   * 8 ms across the wrap of the clock, with the 500 ms timeout of the
   * stream task's second wait: the widened difference gives up at the first
   * test, the 32-bit difference goes on polling.
   */
  lemma WideGivesUpAtWrap()
    ensures Elapsed(0xFFFF_FFFB, 3) == 8
    ensures Decide(Wide, 0xFFFF_FFFB, [Probe(false, 3)], 500) == TimedOut(0)
    ensures Decide(Narrow, 0xFFFF_FFFB, [Probe(false, 3)], 500) == Pending
  {
    assert DecideFrom(Narrow, 0xFFFF_FFFB, [Probe(false, 3)], 500, 1) == Pending;
  }

  /** The tests before `k` all failed with time to spare. */
  ghost predicate Patient(clock: Clock, start: U32, probes: seq<Probe>, timeout: U32, k: nat)
    requires k <= |probes|
  {
    forall j :: 0 <= j < k ==> !probes[j].holds && Since(clock, start, probes[j].now) < timeout as int
  }

  /** What the loop decides, looking at the probes from `k` on. */
  function DecideFrom(clock: Clock, start: U32, probes: seq<Probe>, timeout: U32, k: nat): Outcome
    decreases |probes| - k
  {
    if k >= |probes| then Pending
    else if probes[k].holds then Satisfied(k)
    else if Since(clock, start, probes[k].now) >= timeout as int then TimedOut(k)
    else DecideFrom(clock, start, probes, timeout, k + 1)
  }

  function Decide(clock: Clock, start: U32, probes: seq<Probe>, timeout: U32): Outcome {
    DecideFrom(clock, start, probes, timeout, 0)
  }

  /**
   * Success as soon as the predicate holds, failure only once the difference
   * reaches the timeout with the predicate still false, and no decision
   * while neither has happened.
   */
  lemma {:induction false} DecideFromMeaning(clock: Clock, start: U32, probes: seq<Probe>, timeout: U32, k: nat)
    requires k <= |probes| && Patient(clock, start, probes, timeout, k)
    ensures var w := DecideFrom(clock, start, probes, timeout, k);
            && (w.Satisfied? ==> k <= w.at < |probes| && probes[w.at].holds && Patient(clock, start, probes, timeout, w.at))
            && (w.TimedOut? ==> k <= w.at < |probes| && !probes[w.at].holds
                                && Since(clock, start, probes[w.at].now) >= timeout as int
                                && Patient(clock, start, probes, timeout, w.at))
            && (w.Pending? ==> Patient(clock, start, probes, timeout, |probes|))
    decreases |probes| - k
  {
    if k < |probes| && !probes[k].holds && Since(clock, start, probes[k].now) < timeout as int {
      DecideFromMeaning(clock, start, probes, timeout, k + 1);
    }
  }

  lemma DecideMeaning(clock: Clock, start: U32, probes: seq<Probe>, timeout: U32)
    ensures var w := Decide(clock, start, probes, timeout);
            && (w.Satisfied? ==> w.at < |probes| && probes[w.at].holds && Patient(clock, start, probes, timeout, w.at))
            && (w.TimedOut? ==> w.at < |probes| && !probes[w.at].holds
                                && Since(clock, start, probes[w.at].now) >= timeout as int
                                && Patient(clock, start, probes, timeout, w.at))
            && (w.Pending? ==> Patient(clock, start, probes, timeout, |probes|))
  {
    DecideFromMeaning(clock, start, probes, timeout, 0);
  }

  /**
   * With the widened difference, the first failed test whose reading lies
   * below the start ends the wait, whatever the timeout.
   */
  lemma {:induction false} WideTimesOutAtWrap(start: U32, probes: seq<Probe>, timeout: U32, k: nat)
    requires k < |probes| && !probes[k].holds && probes[k].now < start
    requires Patient(Wide, start, probes, timeout, k)
    ensures Decide(Wide, start, probes, timeout) == TimedOut(k)
  {
    DecideWhilePatient(Wide, start, probes, timeout, k);
  }

  /** A decision the tests before `k` did not reach is the decision from `k` on. */
  lemma {:induction false} DecideWhilePatient(clock: Clock, start: U32, probes: seq<Probe>, timeout: U32, k: nat)
    requires k <= |probes| && Patient(clock, start, probes, timeout, k)
    ensures Decide(clock, start, probes, timeout) == DecideFrom(clock, start, probes, timeout, k)
    decreases k
  {
    if k > 0 {
      DecideWhilePatient(clock, start, probes, timeout, k - 1);
    }
  }

  /** `waitUntil`: the polling loop, stopped early when the oracle runs out (`Pending`). */
  method WaitUntil(clock: Clock, start: U32, probes: seq<Probe>, timeout: U32) returns (w: Outcome)
    ensures w == Decide(clock, start, probes, timeout)
  {
    var k := 0;
    while k < |probes| && !probes[k].holds
      invariant k <= |probes|
      invariant DecideFrom(clock, start, probes, timeout, k) == Decide(clock, start, probes, timeout)
      decreases |probes| - k
    {
      if Since(clock, start, probes[k].now) >= timeout as int {
        return TimedOut(k);
      }
      k := k + 1;
    }
    w := if k < |probes| then Satisfied(k) else Pending;
  }
}
