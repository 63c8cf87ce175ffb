/**
 * The interval gate at the top of `loop()` in both sketches and the signal
 * level shown on the display.  `millis()` and `lastUpdateTime` are
 * `unsigned long`, a 32-bit unsigned integer on the ESP32, so the elapsed
 * time is a subtraction modulo 2^32.
 */
module TickGate {

  const Modulus32: int := 0x1_0000_0000

  /** A 32-bit `unsigned long`. */
  type uint32 = x: int | 0 <= x < 0x1_0000_0000

  /** UPDATE_INTERVAL: milliseconds between two ticks. */
  const UpdateInterval: int := 2000

  /** Number of bars of the signal indicator. */
  const SignalLevels: int := 5

  /** `currentMillis - lastUpdateTime` in 32-bit unsigned arithmetic. */
  function Elapsed(now: uint32, last: uint32): (d: uint32)
    ensures last <= now ==> d == now - last
    ensures now < last ==> d == now - last + Modulus32
  {
    (now - last) % Modulus32
  }

  /** The gate of `loop()`: a tick runs when at least UpdateInterval ms have elapsed. */
  predicate Due(now: uint32, last: uint32)
    ensures last <= now ==> (Due(now, last) <==> now - last >= UpdateInterval)
    ensures now < last ==> (Due(now, last) <==> now + Modulus32 - last >= UpdateInterval)
  {
    Elapsed(now, last) >= UpdateInterval
  }

  /**
   * The gate measures real elapsed time even when `millis()` has wrapped
   * between the two readings: if the true clock went from `t0` to `t1`, less
   * than 2^32 ms apart, the gate fires exactly when `t1 - t0 >= UpdateInterval`.
   */
  lemma DueAcrossWraparound(t0: nat, t1: nat)
    requires t0 <= t1 < t0 + Modulus32
    ensures Elapsed(t1 % Modulus32, t0 % Modulus32) == t1 - t0
    ensures Due(t1 % Modulus32, t0 % Modulus32) <==> t1 - t0 >= UpdateInterval
  {
    var q0, r0 := t0 / Modulus32, t0 % Modulus32;
    var q1, r1 := t1 / Modulus32, t1 % Modulus32;
    assert t0 == q0 * Modulus32 + r0;
    assert t1 == q1 * Modulus32 + r1;
    if r0 <= r1 {
      assert (q1 - q0) * Modulus32 == (t1 - t0) - (r1 - r0);
      assert q1 == q0;
    } else {
      assert (q1 - q0) * Modulus32 == (t1 - t0) + (r0 - r1);
      assert q1 == q0 + 1;
    }
  }

  /** `(currentMillis / UPDATE_INTERVAL) % 5`: the number of bars drawn. */
  function SignalLevel(now: uint32): (level: int)
    ensures 0 <= level < SignalLevels
  {
    (now / UpdateInterval) % SignalLevels
  }

  /** The signal level advances by one bar, cyclically, every UpdateInterval ms. */
  lemma SignalLevelAdvances(now: uint32)
    requires now + UpdateInterval < Modulus32
    ensures SignalLevel(now + UpdateInterval) == (SignalLevel(now) + 1) % SignalLevels
  {
    var q := now / UpdateInterval;
    assert now == q * UpdateInterval + now % UpdateInterval;
    assert now + UpdateInterval == (q + 1) * UpdateInterval + now % UpdateInterval;
    assert (now + UpdateInterval) / UpdateInterval == q + 1;
  }
}
