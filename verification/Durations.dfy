/** Go's durations: 64-bit counts of nanoseconds, whose arithmetic wraps around. */
module Durations {
  const SECOND: nat := 1_000_000_000
  const TWO_63: int := 0x8000_0000_0000_0000
  const TWO_64: int := 0x1_0000_0000_0000_0000

  /** The most whole seconds that a duration can hold. */
  const MAX_SECONDS: nat := 9223372036

  /** The value a 64-bit signed computation leaves. */
  function Wrap64(n: int): int {
    (n + TWO_63) % TWO_64 - TWO_63
  }

  /** The largest duration is odd, so no number of seconds wraps to it. */
  lemma WrappedSeconds(seconds: int)
    ensures Wrap64(seconds * SECOND) < TWO_63 - 1
  {
    var x := seconds * SECOND + TWO_63;
    assert x == 2 * (seconds * 500_000_000 + TWO_63 / 2);
    assert x % TWO_64 == x - TWO_64 * (x / TWO_64) == 2 * (x / 2 - TWO_63 * (x / TWO_64));
  }
}
