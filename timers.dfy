/** The browser's `window.setTimeout` scheduling rule, reduced to due times on an integer clock. */
module Timers {

  /** The span of a WebIDL `long`: 2^32 values, the largest 2^31 - 1. */
  const LongSpan: int := 0x1_0000_0000
  const MaxDelay: int := 0x7FFF_FFFF

  /**
   * The WebIDL conversion of the `timeout` argument to a `long` (section 3.2.4.8
   * of the Web IDL Standard, ToInt32 for integral values): the value modulo 2^32,
   * read as a signed 32-bit number.
   */
  function ToLong(x: int): (r: int)
    ensures -0x8000_0000 <= r <= MaxDelay
    ensures (x - r) % LongSpan == 0
    ensures -0x8000_0000 <= x <= MaxDelay ==> r == x
  {
    var d := x % LongSpan;
    if d > MaxDelay then d - LongSpan else d
  }

  /**
   * The time at which a timeout armed at `now` with `delay` milliseconds is
   * due: the delay is converted to a `long` and a negative result counts as
   * zero (the "timer initialization steps" of the HTML Living Standard).
   */
  function Due(now: int, delay: int): (due: int)
    ensures now <= due <= now + MaxDelay
    ensures 0 <= delay <= MaxDelay ==> due - now == delay
    ensures -0x8000_0000 <= delay < 0 ==> due == now
    ensures due == now || (delay - (due - now)) % LongSpan == 0
  {
    var d := ToLong(delay);
    if d > 0 then now + d else now
  }

  /** Delays past 2^31 - 1 wrap: 2^31 ms is due at once, and 2^32 + 5 ms after 5 ms. */
  lemma DueWraps(now: int)
    ensures Due(now, MaxDelay + 1) == now
    ensures Due(now, LongSpan + 5) == now + 5
  {
    assert ToLong(MaxDelay + 1) == -0x8000_0000;
    assert ToLong(LongSpan + 5) == 5;
  }
}
