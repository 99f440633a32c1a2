/** The worker's timeout arithmetic on 64-bit integers. */
module Timeouts {
  import opened Model
  import opened Requests

  const TWO_63 := 0x8000_0000_0000_0000
  const TWO_64 := 0x1_0000_0000_0000_0000

  predicate IsInt64(x: int) {
    -TWO_63 <= x < TWO_63
  }

  /** The two's complement value that a 64-bit operation leaves of the exact result `x`. */
  function Wrap64(x: int): (r: int)
    ensures IsInt64(r)
    ensures (r - x) % TWO_64 == 0
    ensures IsInt64(x) ==> r == x
  {
    var low := x % TWO_64;
    if low < TWO_63 then low else low - TWO_64
  }

  /** `time.Duration(seconds) * time.Second`, with the fallback for results that are not positive. */
  function EffectiveTimeout(seconds: int): int {
    var timeout := Wrap64(seconds * SECOND);
    if timeout <= 0 then DEFAULT_TIMEOUT_SECONDS * SECOND else timeout
  }

  /**
   * For every accepted request the effective timeout of the created job is positive; it is 30 s if none was requested,
   * and otherwise the requested one exactly up to 9223372036 seconds.
   */
  lemma TimeoutIsAsRequestedIff(r: CreateJobRequest, id: string, now: Time)
    requires AcceptsCreate(r) && IsInt64(r.timeoutSeconds)
    ensures var seconds := NewJob(r, id, now).timeoutSeconds;
      && EffectiveTimeout(seconds) > 0
      && (r.timeoutSeconds == 0 ==> EffectiveTimeout(seconds) == 30 * SECOND)
      && (1 <= r.timeoutSeconds ==>
            (EffectiveTimeout(seconds) == r.timeoutSeconds * SECOND <==> r.timeoutSeconds <= 9_223_372_036))
  {
    var seconds := NewJob(r, id, now).timeoutSeconds;
    if seconds <= 9_223_372_036 {
      assert IsInt64(seconds * SECOND);
    } else {
      assert seconds * SECOND >= TWO_63;
    }
  }

  /** Beyond that, a longer request can mean a shorter timeout: 584 years become less than a third of a second. */
  lemma LongTimeoutCanBecomeShort()
    ensures EffectiveTimeout(18_446_744_074) == 290_448_384
    ensures EffectiveTimeout(9_223_372_037) == 30 * SECOND
  {
    assert 18_446_744_074 * SECOND == TWO_64 + 290_448_384;
    assert 9_223_372_037 * SECOND == 9_223_372_037_000_000_000;
    assert 9_223_372_037 * SECOND >= TWO_63;
  }
}
