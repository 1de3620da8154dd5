/** `std::time::Duration` and the mock's manual clock. */
module Time {
  const NANOS_PER_SEC := 1_000_000_000
  /** `Duration::MAX`: 64 bits of seconds and 999 999 999 nanoseconds. */
  const MAX_NANOS := 0xFFFF_FFFF_FFFF_FFFF * NANOS_PER_SEC + 999_999_999

  /** A duration in nanoseconds. */
  type Duration = n: nat | n <= MAX_NANOS

  function SaturatingAdd(a: Duration, b: Duration): Duration {
    if a + b <= MAX_NANOS then a + b else MAX_NANOS
  }

  function AsSecs(d: Duration): nat {
    d / NANOS_PER_SEC
  }

  /** Time since the server started. */
  class Clock {
    var elapsed: Duration

    constructor ()
      ensures elapsed == 0
    {
      elapsed := 0;
    }

    method Advance(delta: Duration)
      modifies this
      ensures elapsed == if old(elapsed) + delta > MAX_NANOS then MAX_NANOS else old(elapsed) + delta
    {
      elapsed := SaturatingAdd(elapsed, delta);
    }
  }
}
