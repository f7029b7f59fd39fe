/** The shared retry-delay formula (internal/backoff/backoff.go).

    Durations are Go's `time.Duration`: signed 64-bit counts of nanoseconds. */
module Backoff {
  import opened Prelude

  /** Signed 64-bit nanoseconds. Arithmetic that could leave the range is a verification error. */
  newtype Duration = d: int | -0x8000_0000_0000_0000 <= d < 0x8000_0000_0000_0000

  const SECOND: int := 1_000_000_000

  function Pow2(n: nat): (p: int)
    ensures p >= 1
  {
    if n == 0 then 1 else 2 * Pow2(n - 1)
  }

  /** The closed form: doubling from `base`, once per attempt after the first, capped at `max`. */
  function Delay(attempts: int, base: int, max: int): int {
    if base <= 0 || max <= 0 then 0
    else Min(base * Pow2(if attempts < 1 then 0 else attempts - 1), max)
  }

  lemma {:induction false} Pow2Monotone(m: nat, n: nat)
    requires m <= n
    ensures Pow2(m) <= Pow2(n)
    decreases n
  {
    if m < n { Pow2Monotone(m, n - 1); }
  }

  lemma {:induction false} Pow2Adds(m: nat, n: nat)
    ensures Pow2(m + n) == Pow2(m) * Pow2(n)
  {
    if m != 0 { Pow2Adds(m - 1, n); }
  }

  lemma Scale(base: int, small: int, large: int)
    requires base >= 0 && small <= large
    ensures base * small <= base * large
  {
  }

  /** The doubling loop meets the closed form without ever overflowing: `delay * 2` is a
      `Duration`, so the verifier checks that each doubling stays inside 64 bits. */
  method Geometric(attempts: int, base: Duration, max: Duration) returns (delay: Duration)
    ensures delay as int == Delay(attempts, base as int, max as int)
  {
    if base <= 0 || max <= 0 {
      return 0;
    }
    var n := if attempts < 1 then 1 else attempts;
    delay := base;
    var i := 1;
    while i < n
      invariant 1 <= i <= n
      invariant delay > 0 && delay as int == base as int * Pow2(i - 1)
    {
      if delay >= max || delay > max / 2 {
        Pow2Monotone(i, n - 1);
        Scale(base as int, Pow2(i), Pow2(n - 1));
        assert base as int * Pow2(i) == 2 * (base as int * Pow2(i - 1));
        return max;
      }
      delay := delay * 2;
      i := i + 1;
    }
    if delay > max {
      return max;
    }
  }

  /** More failures never shorten the wait, and the cap is never exceeded. */
  lemma DelayMonotone(m: int, n: int, base: int, max: int)
    requires m <= n
    ensures 0 <= Delay(m, base, max) <= Delay(n, base, max)
    ensures base > 0 && max > 0 ==> Min(base, max) <= Delay(m, base, max) <= max
  {
    if base > 0 && max > 0 {
      var i := if m < 1 then 0 else m - 1;
      var j := if n < 1 then 0 else n - 1;
      Pow2Monotone(i, j);
      Scale(base, Pow2(i), Pow2(j));
      Scale(base, 1, Pow2(i));
    }
  }
}
