/** verificationDelay of api/worker.go: doubling with a ceiling. Durations count nanoseconds, as time.Duration does. */
module Backoff {
  const FIVE_MINUTES: int := 300_000_000_000

  function Doubled(base: int, times: nat): int {
    if times == 0 then base else 2 * Doubled(base, times - 1)
  }

  lemma {:induction false} DoubledGrows(base: int, i: nat, j: nat)
    requires 0 <= base && i <= j
    ensures 0 <= Doubled(base, i) <= Doubled(base, j)
    decreases i + j
  {
    if i > 0 {
      DoubledGrows(base, i - 1, j - 1);
    } else if j > 0 {
      DoubledGrows(base, 0, j - 1);
    }
  }

  /** base * 2^attempt, held at five minutes; a base already above the ceiling is returned as it is. */
  function Delay(base: nat, attempt: nat): nat {
    DoubledGrows(base, 0, attempt);
    if base > FIVE_MINUTES then base
    else if Doubled(base, attempt) > FIVE_MINUTES then FIVE_MINUTES
    else Doubled(base, attempt)
  }

  /** The loop of verificationDelay. */
  method VerificationDelay(base: nat, attempt: nat) returns (delay: nat)
    ensures delay == Delay(base, attempt)
  {
    delay := base;
    var i := 0;
    while i < attempt && delay < FIVE_MINUTES
      invariant 0 <= i <= attempt
      invariant delay == Doubled(base, i)
      invariant i > 0 ==> base < FIVE_MINUTES && delay <= FIVE_MINUTES
    {
      delay := delay * 2;
      i := i + 1;
      if delay > FIVE_MINUTES {
        DoubledGrows(base, i, attempt);
        DoubledGrows(base, i - 1, attempt);
        DoubledGrows(base, 0, i - 1);
        return FIVE_MINUTES;
      }
    }
    DoubledGrows(base, i, attempt);
  }

  /** The ceiling is respected exactly when the configured base respects it; within it delays never shrink. */
  lemma {:induction false} DelayBounded(base: nat, attempt: nat)
    ensures Delay(base, attempt) <= FIVE_MINUTES <==> base <= FIVE_MINUTES
    ensures Delay(base, attempt) <= Delay(base, attempt + 1)
    ensures base <= Delay(base, attempt)
  {
    DoubledGrows(base, 0, attempt);
    DoubledGrows(base, attempt, attempt + 1);
  }

  /** Without an attempt the delay is the base; each attempt doubles it, up to five minutes of nanoseconds. */
  lemma {:induction false} DelayDoubles(base: nat, attempt: nat)
    requires base <= FIVE_MINUTES
    ensures FIVE_MINUTES == 5 * 60 * 1_000_000_000
    ensures Delay(base, 0) == base
    ensures Delay(base, attempt + 1)
         == if 2 * Delay(base, attempt) > FIVE_MINUTES then FIVE_MINUTES else 2 * Delay(base, attempt)
  {
    DoubledGrows(base, attempt, attempt + 1);
    DoubledGrows(base, 0, attempt);
  }
}
