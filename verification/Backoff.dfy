/** The capped exponential backoff used by target retries, notification deliveries,
    scheduled reconciliation and target probes. */
module Backoff {
  import opened Prelude

  /** The last attempt whose delay can be computed without a clamp when the base is a
      floating-point number: the next power of two, 2^1024, has no such value, and
      multiplying by it raises. */
  const LAST_ATTEMPT: nat := 1024

  /** base * 2^k. */
  function Scaled(base: real, k: nat): real {
    if k == 0 then base else 2.0 * Scaled(base, k - 1)
  }

  /** min(base * 2^(attempt - 1), max): the delay after the given consecutive failure. */
  function Delay(base: real, max: real, attempt: nat): real
    requires attempt >= 1
  {
    Min(Scaled(base, attempt - 1), max)
  }

  /** The target-probe form, whose exponent is clamped at 30. */
  function ClampedDelay(base: real, max: real, attempt: nat): real
    requires attempt >= 1
  {
    Min(Scaled(base, if attempt - 1 <= 30 then attempt - 1 else 30), max)
  }

  /** Total waiting over n consecutive failures. */
  function TotalDelay(base: real, max: real, n: nat): real {
    if n == 0 then 0.0 else TotalDelay(base, max, n - 1) + Delay(base, max, n)
  }

  function Pow2(k: nat): nat {
    if k == 0 then 1 else 2 * Pow2(k - 1)
  }

  lemma {:induction false} ScaledIsPowerOfTwo(base: real, k: nat)
    ensures Scaled(base, k) == base * Pow2(k) as real
  {
    if k > 0 {
      ScaledIsPowerOfTwo(base, k - 1);
      var p := Pow2(k - 1);
      assert (2 * p) as real == 2.0 * p as real;
    }
  }

  lemma {:induction false} ScaledMonotone(base: real, j: nat, k: nat)
    requires base >= 0.0
    requires j <= k
    ensures base <= Scaled(base, j) <= Scaled(base, k)
    decreases k
  {
    if j < k {
      ScaledMonotone(base, j, k - 1);
    } else if k > 0 {
      ScaledMonotone(base, k - 1, k - 1);
    }
  }

  /** Delays never shrink as failures accumulate, and never exceed the configured cap. */
  lemma DelayMonotoneAndCapped(base: real, max: real, m: nat, n: nat)
    requires base >= 0.0
    requires 1 <= m <= n
    ensures Delay(base, max, m) <= Delay(base, max, n) <= max
    ensures base <= max ==> base <= Delay(base, max, m)
  {
    ScaledMonotone(base, m - 1, n - 1);
  }

  /** The delays themselves, one from the other: the base first, then twice the one before, and
      never more than the cap. */
  lemma DelayDoubles(base: real, max: real, attempt: nat)
    requires base >= 0.0 && attempt >= 1
    ensures Delay(base, max, 1) == if base < max then base else max
    ensures Delay(base, max, attempt + 1)
         == if Delay(base, max, attempt) < max && 2.0 * Delay(base, max, attempt) < max
            then 2.0 * Delay(base, max, attempt) else max
  {
    ScaledMonotone(base, 0, attempt - 1);
  }

  /** n failures wait at most base * (2^n - 1), and at most n times the cap. */
  lemma {:induction false} TotalDelayBound(base: real, max: real, n: nat)
    ensures TotalDelay(base, max, n) <= Scaled(base, n) - base
    ensures TotalDelay(base, max, n) <= n as real * max
  {
    if n > 0 {
      TotalDelayBound(base, max, n - 1);
      assert n as real * max == (n - 1) as real * max + max;
    }
  }

  lemma {:induction false} ScaledStrict(base: real, j: nat, k: nat)
    requires base > 0.0
    requires j < k
    ensures Scaled(base, j) < Scaled(base, k)
    decreases k
  {
    ScaledMonotone(base, j, k - 1);
  }

  /** The clamped delays: they double up to the 31st failure and then stay. */
  lemma ClampedDelayDoubles(base: real, max: real, attempt: nat)
    requires base >= 0.0 && attempt >= 1
    ensures ClampedDelay(base, max, 1) == if base < max then base else max
    ensures ClampedDelay(base, max, attempt + 1)
         == if attempt > 30 then ClampedDelay(base, max, attempt)
            else if ClampedDelay(base, max, attempt) < max && 2.0 * ClampedDelay(base, max, attempt) < max
            then 2.0 * ClampedDelay(base, max, attempt) else max
  {
    ScaledMonotone(base, 0, attempt - 1);
  }

  /** Clamping the exponent changes no delay exactly when the clamp already reaches the cap. */
  lemma {:induction false} ClampIsInvisible(base: real, max: real)
    requires base > 0.0
    ensures (forall attempt: nat | attempt >= 1 :: ClampedDelay(base, max, attempt) == Delay(base, max, attempt))
       <==> Scaled(base, 30) >= max
  {
    if Scaled(base, 30) >= max {
      forall attempt: nat | attempt >= 1
        ensures ClampedDelay(base, max, attempt) == Delay(base, max, attempt)
      {
        if attempt - 1 > 30 {
          ScaledMonotone(base, 30, attempt - 1);
        }
      }
    } else {
      ScaledStrict(base, 30, 31);
      assert ClampedDelay(base, max, 32) != Delay(base, max, 32);
    }
  }
}
