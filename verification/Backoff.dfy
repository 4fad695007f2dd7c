/** The shared exponential backoff curve, in the machine integers of the original. */
module Backoff {
  import opened Wrappers

  const U64_MAX: nat := 0xffff_ffff_ffff_ffff
  type U64 = n: nat | n <= U64_MAX

  datatype BackoffPolicy = BackoffPolicy(max_attempts: nat, base_delay_ms: U64, max_delay_ms: U64)

  function Min(a: nat, b: nat): nat { if a <= b then a else b }

  function SaturatingMul(a: U64, b: U64): U64 { Min(a * b, U64_MAX) }

  function Shifted(n: nat): (r: nat)
    ensures r >= 1
  {
    if n == 0 then 1 else 2 * Shifted(n - 1)
  }

  lemma ShiftFits(n: nat)
    requires n <= 16
    ensures Shifted(n) <= 65536
  {
    ShiftedMonotone(n, 16);
    assert Shifted(4) == 16 && Shifted(8) == 256 && Shifted(12) == 4096;
  }

  lemma {:induction false} ShiftedMonotone(m: nat, n: nat)
    requires m <= n
    ensures Shifted(m) <= Shifted(n)
  {
    if m < n {
      ShiftedMonotone(m, n - 1);
    }
  }

  /** `delay`: attempts count from one; the shift stops growing after sixteen doublings. */
  function Delay(attempt: nat, retry_after_ms: Option<U64>, policy: BackoffPolicy): nat
    requires attempt >= 1
  {
    match retry_after_ms
    case Some(ra) => Min(ra, policy.max_delay_ms)
    case None =>
      ShiftFits(Min(attempt - 1, 16));
      Min(SaturatingMul(policy.base_delay_ms, Shifted(Min(attempt - 1, 16))), policy.max_delay_ms)
  }

  lemma DelayCapped(attempt: nat, retry_after_ms: Option<U64>, policy: BackoffPolicy)
    requires attempt >= 1
    ensures Delay(attempt, retry_after_ms, policy) <= policy.max_delay_ms
    ensures retry_after_ms.Some? && retry_after_ms.value <= policy.max_delay_ms ==>
              Delay(attempt, retry_after_ms, policy) == retry_after_ms.value
  {
  }

  lemma ProductGrows(base: nat, x: nat, y: nat)
    requires x <= y
    ensures base * x <= base * y
  {
  }

  /** The computed waits never shrink from one attempt to a later one. */
  lemma DelayNonDecreasing(a: nat, b: nat, policy: BackoffPolicy)
    requires 1 <= a <= b
    ensures Delay(a, None, policy) <= Delay(b, None, policy)
  {
    var m, n := Min(a - 1, 16), Min(b - 1, 16);
    ShiftedMonotone(m, n);
    ProductGrows(policy.base_delay_ms, Shifted(m), Shifted(n));
  }

  /** The first wait is the base, each further one doubles until the ceiling, and after 17 attempts nothing changes. */
  lemma DelayDoubles(attempt: nat, policy: BackoffPolicy)
    requires attempt >= 1
    ensures Delay(1, None, policy) == Min(policy.base_delay_ms, policy.max_delay_ms)
    ensures attempt <= 16 ==>
              Delay(attempt + 1, None, policy) == Min(2 * Delay(attempt, None, policy), policy.max_delay_ms)
    ensures attempt >= 17 ==> Delay(attempt, None, policy) == Delay(17, None, policy)
  {
    if attempt <= 16 {
      var base := policy.base_delay_ms;
      Doubling(base, Shifted(attempt - 1));
      assert Shifted(attempt) == 2 * Shifted(attempt - 1);
    }
  }

  lemma Doubling(base: nat, x: nat)
    ensures base * (2 * x) == 2 * (base * x)
  {
  }
}
