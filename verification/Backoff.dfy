/** The retry delay of a failed crawl, with Rust's saturating machine arithmetic,
    and what it amounts to over a series of failures. */
module Backoff {

  const I32_MAX := 0x7fff_ffff
  const I64_MAX := 0x7fff_ffff_ffff_ffff
  const MAX_DELAY := 86_400

  function Min(a: int, b: int): int {
    if a <= b then a else b
  }

  function Max(a: int, b: int): int {
    if a >= b then a else b
  }

  function Pow2(n: nat): (p: int)
    ensures p >= n + 1
  {
    if n == 0 then 1 else 2 * Pow2(n - 1)
  }

  /** `i32::saturating_add(1)` on a value that is never below -1. */
  function SaturatingInc32(a: int): int {
    Min(a + 1, I32_MAX)
  }

  /** `i64::saturating_pow` for base two. */
  function SaturatingPow2(exponent: nat): int {
    Min(Pow2(exponent), I64_MAX)
  }

  /** `i64::saturating_mul` for operands that are not negative. */
  function SaturatingMul64(a: nat, b: nat): int {
    Min(a * b, I64_MAX)
  }

  function Clamp(a: int, lo: int, hi: int): int {
    Max(lo, Min(a, hi))
  }

  function RetryBackoffSeconds(attempt: int): int {
    var exponent := Clamp(attempt, 1, 16);
    Min(SaturatingMul64(30, SaturatingPow2(exponent - 1)), MAX_DELAY)
  }

  /** The delay the design promises before retry number `n`. */
  function Delay(n: nat): int
    requires n >= 1
  {
    Min(30 * Pow2(n - 1), MAX_DELAY)
  }

  lemma {:induction false} Pow2Monotone(m: nat, n: nat)
    requires m <= n
    ensures Pow2(m) <= Pow2(n)
    decreases n
  {
    if m < n {
      Pow2Monotone(m, n - 1);
    }
  }

  lemma Pow2Values()
    ensures Pow2(11) == 2048 && Pow2(12) == 4096 && Pow2(15) == 32768
  {
    assert Pow2(4) == 16;
    assert Pow2(8) == 256;
    assert Pow2(11) == 2048;
  }

  /** Neither the exponent clamp nor a saturating operation ever shows: on every attempt
      number the delay is thirty seconds doubled per earlier failure, capped at a day. */
  lemma BackoffIsCappedDoubling(attempt: int)
    ensures RetryBackoffSeconds(attempt) == Delay(Max(attempt, 1))
    ensures 30 <= RetryBackoffSeconds(attempt) <= MAX_DELAY
  {
    Pow2Values();
    var n := Max(attempt, 1);
    if n <= 16 {
      Pow2Monotone(n - 1, 15);
    } else {
      Pow2Monotone(15, n - 1);
    }
  }

  lemma DelayMonotone(m: nat, n: nat)
    requires 1 <= m <= n
    ensures Delay(m) <= Delay(n)
  {
    Pow2Monotone(m - 1, n - 1);
  }

  /** Seconds waited after the first `n` failures in a row. */
  function TotalDelay(n: nat): int {
    if n == 0 then 0 else TotalDelay(n - 1) + RetryBackoffSeconds(n)
  }

  lemma {:induction false} TotalDelayClosedForm(n: nat)
    ensures n <= 12 ==> TotalDelay(n) == 30 * (Pow2(n) - 1)
    ensures n >= 12 ==> TotalDelay(n) == 122_850 + MAX_DELAY * (n - 12)
  {
    Pow2Values();
    if n > 0 {
      TotalDelayClosedForm(n - 1);
      BackoffIsCappedDoubling(n);
      if n <= 12 {
        Pow2Monotone(n - 1, 11);
      } else {
        Pow2Monotone(12, n - 1);
      }
    }
  }
}
