/** The retry delay: a duration that doubles with every attempt, in 64-bit arithmetic. */
module RetryDelays {
  const TWO62: int := 0x4000_0000_0000_0000
  const TWO63: int := 0x8000_0000_0000_0000
  const TWO64: int := 0x1_0000_0000_0000_0000

  predicate Int64(x: int) {
    -TWO63 <= x < TWO63
  }

  /** Twice a 64-bit integer, wrapped. */
  function Twice(x: int): (y: int)
    requires Int64(x)
    ensures Int64(y)
  {
    if 2 * x >= TWO63 then 2 * x - TWO64 else if 2 * x < -TWO63 then 2 * x + TWO64 else 2 * x
  }

  /** The rest of the doubling loop with some rounds left. */
  function Doubled(delay: int, max: int, rounds: int): int
    requires Int64(delay)
    decreases rounds
  {
    if rounds <= 0 || delay >= max then delay
    else if Twice(delay) > max then max
    else Doubled(Twice(delay), max, rounds - 1)
  }

  function Delay(base: int, max: int, attempt: int): int
    requires Int64(base)
  {
    Doubled(base, max, attempt - 1)
  }

  method RetryDelay(base: int, max: int, attempt: int) returns (delay: int)
    requires Int64(base)
    ensures delay == Delay(base, max, attempt)
  {
    delay := base;
    var current := 1;
    while current < attempt && delay < max
      invariant Int64(delay) && Doubled(delay, max, attempt - current) == Delay(base, max, attempt)
      decreases attempt - current
    {
      delay := Twice(delay);
      current := current + 1;
      if delay > max {
        return max;
      }
    }
  }

  // ----- The delay in unbounded arithmetic

  function Pow2(n: nat): (p: nat)
    ensures p > 0
  {
    if n == 0 then 1 else 2 * Pow2(n - 1)
  }

  function Min(a: int, b: int): int {
    if a <= b then a else b
  }

  /** The next power in terms of a doubled base. */
  lemma ShiftPower(base: int, k: nat)
    ensures (2 * base) * Pow2(k) == base * Pow2(k + 1)
  {
  }

  /** Some doubling of the base lies below the maximum and cannot be doubled in 64 bits. */
  ghost predicate Overflows(base: int, max: int) {
    exists k: nat :: TWO62 <= base * Pow2(k) < max
  }

  lemma TwiceOverflows(base: int, max: int)
    requires Overflows(2 * base, max)
    ensures Overflows(base, max)
  {
    var k: nat :| TWO62 <= (2 * base) * Pow2(k) < max;
    ShiftPower(base, k);
    assert TWO62 <= base * Pow2(k + 1) < max;
  }

  lemma OverflowsAtOnce(base: int, max: int)
    ensures TWO62 <= base < max ==> Overflows(base, max)
  {
    assert base * Pow2(0) == base;
  }

  lemma {:induction false} PowerGrows(base: int, n: nat)
    requires base > 0
    ensures base * Pow2(n) >= base
  {
  }

  lemma {:induction false} DoubledExact(base: int, max: int, rounds: nat)
    requires 0 < base < TWO63 && max < TWO63 && !Overflows(base, max)
    requires base <= max
    ensures Doubled(base, max, rounds) == Min(base * Pow2(rounds), max)
    decreases rounds
  {
    PowerGrows(base, rounds);
    if rounds > 0 && base < max {
      OverflowsAtOnce(base, max);
      ShiftPower(base, rounds - 1);
      PowerGrows(2 * base, rounds - 1);
      if 2 * base <= max {
        if Overflows(2 * base, max) {
          TwiceOverflows(base, max);
        }
        DoubledExact(2 * base, max, rounds - 1);
      }
    }
  }

  /** As long as the doublings fit, the loop goes through them. */
  lemma DoubledReaches(base: int, max: int, k: nat, rounds: nat)
    requires 0 < base && max < TWO63 && base * Pow2(k) < max && k <= rounds
    ensures base < TWO63 && base * Pow2(k) < TWO63
    ensures Doubled(base, max, rounds) == Doubled(base * Pow2(k), max, rounds - k)
    decreases k
  {
    PowerGrows(base, k);
    if k > 0 {
      ShiftPower(base, k - 1);
      PowerGrows(2 * base, k - 1);
      DoubledReaches(2 * base, max, k - 1, rounds - 1);
    }
  }

  /** At an overflow the delay turns negative. */
  lemma {:induction false} DelayOverflows(base: int, max: int, k: nat)
    requires 0 < base <= max < TWO63 && TWO62 <= base * Pow2(k) < max
    ensures Delay(base, max, k + 2) < 0
  {
    DoubledReaches(base, max, k, k + 1);
    var d := base * Pow2(k);
    assert Doubled(d, max, 1) == Doubled(Twice(d), max, 0);
  }

  lemma PowerSum(m: nat, n: nat)
    ensures Pow2(m + n) == Pow2(m) * Pow2(n)
  {
    if m > 0 {
      PowerSum(m - 1, n);
    }
  }

  /** A base of one second under the largest maximum: the delay of attempt 35 is negative. */
  lemma OneSecondOverflows()
    ensures Delay(1_000_000_000, TWO63 - 1, 35) < 0
  {
    assert Pow2(11) == 0x800;
    PowerSum(11, 11);
    PowerSum(22, 11);
    DelayOverflows(1_000_000_000, TWO63 - 1, 33);
  }

  /**
   The delay of attempt n is the smaller of base * 2^(n-1) and the maximum, for every n,
   exactly when no doubling below the maximum overflows.
   */
  lemma DelayExactly(base: int, max: int)
    requires 0 < base <= max < TWO63
    ensures (forall n: nat | n >= 1 :: Delay(base, max, n) == Min(base * Pow2(n - 1), max)) <==> !Overflows(base, max)
  {
    if Overflows(base, max) {
      var k: nat :| TWO62 <= base * Pow2(k) < max;
      DelayOverflows(base, max, k);
      PowerGrows(base, k + 1);
      assert Delay(base, max, k + 2) != Min(base * Pow2(k + 1), max);
    } else {
      forall n: nat | n >= 1 ensures Delay(base, max, n) == Min(base * Pow2(n - 1), max) {
        DoubledExact(base, max, n - 1);
      }
    }
  }

  lemma {:induction false} PowerMonotone(m: nat, n: nat)
    requires m <= n
    ensures Pow2(m) <= Pow2(n)
  {
    if m < n {
      PowerMonotone(m, n - 1);
    }
  }

  /** With a maximum of at most 2^62 nothing overflows and the delay never shrinks. */
  lemma DelayMonotone(base: int, max: int, m: nat, n: nat)
    requires 0 < base <= max <= TWO62 && 1 <= m <= n
    ensures !Overflows(base, max)
    ensures base <= Delay(base, max, m) <= Delay(base, max, n) <= max
  {
    DoubledExact(base, max, m - 1);
    DoubledExact(base, max, n - 1);
    PowerGrows(base, m - 1);
    PowerMonotone(m - 1, n - 1);
    ProductMonotone(base, Pow2(m - 1), Pow2(n - 1));
  }

  lemma ProductMonotone(a: int, x: int, y: int)
    requires a > 0 && x <= y
    ensures a * x <= a * y
  {
  }

  /** A base above the maximum is returned as it is. */
  lemma BaseAboveMax(base: int, max: int, attempt: int)
    requires Int64(base) && base > max
    ensures Delay(base, max, attempt) == base
  {
  }
}
