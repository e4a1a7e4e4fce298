/**
  The C library's `rand()` as an injected source of values, and the three
  ways the bot turns a draw into a choice.
 */
module Rand {

  /** glibc's `RAND_MAX`. */
  const RAND_MAX: int := 2147483647

  /** A value `rand()` can return. */
  type RandValue = x: int | 0 <= x <= RAND_MAX

  /**
    The sequence of values successive `rand()` calls return; the caller keeps
    a cursor saying how many have been consumed.
   */
  type RandStream = nat -> RandValue

  /** 2^53: every integer below it is exactly representable as a `double`. */
  const DOUBLE_EXACT: int := 0x20_0000_0000_0000

  /**
    `getRand(n)`: scales a draw to `0..n-1`. In the C code this is computed in
    double precision. While `n * RAND_MAX` stays below 2^53 the product is
    exact, and dividing by `RAND_MAX + 1 == 2^31` only shifts the exponent,
    so the truncating conversion is integer division.
   */
  function GetRand(n: int, v: RandValue): (a: int)
    requires 0 < n && n * RAND_MAX < DOUBLE_EXACT
    ensures 0 <= a < n
    ensures a * (RAND_MAX + 1) <= n * v < (a + 1) * (RAND_MAX + 1)
  {
    assert n * v <= n * RAND_MAX < n * (RAND_MAX + 1);
    (n * v) / (RAND_MAX + 1)
  }

  /** `randrange(lower, upper)`: `rand() % (upper - lower + 1) + lower`. */
  function RandRange(lower: int, upper: int, v: RandValue): (r: int)
    requires lower <= upper
    ensures lower <= r <= upper
    ensures (r - lower) % (upper - lower + 1) == v % (upper - lower + 1)
  {
    var w := upper - lower + 1;
    var m := v % w;
    assert 0 <= m < w;
    assert m % w == m;
    m + lower
  }

  /** A factor whose product with `RAND_MAX` is below 2^53 is at most 2^31. */
  lemma SmallFactor(n: int)
    requires 0 < n && n * RAND_MAX < DOUBLE_EXACT
    ensures n <= RAND_MAX + 1
  {
    var m := if n <= RAND_MAX + 1 then n else RAND_MAX + 2;
    MulMonotone(m, n, RAND_MAX);
  }

  lemma MulMonotone(x: int, y: int, z: int)
    requires 0 <= z && x <= y
    ensures x * z <= y * z
  {
  }

  /** Ceiling division: `n` times the rounded-up quotient overshoots by less than `n`. */
  lemma CeilQuotient(t: int, n: int)
    requires 0 < n && 0 <= t
    ensures t - n < n * (t / n) <= t
  {
  }

  /** Every outcome of `GetRand` is reached by some draw. */
  lemma GetRandReachesAll(n: int, a: int)
    requires 0 < n && n * RAND_MAX < DOUBLE_EXACT && 0 <= a < n
    ensures var v := (a * (RAND_MAX + 1) + n - 1) / n;
            0 <= v <= RAND_MAX && GetRand(n, v) == a
  {
    var t := a * 0x8000_0000 + n - 1;
    var v := t / n;
    CeilQuotient(t, n);
    SmallFactor(n);
    MulMonotone(a + 1, n, 0x8000_0000);
    var w := if v <= RAND_MAX then v else 0x8000_0000;
    MulMonotone(w, v, n);
    assert v <= RAND_MAX;
    var g := GetRand(n, v);
    assert a * 0x8000_0000 <= n * v < (a + 1) * 0x8000_0000;
  }
}
