/**
 The delay arithmetic shared by the three retriers: pkg/retry/github_retry.go,
 pkg/retry/retry.go and pkg/services/retry_service.go.  Durations are nanoseconds; the
 floating-point intermediate values are reals.
 */
module Backoff {
  import opened Int64

  function Power(m: real, n: nat): real {
    if n == 0 then 1.0 else Power(m, n - 1) * m
  }

  method Pow(base: real, exp: nat) returns (result: real)
    ensures result == Power(base, exp)
  {
    result := 1.0;
    for i := 0 to exp
      invariant result == Power(base, i)
    {
      result := result * base;
    }
  }

  /** time.Duration(x): truncation toward zero. */
  function Truncate(x: real): int {
    if x >= 0.0 then x.Floor else -((-x).Floor)
  }

  function Min(a: real, b: real): real {
    if a > b then b else a
  }

  function Exponential(base: int, m: real, n: nat): real {
    base as real * Power(m, n)
  }

  function Capped(base: int, cap: int, m: real, n: nat): real {
    Min(Exponential(base, m, n), cap as real)
  }

  /** A random number in [0, 1) spreads a delay by up to ten percent either way. */
  function Spread(delay: real, u: real): real {
    delay + (u - 0.5) * 2.0 * (delay * 0.1)
  }

  function AddJitter(delay: real, u: real): real {
    if Spread(delay, u) < 0.0 then delay * 0.1 else Spread(delay, u)
  }

  /** The three calculate*Delay functions of the GitHub retrier. */
  function GitHubDelay(base: int, cap: int, m: real, jitter: bool, n: nat, u: real): int {
    var delay := Capped(base, cap, m, n);
    Truncate(if jitter then AddJitter(delay, u) else delay)
  }

  /** calculateDelay of the general retrier. */
  function RetrierDelay(base: int, cap: int, m: real, jitter: bool, n: nat, u: real): int {
    var delay := Capped(base, cap, m, n);
    var delay := if jitter then Spread(delay, u) else delay;
    Truncate(if jitter && delay < 0.0 then base as real else delay)
  }

  function CapAfterConversion(raw: real, cap: int, overflow: int): int {
    var delay := if raw < TWO_TO_63 as real then Truncate(raw) else overflow;
    if delay > cap then cap else delay
  }

  /** calculateDelay of the retry service converts to a 64-bit integer before it caps, so it
      also depends on what the platform makes of a float that does not fit. */
  function ServiceDelay(base: int, cap: int, n: nat, overflow: int): int {
    CapAfterConversion(Exponential(base, 2.0, n), cap, overflow)
  }

  lemma {:induction false} PowerIsPositive(m: real, n: nat)
    requires m >= 0.0
    ensures Power(m, n) >= 0.0
    ensures m >= 1.0 ==> Power(m, n) >= 1.0
  {
    if n == 0 {
    } else {
      PowerIsPositive(m, n - 1);
    }
  }

  lemma {:induction false} PowerGrows(m: real, i: nat, j: nat)
    requires m >= 1.0 && i <= j
    ensures Power(m, i) <= Power(m, j)
  {
    if i == j {
    } else {
      PowerGrows(m, i, j - 1);
      PowerIsPositive(m, j - 1);
      assert Power(m, j) == Power(m, j - 1) * m;
    }
  }

  lemma ProductIsNonNegative(x: real, y: real)
    requires x >= 0.0 && y >= 0.0
    ensures x * y >= 0.0
  {
  }

  lemma ExponentialIsNonNegative(base: int, m: real, n: nat)
    requires base >= 0 && m >= 0.0
    ensures Exponential(base, m, n) >= 0.0
  {
    PowerIsPositive(m, n);
    ProductIsNonNegative(base as real, Power(m, n));
  }

  lemma CappedIsSane(base: int, cap: int, m: real, n: nat)
    requires base >= 0 && cap >= 0 && m >= 0.0
    ensures 0.0 <= Capped(base, cap, m, n) <= cap as real
  {
    ExponentialIsNonNegative(base, m, n);
  }

  lemma SpreadIsATenth(d: real, u: real)
    requires d >= 0.0 && 0.0 <= u < 1.0
    ensures 0.9 * d <= Spread(d, u) <= 1.1 * d
  {
    var share := d * u;
    ProductIsNonNegative(d, u);
    ProductIsNonNegative(d, 1.0 - u);
    assert d * (1.0 - u) == d - share;
    assert Spread(d, u) == 0.9 * d + 0.2 * share;
  }

  lemma SpreadGrows(d: real, u: real, v: real)
    requires d >= 0.0 && u <= v
    ensures Spread(d, u) <= Spread(d, v)
    ensures Spread(d, 0.0) == 0.9 * d && Spread(d, 0.5) == d
  {
    ProductIsNonNegative(d, v - u);
    assert Spread(d, v) - Spread(d, u) == 0.2 * (d * (v - u));
  }

  /** Even with jitter a delay is never more than a tenth above its cap, and never negative. */
  lemma DelayIsBounded(base: int, cap: int, m: real, jitter: bool, n: nat, u: real)
    requires base >= 0 && cap >= 0 && m >= 0.0 && 0.0 <= u < 1.0
    ensures 0 <= GitHubDelay(base, cap, m, jitter, n, u)
    ensures GitHubDelay(base, cap, m, jitter, n, u) as real <= 1.1 * cap as real
    ensures !jitter ==> GitHubDelay(base, cap, m, jitter, n, u) <= cap
  {
    CappedIsSane(base, cap, m, n);
    var d := Capped(base, cap, m, n);
    SpreadIsATenth(d, u);
  }

  lemma FloorIsMonotone(x: real, y: real)
    requires x <= y
    ensures x.Floor <= y.Floor
  {
  }

  /** Without jitter a delay is base times multiplier^n, cut to whole nanoseconds and to the cap. */
  lemma DelayIsExponential(base: int, cap: int, m: real, n: nat, u: real)
    requires base >= 0 && cap >= 0 && m >= 0.0
    ensures GitHubDelay(base, cap, m, false, n, u) ==
            if base as real * Power(m, n) > cap as real then cap else (base as real * Power(m, n)).Floor
  {
    ExponentialIsNonNegative(base, m, n);
  }

  lemma JitteredSpread(d: real, u: real)
    requires d >= 0.0 && 0.0 <= u < 1.0
    ensures AddJitter(d, u) == Spread(d, u) && 0.9 * d <= Spread(d, u) <= 1.1 * d
  {
    SpreadIsATenth(d, u);
  }

  lemma JitteredDelay(base: int, cap: int, m: real, n: nat, u: real, d: real)
    requires base >= 0 && cap >= 0 && m >= 0.0 && 0.0 <= u < 1.0 && d == Capped(base, cap, m, n)
    ensures 0.0 <= d && GitHubDelay(base, cap, m, true, n, u) == Spread(d, u).Floor
  {
    CappedIsSane(base, cap, m, n);
    JitteredSpread(d, u);
  }

  /** With jitter it is within a tenth of that either way, and grows with the random number. */
  lemma JitterIsATenth(base: int, cap: int, m: real, n: nat, u: real, v: real, d: real)
    requires base >= 0 && cap >= 0 && m >= 0.0 && 0.0 <= u <= v < 1.0
    requires d == if base as real * Power(m, n) > cap as real then cap as real else base as real * Power(m, n)
    ensures (0.9 * d).Floor <= GitHubDelay(base, cap, m, true, n, u) <= (1.1 * d).Floor
    ensures GitHubDelay(base, cap, m, true, n, u) <= GitHubDelay(base, cap, m, true, n, v)
    ensures u == 0.0 ==> GitHubDelay(base, cap, m, true, n, u) == (0.9 * d).Floor
    ensures u == 0.5 ==> GitHubDelay(base, cap, m, true, n, u) == d.Floor
  {
    JitteredDelay(base, cap, m, n, u, d);
    JitteredDelay(base, cap, m, n, v, d);
    JitteredSpread(d, u);
    SpreadGrows(d, u, v);
    FloorIsMonotone(0.9 * d, Spread(d, u));
    FloorIsMonotone(Spread(d, u), 1.1 * d);
    FloorIsMonotone(Spread(d, u), Spread(d, v));
  }

  lemma SpreadOfNegative(d: real, u: real)
    requires d < 0.0 && 0.0 <= u < 1.0
    ensures Spread(d, u) < 0.0
  {
    SpreadIsATenth(-d, u);
    assert Spread(-d, u) == -Spread(d, u);
  }

  /** A setting below zero, which nothing forbids, is cut toward zero too; with jitter a tenth of it stays in
      one retrier, and the general one falls back to its base delay. */
  lemma NegativeDelays(base: int, cap: int, m: real, n: nat, u: real, d: real)
    requires d == Capped(base, cap, m, n) && d < 0.0 && 0.0 <= u < 1.0
    ensures d <= GitHubDelay(base, cap, m, false, n, u) as real < d + 1.0
    ensures 0.1 * d <= GitHubDelay(base, cap, m, true, n, u) as real < 0.1 * d + 1.0
    ensures RetrierDelay(base, cap, m, true, n, u) == base
    ensures RetrierDelay(base, cap, m, false, n, u) == GitHubDelay(base, cap, m, false, n, u)
  {
    SpreadOfNegative(d, u);
  }

  /** Without jitter, delays never shrink from one attempt to a later one. */
  lemma DelayIsMonotone(base: int, cap: int, m: real, i: nat, j: nat, u: real, v: real)
    requires base >= 0 && cap >= 0 && m >= 1.0 && i <= j
    ensures GitHubDelay(base, cap, m, false, i, u) <= GitHubDelay(base, cap, m, false, j, v)
  {
    PowerGrows(m, i, j);
    CappedIsSane(base, cap, m, i);
    CappedIsSane(base, cap, m, j);
    assert base as real * Power(m, i) <= base as real * Power(m, j);
    FloorIsMonotone(Capped(base, cap, m, i), Capped(base, cap, m, j));
  }

  /** Each capped delay is the previous one times the multiplier, up to the cap. */
  lemma CappedRecurrence(base: int, cap: int, m: real, n: nat)
    requires base >= 0 && cap >= 0 && m >= 1.0
    ensures Capped(base, cap, m, 0) == Min(base as real, cap as real)
    ensures Capped(base, cap, m, n + 1) == Min(Capped(base, cap, m, n) * m, cap as real)
  {
  }

  /** The two retriers of pkg/retry agree, whatever the random number is. */
  lemma RetriersAgree(base: int, cap: int, m: real, jitter: bool, n: nat, u: real)
    requires base >= 0 && cap >= 0 && m >= 0.0 && 0.0 <= u < 1.0
    ensures RetrierDelay(base, cap, m, jitter, n, u) == GitHubDelay(base, cap, m, jitter, n, u)
  {
    CappedIsSane(base, cap, m, n);
    var d := Capped(base, cap, m, n);
    SpreadIsATenth(d, u);
  }

  /** The retry service agrees with them exactly as long as its product still fits in 64 bits, or
      the platform's out-of-range conversion happens to be at least the cap. */
  lemma ServiceAgreesIff(base: int, cap: int, n: nat, u: real, overflow: int)
    requires base >= 0 && 0 <= cap < TWO_TO_63
    ensures ServiceDelay(base, cap, n, overflow) == GitHubDelay(base, cap, 2.0, false, n, u) <==>
              Exponential(base, 2.0, n) < TWO_TO_63 as real || overflow >= cap
  {
  }
}
