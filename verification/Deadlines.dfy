/** The arithmetic of a turn's deadline: the budget, its reserve and the retry backoff, in seconds. */
module Deadlines {
  function Max(a: real, b: real): real {
    if a < b then b else a
  }

  function Min(a: real, b: real): real {
    if b < a then b else a
  }

  datatype TurnBudget = TurnBudget(deadline: real, reserve: real) {
    function Remaining(now: real): real {
      Max(0.0, deadline - now)
    }

    function BeforeReserve(now: real): real {
      Max(0.0, Remaining(now) - reserve)
    }

    /** The reserve is still whole. */
    predicate Whole(now: real) {
      now <= deadline - reserve
    }
  }

  datatype Config = Config(
    totalDeadline: real, connectTimeout: real, attemptTimeout: real, supabaseTimeout: real,
    commitReserve: real, maxAttempts: nat, baseBackoff: real, maxBackoff: real, maxJitter: real)
  {
    predicate Valid() {
      && 0.0 < totalDeadline <= 300.0
      && 0.0 < connectTimeout <= attemptTimeout < totalDeadline
      && 0.0 < supabaseTimeout
      && 2.0 * supabaseTimeout <= commitReserve < totalDeadline
      && 1 <= maxAttempts <= 5
      && 0.0 < baseBackoff <= maxBackoff
      && 0.0 <= maxJitter <= 1.0
    }
  }

  /** An await whose timeout comes out of the budget before the reserve leaves the reserve whole. */
  lemma TimedAwaitKeepsReserve(b: TurnBudget, now: real, timeout: real, spent: real)
    requires b.Whole(now) && b.reserve >= 0.0
    requires timeout <= b.BeforeReserve(now) && 0.0 <= spent <= timeout
    ensures b.Whole(now + spent)
  {
  }

  /** A budget that still has time before its reserve has its reserve whole, and conversely up to the last instant. */
  lemma TimeLeft(b: TurnBudget, now: real)
    requires b.reserve >= 0.0
    ensures b.BeforeReserve(now) > 0.0 <==> now < b.deadline - b.reserve
    ensures b.Whole(now) ==> b.Remaining(now) >= b.reserve
  {
  }

  // ----- backoff

  function Pow2(n: nat): (r: real)
    ensures r >= 1.0
  {
    if n == 0 then 1.0 else 2.0 * Pow2(n - 1)
  }

  /** The delay without jitter. */
  function Delay(attempt: nat, base: real, cap: real): real {
    Min(base * Pow2(attempt), cap)
  }

  function ComputeBackoff(attempt: int, base: real, cap: real, jitterFraction: real, random: real): real {
    if attempt < 0 then 0.0
    else
      var delay := Delay(attempt, base, cap);
      Min(delay + Jitter(delay, jitterFraction, random), cap)
  }

  function Jitter(delay: real, fraction: real, random: real): real {
    Times(Times(delay, fraction), random)
  }

  function Times(a: real, b: real): real {
    a * b
  }

  lemma JitterBounds(delay: real, fraction: real, random: real)
    requires delay >= 0.0 && 0.0 <= fraction <= 1.0 && 0.0 <= random < 1.0
    ensures 0.0 <= Jitter(delay, fraction, random) <= delay
  {
    hide Times;
    ProductBelow(delay, fraction);
    ProductBelow(Times(delay, fraction), random);
  }

  lemma Product(a: real, b: real)
    requires a >= 0.0 && b >= 0.0
    ensures a * b >= 0.0
  {
  }

  lemma ProductBelow(a: real, b: real)
    requires a >= 0.0 && 0.0 <= b <= 1.0
    ensures 0.0 <= Times(a, b) <= a
  {
    Product(a, 1.0 - b);
    Product(a, b);
    assert a * (1.0 - b) == a - a * b;
  }

  lemma ScaleUp(base: real, p: real)
    requires base > 0.0 && p >= 1.0
    ensures base * p >= base
  {
    Product(base, p - 1.0);
    assert base * p == base + base * (p - 1.0);
  }

  /** Never above the cap, never below the base, and never less than the delay without jitter. */
  lemma BackoffBounds(attempt: int, base: real, cap: real, jitterFraction: real, random: real)
    requires 0.0 < base <= cap && 0.0 <= jitterFraction <= 1.0 && 0.0 <= random < 1.0
    ensures var r := ComputeBackoff(attempt, base, cap, jitterFraction, random);
            && 0.0 <= r <= cap
            && (attempt >= 0 ==> base <= Delay(attempt, base, cap) <= r <= 2.0 * Delay(attempt, base, cap))
  {
    hide Delay, Jitter;
    if attempt >= 0 {
      DelayBounds(attempt, base, cap);
      JitterBounds(Delay(attempt, base, cap), jitterFraction, random);
    }
  }

  lemma DelayBounds(attempt: nat, base: real, cap: real)
    requires 0.0 < base <= cap
    ensures base <= Delay(attempt, base, cap) <= cap
  {
    ScaleUp(base, Pow2(attempt));
  }

  lemma NoJitter(delay: real, random: real)
    ensures Jitter(delay, 0.0, random) == 0.0
  {
  }

  lemma PlainBackoff(attempt: nat, base: real, cap: real, random: real)
    requires 0.0 < base <= cap
    ensures ComputeBackoff(attempt, base, cap, 0.0, random) == Delay(attempt, base, cap)
  {
    hide Jitter, Delay;
    NoJitter(Delay(attempt, base, cap), random);
    DelayBounds(attempt, base, cap);
  }

  lemma DelayDoubles(attempt: nat, base: real, cap: real)
    requires 0.0 < base <= cap
    ensures Delay(0, base, cap) == base
    ensures Delay(attempt + 1, base, cap) == Min(2.0 * Delay(attempt, base, cap), cap)
  {
    var x := base * Pow2(attempt);
    ScaleUp(base, Pow2(attempt));
    assert base * Pow2(attempt + 1) == 2.0 * x;
  }

  /** The delay doubles with every attempt up to the cap; jitter adds its random fraction, up to the cap as well. */
  lemma BackoffDoubles(attempt: nat, base: real, cap: real, jitterFraction: real, random: real)
    requires 0.0 < base <= cap
    ensures ComputeBackoff(0, base, cap, 0.0, random) == base
    ensures ComputeBackoff(attempt + 1, base, cap, 0.0, random) ==
              Min(2.0 * ComputeBackoff(attempt, base, cap, 0.0, random), cap)
    ensures var delay := ComputeBackoff(attempt, base, cap, 0.0, random);
            ComputeBackoff(attempt, base, cap, jitterFraction, random) ==
              Min(delay + Times(Times(delay, jitterFraction), random), cap)
  {
    hide Times, Delay;
    PlainBackoff(0, base, cap, random);
    PlainBackoff(attempt, base, cap, random);
    PlainBackoff(attempt + 1, base, cap, random);
    DelayDoubles(attempt, base, cap);
  }
}
