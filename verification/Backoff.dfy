/** The bounded exponential backoff shared by every device runtime. */
module Backoff {
  import opened Reals

  datatype RetryPolicy = RetryPolicy(
    failureThreshold: int,
    reconnectThreshold: int,
    maxReconnectAttempts: int,
    initial: real,
    cap: real,
    factor: real)

  function Pow(x: real, n: nat): real {
    if n == 0 then 1.0 else x * Pow(x, n - 1)
  }

  function DelayFor(p: RetryPolicy, attempt: int): real {
    var raw := p.initial * Pow(p.factor, if attempt < 0 then 0 else attempt);
    if raw < p.cap then raw else p.cap
  }

  /** The delays slept by a task whose counter climbs from `a` to the limit `m`. */
  function Schedule(p: RetryPolicy, a: int, m: int): seq<real>
    decreases m - a
  {
    if a >= m then [] else [DelayFor(p, a)] + Schedule(p, a + 1, m)
  }

  function Sum(s: seq<real>): real {
    if s == [] then 0.0 else s[0] + Sum(s[1..])
  }

  function TotalWait(p: RetryPolicy, a: int, m: int): real {
    Sum(Schedule(p, a, m))
  }

  lemma {:induction false} PowGrows(x: real, n: nat)
    requires x >= 1.0
    ensures 1.0 <= Pow(x, n) <= Pow(x, n + 1)
  {
    if n == 0 {
      assert Pow(x, 1) == x * Pow(x, 0);
    } else {
      PowGrows(x, n - 1);
      assert Pow(x, n + 1) - Pow(x, n) == (x - 1.0) * Pow(x, n);
    }
  }

  lemma DelayStep(p: RetryPolicy, a: int)
    requires p.factor >= 1.0 && p.initial >= 0.0 && p.cap >= 0.0
    ensures 0.0 <= DelayFor(p, a) <= DelayFor(p, a + 1) <= p.cap
  {
    var n: nat := if a < 0 then 0 else a;
    PowGrows(p.factor, n);
    var low, high := Pow(p.factor, n), Pow(p.factor, n + 1);
    assert p.initial * high - p.initial * low == p.initial * (high - low) >= 0.0;
    assert p.initial * low >= 0.0;
  }

  /** Delays never shrink and never exceed the cap. */
  lemma {:induction false} DelayMonotone(p: RetryPolicy, a: int, b: int)
    requires p.factor >= 1.0 && p.initial >= 0.0 && p.cap >= 0.0 && a <= b
    ensures 0.0 <= DelayFor(p, a) <= DelayFor(p, b) <= p.cap
    decreases b - a
  {
    DelayStep(p, a);
    if b <= a {
    } else {
      DelayMonotone(p, a + 1, b);
    }
  }

  function Least(x: real, y: real): real { if x < y then x else y }

  /** The whole schedule by its recurrence: the first delay is the initial one, each further delay is
      the previous one times the factor, both under the cap. */
  lemma DelayRecurrence(p: RetryPolicy, a: nat)
    requires p.factor >= 1.0 && p.initial >= 0.0 && p.cap >= 0.0
    ensures DelayFor(p, 0) == Least(p.initial, p.cap)
    ensures DelayFor(p, a + 1) == Least(p.factor * DelayFor(p, a), p.cap)
  {
    var raw, next := p.initial * Pow(p.factor, a), p.initial * Pow(p.factor, a + 1);
    RawNext(p.initial, p.factor, Pow(p.factor, a), raw, next);
    if raw >= p.cap { ScaledCap(p.factor, p.cap, raw, p.factor * raw); }
  }

  lemma RawNext(initial: real, factor: real, pow: real, raw: real, next: real)
    requires raw == initial * pow && next == initial * (factor * pow)
    ensures next == factor * raw
  {}

  lemma ScaledCap(factor: real, cap: real, raw: real, next: real)
    requires factor >= 1.0 && 0.0 <= cap <= raw && next == factor * raw
    ensures factor * cap >= cap && next >= cap
  {
    Distribute(factor, cap, raw - cap, raw);
  }

  /** An attempt number below zero counts as the first. */
  lemma DelayBelowZero(p: RetryPolicy, a: int)
    requires a < 0
    ensures DelayFor(p, a) == DelayFor(p, 0)
  {}

  lemma WaitSplit(p: RetryPolicy, a: int, m: int)
    requires a < m
    ensures TotalWait(p, a, m) == DelayFor(p, a) + TotalWait(p, a + 1, m)
  {
    assert Schedule(p, a, m)[1..] == Schedule(p, a + 1, m);
  }

  /** The whole wait before exhaustion is at most the remaining attempts times the cap. */
  lemma {:induction false} WaitBounded(p: RetryPolicy, a: int, m: int)
    requires p.factor >= 1.0 && p.initial >= 0.0 && p.cap >= 0.0
    ensures 0.0 <= TotalWait(p, a, m) <= (if a < m then (m - a) as real else 0.0) * p.cap
    decreases m - a
  {
    if m <= a {
    } else {
      WaitSplit(p, a, m);
      WaitBounded(p, a + 1, m);
      DelayMonotone(p, a, a);
      assert (m - a) as real * p.cap == p.cap + (m - a - 1) as real * p.cap;
    }
  }

  predicate Saturated(p: RetryPolicy, i: nat) {
    p.initial * Pow(p.factor, i) >= p.cap
  }

  /** `k` is where the schedule saturates between `a` and `m`. */
  ghost predicate SaturatesAt(p: RetryPolicy, a: nat, k: nat, m: nat) {
    && a <= k <= m
    && (forall i: nat :: a <= i < k ==> !Saturated(p, i))
    && (forall i: nat :: k <= i < m ==> Saturated(p, i))
  }

  lemma {:induction false} Saturates(p: RetryPolicy, a: nat, m: nat) returns (k: nat)
    requires p.factor >= 1.0 && p.initial >= 0.0 && p.cap >= 0.0 && a <= m
    ensures SaturatesAt(p, a, k, m)
    decreases m - a
  {
    if a == m || Saturated(p, a) {
      k := a;
      forall i: nat | k <= i < m ensures Saturated(p, i) {
        DelayMonotone(p, a, i);
      }
    } else {
      k := Saturates(p, a + 1, m);
    }
  }

  function PowSum(f: real, a: nat, k: nat): real
    decreases k - a
  {
    if a >= k then 0.0 else Pow(f, a) + PowSum(f, a + 1, k)
  }

  /** Multiplying the sum by the factor shifts it by one. */
  lemma {:induction false} PowSumShift(f: real, a: nat, k: nat)
    ensures f * PowSum(f, a, k) == PowSum(f, a + 1, k + 1)
    decreases k - a
  {
    if k <= a {
    } else {
      PowSumShift(f, a + 1, k);
      Distribute(f, Pow(f, a), PowSum(f, a + 1, k), PowSum(f, a, k));
    }
  }

  lemma {:induction false} PowSumTelescopes(f: real, a: nat, k: nat)
    requires a <= k
    ensures PowSum(f, a + 1, k + 1) - PowSum(f, a, k) == Pow(f, k) - Pow(f, a)
    decreases k - a
  {
    if k <= a {
    } else {
      PowSumTelescopes(f, a + 1, k);
    }
  }

  /** The geometric sum in closed form: `(f - 1)` times the sum is `f^k - f^a`. */
  lemma PowSumClosed(f: real, a: nat, k: nat)
    requires a <= k
    ensures f * PowSum(f, a, k) - PowSum(f, a, k) == Pow(f, k) - Pow(f, a)
  {
    PowSumShift(f, a, k);
    PowSumTelescopes(f, a, k);
  }

  lemma {:induction false} WaitAdds(p: RetryPolicy, a: nat, k: nat, m: nat)
    requires a <= k <= m
    ensures TotalWait(p, a, m) == TotalWait(p, a, k) + TotalWait(p, k, m)
    decreases k - a
  {
    if k <= a {
    } else {
      WaitSplit(p, a, m);
      WaitSplit(p, a, k);
      WaitAdds(p, a + 1, k, m);
    }
  }

  lemma {:induction false} WaitIsPowers(p: RetryPolicy, a: nat, k: nat)
    requires a <= k && forall i: nat :: a <= i < k ==> !Saturated(p, i)
    ensures TotalWait(p, a, k) == p.initial * PowSum(p.factor, a, k)
    decreases k - a
  {
    if k <= a {
    } else {
      WaitSplit(p, a, k);
      WaitIsPowers(p, a + 1, k);
      assert !Saturated(p, a);
      Distribute(p.initial, Pow(p.factor, a), PowSum(p.factor, a + 1, k), PowSum(p.factor, a, k));
    }
  }

  /** Up to saturation the wait is the geometric sum ... */
  lemma WaitIsGeometric(p: RetryPolicy, a: nat, k: nat, m: nat)
    requires SaturatesAt(p, a, k, m)
    ensures TotalWait(p, a, m) == p.initial * PowSum(p.factor, a, k) + (m - k) as real * p.cap
  {
    WaitAdds(p, a, k, m);
    WaitIsPowers(p, a, k);
    WaitIsFlat(p, k, m);
  }

  /** ... and from there on every delay is the cap. */
  lemma {:induction false} WaitIsFlat(p: RetryPolicy, a: nat, m: nat)
    requires SaturatesAt(p, a, a, m)
    ensures TotalWait(p, a, m) == (m - a) as real * p.cap
    decreases m - a
  {
    if m <= a {
    } else {
      WaitSplit(p, a, m);
      WaitIsFlat(p, a + 1, m);
      assert Saturated(p, a) && DelayFor(p, a) == p.cap;
      assert (m - a) as real == 1.0 + (m - (a + 1)) as real;
    }
  }
}
