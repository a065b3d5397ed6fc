/**
 The supervisor of one driver instance: a restart budget over a sliding window, capped
 exponential backoff in 64-bit arithmetic, and the health probe loop.
 */
module Supervisor {
  import opened Basics

  // ---------------------------------------------------------------- restart budget

  /** The attempts at or after a cutoff. */
  function Since(times: seq<int>, cutoff: int): seq<int> {
    if times == [] then [] else
      var rest := Since(times[..|times| - 1], cutoff);
      if times[|times| - 1] >= cutoff then rest + [times[|times| - 1]] else rest
  }

  function Last(times: seq<int>): int
    requires times != []
  {
    times[|times| - 1]
  }

  /** The history the supervisor keeps after attempts at these times, from an empty history. */
  function History(times: seq<int>, window: int): seq<int> {
    if times == [] then []
    else Since(History(times[..|times| - 1], window), Last(times) - window) + [Last(times)]
  }

  predicate NonDecreasing(times: seq<int>) {
    forall i, j | 0 <= i <= j < |times| :: times[i] <= times[j]
  }

  lemma SinceGrows(times: seq<int>, t: int, cutoff: int)
    ensures Since(times + [t], cutoff) == if t >= cutoff then Since(times, cutoff) + [t] else Since(times, cutoff)
  {
    assert (times + [t])[..|times|] == times;
  }

  /** Cutting twice is cutting at the later point. */
  lemma {:induction false} SinceTwice(times: seq<int>, early: int, late: int)
    requires early <= late
    ensures Since(Since(times, early), late) == Since(times, late)
  {
    if times != [] {
      var front := times[..|times| - 1];
      SinceTwice(front, early, late);
      if Last(times) >= early { SinceGrows(Since(front, early), Last(times), late); }
    }
  }

  lemma {:induction false} SinceIsMonotone(times: seq<int>, early: int, late: int)
    requires early <= late
    ensures |Since(times, late)| <= |Since(times, early)|
  {
    if times != [] { SinceIsMonotone(times[..|times| - 1], early, late); }
  }

  lemma {:induction false} SinceKeepsOnly(times: seq<int>, cutoff: int)
    ensures forall t | t in Since(times, cutoff) :: t >= cutoff
  {
    if times != [] { SinceKeepsOnly(times[..|times| - 1], cutoff); }
  }

  lemma {:induction false} HistoryIsCut(times: seq<int>, window: nat)
    requires NonDecreasing(times) && times != []
    ensures History(times, window) == Since(times, Last(times) - window)
  {
    var front, t := times[..|times| - 1], Last(times);
    if front != [] {
      HistoryIsCut(front, window);
      assert Last(front) <= t;
      SinceTwice(front, Last(front) - window, t - window);
    }
  }

  /**
   For clocks that never step back, the pruned history is the full history cut to the
   window, if and only if the window is not negative.
   */
  lemma PrunedIsCut(times: seq<int>, window: int)
    requires NonDecreasing(times) && times != []
    ensures History(times, window) == Since(times, Last(times) - window) <==> window >= 0
  {
    if window >= 0 {
      HistoryIsCut(times, window);
    } else {
      SinceKeepsOnly(times, Last(times) - window);
      var h := History(times, window);
      assert h[|h| - 1] == Last(times);
      assert Last(times) in h;
    }
  }

  /** Whether the latest of these attempts is retried rather than quarantined. */
  predicate Retried(times: seq<int>, window: int, max: int)
    requires times != []
  {
    |History(times, window)| <= max
  }

  /** Retried attempts whose time lies in [lo, hi]. */
  function RetriesIn(times: seq<int>, window: int, max: int, lo: int, hi: int): nat {
    if times == [] then 0 else
      RetriesIn(times[..|times| - 1], window, max, lo, hi)
      + if lo <= Last(times) <= hi && Retried(times, window, max) then 1 else 0
  }

  lemma {:induction false} RetriesAreAttempts(times: seq<int>, window: int, max: int, lo: int, hi: int)
    ensures RetriesIn(times, window, max, lo, hi) <= |Since(times, lo)|
  {
    if times != [] { RetriesAreAttempts(times[..|times| - 1], window, max, lo, hi); }
  }

  /** No span as long as the window holds more retries than the budget allows, wherever it starts. */
  lemma {:induction false} BudgetBoundsRetries(times: seq<int>, window: nat, max: nat, lo: int)
    requires NonDecreasing(times)
    ensures RetriesIn(times, window, max, lo, lo + window) <= max
  {
    if times != [] {
      BudgetBoundsRetries(times[..|times| - 1], window, max, lo);
      if lo <= Last(times) <= lo + window && Retried(times, window, max) {
        HistoryIsCut(times, window);
        RetriesAreAttempts(times, window, max, lo, lo + window);
        SinceIsMonotone(times, Last(times) - window, lo);
      }
    }
  }

  lemma {:induction false} SinceIsPart(times: seq<int>, cutoff: int)
    ensures |Since(times, cutoff)| <= |times|
  {
    if times != [] { SinceIsPart(times[..|times| - 1], cutoff); }
  }

  lemma {:induction false} HistoryIsPart(times: seq<int>, window: int)
    ensures |History(times, window)| <= |times|
  {
    if times != [] {
      HistoryIsPart(times[..|times| - 1], window);
      SinceIsPart(History(times[..|times| - 1], window), Last(times) - window);
    }
  }

  /**
   A history that was emptied leaves the whole budget: with any clock, the next `budget`
   attempts are all retried, and one more at the same time is not.
   */
  lemma FreshBudget(times: seq<int>, window: int, budget: int)
    requires times != []
    ensures |times| <= budget ==> Retried(times, window, budget)
    ensures |times| > budget && window >= 0 && (forall t | t in times :: t == times[0]) ==>
              !Retried(times, window, budget)
  {
    HistoryIsPart(times, window);
    if window >= 0 && forall t | t in times :: t == times[0] {
      assert forall i | 0 <= i < |times| :: times[i] in times;
      SameTimeHistory(times, window, times[0]);
    }
  }

  lemma {:induction false} SameTimeHistory(times: seq<int>, window: nat, t: int)
    requires forall i | 0 <= i < |times| :: times[i] == t
    ensures History(times, window) == times
  {
    if times != [] {
      var front := times[..|times| - 1];
      SameTimeHistory(front, window, t);
      SinceKeepsAll(front, t - window);
      assert times == front + [t];
    }
  }

  lemma {:induction false} SinceKeepsAll(times: seq<int>, cutoff: int)
    requires forall t | t in times :: t >= cutoff
    ensures Since(times, cutoff) == times
  {
    if times != [] {
      var front := times[..|times| - 1];
      assert times == front + [Last(times)] && Last(times) in times;
      forall t | t in front ensures t >= cutoff { assert t in times; }
      SinceKeepsAll(front, cutoff);
    }
  }

  lemma AnotherAttempt(times: seq<int>, t: int, window: int, max: int, lo: int, hi: int)
    ensures History(times + [t], window) == Since(History(times, window), t - window) + [t]
    ensures RetriesIn(times + [t], window, max, lo, hi)
         == RetriesIn(times, window, max, lo, hi) + if lo <= t <= hi && Retried(times + [t], window, max) then 1 else 0
  {
    assert (times + [t])[..|times|] == times;
  }

  /** The clock matters: after a step back, attempts dropped earlier are no longer counted. */
  lemma ClockStepBreaksBudget()
    ensures RetriesIn([0, 0, 100, 0], 10, 2, 0, 10) == 3
  {
    AnotherAttempt([], 0, 10, 2, 0, 10);
    assert [] + [0] == [0];
    AnotherAttempt([0], 0, 10, 2, 0, 10);
    assert Since([0], -10) == [0] by { SinceGrows([], 0, -10); }
    assert [0] + [0] == [0, 0];
    AnotherAttempt([0, 0], 100, 10, 2, 0, 10);
    assert Since([0, 0], 90) == [] by { SinceGrows([], 0, 90); SinceGrows([0], 0, 90); }
    assert [0, 0] + [100] == [0, 0, 100];
    AnotherAttempt([0, 0, 100], 0, 10, 2, 0, 10);
    assert Since([100], -10) == [100] by { SinceGrows([], 100, -10); assert [] + [100] == [100]; }
    assert [0, 0, 100] + [0] == [0, 0, 100, 0];
  }

  // ---------------------------------------------------------------- backoff

  const TWO_62: int := 0x4000_0000_0000_0000
  const TWO_63: int := 0x8000_0000_0000_0000
  const TWO_64: int := 0x1_0000_0000_0000_0000

  /** Doubling a 64-bit duration, with wrap-around. */
  function Double(x: int): int {
    (2 * x + TWO_63) % TWO_64 - TWO_63
  }

  /** The loop that doubles at most `rounds` times and stops at the cap. */
  function Doubled(backoff: int, max: int, rounds: nat): int
    decreases rounds
  {
    if rounds == 0 then backoff
    else if Double(backoff) > max then max
    else Doubled(Double(backoff), max, rounds - 1)
  }

  function Delay(initial: int, max: int, used: int): int {
    Doubled(initial, max, if used >= 1 then used - 1 else 0)
  }

  function Pow2(n: nat): (p: int)
    ensures p >= 1
  {
    if n == 0 then 1 else 2 * Pow2(n - 1)
  }

  lemma {:induction false} DoubledOnce(backoff: int, n: nat)
    ensures (2 * backoff) * Pow2(n) == backoff * Pow2(n + 1)
  {
    calc { backoff * Pow2(n + 1); backoff * (2 * Pow2(n)); (2 * backoff) * Pow2(n); }
  }

  lemma ScaledAtLeast(backoff: int, n: nat)
    requires backoff >= 0
    ensures backoff * Pow2(n) >= backoff
  {
    if backoff > 0 { assert backoff * (Pow2(n) - 1) >= 0; }
  }

  lemma DoubleIsExact(x: int)
    requires 0 <= x < TWO_62
    ensures Double(x) == 2 * x
  {
  }

  lemma DoubleOverflows(x: int)
    requires TWO_62 <= x < TWO_63
    ensures Double(x) == 2 * x - TWO_64 && Double(x) < 0
  {
    assert (2 * x + TWO_63) == TWO_64 + (2 * x + TWO_63 - TWO_64);
  }

  /** No doubling of the start that still fits under the cap reaches 2^62. */
  ghost predicate NoOverflow(initial: int, max: int) {
    forall k: nat :: initial * Pow2(k) <= max ==> initial * Pow2(k) < TWO_62
  }

  lemma NoOverflowSteps(backoff: int, max: int)
    requires NoOverflow(backoff, max) && 0 <= backoff <= max
    ensures backoff < TWO_62 && NoOverflow(2 * backoff, max)
  {
    assert backoff * Pow2(0) == backoff;
    forall k: nat | (2 * backoff) * Pow2(k) <= max ensures (2 * backoff) * Pow2(k) < TWO_62 {
      DoubledOnce(backoff, k);
    }
  }

  lemma {:induction false} DoubledIsCappedPower(backoff: int, max: int, rounds: nat)
    requires NoOverflow(backoff, max) && 0 <= backoff <= max
    ensures Doubled(backoff, max, rounds) == Min(backoff * Pow2(rounds), max)
    decreases rounds
  {
    if rounds > 0 {
      NoOverflowSteps(backoff, max);
      DoubleIsExact(backoff);
      DoubledOnce(backoff, rounds - 1);
      if 2 * backoff > max {
        ScaledAtLeast(2 * backoff, rounds - 1);
      } else {
        DoubledIsCappedPower(2 * backoff, max, rounds - 1);
      }
    }
  }

  /** A cap below 2^62 nanoseconds is enough. */
  lemma SmallCapIsSafe(initial: int, max: int)
    requires max < TWO_62
    ensures NoOverflow(initial, max)
  {
  }

  /**
   For 0 <= initial and a cap below 2^62 the delay is min(initial * 2^(n-1), max), if and
   only if the start is within the cap or this is not the first attempt: the first delay is
   never capped.
   */
  lemma DelayIsCappedPower(initial: int, max: int, used: int)
    requires 0 <= initial < TWO_62 && 0 <= max < TWO_62 && used >= 1
    ensures Delay(initial, max, used) == Min(initial * Pow2(used - 1), max) <==> (initial <= max || used >= 2)
  {
    if initial <= max {
      SmallCapIsSafe(initial, max);
      DoubledIsCappedPower(initial, max, used - 1);
    } else {
      DoubleIsExact(initial);
      ScaledAtLeast(initial, used - 1);
    }
  }

  /** Where the first overflow shows. */
  lemma {:induction false} DoubledReaches(backoff: int, max: int, k: nat) returns (rounds: nat)
    requires 0 < backoff && TWO_62 <= backoff * Pow2(k) <= max < TWO_63
    ensures rounds > 0 && Doubled(backoff, max, rounds) < 0
    decreases k
  {
    if backoff >= TWO_62 {
      ScaledAtLeast(backoff, k);
      DoubleOverflows(backoff);
      rounds := 1;
      assert Doubled(Double(backoff), max, 0) == Double(backoff);
    } else {
      DoubledOnce(backoff, k - 1);
      ScaledAtLeast(2 * backoff, k - 1);
      DoubleIsExact(backoff);
      var r := DoubledReaches(2 * backoff, max, k - 1);
      rounds := r + 1;
    }
  }

  /**
   Without a bound on the cap: the delay is the capped power for every attempt, if and only
   if no doubling that fits under the cap reaches 2^62. Otherwise some delay is negative.
   */
  lemma DelayIffNoOverflow(initial: int, max: int)
    requires 0 < initial <= max < TWO_63
    ensures (forall used: nat :: used >= 1 ==> Delay(initial, max, used) == Min(initial * Pow2(used - 1), max))
            <==> NoOverflow(initial, max)
    ensures !NoOverflow(initial, max) ==> exists used: nat :: used >= 1 && Delay(initial, max, used) < 0
  {
    if NoOverflow(initial, max) {
      forall used: nat | used >= 1 ensures Delay(initial, max, used) == Min(initial * Pow2(used - 1), max) {
        DoubledIsCappedPower(initial, max, used - 1);
      }
    } else {
      var k: nat :| initial * Pow2(k) <= max && initial * Pow2(k) >= TWO_62;
      var rounds := DoubledReaches(initial, max, k);
      ScaledAtLeast(initial, rounds);
      assert Delay(initial, max, rounds + 1) < 0;
      assert Min(initial * Pow2(rounds), max) > 0;
    }
  }

  /** Numbers that overflow: starting at 2^62 under the largest cap, the second delay is negative. */
  lemma OverflowHappens()
    ensures Delay(TWO_62, TWO_63 - 1, 2) == -TWO_63 && !NoOverflow(TWO_62, TWO_63 - 1)
  {
    DoubleOverflows(TWO_62);
    assert Doubled(Double(TWO_62), TWO_63 - 1, 0) == -TWO_63;
    assert TWO_62 * Pow2(0) == TWO_62;
  }

  // ---------------------------------------------------------------- the instance

  datatype Phase = Declared | Backoff | Quarantined

  class Managed {
    var restartHistory: seq<int>
    var phase: Phase

    constructor ()
      ensures restartHistory == [] && phase == Declared
    {
      restartHistory, phase := [], Declared;
    }

    /**
     Records an attempt, checks the budget and computes the delay. `attempts` are the earlier
     attempts since the history was last emptied.
     */
    method ScheduleBackoff(now: int, window: int, budget: int, initial: int, max: int, ghost attempts: seq<int>)
      returns (retry: bool, delay: int)
      requires restartHistory == History(attempts, window)
      modifies this
      ensures restartHistory == History(attempts + [now], window)
      ensures retry <==> Retried(attempts + [now], window, budget)
      ensures phase == if retry then Backoff else Quarantined
      ensures retry ==> delay == Delay(initial, max, |restartHistory|)
    {
      var cutoff := now - window;
      var recent: seq<int> := [];
      for i := 0 to |restartHistory|
        invariant restartHistory == old(restartHistory)
        invariant recent == Since(restartHistory[..i], cutoff)
      {
        assert restartHistory[..i + 1] == restartHistory[..i] + [restartHistory[i]];
        SinceGrows(restartHistory[..i], restartHistory[i], cutoff);
        if restartHistory[i] >= cutoff { recent := recent + [restartHistory[i]]; }
      }
      assert restartHistory[..|restartHistory|] == restartHistory;
      assert (attempts + [now])[..|attempts|] == attempts;
      recent := recent + [now];
      restartHistory := recent;
      var used := |restartHistory|;
      if used > budget {
        phase := Quarantined;
        return false, 0;
      }
      delay := ComputeBackoff(initial, max, used);
      phase := Backoff;
      retry := true;
    }

    /** A manual restart forgets every attempt. */
    method RestartInstance()
      modifies this
      ensures phase == Declared && forall window: int :: restartHistory == History([], window)
    {
      restartHistory, phase := [], Declared;
    }
  }

  method ComputeBackoff(initial: int, max: int, used: int) returns (backoff: int)
    ensures backoff == Delay(initial, max, used)
  {
    backoff := initial;
    var i := 1;
    while i < used
      invariant used >= 1 ==> 1 <= i <= used && Doubled(backoff, max, used - i) == Delay(initial, max, used)
      invariant used < 1 ==> i == 1 && backoff == initial
    {
      backoff := Double(backoff);
      if backoff > max {
        return max;
      }
      i := i + 1;
    }
  }

  // ---------------------------------------------------------------- health probes

  /** The `k` probes before position `n` all failed. */
  predicate FailedBefore(probes: seq<bool>, n: nat, k: nat) {
    k <= n <= |probes| && forall i | n - k <= i < n :: !probes[i]
  }

  /**
   Consumes probe answers (true is healthy) until the context is done after the last one.
   Gives up exactly at the first position where the last `limit` answers, at least one, all
   failed.
   */
  method RunHealth(probes: seq<bool>, limit: int) returns (healthy: bool, consumed: nat)
    ensures consumed <= |probes|
    ensures forall n | 0 <= n < consumed :: !FailedBefore(probes, n, Max(limit, 1))
    ensures healthy ==> consumed == |probes| && !FailedBefore(probes, consumed, Max(limit, 1))
    ensures !healthy ==> FailedBefore(probes, consumed, Max(limit, 1))
  {
    var failures: nat := 0;
    consumed := 0;
    while consumed < |probes|
      invariant consumed <= |probes| && failures < Max(limit, 1)
      invariant FailedBefore(probes, consumed, failures)
      invariant failures < consumed ==> probes[consumed - failures - 1]
      invariant forall n | 0 <= n <= consumed :: !FailedBefore(probes, n, Max(limit, 1))
    {
      if !probes[consumed] {
        failures := failures + 1;
        consumed := consumed + 1;
        if failures >= limit { return false, consumed; }
      } else {
        failures := 0;
        consumed := consumed + 1;
      }
    }
    healthy := true;
  }
}
