/** The client's reconnect loop: exponential backoff with jitter in saturating machine arithmetic. */
module Backoff {
  import opened Prelude

  const MILLIS_PER_SEC := 1000

  function Min(a: nat, b: nat): nat { if a < b then a else b }

  function Max(a: nat, b: nat): nat { if a < b then b else a }

  function Pow2(n: nat): (p: nat)
    ensures p > 0
  {
    if n == 0 then 1 else 2 * Pow2(n - 1)
  }

  // ---------------------------------------------------------------- the 64-bit window

  /** `u64` arithmetic that sticks at its maximum. */
  function Saturate(x: nat): u64 { Min(x, U64_MAX) }

  function SaturatingMul(a: u64, b: u64): u64 { Saturate(a * b) }

  /** `2u64.saturating_pow(n)`, by repeated saturating doubling. */
  function SaturatingPow2(n: nat): u64 {
    if n == 0 then 1 else SaturatingMul(2, SaturatingPow2(n - 1))
  }

  /** The largest delay a draw may pick, as the client computes it. */
  function Upper(attempt: u32, baseMs: u64, maxSecs: u64): u64 {
    var exp := SaturatingMul(baseMs, SaturatingPow2(attempt));
    var cap := Saturate(maxSecs * MILLIS_PER_SEC);
    Max(Min(exp, cap), 1)
  }

  // ---------------------------------------------------------------- the intended window

  /** The window after `waits` earlier waits, over unbounded integers. */
  function Ladder(waits: nat, baseMs: u64, maxSecs: u64): nat {
    Max(1, Min(baseMs * Pow2(waits), Min(maxSecs * MILLIS_PER_SEC, U64_MAX)))
  }

  lemma {:induction false} SaturatingPow2IsCapped(n: nat)
    ensures SaturatingPow2(n) == Saturate(Pow2(n))
  {
    if n > 0 { SaturatingPow2IsCapped(n - 1); }
  }

  lemma CappedProduct(a: u64, p: nat)
    ensures SaturatingMul(a, Saturate(p)) == Saturate(a * p)
  {
    if p > U64_MAX && a > 0 {
      assert a * p >= p;
      assert a * U64_MAX >= U64_MAX;
    }
  }

  lemma {:induction false} Pow2Monotone(m: nat, n: nat)
    requires m <= n
    ensures Pow2(m) <= Pow2(n)
  {
    if m < n { Pow2Monotone(m, n - 1); }
  }

  lemma {:induction false} Pow2Adds(m: nat, n: nat)
    ensures Pow2(m + n) == Pow2(m) * Pow2(n)
  {
    if n > 0 {
      Pow2Adds(m, n - 1);
      assert m + n - 1 == m + (n - 1);
    }
  }

  lemma Pow2PastU64(n: nat)
    requires n >= 64
    ensures Pow2(n) > U64_MAX
  {
    assert Pow2(4) == 16;
    Pow2Adds(4, 4);
    Pow2Adds(8, 8);
    Pow2Adds(16, 16);
    Pow2Adds(32, 32);
    Pow2Monotone(64, n);
  }

  lemma ProductMonotone(a: nat, m: nat, n: nat)
    requires m <= n
    ensures a * m <= a * n
  {
  }

  /** Neither 64-bit saturation nor the saturating attempt counter is visible in the window. */
  lemma UpperIsLadder(waits: nat, baseMs: u64, maxSecs: u64)
    ensures Upper(Min(waits, U32_MAX), baseMs, maxSecs) == Ladder(waits, baseMs, maxSecs)
  {
    var n := Min(waits, U32_MAX);
    SaturatingPow2IsCapped(n);
    CappedProduct(baseMs, Pow2(n));
    if waits > U32_MAX && baseMs > 0 {
      Pow2PastU64(n);
      Pow2PastU64(waits);
      ProductMonotone(Pow2(n), 1, baseMs);
      ProductMonotone(Pow2(waits), 1, baseMs);
    }
  }

  /** Longer streaks never shorten the window, and it stays within the configured maximum. */
  lemma LadderClimbs(m: nat, n: nat, baseMs: u64, maxSecs: u64)
    requires m <= n
    ensures Ladder(m, baseMs, maxSecs) <= Ladder(n, baseMs, maxSecs) <= Max(1, maxSecs * MILLIS_PER_SEC)
  {
    Pow2Monotone(m, n);
    ProductMonotone(baseMs, Pow2(m), Pow2(n));
  }

  /** From a positive base the window doubles until the maximum and then stays there for good. */
  lemma LadderDoublesThenStays(n: nat, baseMs: u64, maxSecs: u64)
    requires 0 < baseMs && 0 < maxSecs
    ensures var cap := Saturate(maxSecs * MILLIS_PER_SEC);
            && Ladder(n + 1, baseMs, maxSecs) == Min(2 * Ladder(n, baseMs, maxSecs), cap)
            && (n >= 64 ==> Ladder(n, baseMs, maxSecs) == cap)
  {
    assert baseMs * Pow2(n + 1) == 2 * (baseMs * Pow2(n));
    ProductMonotone(Pow2(n), 1, baseMs);
    if n >= 64 { Pow2PastU64(n); }
  }

  // ---------------------------------------------------------------- the loop

  /** The uniform draw from `0..=upper`; `draw` stands for the random source. */
  function Jitter(draw: nat, upper: nat): (d: nat)
    ensures d <= upper
    ensures draw <= upper ==> d == draw
  {
    draw % (upper + 1)
  }

  datatype Attempt = Connected | Refused | Terminal

  /** What the outside does to one turn of the loop. */
  datatype Turn = Turn(cancelledBefore: bool, attempt: Attempt, draw: nat, cancelledAsleep: bool)

  predicate ReachesWait(t: Turn) { !t.cancelledBefore && !t.attempt.Terminal? }

  /** How many waits lie between turn `i` and the last connection before its wait. */
  function Streak(turns: seq<Turn>, i: nat): nat
    requires i < |turns|
  {
    if i == 0 || turns[i].attempt.Connected? then 0 else Streak(turns, i - 1) + 1
  }

  lemma {:induction false} StreakSinceConnected(turns: seq<Turn>, j: nat, i: nat)
    requires j <= i < |turns|
    requires j == 0 || turns[j].attempt.Connected?
    requires forall k :: j < k <= i ==> !turns[k].attempt.Connected?
    ensures Streak(turns, i) == i - j
  {
    if j < i { StreakSinceConnected(turns, j, i - 1); }
  }

  /**
   * The supervisor: every delay is drawn from the unbounded ladder's window for the number of waits since
   * the last connection, and it stops exactly at cancellation or a terminal refusal.
   */
  method Supervise(turns: seq<Turn>, baseMs: u64, maxSecs: u64) returns (delays: seq<nat>)
    ensures |delays| <= |turns|
    ensures forall i :: 0 <= i < |delays| ==>
              ReachesWait(turns[i]) && delays[i] == Jitter(turns[i].draw, Ladder(Streak(turns, i), baseMs, maxSecs))
    ensures forall i :: 0 <= i < |delays| - 1 ==> !turns[i].cancelledAsleep
    ensures |delays| < |turns| ==>
              || !ReachesWait(turns[|delays|])
              || (|delays| > 0 && turns[|delays| - 1].cancelledAsleep)
  {
    hide Ladder, Upper, Jitter;
    var attempt: u32 := 0;
    delays := [];
    for i := 0 to |turns|
      invariant |delays| == i
      invariant attempt == if i == 0 then 0 else Min(Streak(turns, i - 1) + 1, U32_MAX)
      invariant forall k :: 0 <= k < i ==>
                  ReachesWait(turns[k]) && delays[k] == Jitter(turns[k].draw, Ladder(Streak(turns, k), baseMs, maxSecs))
      invariant forall k :: 0 <= k < i ==> !turns[k].cancelledAsleep
    {
      if turns[i].cancelledBefore { return; }
      match turns[i].attempt {
        case Connected => attempt := 0;
        case Terminal => return;
        case Refused =>
      }
      var upper := Upper(attempt, baseMs, maxSecs);
      assert attempt == Min(Streak(turns, i), U32_MAX);
      UpperIsLadder(Streak(turns, i), baseMs, maxSecs);
      delays := delays + [Jitter(turns[i].draw, upper)];
      attempt := Min(attempt + 1, U32_MAX);
      if turns[i].cancelledAsleep { return; }
    }
  }
}
