/**
 The per-tenant token bucket of `src/ratelimit/mod.rs`, with `f64` as `real` and the clock in seconds
 as an argument, and what it admits over whole runs.
 */
module TokenBucket {

  datatype Bucket = Bucket(tokens: real, lastRefill: real, capacity: real)

  function Min(a: real, b: real): real { if a < b then a else b }

  /** What the bucket gains in `elapsed` seconds: one capacity a minute. */
  function Gain(capacity: real, elapsed: real): real { elapsed * (capacity / 60.0) }

  /** `Instant::duration_since` saturates at zero. */
  function Refill(b: Bucket, now: real): Bucket {
    var elapsed := now - b.lastRefill;
    if elapsed > 0.0 then Bucket(Min(b.tokens + Gain(b.capacity, elapsed), b.capacity), now, b.capacity) else b
  }

  datatype Consumed = Consumed(bucket: Bucket, ok: bool)

  function Consume(b: Bucket, now: real): Consumed {
    var r := Refill(b, now);
    if r.tokens >= 1.0 then Consumed(r.(tokens := r.tokens - 1.0), true) else Consumed(r, false)
  }

  class TokenBucket {
    var tokens: real
    var lastRefill: real
    var capacity: real

    ghost function Value(): Bucket
      reads this
    {
      Bucket(tokens, lastRefill, capacity)
    }

    constructor (capacity: real, now: real)
      ensures Value() == Bucket(capacity, now, capacity)
    {
      this.tokens, this.lastRefill, this.capacity := capacity, now, capacity;
    }

    method DoRefill(now: real)
      modifies this
      ensures Value() == Refill(old(Value()), now)
    {
      var elapsed := now - lastRefill;
      if elapsed > 0.0 {
        tokens := Min(tokens + Gain(capacity, elapsed), capacity);
        lastRefill := now;
      }
    }

    method DoConsume(now: real) returns (ok: bool)
      modifies this
      ensures Value() == Consume(old(Value()), now).bucket && ok == Consume(old(Value()), now).ok
    {
      DoRefill(now);
      if tokens >= 1.0 {
        tokens := tokens - 1.0;
        ok := true;
      } else {
        ok := false;
      }
    }
  }

  // ---- Runs ------------------------------------------------------------------------------

  /** A bucket made at `made` and the times of the calls on it. */
  datatype Run = Run(capacity: real, made: real, calls: seq<real>)

  ghost predicate Timely(r: Run) {
    && r.capacity >= 0.0
    && (forall i :: 0 <= i < |r.calls| ==> r.made <= r.calls[i])
    && (forall i, j :: 0 <= i <= j < |r.calls| ==> r.calls[i] <= r.calls[j])
  }

  function Before(r: Run, n: nat): Bucket
    requires n <= |r.calls|
  {
    if n == 0 then Bucket(r.capacity, r.made, r.capacity) else Consume(Before(r, n - 1), r.calls[n - 1]).bucket
  }

  predicate Admitted(r: Run, n: nat)
    requires n < |r.calls|
  {
    Consume(Before(r, n), r.calls[n]).ok
  }

  /** Calls admitted among those from `lo` up to, not including, `hi`. */
  function Count(r: Run, lo: nat, hi: nat): nat
    requires lo <= hi <= |r.calls|
    decreases hi
  {
    if lo == hi then 0 else Count(r, lo, hi - 1) + if Admitted(r, hi - 1) then 1 else 0
  }

  /** Tokens on hand at call `n`, after its refill. */
  function Level(r: Run, n: nat): real
    requires n < |r.calls|
  {
    Refill(Before(r, n), r.calls[n]).tokens
  }

  lemma GainNonnegative(capacity: real, elapsed: real)
    requires capacity >= 0.0 && elapsed >= 0.0
    ensures Gain(capacity, elapsed) >= 0.0
  {
  }

  lemma GainAdds(capacity: real, a: real, b: real)
    ensures Gain(capacity, a + b) == Gain(capacity, a) + Gain(capacity, b)
  {
  }

  lemma GainNothing(capacity: real)
    ensures Gain(capacity, 0.0) == 0.0
  {
  }

  /** Tokens stay within the bucket. */
  lemma {:induction false} TokensInRange(r: Run, n: nat)
    requires Timely(r) && n <= |r.calls|
    ensures var b := Before(r, n);
            && b.capacity == r.capacity && 0.0 <= b.tokens <= b.capacity
            && b.lastRefill == (if n == 0 then r.made else r.calls[n - 1])
  {
    hide Gain;
    if n > 0 {
      TokensInRange(r, n - 1);
      var b, now := Before(r, n - 1), r.calls[n - 1];
      assert b.lastRefill <= now;
      GainNonnegative(r.capacity, now - b.lastRefill);
    }
  }

  /** From one call to the next, the level falls by what was taken and rises by what was refilled. */
  lemma LevelStep(r: Run, n: nat)
    requires Timely(r) && 0 < n < |r.calls|
    ensures Level(r, n) ==
            Min(Level(r, n - 1) - (if Admitted(r, n - 1) then 1.0 else 0.0) +
              Gain(r.capacity, r.calls[n] - r.calls[n - 1]), r.capacity)
  {
    hide Gain;
    GainNothing(r.capacity);
    TokensInRange(r, n);
    TokensInRange(r, n - 1);
    assert r.calls[n - 1] <= r.calls[n];
  }

  lemma LevelFirst(r: Run)
    requires Timely(r) && |r.calls| > 0
    ensures Level(r, 0) == r.capacity
  {
    hide Gain;
    GainNonnegative(r.capacity, r.calls[0] - r.made);
  }

  /** What the calls from `j` on leave of one bucketful plus the refill since call `j`. */
  function Quota(r: Run, j: nat, n: nat): real
    requires j <= n < |r.calls|
  {
    r.capacity + Gain(r.capacity, r.calls[n] - r.calls[j]) - Count(r, j, n) as real
  }

  lemma QuotaStep(r: Run, j: nat, n: nat)
    requires j < n < |r.calls|
    ensures Quota(r, j, n) ==
            Quota(r, j, n - 1) - (if Admitted(r, n - 1) then 1.0 else 0.0) +
              Gain(r.capacity, r.calls[n] - r.calls[n - 1])
  {
    hide Gain, Admitted;
    GainAdds(r.capacity, r.calls[n] - r.calls[n - 1], r.calls[n - 1] - r.calls[j]);
  }

  lemma {:induction false} LevelBelowQuota(r: Run, j: nat, n: nat)
    requires Timely(r) && j <= n < |r.calls|
    ensures Level(r, n) <= Quota(r, j, n)
    decreases n
  {
    hide Level, Quota, Admitted, Timely, Gain;
    if j == n {
      LevelAtMostFull(r, n);
    } else {
      LevelBelowQuota(r, j, n - 1);
      LevelStep(r, n);
      QuotaStep(r, j, n);
    }
  }

  lemma LevelAtMostFull(r: Run, n: nat)
    requires Timely(r) && n < |r.calls|
    ensures 0.0 <= Level(r, n) <= r.capacity == Quota(r, n, n)
  {
    hide Gain;
    GainNothing(r.capacity);
    TokensInRange(r, n);
    GainNonnegative(r.capacity, r.calls[n] - Before(r, n).lastRefill);
  }

  /** The level is the smallest quota. */
  lemma {:induction false} LevelIsSomeQuota(r: Run, n: nat) returns (j: nat)
    requires Timely(r) && n < |r.calls|
    ensures j <= n && Level(r, n) == Quota(r, j, n)
    decreases n
  {
    hide Level, Quota, Admitted, Timely, Gain;
    LevelAtMostFull(r, n);
    if n == 0 {
      LevelFirst(r);
      j := 0;
    } else {
      LevelStep(r, n);
      if Level(r, n) == r.capacity {
        j := n;
      } else {
        j := LevelIsSomeQuota(r, n - 1);
        QuotaStep(r, j, n);
      }
    }
  }

  // ---- Theorems --------------------------------------------------------------------------

  /** Admitting call `n` keeps every window that ends with it within one bucketful plus its refill. */
  ghost predicate WithinEveryWindow(r: Run, n: nat)
    requires n < |r.calls|
  {
    forall j :: 0 <= j <= n ==>
      Count(r, j, n) as real + 1.0 <= r.capacity + r.capacity * (r.calls[n] - r.calls[j]) / 60.0
  }

  lemma GainIs(capacity: real, elapsed: real)
    ensures Gain(capacity, elapsed) == capacity * elapsed / 60.0
  {
    assert elapsed * (capacity / 60.0) == (elapsed * capacity) / 60.0;
  }

  /** The limiter is exact: a call is admitted if and only if admitting it overdraws no window. */
  lemma AdmittedExactly(r: Run, n: nat)
    requires Timely(r) && n < |r.calls|
    ensures Admitted(r, n) <==> WithinEveryWindow(r, n)
  {
    hide Gain, Count;
    forall j | 0 <= j <= n
      ensures Level(r, n) + Count(r, j, n) as real <= r.capacity + Gain(r.capacity, r.calls[n] - r.calls[j])
    {
      LevelBelowQuota(r, j, n);
    }
    var j := LevelIsSomeQuota(r, n);
    assert Admitted(r, n) <==> Level(r, n) >= 1.0;
    WindowsAre(r, n);
  }

  /** The same windows, with the refill named. */
  lemma WindowsAre(r: Run, n: nat)
    requires n < |r.calls|
    ensures WithinEveryWindow(r, n) <==>
            forall j :: 0 <= j <= n ==>
              Count(r, j, n) as real + 1.0 <= r.capacity + Gain(r.capacity, r.calls[n] - r.calls[j])
  {
    hide Gain, Count;
    forall j | 0 <= j <= n
      ensures Gain(r.capacity, r.calls[n] - r.calls[j]) == r.capacity * (r.calls[n] - r.calls[j]) / 60.0
    {
      GainIs(r.capacity, r.calls[n] - r.calls[j]);
    }
  }

  /** In any window the calls admitted are at most one bucketful, and a bucketful for each minute of it. */
  lemma WindowBound(r: Run, lo: nat, hi: nat, from: real, to: real)
    requires Timely(r) && lo <= hi < |r.calls|
    requires from <= r.calls[lo] && r.calls[hi] <= to
    ensures Count(r, lo, hi + 1) as real <= r.capacity + r.capacity * (to - from) / 60.0
  {
    hide Gain, Timely, Count;
    WindowFilled(r, lo, hi, from, to);
    GainIs(r.capacity, to - from);
  }

  lemma WindowFilled(r: Run, lo: nat, hi: nat, from: real, to: real)
    requires Timely(r) && lo <= hi < |r.calls|
    requires from <= r.calls[lo] && r.calls[hi] <= to
    ensures Count(r, lo, hi + 1) as real <= r.capacity + Gain(r.capacity, to - from)
  {
    hide Gain, Timely;
    assert Level(r, hi) >= 1.0 <==> Admitted(r, hi);
    LevelBelowQuota(r, lo, hi);
    LevelAtMostFull(r, hi);
    GainAdds(r.capacity, r.calls[hi] - r.calls[lo], to - from - (r.calls[hi] - r.calls[lo]));
    GainNonnegative(r.capacity, to - from - (r.calls[hi] - r.calls[lo]));
  }

  lemma {:induction false} CountAtMost(r: Run, lo: nat, hi: nat)
    requires lo <= hi <= |r.calls|
    ensures Count(r, lo, hi) <= hi - lo
    decreases hi
  {
    if lo < hi {
      CountAtMost(r, lo, hi - 1);
    }
  }

  /** A client that never calls twice within 60 / capacity seconds is never refused. */
  lemma SteadyClientNeverRefused(r: Run, n: nat)
    requires Timely(r) && r.capacity >= 1.0 && n < |r.calls|
    requires forall i :: 0 < i < |r.calls| ==> r.calls[i] - r.calls[i - 1] >= 60.0 / r.capacity
    ensures Admitted(r, n)
  {
    hide Gain, Count, Timely, Admitted;
    forall i | 0 < i < |r.calls| ensures Gain(r.capacity, r.calls[i] - r.calls[i - 1]) >= 1.0 {
      OneToken(r.capacity, r.calls[i] - r.calls[i - 1]);
    }
    forall j | 0 <= j <= n
      ensures Count(r, j, n) as real + 1.0 <= r.capacity + Gain(r.capacity, r.calls[n] - r.calls[j])
    {
      CountAtMost(r, j, n);
      Spaced(r, j, n);
    }
    WindowsAre(r, n);
    AdmittedExactly(r, n);
  }

  lemma OneToken(capacity: real, elapsed: real)
    requires capacity >= 1.0 && elapsed >= 60.0 / capacity
    ensures Gain(capacity, elapsed) >= 1.0
  {
    hide Gain;
    GainIs(capacity, elapsed);
    assert (60.0 / capacity) * capacity == 60.0;
    assert (elapsed - 60.0 / capacity) * capacity >= 0.0;
    assert elapsed * capacity == (elapsed - 60.0 / capacity) * capacity + (60.0 / capacity) * capacity;
  }

  lemma {:induction false} Spaced(r: Run, j: nat, n: nat)
    requires j <= n < |r.calls|
    requires forall i :: 0 < i < |r.calls| ==> Gain(r.capacity, r.calls[i] - r.calls[i - 1]) >= 1.0
    ensures Gain(r.capacity, r.calls[n] - r.calls[j]) >= (n - j) as real
    decreases n
  {
    hide Gain;
    GainNothing(r.capacity);
    if j < n {
      Spaced(r, j, n - 1);
      GainAdds(r.capacity, r.calls[n] - r.calls[n - 1], r.calls[n - 1] - r.calls[j]);
    }
  }

  /** Two refills compose. */
  lemma RefillCompose(b: Bucket, s: real, t: real)
    requires b.lastRefill <= s <= t && b.capacity >= 0.0
    ensures b.tokens <= b.capacity ==> Refill(Refill(b, s), t) == Refill(b, t)
  {
    hide Gain;
    GainAdds(b.capacity, s - b.lastRefill, t - s);
    GainNonnegative(b.capacity, t - s);
    GainNonnegative(b.capacity, s - b.lastRefill);
  }

  /** The run without call `i`. */
  function Without(r: Run, i: nat): Run
    requires i < |r.calls|
  {
    r.(calls := r.calls[..i] + r.calls[i + 1..])
  }

  lemma {:induction false} SamePrefix(r: Run, i: nat, n: nat)
    requires i < |r.calls| && n <= i
    ensures Before(Without(r, i), n) == Before(r, n)
    decreases n
  {
    if n > 0 {
      SamePrefix(r, i, n - 1);
    }
  }

  lemma {:induction false} SameSuffix(r: Run, i: nat, n: nat)
    requires Timely(r) && i < |r.calls| && !Admitted(r, i) && i < n < |r.calls|
    ensures Before(Without(r, i), n) == Before(r, n + 1)
    ensures n == i + 1 ==> Consume(Before(Without(r, i), i), r.calls[n]) == Consume(Before(r, n), r.calls[n])
    decreases n
  {
    if n == i + 1 {
      SamePrefix(r, i, i);
      TokensInRange(r, i);
      RefillCompose(Before(r, i), r.calls[i], r.calls[n]);
    } else {
      SameSuffix(r, i, n - 1);
    }
  }

  /** A refused call leaves no trace: without it, every other call is answered as before. */
  lemma RefusedLeavesNoTrace(r: Run, i: nat, n: nat)
    requires Timely(r) && i < |r.calls| && !Admitted(r, i) && n < |r.calls| - 1
    ensures Admitted(Without(r, i), n) == Admitted(r, if n < i then n else n + 1)
  {
    if n < i {
      SamePrefix(r, i, n);
    } else if n == i {
      SameSuffix(r, i, i + 1);
    } else {
      SameSuffix(r, i, n);
    }
  }
}
