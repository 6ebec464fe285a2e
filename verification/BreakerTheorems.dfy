/**
 Laws of the circuit breaker over whole runs: the calls on one key see nothing of other keys, the
 counters are functions of the call trace, and trips of one key are at least a cooldown apart.
 */
module BreakerTheorems {
  import opened Wrappers
  import opened CircuitBreaker

  // ---- Runs ------------------------------------------------------------------------------

  function Run(cfg: Config, evs: seq<Event>): Breaker {
    if evs == [] then Breaker(map[], 0) else Call(cfg, Run(cfg, evs[..|evs| - 1]), evs[|evs| - 1])
  }

  /** The calls on one key. */
  function On(key: Key, evs: seq<Event>): seq<Event> {
    if evs == [] then []
    else
      var front, last := On(key, evs[..|evs| - 1]), evs[|evs| - 1];
      if last.key == key then front + [last] else front
  }

  /** The entry of one key after the calls on it, alone. */
  function After(cfg: Config, evs: seq<Event>): Entry {
    if evs == [] then FreshEntry
    else Step(cfg, After(cfg, evs[..|evs| - 1]), evs[|evs| - 1].op, evs[|evs| - 1].at).entry
  }

  /** Keys are isolated: a key's entry after any run is what its own calls alone produce. */
  lemma {:induction false} KeysIsolated(cfg: Config, evs: seq<Event>, key: Key)
    ensures Look(Run(cfg, evs).circuits, key) == After(cfg, On(key, evs))
  {
    if evs != [] {
      var front, last := evs[..|evs| - 1], evs[|evs| - 1];
      KeysIsolated(cfg, front, key);
      if last.key == key {
        var own := On(key, front);
        assert (own + [last])[..|own|] == own;
      }
    }
  }

  // ---- The counters are functions of the trace -------------------------------------------

  /** Failures recorded since the last recorded success or reset. */
  function Streak(evs: seq<Event>): nat {
    if evs == [] then 0
    else
      match evs[|evs| - 1].op
      case Failure => Streak(evs[..|evs| - 1]) + 1
      case Allow => Streak(evs[..|evs| - 1])
      case _ => 0
  }

  /**
   In every reachable state: while closed, `failures` is the current streak and below the
   threshold; otherwise it is the threshold; a half-open circuit still wants successes.
   A threshold or success quota of zero behaves as one.
   */
  lemma {:induction false} StateRefinesTrace(cfg: Config, evs: seq<Event>)
    ensures var e := After(cfg, evs);
            var threshold := if cfg.threshold == 0 then 1 else cfg.threshold;
            && (e.state.Closed? ==> e.failures == Streak(evs) < threshold)
            && (!e.state.Closed? ==> e.failures == threshold && e.openedAt.Some?)
            && (e.state.HalfOpen? ==> e.successes == 0 || e.successes < cfg.halfOpenMax)
            && e.successes <= if cfg.halfOpenMax == 0 then 1 else cfg.halfOpenMax
  {
    if evs != [] {
      StateRefinesTrace(cfg, evs[..|evs| - 1]);
    }
  }

  /** The circuit of `key` after the first `j` calls of a run, as the breaker holds it. */
  function Circuit(cfg: Config, evs: seq<Event>, j: nat, key: Key): Entry
    requires j <= |evs|
  {
    Look(Run(cfg, evs[..j]).circuits, key)
  }

  /** After any run `allow` refuses exactly while the cooldown runs, or half-open when no success is ever wanted. */
  lemma RefusedExactly(cfg: Config, evs: seq<Event>, key: Key, now: int)
    ensures var e := Look(Run(cfg, evs).circuits, key);
            !Answer(cfg, Run(cfg, evs), Event(key, Allow, now)) <==>
            || (e.state.Open? && e.openedAt.Some? && now < e.openedAt.value + cfg.cooldown)
            || (e.state.HalfOpen? && cfg.halfOpenMax == 0)
  {
    hide Run, On;
    KeysIsolated(cfg, evs, key);
    StateRefinesTrace(cfg, On(key, evs));
  }

  /** How many calls of a run returned `true` from `record_failure`. */
  function TripsReported(cfg: Config, evs: seq<Event>): nat {
    if evs == [] then 0
    else
      var front, last := evs[..|evs| - 1], evs[|evs| - 1];
      TripsReported(cfg, front) + if last.op.Failure? && Answer(cfg, Run(cfg, front), last) then 1 else 0
  }

  lemma {:induction false} TotalTripsExact(cfg: Config, evs: seq<Event>)
    ensures Run(cfg, evs).trips == TripsReported(cfg, evs)
  {
    if evs != [] {
      TotalTripsExact(cfg, evs[..|evs| - 1]);
    }
  }

  /** What a run answers is what replaying the calls on that key alone answers. */
  lemma {:induction false} AnswersIsolated(cfg: Config, evs: seq<Event>)
    requires evs != []
    ensures var front, last := evs[..|evs| - 1], evs[|evs| - 1];
            var own := On(last.key, evs);
            && own != [] && own[|own| - 1] == last
            && Answer(cfg, Run(cfg, front), last) == Step(cfg, After(cfg, own[..|own| - 1]), last.op, last.at).result
  {
    var front, last := evs[..|evs| - 1], evs[|evs| - 1];
    KeysIsolated(cfg, front, last.key);
    var own := On(last.key, front);
    assert (own + [last])[..|own|] == own;
  }

  // ---- Timing, for one key among many ----------------------------------------------------

  /** What call number `i` of a run returns. */
  predicate Returned(cfg: Config, evs: seq<Event>, i: nat)
    requires i < |evs|
  {
    Answer(cfg, Run(cfg, evs[..i]), evs[i])
  }

  predicate Tripped(cfg: Config, evs: seq<Event>, i: nat, key: Key) {
    i < |evs| && evs[i].key == key && evs[i].op.Failure? && Returned(cfg, evs, i)
  }

  ghost predicate Monotone(evs: seq<Event>) {
    forall i, j :: 0 <= i <= j < |evs| ==> evs[i].at <= evs[j].at
  }

  ghost predicate NeverReset(evs: seq<Event>, key: Key) {
    forall i :: 0 <= i < |evs| && evs[i].key == key ==> !evs[i].op.Reset?
  }

  /** No `allow` on `key` strictly between calls `i` and `j` came at or after `t`. */
  ghost predicate NoneAllowedFrom(evs: seq<Event>, key: Key, i: nat, j: nat, t: int)
    requires j <= |evs|
  {
    forall k :: i < k < j && evs[k].key == key && evs[k].op.Allow? ==> evs[k].at < t
  }

  /** One more call moves the circuit of its own key and no other. */
  lemma CircuitStep(cfg: Config, evs: seq<Event>, j: nat, key: Key)
    requires j < |evs|
    ensures var e := Circuit(cfg, evs, j, key);
            && Circuit(cfg, evs, j + 1, key) ==
               (if evs[j].key == key then Step(cfg, e, evs[j].op, evs[j].at).entry else e)
            && (evs[j].key == key ==> Returned(cfg, evs, j) == Step(cfg, e, evs[j].op, evs[j].at).result)
  {
    assert evs[..j + 1][..j] == evs[..j];
  }

  /** A tripped circuit stays open, whatever is recorded on any key, until an `allow` on it after the cooldown. */
  lemma {:induction false} StaysOpen(cfg: Config, evs: seq<Event>, key: Key, i: nat, j: nat)
    requires NeverReset(evs, key) && Tripped(cfg, evs, i, key) && i < j <= |evs|
    requires NoneAllowedFrom(evs, key, i, j, evs[i].at + cfg.cooldown)
    ensures var e := Circuit(cfg, evs, j, key); e.state.Open? && e.openedAt == Some(evs[i].at)
    decreases j
  {
    hide Circuit, Returned;
    CircuitStep(cfg, evs, j - 1, key);
    if j > i + 1 {
      StaysOpen(cfg, evs, key, i, j - 1);
    }
  }

  /** Every `allow` during the cooldown is refused. */
  lemma RefusedDuringCooldown(cfg: Config, evs: seq<Event>, key: Key, i: nat, j: nat)
    requires Monotone(evs) && NeverReset(evs, key) && Tripped(cfg, evs, i, key)
    requires i < j < |evs| && evs[j].key == key && evs[j].op.Allow? && evs[j].at < evs[i].at + cfg.cooldown
    ensures !Returned(cfg, evs, j)
  {
    hide Circuit, Returned;
    StaysOpen(cfg, evs, key, i, j);
    CircuitStep(cfg, evs, j, key);
  }

  /** The first `allow` at or after the end of the cooldown is granted. */
  lemma GrantedAfterCooldown(cfg: Config, evs: seq<Event>, key: Key, i: nat, j: nat)
    requires NeverReset(evs, key) && Tripped(cfg, evs, i, key)
    requires i < j < |evs| && evs[j].key == key && evs[j].op.Allow? && evs[i].at + cfg.cooldown <= evs[j].at
    requires NoneAllowedFrom(evs, key, i, j, evs[i].at + cfg.cooldown)
    ensures Returned(cfg, evs, j)
  {
    hide Circuit, Returned;
    StaysOpen(cfg, evs, key, i, j);
    CircuitStep(cfg, evs, j, key);
  }

  /** Two trips of one key are at least a cooldown apart. */
  lemma TripsApart(cfg: Config, evs: seq<Event>, key: Key, i: nat, j: nat)
    requires Monotone(evs) && NeverReset(evs, key)
    requires i < j && Tripped(cfg, evs, i, key) && Tripped(cfg, evs, j, key)
    ensures evs[i].at + cfg.cooldown <= evs[j].at
  {
    hide Circuit, Returned;
    if NoneAllowedFrom(evs, key, i, j, evs[i].at + cfg.cooldown) {
      StaysOpen(cfg, evs, key, i, j);
      CircuitStep(cfg, evs, j, key);
      assert false;
    }
  }

  lemma InOrder(evs: seq<Event>, i: nat, j: nat)
    requires Monotone(evs) && i <= j < |evs|
    ensures evs[i].at <= evs[j].at
  {
  }

  /** Trips of `key` among calls `lo` to `hi`. */
  function TripsIn(cfg: Config, evs: seq<Event>, key: Key, lo: nat, hi: nat): nat
    requires lo <= hi <= |evs|
    decreases hi
  {
    if lo == hi then 0 else TripsIn(cfg, evs, key, lo, hi - 1) + if Tripped(cfg, evs, hi - 1, key) then 1 else 0
  }

  /** The last of `n` trips comes at least `n - 1` cooldowns after the first call considered. */
  lemma {:induction false} TripsTakeTime(cfg: Config, evs: seq<Event>, key: Key, lo: nat, hi: nat) returns (last: nat)
    requires Monotone(evs) && NeverReset(evs, key) && lo <= hi <= |evs| && TripsIn(cfg, evs, key, lo, hi) > 0
    ensures lo <= last < hi && Tripped(cfg, evs, last, key)
    ensures evs[last].at - evs[lo].at >= (TripsIn(cfg, evs, key, lo, hi) - 1) * cfg.cooldown
    decreases hi
  {
    hide Tripped, Monotone, NeverReset;
    var before := TripsIn(cfg, evs, key, lo, hi - 1);
    if !Tripped(cfg, evs, hi - 1, key) {
      last := TripsTakeTime(cfg, evs, key, lo, hi - 1);
    } else if before == 0 {
      last := hi - 1;
      assert evs[lo].at <= evs[last].at by { InOrder(evs, lo, last); }
    } else {
      var prev := TripsTakeTime(cfg, evs, key, lo, hi - 1);
      last := hi - 1;
      TripsApart(cfg, evs, key, prev, last);
      assert before * cfg.cooldown == (before - 1) * cfg.cooldown + cfg.cooldown;
    }
  }

  /** In any stretch of a run lasting at most `length`, one key trips at most 1 + length / cooldown times. */
  lemma TripRateBounded(cfg: Config, evs: seq<Event>, key: Key, lo: nat, hi: nat, length: nat)
    requires cfg.cooldown > 0 && Monotone(evs) && NeverReset(evs, key) && lo < hi <= |evs|
    requires evs[hi - 1].at - evs[lo].at <= length
    ensures TripsIn(cfg, evs, key, lo, hi) <= 1 + length / cfg.cooldown
  {
    hide Tripped, Monotone, NeverReset;
    var n := TripsIn(cfg, evs, key, lo, hi);
    if n > 0 {
      var last := TripsTakeTime(cfg, evs, key, lo, hi);
      assert evs[last].at <= evs[hi - 1].at by { InOrder(evs, last, hi - 1); }
      assert (n - 1) * cfg.cooldown <= length;
      DivBound(n - 1, cfg.cooldown, length);
    }
  }

  lemma DivBound(n: nat, d: nat, length: nat)
    requires d > 0 && n * d <= length
    ensures n <= length / d
  {
    var q := length / d;
    assert length == d * q + length % d;
    if n > q {
      Above(q + 1, n, d);
    }
  }

  lemma Above(a: nat, b: nat, d: nat)
    requires a <= b
    ensures a * d <= b * d && a * d == d * (a - 1) + d
  {
    assert b * d - a * d == (b - a) * d;
  }

  // ---- Tripping and recovering, for one key among many -----------------------------------

  /**
   A failure is reported as a trip if and only if the circuit is half-open, or closed with a streak that
   this failure brings to the threshold; and exactly then the circuit becomes open with it.
   */
  lemma TrippedExactly(cfg: Config, evs: seq<Event>, key: Key, j: nat)
    requires j < |evs| && evs[j].key == key && evs[j].op.Failure?
    ensures var e, f := Circuit(cfg, evs, j, key), Circuit(cfg, evs, j + 1, key);
            && (Returned(cfg, evs, j) <==>
                  e.state.HalfOpen? || (e.state.Closed? && Streak(On(key, evs[..j])) + 1 >= cfg.threshold))
            && (Returned(cfg, evs, j) <==> !e.state.Open? && f.state.Open?)
            && (Returned(cfg, evs, j) ==> f.openedAt == Some(evs[j].at))
  {
    hide Returned, On, Streak, Run;
    CircuitStep(cfg, evs, j, key);
    KeysIsolated(cfg, evs[..j], key);
    StateRefinesTrace(cfg, On(key, evs[..j]));
  }

  /** An `allow` on `key` that finds the cooldown over and lets the circuit be tried. */
  predicate EndsCooldown(cfg: Config, evs: seq<Event>, i: nat, key: Key) {
    && i < |evs| && evs[i].key == key && evs[i].op.Allow?
    && Circuit(cfg, evs, i, key).state.Open? && Returned(cfg, evs, i)
  }

  /** Successes on `key` among calls `lo` to `hi`. */
  function SuccessesIn(evs: seq<Event>, key: Key, lo: nat, hi: nat): nat
    requires lo <= hi <= |evs|
    decreases hi
  {
    if lo == hi then 0
    else SuccessesIn(evs, key, lo, hi - 1) + if evs[hi - 1].key == key && evs[hi - 1].op.Success? then 1 else 0
  }

  ghost predicate NoSetback(evs: seq<Event>, key: Key, lo: nat, hi: nat)
    requires hi <= |evs|
  {
    forall k :: lo <= k < hi && evs[k].key == key ==> !evs[k].op.Failure? && !evs[k].op.Reset?
  }

  /** Successes that close a half-open circuit; a maximum of zero acts as one. */
  function Quota(cfg: Config): nat { if cfg.halfOpenMax == 0 then 1 else cfg.halfOpenMax }

  /** Until the quota is reached or a setback comes, the circuit stays half-open and counts the successes. */
  lemma {:induction false} HalfOpenCounts(cfg: Config, evs: seq<Event>, key: Key, i: nat, j: nat)
    requires EndsCooldown(cfg, evs, i, key) && i < j <= |evs|
    requires NoSetback(evs, key, i + 1, j) && SuccessesIn(evs, key, i + 1, j) < Quota(cfg)
    ensures var e := Circuit(cfg, evs, j, key);
            e.state.HalfOpen? && e.successes == SuccessesIn(evs, key, i + 1, j)
    decreases j
  {
    hide Circuit, Returned;
    CircuitStep(cfg, evs, j - 1, key);
    if j > i + 1 {
      HalfOpenCounts(cfg, evs, key, i, j - 1);
    }
  }

  /** The next success closes the circuit if and only if it is the one that fills the quota. */
  lemma ClosesExactly(cfg: Config, evs: seq<Event>, key: Key, i: nat, j: nat)
    requires EndsCooldown(cfg, evs, i, key) && i < j < |evs| && evs[j].key == key && evs[j].op.Success?
    requires NoSetback(evs, key, i + 1, j) && SuccessesIn(evs, key, i + 1, j) < Quota(cfg)
    ensures var e := Circuit(cfg, evs, j + 1, key);
            && (e.state.Closed? <==> SuccessesIn(evs, key, i + 1, j) + 1 == Quota(cfg))
            && (e.state.Closed? ==> e.failures == 0)
  {
    hide Circuit, Returned, EndsCooldown, NoSetback, SuccessesIn;
    HalfOpenCounts(cfg, evs, key, i, j);
    CircuitStep(cfg, evs, j, key);
  }

  /** A failure before that is a trip. */
  lemma RelapseTrips(cfg: Config, evs: seq<Event>, key: Key, i: nat, j: nat)
    requires EndsCooldown(cfg, evs, i, key) && i < j < |evs| && evs[j].key == key && evs[j].op.Failure?
    requires NoSetback(evs, key, i + 1, j) && SuccessesIn(evs, key, i + 1, j) < Quota(cfg)
    ensures Tripped(cfg, evs, j, key)
  {
    hide Circuit, Returned, EndsCooldown, NoSetback, SuccessesIn;
    HalfOpenCounts(cfg, evs, key, i, j);
    TrippedExactly(cfg, evs, key, j);
  }

  /** A circuit is half-open in no other way. */
  lemma {:induction false} HalfOpenSince(cfg: Config, evs: seq<Event>, key: Key, j: nat) returns (i: nat)
    requires j <= |evs| && Circuit(cfg, evs, j, key).state.HalfOpen?
    ensures i < j && EndsCooldown(cfg, evs, i, key) && NoSetback(evs, key, i + 1, j)
    ensures SuccessesIn(evs, key, i + 1, j) < Quota(cfg)
    decreases j
  {
    hide Circuit, Returned;
    assert j > 0 by { StartsClosed(cfg, evs, key); }
    CircuitStep(cfg, evs, j - 1, key);
    if Circuit(cfg, evs, j - 1, key).state.HalfOpen? {
      i := HalfOpenSince(cfg, evs, key, j - 1);
      HalfOpenCounts(cfg, evs, key, i, j - 1);
    } else {
      i := j - 1;
    }
  }

  lemma StartsClosed(cfg: Config, evs: seq<Event>, key: Key)
    ensures Circuit(cfg, evs, 0, key).state.Closed?
  {
  }
}
