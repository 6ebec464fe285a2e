/**
 The circuit breaker of `src/circuit_breaker.rs`. Each method holds the key's map entry for the
 whole call, so a run is a sequence of atomic calls; the clock is an argument.
 */
module CircuitBreaker {
  import opened Wrappers

  datatype CircuitState = Closed | Open | HalfOpen
  datatype Entry = Entry(state: CircuitState, failures: nat, successes: nat, openedAt: Option<int>)

  /** `cooldown` is in the ticks of the clock. */
  datatype Config = Config(threshold: nat, cooldown: nat, halfOpenMax: nat)

  const FreshEntry := Entry(Closed, 0, 0, None)

  datatype Op = Allow | Success | Failure | Reset
  datatype Outcome = Outcome(entry: Entry, result: bool)

  predicate CooledDown(cfg: Config, e: Entry, now: int) {
    e.openedAt.Some? && now - e.openedAt.value >= cfg.cooldown
  }

  /** What one call does to the entry of its key; `result` is what `allow` and `record_failure` return. */
  function Step(cfg: Config, e: Entry, op: Op, now: int): Outcome {
    match op
    case Allow =>
      (match e.state
       case Closed => Outcome(e, true)
       case Open =>
         if CooledDown(cfg, e, now) then Outcome(e.(state := HalfOpen, successes := 0), true) else Outcome(e, false)
       case HalfOpen => Outcome(e, e.successes < cfg.halfOpenMax))
    case Success =>
      (match e.state
       case Closed => Outcome(e.(failures := 0), false)
       case HalfOpen =>
         var n := e.successes + 1;
         var f := e.(successes := n);
         Outcome(if n >= cfg.halfOpenMax then f.(state := Closed, failures := 0) else f, false)
       case Open => Outcome(e, false))
    case Failure =>
      (match e.state
       case Closed =>
         var n := e.failures + 1;
         if n >= cfg.threshold then Outcome(e.(failures := n, state := Open, openedAt := Some(now)), true)
         else Outcome(e.(failures := n), false)
       case HalfOpen => Outcome(e.(state := Open, openedAt := Some(now)), true)
       case Open => Outcome(e, false))
    case Reset => Outcome(e.(failures := 0, successes := 0, state := Closed), false)
  }

  // ---- The breaker -----------------------------------------------------------------------

  type Key = (string, string)

  function Look(circuits: map<Key, Entry>, key: Key): Entry {
    if key in circuits then circuits[key] else FreshEntry
  }

  /** The breaker as a value, and one call on it. */
  datatype Breaker = Breaker(circuits: map<Key, Entry>, trips: nat)
  datatype Event = Event(key: Key, op: Op, at: int)

  function Call(cfg: Config, b: Breaker, ev: Event): Breaker {
    var r := Step(cfg, Look(b.circuits, ev.key), ev.op, ev.at);
    Breaker(if ev.op.Reset? && ev.key !in b.circuits then b.circuits else b.circuits[ev.key := r.entry],
            b.trips + if ev.op.Failure? && r.result then 1 else 0)
  }

  function Answer(cfg: Config, b: Breaker, ev: Event): bool {
    Step(cfg, Look(b.circuits, ev.key), ev.op, ev.at).result
  }

  class CircuitBreaker {
    const cfg: Config
    var circuits: map<Key, Entry>
    var totalTrips: nat

    ghost function Value(): Breaker
      reads this
    {
      Breaker(circuits, totalTrips)
    }

    constructor (cfg: Config)
      ensures this.cfg == cfg && Value() == Breaker(map[], 0)
    {
      this.cfg, this.circuits, this.totalTrips := cfg, map[], 0;
    }

    method Allow(key: Key, now: int) returns (allowed: bool)
      modifies this
      ensures Value() == Call(cfg, old(Value()), Event(key, Op.Allow, now))
      ensures allowed == Answer(cfg, old(Value()), Event(key, Op.Allow, now))
    {
      var entry := Look(circuits, key);
      allowed := true;
      match entry.state {
        case Closed =>
        case Open =>
          if entry.openedAt.Some? && now - entry.openedAt.value >= cfg.cooldown {
            entry := entry.(state := HalfOpen);
            entry := entry.(successes := 0);
          } else {
            allowed := false;
          }
        case HalfOpen =>
          allowed := entry.successes < cfg.halfOpenMax;
      }
      circuits := circuits[key := entry];
    }

    method RecordSuccess(key: Key, now: int)
      modifies this
      ensures Value() == Call(cfg, old(Value()), Event(key, Success, now))
    {
      var entry := Look(circuits, key);
      match entry.state {
        case Closed =>
          entry := entry.(failures := 0);
        case HalfOpen =>
          entry := entry.(successes := entry.successes + 1);
          if entry.successes >= cfg.halfOpenMax {
            entry := entry.(state := Closed);
            entry := entry.(failures := 0);
          }
        case Open =>
      }
      circuits := circuits[key := entry];
    }

    method RecordFailure(key: Key, now: int) returns (tripped: bool)
      modifies this
      ensures Value() == Call(cfg, old(Value()), Event(key, Failure, now))
      ensures tripped == Answer(cfg, old(Value()), Event(key, Failure, now))
    {
      var entry := Look(circuits, key);
      tripped := false;
      match entry.state {
        case Closed =>
          entry := entry.(failures := entry.failures + 1);
          if entry.failures >= cfg.threshold {
            tripped := true;
          }
        case HalfOpen =>
          tripped := true;
        case Open =>
      }
      if tripped {
        entry := entry.(state := Open, openedAt := Some(now));
        totalTrips := totalTrips + 1;
      }
      circuits := circuits[key := entry];
    }

    method ResetCircuit(key: Key)
      modifies this
      ensures forall now :: Value() == Call(cfg, old(Value()), Event(key, Reset, now))
    {
      if key in circuits {
        var entry := circuits[key];
        circuits := circuits[key := entry.(failures := 0, successes := 0, state := Closed)];
      }
    }
  }
}
