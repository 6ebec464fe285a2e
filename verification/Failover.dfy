/**
 The retry loop of `chat_completions_handler` (`src/server/handler.rs`) over a shared registry and
 circuit breaker. What the environment answers in each round is an argument: the outcome of
 refreshing the key, the upstream's answer, and the clock.
 */
module Failover {
  import opened Wrappers
  import opened Router
  import CB = CircuitBreaker

  datatype Fresh = FreshOk | FreshErr(badKeyHint: bool)
  datatype Chat = ChatOk | UpstreamErr(status: Option<nat>, retryable: bool, badKeyHint: bool) | OtherErr
  datatype Round = Round(credential: Fresh, chat: Chat, now: int)

  datatype Ending =
    | Served(retryCount: nat)
    | PoolExhausted
    | CredentialError
    | BreakerOpen
    | UpstreamError
    | InternalError

  /** One iteration: the key picked, whether the upstream was called, whether the key was demoted. */
  datatype Attempt = Attempt(key: PoolKey, called: bool, demoted: bool)

  // ---- What one iteration does -----------------------------------------------------------

  /** What the request is about, fixed for the whole loop. */
  datatype Setup = Setup(cfg: CB.Config, pool: string, keys: Pool, maxRetries: nat, badStatus: set<nat>)

  /** The shared state and the number of retries recorded so far. */
  datatype State = State(bad: Registry, breaker: CB.Breaker, retries: nat)

  /** After some iterations: the state, the log, and the ending if the last one ended the loop. */
  datatype Progress = Progress(state: State, log: seq<Attempt>, ending: Option<Ending>)

  function Call(u: Setup, s: State, key: PoolKey, op: CB.Op, now: int): State {
    s.(breaker := CB.Call(u.cfg, s.breaker, CB.Event((u.pool, key.hash), op, now)))
  }

  /** `try_demote` on the picked key; a demotion counts as a retry. */
  function Demote(u: Setup, s: State, key: PoolKey): State {
    if HealthyCount(s.bad, u.pool, u.keys) <= 1 then s
    else s.(bad := MarkBad(s.bad, u.pool, key.hash), retries := s.retries + 1)
  }

  predicate Indicts(u: Setup, c: Chat) {
    c.UpstreamErr? && c.badKeyHint && c.status.Some? && c.status.value in u.badStatus
  }

  /** Iteration number `n`, with `key` picked. */
  function TryKey(u: Setup, n: nat, p: Progress, key: PoolKey, round: Round): Progress {
    var s := p.state;
    var again := n <= u.maxRetries;
    if round.credential.FreshErr? then
      var t := if round.credential.badKeyHint then Demote(u, s, key) else s;
      Progress(t, p.log + [Attempt(key, false, t != s)], if t != s && again then None else Some(CredentialError))
    else if !CB.Answer(u.cfg, s.breaker, CB.Event((u.pool, key.hash), CB.Allow, round.now)) then
      var t := Call(u, s, key, CB.Allow, round.now);
      var ending := if again then None else Some(BreakerOpen);
      Progress(t.(retries := t.retries + 1), p.log + [Attempt(key, false, false)], ending)
    else
      var t := Call(u, s, key, CB.Allow, round.now);
      match round.chat
      case ChatOk =>
        var v := Call(u, t, key, CB.Success, round.now);
        Progress(v, p.log + [Attempt(key, true, false)], Some(Served(t.retries)))
      case OtherErr => Progress(t, p.log + [Attempt(key, true, false)], Some(InternalError))
      case UpstreamErr(_, retryable, _) =>
        if !Indicts(u, round.chat) then
          Progress(t, p.log + [Attempt(key, true, false)], if retryable && again then None else Some(UpstreamError))
        else
          var f := Call(u, t, key, CB.Failure, round.now);
          var d := Demote(u, f, key);
          var ending := if d != f && retryable && again then None else Some(UpstreamError);
          Progress(d, p.log + [Attempt(key, true, d != f)], ending)
  }

  /** The loop, given which keys the weighted choice picks. */
  function TryAll(u: Setup, s: State, env: nat -> Round, picks: seq<PoolKey>): Progress {
    if picks == [] then Progress(s, [], None)
    else TryKey(u, |picks|, TryAll(u, s, env, picks[..|picks| - 1]), picks[|picks| - 1], env(|picks|))
  }

  // ---- What a whole run amounts to -------------------------------------------------------

  function Demotions(log: seq<Attempt>): nat {
    if log == [] then 0 else Demotions(log[..|log| - 1]) + if log[|log| - 1].demoted then 1 else 0
  }

  function Demoted(log: seq<Attempt>): set<string> {
    set i | 0 <= i < |log| && log[i].demoted :: log[i].key.hash
  }

  /** No key is picked again once this run has demoted it. */
  ghost predicate NeverAgain(log: seq<Attempt>) {
    forall i, j :: 0 <= i < j < |log| && log[i].demoted ==> log[j].key.hash != log[i].key.hash
  }

  /** What this run has done to the pool so far, for a pool with distinct hashes. */
  ghost predicate Accounts(before: Registry, after: Registry, pool: string, keys: Pool, log: seq<Attempt>) {
    && BadSet(after, pool) == BadSet(before, pool) + Demoted(log)
    && HealthyCount(after, pool, keys) == HealthyCount(before, pool, keys) - Demotions(log)
    && HealthyCount(after, pool, keys) >= 1
    && NeverAgain(log)
  }

  lemma DemotedMore(log: seq<Attempt>, a: Attempt)
    ensures Demotions(log + [a]) == Demotions(log) + if a.demoted then 1 else 0
    ensures Demoted(log + [a]) == Demoted(log) + if a.demoted then {a.key.hash} else {}
  {
    assert (log + [a])[..|log|] == log;
    var more := log + [a];
    assert forall i :: 0 <= i < |log| ==> more[i] == log[i];
    assert more[|log|] == a;
    forall h | h in Demoted(log) ensures h in Demoted(more) {
      var i :| 0 <= i < |log| && log[i].demoted && log[i].key.hash == h;
      assert more[i].demoted && more[i].key.hash == h;
    }
  }

  lemma StillNeverAgain(log: seq<Attempt>, a: Attempt)
    requires NeverAgain(log) && a.key.hash !in Demoted(log)
    ensures NeverAgain(log + [a])
  {
    assert forall i :: 0 <= i < |log| && log[i].demoted ==> log[i].key.hash in Demoted(log);
  }

  /** One more attempt keeps the accounts, whether or not it demotes the key it picked. */
  lemma AccountsMore(before: Registry, after: Registry, pool: string, keys: Pool, log: seq<Attempt>, a: Attempt)
    requires Distinct(keys) && Accounts(before, after, pool, keys, log)
    requires a.key in keys && Selectable(after, pool, a.key)
    requires a.demoted ==> HealthyCount(after, pool, keys) > 1
    ensures Accounts(before, if a.demoted then MarkBad(after, pool, a.key.hash) else after, pool, keys, log + [a])
  {
    hide HealthyCount, Distinct, MarkBad, Demotions, BadSet, Demoted, NeverAgain, IsBad;
    DemotedMore(log, a);
    RegistryRefinesSets(after, pool, a.key.hash, pool);
    assert a.key.hash !in Demoted(log);
    StillNeverAgain(log, a);
    if a.demoted {
      DemotionTakesOne(after, pool, keys, a.key);
    }
  }

  /** The keys picked, each selectable when it was picked, up to where the loop ended or still goes on. */
  ghost predicate ValidRun(u: Setup, s: State, env: nat -> Round, picks: seq<PoolKey>) {
    picks != [] ==>
      var p, k := TryAll(u, s, env, picks[..|picks| - 1]), picks[|picks| - 1];
      ValidRun(u, s, env, picks[..|picks| - 1]) && p.ending.None? && k in u.keys && Selectable(p.state.bad, u.pool, k)
  }

  lemma TryKeyShape(u: Setup, n: nat, p: Progress, key: PoolKey, round: Round)
    ensures var q := TryKey(u, n, p, key, round);
            && |q.log| == |p.log| + 1 && q.log[..|p.log|] == p.log && q.log[|p.log|].key == key
            && (q.log[|p.log|].demoted ==> HealthyCount(p.state.bad, u.pool, u.keys) > 1)
            && q.state.bad == (if q.log[|p.log|].demoted then MarkBad(p.state.bad, u.pool, key.hash) else p.state.bad)
            && q.state.retries <= p.state.retries + 1
            && (q.ending.None? ==> n <= u.maxRetries) && q.ending != Some(PoolExhausted)
            && (q.ending.Some? && q.ending.value.Served? ==> q.ending.value.retryCount == p.state.retries)
  {
    hide HealthyCount, MarkBad, CB.Call, CB.Answer;
  }

  /** Every run tries at most `maxRetries + 1` keys and reports at most `maxRetries` retries. */
  lemma {:induction false} RunBounded(u: Setup, s: State, env: nat -> Round, picks: seq<PoolKey>)
    requires ValidRun(u, s, env, picks) && s.retries == 0
    ensures var p := TryAll(u, s, env, picks);
            && |p.log| == |picks| <= u.maxRetries + 1 && p.state.retries <= |picks|
            && (p.ending.None? ==> |picks| <= u.maxRetries) && p.ending != Some(PoolExhausted)
            && (p.ending.Some? && p.ending.value.Served? ==> p.ending.value.retryCount <= u.maxRetries)
  {
    hide TryKey;
    if picks != [] {
      var front := picks[..|picks| - 1];
      RunBounded(u, s, env, front);
      TryKeyShape(u, |picks|, TryAll(u, s, env, front), picks[|picks| - 1], env(|picks|));
    }
  }

  /**
   In every run over a pool with distinct hashes and a selectable key: no key is picked again once
   demoted, each demotion costs exactly one selectable key, and one always remains.
   */
  lemma {:induction false} RunAccounts(u: Setup, s: State, env: nat -> Round, picks: seq<PoolKey>)
    requires Distinct(u.keys) && HealthyCount(s.bad, u.pool, u.keys) >= 1 && ValidRun(u, s, env, picks)
    ensures var p := TryAll(u, s, env, picks); Accounts(s.bad, p.state.bad, u.pool, u.keys, p.log)
  {
    hide TryKey, HealthyCount, Distinct, MarkBad, Accounts, Selectable;
    if picks == [] {
      NothingDone(s.bad, u.pool, u.keys);
    } else {
      var front, k := picks[..|picks| - 1], picks[|picks| - 1];
      RunAccounts(u, s, env, front);
      var p := TryAll(u, s, env, front);
      TryKeyShape(u, |picks|, p, k, env(|picks|));
      var q := TryAll(u, s, env, picks);
      AccountsMore(s.bad, p.state.bad, u.pool, u.keys, p.log, q.log[|p.log|]);
      assert q.log == p.log + [q.log[|p.log|]];
    }
  }

  /** One iteration of the loop, after the key was picked. */
  method TryOnce(registry: BadKeyRegistry, breaker: CB.CircuitBreaker, u: Setup, attempts: nat, key: PoolKey,
                 round: Round, retries: seq<string>)
    returns (stop: Option<Ending>, attempt: Attempt, retries': seq<string>)
    requires u.cfg == breaker.cfg
    modifies registry, breaker
    ensures forall log ::
              TryKey(u, attempts, Progress(State(old(registry.bad), old(breaker.Value()), |retries|), log, None), key,
                round) ==
              Progress(State(registry.bad, breaker.Value(), |retries'|), log + [attempt], stop)
  {
    hide HealthyCount, MarkBad, CB.Call, CB.Answer;
    stop, retries' := None, retries;
    var demoted := false;
    if round.credential.FreshErr? {
      if round.credential.badKeyHint {
        demoted := registry.TryDemote(u.pool, u.keys, key);
      }
      if demoted {
        retries' := retries + [key.hash];
      }
      if !demoted || attempts > u.maxRetries {
        stop := Some(CredentialError);
      }
      return stop, Attempt(key, false, demoted), retries';
    }
    var allowed := breaker.Allow((u.pool, key.hash), round.now);
    if !allowed {
      if attempts > u.maxRetries {
        stop := Some(BreakerOpen);
      }
      return stop, Attempt(key, false, false), retries + [key.hash];
    }
    match round.chat {
      case ChatOk =>
        breaker.RecordSuccess((u.pool, key.hash), round.now);
        stop := Some(Served(|retries|));
      case OtherErr =>
        stop := Some(InternalError);
      case UpstreamErr(status, retryable, badKeyHint) =>
        if badKeyHint && status.Some? && status.value in u.badStatus {
          var tripped := breaker.RecordFailure((u.pool, key.hash), round.now);
          demoted := registry.TryDemote(u.pool, u.keys, key);
          if demoted {
            retries' := retries + [key.hash];
          } else {
            stop := Some(UpstreamError);
          }
        }
        if !retryable || attempts > u.maxRetries {
          stop := Some(UpstreamError);
        }
    }
    attempt := Attempt(key, true, demoted);
  }

  /**
   The loop: what it leaves behind is a valid run of `TryAll`, so `RunBounded` and `RunAccounts` hold
   of it. It reports an exhausted pool if nothing was selectable to begin with, and never if something
   was and the hashes are distinct.
   */
  method HandleRequest(registry: BadKeyRegistry, breaker: CB.CircuitBreaker, u: Setup, env: nat -> Round)
    returns (ending: Ending, log: seq<Attempt>, ghost picks: seq<PoolKey>)
    requires u.cfg == breaker.cfg
    modifies registry, breaker
    ensures var s := State(old(registry.bad), old(breaker.Value()), 0);
            var p := TryAll(u, s, env, picks);
            && ValidRun(u, s, env, picks)
            && log == p.log && registry.bad == p.state.bad && breaker.Value() == p.state.breaker
            && (p.ending.Some? ==> ending == p.ending.value)
            && (p.ending.None? ==> ending == PoolExhausted && HealthyCount(registry.bad, u.pool, u.keys) == 0)
    ensures |log| <= u.maxRetries + 1
    ensures ending.Served? ==> ending.retryCount <= u.maxRetries
    ensures HealthyCount(old(registry.bad), u.pool, u.keys) == 0 ==> ending == PoolExhausted && log == []
    ensures Distinct(u.keys) && HealthyCount(old(registry.bad), u.pool, u.keys) >= 1 ==>
              !ending.PoolExhausted? && Accounts(old(registry.bad), registry.bad, u.pool, u.keys, log)
  {
    hide HealthyCount, Distinct, MarkBad, Accounts, Selectable, CB.Call, CB.Answer, TryKey;
    ghost var s := State(registry.bad, breaker.Value(), 0);
    log, picks := [], [];
    var retries: seq<string> := [];
    var attempts := 0;
    while true
      invariant attempts == |log| == |picks| <= u.maxRetries
      invariant ValidRun(u, s, env, picks)
      invariant TryAll(u, s, env, picks) == Progress(State(registry.bad, breaker.Value(), |retries|), log, None)
      invariant HealthyCount(s.bad, u.pool, u.keys) == 0 ==> log == []
      decreases u.maxRetries - attempts
    {
      attempts := attempts + 1;
      if Distinct(u.keys) && HealthyCount(s.bad, u.pool, u.keys) >= 1 {
        RunAccounts(u, s, env, picks);
        StillHealthy(s.bad, registry.bad, u.pool, u.keys, log);
      }
      var picked := registry.PickKey(u.pool, u.keys);
      if picked.None? {
        return PoolExhausted, log, picks;
      }
      var key := picked.value;
      assert (picks + [key])[..|picks|] == picks;
      picks := picks + [key];
      var stop, attempt;
      stop, attempt, retries := TryOnce(registry, breaker, u, attempts, key, env(attempts), retries);
      log := log + [attempt];
      RunBounded(u, s, env, picks);
      if stop.Some? {
        if Distinct(u.keys) && HealthyCount(s.bad, u.pool, u.keys) >= 1 {
          RunAccounts(u, s, env, picks);
        }
        return stop.value, log, picks;
      }
    }
  }

  lemma NothingDone(r: Registry, pool: string, keys: Pool)
    requires HealthyCount(r, pool, keys) >= 1
    ensures Accounts(r, r, pool, keys, [])
  {
  }

  lemma StillHealthy(before: Registry, after: Registry, pool: string, keys: Pool, log: seq<Attempt>)
    requires Accounts(before, after, pool, keys, log)
    ensures HealthyCount(after, pool, keys) >= 1
  {
  }
}
