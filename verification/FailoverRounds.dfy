/**
 The retry loop read off its log: when it goes on, how it ends, what it reports and what it tells the
 circuit breaker, all in terms of what the environment answered in each round and what was logged.
 */
module FailoverRounds {
  import opened Wrappers
  import opened Sequences
  import opened Router
  import opened Failover
  import CB = CircuitBreaker

  // ---- What a round and its log entry mean -----------------------------------------------

  /** The upstream's error speaks against the key: it says so, with a status listed as bad. */
  predicate Blames(u: Setup, r: Round) {
    r.chat.UpstreamErr? && r.chat.badKeyHint && r.chat.status.Some? && r.chat.status.value in u.badStatus
  }

  /** The round asks for another key. */
  predicate WantsAnother(u: Setup, r: Round, a: Attempt) {
    if r.credential.FreshErr? then a.demoted
    else if !a.called then true
    else r.chat.UpstreamErr? && r.chat.retryable && (Blames(u, r) ==> a.demoted)
  }

  function EndingFor(r: Round, a: Attempt, retries: nat): Ending {
    if r.credential.FreshErr? then CredentialError
    else if !a.called then BreakerOpen
    else match r.chat
      case ChatOk => Served(retries)
      case OtherErr => InternalError
      case UpstreamErr(_, _, _) => UpstreamError
  }

  /** The round counts as a retry: its key was demoted, or the breaker refused it. */
  predicate Retried(r: Round, a: Attempt) { a.demoted || (r.credential.FreshOk? && !a.called) }

  /** Retries among the logged rounds; entry `i` is round `i + 1`. */
  function Retries(env: nat -> Round, log: seq<Attempt>): nat {
    if log == [] then 0
    else Retries(env, log[..|log| - 1]) + if Retried(env(|log|), log[|log| - 1]) then 1 else 0
  }

  /** What the breaker is told in a round. */
  function Told(u: Setup, r: Round, a: Attempt): seq<CB.Event> {
    var key := (u.pool, a.key.hash);
    if r.credential.FreshErr? then []
    else
      [CB.Event(key, CB.Allow, r.now)] +
      if !a.called then []
      else if r.chat.ChatOk? then [CB.Event(key, CB.Success, r.now)]
      else if Blames(u, r) then [CB.Event(key, CB.Failure, r.now)]
      else []
  }

  function AllTold(u: Setup, env: nat -> Round, log: seq<Attempt>): seq<CB.Event> {
    if log == [] then [] else AllTold(u, env, log[..|log| - 1]) + Told(u, env(|log|), log[|log| - 1])
  }

  function CallAll(cfg: CB.Config, b: CB.Breaker, evs: seq<CB.Event>): CB.Breaker {
    if evs == [] then b else CB.Call(cfg, CallAll(cfg, b, evs[..|evs| - 1]), evs[|evs| - 1])
  }

  lemma {:induction false} CallAllJoin(cfg: CB.Config, b: CB.Breaker, evs: seq<CB.Event>, more: seq<CB.Event>)
    ensures CallAll(cfg, b, evs + more) == CallAll(cfg, CallAll(cfg, b, evs), more)
    decreases |more|
  {
    hide CB.Call;
    if more == [] {
      AppendEmpty(evs);
    } else {
      var k := |more| - 1;
      assert (evs + more)[..|evs| + k] == evs + more[..k] && (evs + more)[|evs| + k] == more[k];
      CallAllJoin(cfg, b, evs, more[..k]);
    }
  }

  // ---- One round -------------------------------------------------------------------------

  lemma CallOnce(cfg: CB.Config, b: CB.Breaker, ev: CB.Event)
    ensures CallAll(cfg, b, []) == b && CallAll(cfg, b, [ev]) == CB.Call(cfg, b, ev)
  {
    hide CB.Call;
    assert [ev][..0] == [];
  }

  lemma CallTwice(cfg: CB.Config, b: CB.Breaker, ev: CB.Event, next: CB.Event)
    ensures CallAll(cfg, b, [ev] + [next]) == CB.Call(cfg, CB.Call(cfg, b, ev), next)
  {
    hide CB.Call, CallAll;
    CallAllJoin(cfg, b, [ev], [next]);
    CallOnce(cfg, b, ev);
    CallOnce(cfg, CB.Call(cfg, b, ev), next);
  }

  lemma BreakerTold(u: Setup, n: nat, p: Progress, key: PoolKey, round: Round)
    ensures var q := TryKey(u, n, p, key, round);
            |q.log| > 0 && q.state.breaker == CallAll(u.cfg, p.state.breaker, Told(u, round, q.log[|q.log| - 1]))
  {
    hide CB.Call, CB.Answer, HealthyCount, MarkBad, CallAll;
    var k, b := (u.pool, key.hash), p.state.breaker;
    var allow := CB.Event(k, CB.Allow, round.now);
    CallOnce(u.cfg, b, allow);
    AppendEmpty([allow]);
    CallTwice(u.cfg, b, allow, CB.Event(k, CB.Success, round.now));
    CallTwice(u.cfg, b, allow, CB.Event(k, CB.Failure, round.now));
  }

  /**
   Attempt number `n`: when the upstream is called and when the key is demoted, when the loop goes on, how
   it ends otherwise, and when a retry is counted.
   */
  lemma RoundExactly(u: Setup, n: nat, p: Progress, key: PoolKey, round: Round)
    ensures var q := TryKey(u, n, p, key, round);
            && |q.log| == |p.log| + 1 && q.log[..|p.log|] == p.log
            && var a := q.log[|p.log|];
               && a.key == key
               && (a.called <==>
                     round.credential.FreshOk? &&
                     CB.Answer(u.cfg, p.state.breaker, CB.Event((u.pool, key.hash), CB.Allow, round.now)))
               && (a.demoted <==>
                     && HealthyCount(p.state.bad, u.pool, u.keys) > 1
                     && (round.credential == FreshErr(true) || (a.called && Blames(u, round))))
               && (q.ending.None? <==> n <= u.maxRetries && WantsAnother(u, round, a))
               && (q.ending.Some? ==> q.ending.value == EndingFor(round, a, p.state.retries))
               && q.state.retries == p.state.retries + if Retried(round, a) then 1 else 0
  {
    hide CB.Call, CB.Answer, HealthyCount, MarkBad;
  }

  // ---- Whole runs ------------------------------------------------------------------------

  /** Every round but the last asked for another key while tries were left. */
  ghost predicate WentOn(u: Setup, env: nat -> Round, log: seq<Attempt>) {
    forall i :: 0 <= i < |log| - 1 ==> i + 1 <= u.maxRetries && WantsAnother(u, env(i + 1), log[i])
  }

  lemma LogGrows(u: Setup, s: State, env: nat -> Round, picks: seq<PoolKey>)
    requires picks != [] && |TryAll(u, s, env, picks[..|picks| - 1]).log| == |picks| - 1
    ensures var p, q := TryAll(u, s, env, picks[..|picks| - 1]), TryAll(u, s, env, picks);
            && q == TryKey(u, |picks|, p, picks[|picks| - 1], env(|picks|))
            && |q.log| == |picks| && q.log[..|picks| - 1] == p.log
            && forall i :: 0 <= i < |picks| - 1 ==> q.log[i] == p.log[i]
  {
    hide TryKey;
    var n := |picks| - 1;
    var p, q := TryAll(u, s, env, picks[..n]), TryAll(u, s, env, picks);
    RoundExactly(u, n + 1, p, picks[n], env(n + 1));
    forall i | 0 <= i < n ensures q.log[i] == p.log[i] {
      assert q.log[..n][i] == q.log[i];
    }
  }

  /** How a run stands after its last round. */
  ghost predicate Stands(u: Setup, s: State, env: nat -> Round, picks: seq<PoolKey>, p: Progress)
    requires |p.log| == |picks|
  {
    if picks == [] then p.ending.None?
    else
      var n := |picks|;
      var a, retries := p.log[n - 1], s.retries + Retries(env, p.log[..n - 1]);
      && (p.ending.None? <==> n <= u.maxRetries && WantsAnother(u, env(n), a))
      && (p.ending.Some? ==> p.ending.value == EndingFor(env(n), a, retries))
  }

  /**
   In every run: it goes on after an attempt if and only if that one asked for another key and tries are
   left; it ends as its last round says; and it reports the retries before that round.
   */
  lemma {:induction false} LoopExactly(u: Setup, s: State, env: nat -> Round, picks: seq<PoolKey>)
    requires ValidRun(u, s, env, picks)
    ensures var p := TryAll(u, s, env, picks);
            && |p.log| == |picks| && WentOn(u, env, p.log) && Stands(u, s, env, picks, p)
            && p.state.retries == s.retries + Retries(env, p.log)
  {
    hide TryKey, WantsAnother, EndingFor, Retried, Selectable;
    if picks != [] {
      var n := |picks| - 1;
      LoopExactly(u, s, env, picks[..n]);
      LogGrows(u, s, env, picks);
      hide TryAll;
      RoundExactly(u, n + 1, TryAll(u, s, env, picks[..n]), picks[n], env(n + 1));
    }
  }

  /** In every run the breaker has been told, in order, what the rounds say, and nothing else. */
  lemma {:induction false} BreakerHears(u: Setup, s: State, env: nat -> Round, picks: seq<PoolKey>)
    requires ValidRun(u, s, env, picks)
    ensures var p := TryAll(u, s, env, picks);
            p.state.breaker == CallAll(u.cfg, s.breaker, AllTold(u, env, p.log))
  {
    hide TryKey, Told, Selectable, CallAll;
    if picks == [] {
      CallOnce(u.cfg, s.breaker, CB.Event((u.pool, ""), CB.Allow, 0));
    } else {
      var n := |picks| - 1;
      BreakerHears(u, s, env, picks[..n]);
      LoopExactly(u, s, env, picks[..n]);
      LogGrows(u, s, env, picks);
      hide TryAll;
      var p, q := TryAll(u, s, env, picks[..n]), TryAll(u, s, env, picks);
      BreakerTold(u, n + 1, p, picks[n], env(n + 1));
      CallAllJoin(u.cfg, s.breaker, AllTold(u, env, p.log), Told(u, env(n + 1), q.log[n]));
    }
  }

  /** A run that ends although its last round asked for another key has used up all its tries. */
  lemma EndsOnlyWhenOutOfTries(u: Setup, s: State, env: nat -> Round, picks: seq<PoolKey>)
    requires ValidRun(u, s, env, picks) && picks != [] && s.retries == 0
    ensures var p := TryAll(u, s, env, picks);
            && |p.log| == |picks|
            && (p.ending.Some? && WantsAnother(u, env(|picks|), p.log[|picks| - 1]) ==> |picks| == u.maxRetries + 1)
  {
    hide TryAll, ValidRun, WantsAnother, CallAll, AllTold, Retries, WentOn, EndingFor;
    LoopExactly(u, s, env, picks);
    RunBounded(u, s, env, picks);
  }
}
