/**
 One round of the health task (`src/health.rs`): probe every listed key, revive those that answer and
 count the failures of the others. The probe results and the order of the snapshot are arguments.
 */
module Health {
  import opened Router
  import P = FailoverProtocol

  datatype Probe = StaleCredential | Alive | Dead

  datatype Entry = Entry(pool: string, hash: string)

  /** Where probing can reach: the configured pools, and the pools with a provider. */
  datatype Reach = Reach(pools: map<string, Pool>, providers: set<string>)

  datatype Watch = Watch(bad: Registry, retries: map<Entry, nat>)

  predicate HasKey(keys: Pool, hash: string) { exists k :: k in keys && k.hash == hash }

  predicate Known(reach: Reach, e: Entry) {
    e.pool in reach.pools && e.pool in reach.providers && HasKey(reach.pools[e.pool], e.hash)
  }

  function Failures(retries: map<Entry, nat>, e: Entry): nat { if e in retries then retries[e] else 0 }

  function ProbeOne(reach: Reach, w: Watch, e: Entry, p: Probe): Watch {
    if !Known(reach, e) || p.StaleCredential? then w
    else if p.Alive? then Watch(RemoveBad(w.bad, e.pool, e.hash), w.retries - {e})
    else w.(retries := w.retries[e := Failures(w.retries, e) + 1])
  }

  function ProbeAll(reach: Reach, w: Watch, entries: seq<Entry>, probe: nat -> Probe): Watch {
    if entries == [] then w
    else
      var n := |entries| - 1;
      ProbeOne(reach, ProbeAll(reach, w, entries[..n], probe), entries[n], probe(n))
  }

  class HealthTask {
    var retries: map<Entry, nat>

    constructor ()
      ensures retries == map[]
    {
      retries := map[];
    }

    /** One pass over a snapshot of the registry. */
    method Round(registry: BadKeyRegistry, reach: Reach, snapshot: seq<Entry>, probe: nat -> Probe)
      modifies this, registry
      ensures Watch(registry.bad, retries) == ProbeAll(reach, Watch(old(registry.bad), old(retries)), snapshot, probe)
    {
      hide RemoveBad;
      ghost var w := Watch(registry.bad, retries);
      for i := 0 to |snapshot|
        invariant Watch(registry.bad, retries) == ProbeAll(reach, w, snapshot[..i], probe)
      {
        assert snapshot[..i + 1][..i] == snapshot[..i];
        var e := snapshot[i];
        if e.pool !in reach.pools || !HasKey(reach.pools[e.pool], e.hash) {
          continue;
        }
        if e.pool !in reach.providers {
          continue;
        }
        match probe(i) {
          case StaleCredential =>
          case Alive =>
            registry.Remove(e.pool, e.hash);
            retries := retries - {e};
          case Dead =>
            retries := retries[e := if e in retries then retries[e] + 1 else 1];
        }
      }
      assert snapshot[..|snapshot|] == snapshot;
    }
  }

  /** Entry `i` is a key of a configured pool with a provider, and its probe succeeds. */
  predicate Answers(reach: Reach, entries: seq<Entry>, probe: nat -> Probe, i: nat) {
    && i < |entries| && probe(i).Alive?
    && entries[i].pool in reach.pools && entries[i].pool in reach.providers
    && exists k :: k in reach.pools[entries[i].pool] && k.hash == entries[i].hash
  }

  /** The hashes of `pool` that this round revives. */
  function Revived(reach: Reach, entries: seq<Entry>, probe: nat -> Probe, pool: string): set<string> {
    set i | 0 <= i < |entries| && entries[i].pool == pool && Answers(reach, entries, probe, i) :: entries[i].hash
  }

  /** A round takes out of each pool's bad set exactly the keys whose probe succeeded. */
  lemma {:induction false} RoundRevives(reach: Reach, w: Watch, entries: seq<Entry>, probe: nat -> Probe, pool: string)
    ensures BadSet(ProbeAll(reach, w, entries, probe).bad, pool) ==
            BadSet(w.bad, pool) - Revived(reach, entries, probe, pool)
  {
    hide RemoveBad, BadSet, Known;
    if entries != [] {
      var n := |entries| - 1;
      var e := entries[n];
      RoundRevives(reach, w, entries[..n], probe, pool);
      RegistryRefinesSets(ProbeAll(reach, w, entries[..n], probe).bad, e.pool, e.hash, pool);
      RevivedMore(reach, entries, probe, pool);
    }
  }

  lemma AnswersIs(reach: Reach, entries: seq<Entry>, probe: nat -> Probe, i: nat)
    requires i < |entries|
    ensures Answers(reach, entries, probe, i) <==> Known(reach, entries[i]) && probe(i).Alive?
  {
  }

  lemma RevivedMore(reach: Reach, entries: seq<Entry>, probe: nat -> Probe, pool: string)
    requires entries != []
    ensures var n := |entries| - 1; var e := entries[n];
            Revived(reach, entries, probe, pool) == Revived(reach, entries[..n], probe, pool) +
            if e.pool == pool && Known(reach, e) && probe(n).Alive? then {e.hash} else {}
  {
    hide Known, Answers;
    var n := |entries| - 1;
    forall i | 0 <= i < n ensures Answers(reach, entries[..n], probe, i) == Answers(reach, entries, probe, i) {
      AnswersIs(reach, entries[..n], probe, i);
      AnswersIs(reach, entries, probe, i);
    }
    AnswersIs(reach, entries, probe, n);
    forall h | h in Revived(reach, entries[..n], probe, pool) ensures h in Revived(reach, entries, probe, pool) {
      var front := entries[..n];
      var i :| 0 <= i < n && front[i].pool == pool && Answers(reach, front, probe, i) && front[i].hash == h;
      assert entries[i] == front[i];
      assert Answers(reach, entries, probe, i);
    }
    forall i | 0 <= i < n ensures entries[..n][i] == entries[i] {}
  }

  /** Failed probes of `e` since it last answered, starting from `start`. */
  function Streak(reach: Reach, entries: seq<Entry>, probe: nat -> Probe, e: Entry, start: nat): nat {
    if entries == [] then start
    else
      var n := |entries| - 1;
      var before := Streak(reach, entries[..n], probe, e, start);
      if entries[n] != e || !Known(reach, e) || probe(n).StaleCredential? then before
      else if probe(n).Alive? then 0
      else before + 1
  }

  /**
   Keys are never exiled: which keys a round revives does not depend on how often they failed before,
   although the counter goes on counting failures since the last answer.
   */
  lemma {:induction false} NeverExiled(reach: Reach, bad: Registry, counts: map<Entry, nat>, others: map<Entry, nat>,
                                       entries: seq<Entry>, probe: nat -> Probe, e: Entry)
    ensures ProbeAll(reach, Watch(bad, counts), entries, probe).bad ==
            ProbeAll(reach, Watch(bad, others), entries, probe).bad
    ensures Failures(ProbeAll(reach, Watch(bad, counts), entries, probe).retries, e) ==
            Streak(reach, entries, probe, e, Failures(counts, e))
  {
    hide RemoveBad, Known;
    if entries != [] {
      NeverExiled(reach, bad, counts, others, entries[..|entries| - 1], probe, e);
    }
  }

  function Revivals(reach: Reach, entries: seq<Entry>, probe: nat -> Probe): seq<P.Step> {
    if entries == [] then []
    else
      var n := |entries| - 1;
      var front := Revivals(reach, entries[..n], probe);
      if !Known(reach, entries[n]) || !probe(n).Alive? then front
      else front + [P.Revive(entries[n].pool, entries[n].hash)]
  }

  /** To the failover protocol, a round is a sequence of revivals. */
  lemma {:induction false} RoundIsRevivals(reach: Reach, pools: P.Pools, s: P.System, retries: map<Entry, nat>,
                                           entries: seq<Entry>, probe: nat -> Probe)
    ensures P.Exec(pools, s, Revivals(reach, entries, probe)) ==
            s.(bad := ProbeAll(reach, Watch(s.bad, retries), entries, probe).bad)
  {
    hide RemoveBad, Known, P.Exec;
    if entries == [] {
      P.Start(pools, s);
    } else {
      var n := |entries| - 1;
      RoundIsRevivals(reach, pools, s, retries, entries[..n], probe);
      P.ExecMore(pools, s, Revivals(reach, entries[..n], probe), P.Revive(entries[n].pool, entries[n].hash));
    }
  }
}
