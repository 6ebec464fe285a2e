/**
 The bad-key registry and key selection of `src/router.rs`. A pool key is its identity hash and its
 weight.
 */
module Router {
  import opened Wrappers

  datatype PoolKey = PoolKey(hash: string, weight: nat)
  type Pool = seq<PoolKey>

  /** Lists, as the source keeps them: marking twice lists a key twice. */
  type Registry = map<string, seq<string>>

  function ListOf(r: Registry, pool: string): seq<string> { if pool in r then r[pool] else [] }

  predicate IsBad(r: Registry, pool: string, hash: string) { hash in ListOf(r, pool) }

  function MarkBad(r: Registry, pool: string, hash: string): Registry { r[pool := ListOf(r, pool) + [hash]] }

  function Retain(list: seq<string>, hash: string): seq<string> {
    if list == [] then []
    else
      var front := Retain(list[..|list| - 1], hash);
      if list[|list| - 1] == hash then front else front + [list[|list| - 1]]
  }

  function RemoveBad(r: Registry, pool: string, hash: string): Registry {
    if pool !in r then r
    else
      var kept := Retain(r[pool], hash);
      if kept == [] then r - {pool} else r[pool := kept]
  }

  predicate Selectable(r: Registry, pool: string, k: PoolKey) { k.weight > 0 && !IsBad(r, pool, k.hash) }

  function Healthy(r: Registry, pool: string, keys: Pool): seq<PoolKey> {
    if keys == [] then []
    else
      var front, k := Healthy(r, pool, keys[..|keys| - 1]), keys[|keys| - 1];
      if Selectable(r, pool, k) then front + [k] else front
  }

  function HealthyCount(r: Registry, pool: string, keys: Pool): nat { |Healthy(r, pool, keys)| }

  class BadKeyRegistry {
    var bad: Registry

    constructor ()
      ensures bad == map[]
    {
      bad := map[];
    }

    method Mark(pool: string, hash: string)
      modifies this
      ensures bad == MarkBad(old(bad), pool, hash)
    {
      var list := if pool in bad then bad[pool] else [];
      bad := bad[pool := list + [hash]];
    }

    method Remove(pool: string, hash: string)
      modifies this
      ensures bad == RemoveBad(old(bad), pool, hash)
    {
      if pool in bad {
        var kept := [];
        var list := bad[pool];
        for i := 0 to |list|
          invariant kept == Retain(list[..i], hash) && bad == old(bad)
        {
          assert list[..i + 1][..i] == list[..i];
          if list[i] != hash {
            kept := kept + [list[i]];
          }
        }
        assert list[..|list|] == list;
        bad := bad[pool := kept];
        if kept == [] {
          bad := bad - {pool};
        }
      }
    }

    method Candidates(pool: string, keys: Pool) returns (cs: seq<PoolKey>)
      ensures cs == Healthy(bad, pool, keys)
    {
      cs := [];
      for i := 0 to |keys|
        invariant cs == Healthy(bad, pool, keys[..i])
      {
        assert keys[..i + 1][..i] == keys[..i];
        if keys[i].weight > 0 && !IsBad(bad, pool, keys[i].hash) {
          cs := cs + [keys[i]];
        }
      }
      assert keys[..|keys|] == keys;
    }

    /** `pick_key`: nothing exactly when no key is selectable; otherwise some selectable key of the pool. */
    method PickKey(pool: string, keys: Pool) returns (k: Option<PoolKey>)
      ensures k.None? <==> HealthyCount(bad, pool, keys) == 0
      ensures k.None? <==> forall x :: x in keys ==> !Selectable(bad, pool, x)
      ensures k.Some? ==> k.value in keys && Selectable(bad, pool, k.value)
      ensures k.Some? ==> k.value.weight > 0 && (pool in bad ==> k.value.hash !in bad[pool])
    {
      HealthyIs(bad, pool, keys);
      var cs := Candidates(pool, keys);
      if cs == [] {
        return None;
      }
      var i :| 0 <= i < |cs|;
      assert cs[i] in cs;
      return Some(cs[i]);
    }

    /** `try_demote`: refuses exactly when at most one key is selectable. */
    method TryDemote(pool: string, keys: Pool, k: PoolKey) returns (demoted: bool)
      modifies this
      ensures demoted <==> HealthyCount(old(bad), pool, keys) > 1
      ensures bad == if demoted then MarkBad(old(bad), pool, k.hash) else old(bad)
    {
      var cs := Candidates(pool, keys);
      if |cs| <= 1 {
        return false;
      }
      Mark(pool, k.hash);
      return true;
    }
  }

  // ---- The list registry is a set --------------------------------------------------------

  function BadSet(r: Registry, pool: string): set<string> { set h | h in ListOf(r, pool) }

  lemma RetainIs(list: seq<string>, hash: string)
    ensures forall h :: h in Retain(list, hash) <==> h in list && h != hash
  {
    if list != [] {
      RetainIs(list[..|list| - 1], hash);
      assert list == list[..|list| - 1] + [list[|list| - 1]];
    }
  }

  /** The registry, duplicates and all, behaves as one set of bad keys per pool. */
  lemma RegistryRefinesSets(r: Registry, pool: string, hash: string, other: string)
    ensures forall h :: IsBad(r, pool, h) <==> h in BadSet(r, pool)
    ensures BadSet(MarkBad(r, pool, hash), pool) == BadSet(r, pool) + {hash}
    ensures BadSet(RemoveBad(r, pool, hash), pool) == BadSet(r, pool) - {hash}
    ensures other != pool ==> BadSet(MarkBad(r, pool, hash), other) == BadSet(r, other)
    ensures other != pool ==> BadSet(RemoveBad(r, pool, hash), other) == BadSet(r, other)
  {
    RetainIs(ListOf(r, pool), hash);
  }

  function MarkMany(r: Registry, pool: string, hash: string, n: nat): Registry {
    if n == 0 then r else MarkBad(MarkMany(r, pool, hash, n - 1), pool, hash)
  }

  /** One revival undoes any number of marks. */
  lemma {:induction false} RemoveUndoesMarks(r: Registry, pool: string, hash: string, n: nat)
    ensures BadSet(RemoveBad(MarkMany(r, pool, hash, n), pool, hash), pool) == BadSet(r, pool) - {hash}
  {
    hide MarkBad, RemoveBad, BadSet;
    if n == 0 {
      RegistryRefinesSets(r, pool, hash, pool);
    } else {
      var m := MarkMany(r, pool, hash, n - 1);
      RemoveUndoesMarks(r, pool, hash, n - 1);
      RegistryRefinesSets(m, pool, hash, pool);
      RegistryRefinesSets(MarkBad(m, pool, hash), pool, hash, pool);
    }
  }

  // ---- Counting --------------------------------------------------------------------------

  lemma HealthyIs(r: Registry, pool: string, keys: Pool)
    ensures forall k :: k in Healthy(r, pool, keys) <==> k in keys && Selectable(r, pool, k)
  {
    if keys != [] {
      HealthyIs(r, pool, keys[..|keys| - 1]);
      assert keys == keys[..|keys| - 1] + [keys[|keys| - 1]];
    }
  }

  /** How many selectable entries of the pool carry this hash. */
  function Copies(r: Registry, pool: string, keys: Pool, hash: string): nat {
    if keys == [] then 0
    else
      var k := keys[|keys| - 1];
      Copies(r, pool, keys[..|keys| - 1], hash) + if Selectable(r, pool, k) && k.hash == hash then 1 else 0
  }

  /** Marking a hash takes out exactly its selectable copies. */
  lemma {:induction false} MarkTakesCopies(r: Registry, pool: string, keys: Pool, hash: string)
    ensures HealthyCount(MarkBad(r, pool, hash), pool, keys) ==
            HealthyCount(r, pool, keys) - Copies(r, pool, keys, hash)
  {
    if keys != [] {
      MarkTakesCopies(r, pool, keys[..|keys| - 1], hash);
      RegistryRefinesSets(r, pool, hash, pool);
    }
  }

  ghost predicate Distinct(keys: Pool) {
    forall i, j :: 0 <= i < j < |keys| ==> keys[i].hash != keys[j].hash
  }

  lemma {:induction false} CopiesAtMostOne(r: Registry, pool: string, keys: Pool, hash: string)
    requires Distinct(keys)
    ensures Copies(r, pool, keys, hash) ==
            if exists k :: k in keys && k.hash == hash && Selectable(r, pool, k) then 1 else 0
  {
    if keys != [] {
      var front, last := keys[..|keys| - 1], keys[|keys| - 1];
      CopiesAtMostOne(r, pool, front, hash);
      assert keys == front + [last];
      assert last in keys;
      if last.hash == hash {
        assert forall k :: k in front ==> k.hash != hash;
      } else {
        assert forall k :: k in keys && k.hash == hash ==> k in front;
      }
    }
  }

  /** With distinct hashes, demoting a selectable key lowers the count by exactly one. */
  lemma DemotionTakesOne(r: Registry, pool: string, keys: Pool, k: PoolKey)
    requires Distinct(keys) && k in keys && Selectable(r, pool, k)
    ensures HealthyCount(MarkBad(r, pool, k.hash), pool, keys) == HealthyCount(r, pool, keys) - 1
  {
    MarkTakesCopies(r, pool, keys, k.hash);
    CopiesAtMostOne(r, pool, keys, k.hash);
  }

  /** Any mark lowers the count by at most one, and any removal does not lower it. */
  lemma MarkTakesAtMostOne(r: Registry, pool: string, keys: Pool, hash: string)
    requires Distinct(keys)
    ensures var n, m := HealthyCount(r, pool, keys), HealthyCount(MarkBad(r, pool, hash), pool, keys); n - 1 <= m <= n
  {
    MarkTakesCopies(r, pool, keys, hash);
    CopiesAtMostOne(r, pool, keys, hash);
  }

  lemma {:induction false} RemoveNeverLowers(r: Registry, pool: string, keys: Pool, hash: string)
    ensures HealthyCount(RemoveBad(r, pool, hash), pool, keys) >= HealthyCount(r, pool, keys)
  {
    if keys != [] {
      RemoveNeverLowers(r, pool, keys[..|keys| - 1], hash);
      RegistryRefinesSets(r, pool, hash, pool);
      assert forall h :: h in BadSet(RemoveBad(r, pool, hash), pool) ==> h in BadSet(r, pool);
    }
  }

  /**
   The "last healthy key is never demoted" promise, exactly: demoting a selectable key empties the
   pool if and only if all selectable entries carry that key's hash.
   */
  lemma DemotionEmptiesExactly(r: Registry, pool: string, keys: Pool, k: PoolKey)
    requires k in keys && Selectable(r, pool, k)
    ensures HealthyCount(MarkBad(r, pool, k.hash), pool, keys) == 0 <==>
            forall x :: x in keys && Selectable(r, pool, x) ==> x.hash == k.hash
  {
    var m := MarkBad(r, pool, k.hash);
    HealthyIs(r, pool, keys);
    HealthyIs(m, pool, keys);
    RegistryRefinesSets(r, pool, k.hash, pool);
    assert forall x :: Selectable(m, pool, x) <==> Selectable(r, pool, x) && x.hash != k.hash;
    if Healthy(m, pool, keys) != [] {
      assert Healthy(m, pool, keys)[0] in Healthy(m, pool, keys);
    }
  }

  /** With one key listed twice the guard of `try_demote` passes and the pool ends up empty. */
  lemma DuplicateHashEmptiesPool()
    ensures var keys := [PoolKey("h", 1), PoolKey("h", 1)];
            HealthyCount(map[], "p", keys) > 1 && HealthyCount(MarkBad(map[], "p", "h"), "p", keys) == 0
  {
    var keys := [PoolKey("h", 1), PoolKey("h", 1)];
    var r: Registry := map[];
    assert keys[..1] == [PoolKey("h", 1)] && keys[..1][..0] == [];
    DemotionEmptiesExactly(r, "p", keys, keys[0]);
  }
}
