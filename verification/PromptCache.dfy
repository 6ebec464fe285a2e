/**
 The prompt cache of `src/cache/mod.rs` (one instance; keys are the digests `cache_key` returns,
 the clock is an argument), and what a caller can rely on over whole runs.
 */
module PromptCache {
  import opened Wrappers

  type Response = string
  datatype Entry = Entry(response: Response, createdAt: int)
  type Store = map<string, Entry>

  const DEFAULT_MAX_ENTRIES: nat := 256

  predicate Expired(e: Entry, ttl: nat, now: int) { now - e.createdAt > ttl }

  /** A key none of whose rivals is older; which one, among equals, the map's order decides. */
  predicate IsOldest(s: Store, k: string) {
    k in s && forall j :: j in s ==> s[k].createdAt <= s[j].createdAt
  }

  function Evict(s: Store, max: nat, victim: string): Store { if |s| < max then s else s - {victim} }

  function Unexpired(s: Store, ttl: nat, now: int): Store {
    map k | k in s && !Expired(s[k], ttl, now) :: s[k]
  }

  function Lookup(s: Store, ttl: nat, k: string, now: int): Option<Response> {
    if k in s && !Expired(s[k], ttl, now) then Some(s[k].response) else None
  }

  /** A lookup that finds an expired entry drops it. */
  function AfterGet(s: Store, ttl: nat, k: string, now: int): Store {
    if k in s && Expired(s[k], ttl, now) then s - {k} else s
  }

  class PromptCache {
    var inner: Store
    const maxEntries: nat
    const ttl: nat

    constructor (maxEntries: nat, ttl: nat)
      ensures inner == map[] && this.ttl == ttl
      ensures this.maxEntries == (if maxEntries == 0 then 256 else maxEntries) && this.maxEntries >= 1
    {
      this.inner := map[];
      this.maxEntries := if maxEntries == 0 then DEFAULT_MAX_ENTRIES else maxEntries;
      this.ttl := ttl;
    }

    method Get(k: string, now: int) returns (r: Option<Response>)
      modifies this
      ensures r == Lookup(old(inner), ttl, k, now) && inner == AfterGet(old(inner), ttl, k, now)
    {
      if k !in inner {
        return None;
      }
      var e := inner[k];
      if now - e.createdAt > ttl {
        inner := inner - {k};
        return None;
      }
      return Some(e.response);
    }

    method Put(k: string, response: Response, now: int) returns (ghost victim: string)
      requires maxEntries >= 1
      modifies this
      ensures |old(inner)| >= maxEntries ==> IsOldest(old(inner), victim)
      ensures inner == Evict(old(inner), maxEntries, victim)[k := Entry(response, now)]
    {
      victim := EvictOldestIfNeeded();
      inner := inner[k := Entry(response, now)];
    }

    method EvictOldestIfNeeded() returns (ghost victim: string)
      requires maxEntries >= 1
      modifies this
      ensures |old(inner)| >= maxEntries ==> IsOldest(old(inner), victim)
      ensures inner == Evict(old(inner), maxEntries, victim)
    {
      if |inner| < maxEntries {
        return "";
      }
      var oldest: Option<string> := None;
      var todo := inner.Keys;
      while todo != {}
        invariant todo <= inner.Keys && inner == old(inner)
        invariant oldest.Some? ==> oldest.value in inner
        invariant oldest.None? ==> todo == inner.Keys
        invariant oldest.Some? ==> forall j :: j in inner && j !in todo ==>
                  inner[oldest.value].createdAt <= inner[j].createdAt
        decreases todo
      {
        var k :| k in todo;
        if oldest.None? || inner[k].createdAt < inner[oldest.value].createdAt {
          oldest := Some(k);
        }
        todo := todo - {k};
      }
      assert inner.Keys != {};
      victim := oldest.value;
      inner := inner - {oldest.value};
    }

    method Prune(now: int) returns (dropped: int)
      modifies this
      ensures inner == Unexpired(old(inner), ttl, now)
      ensures dropped == |old(inner)| - |inner|
    {
      var before := |inner|;
      var stale := set k | k in inner && now - inner[k].createdAt > ttl;
      while stale != {}
        invariant stale <= inner.Keys
        invariant forall k :: k in old(inner) && !Expired(old(inner)[k], ttl, now) ==> k in inner && k !in stale
        invariant forall k :: k in inner ==>
                  k in old(inner) && inner[k] == old(inner)[k] && (Expired(inner[k], ttl, now) ==> k in stale)
        decreases stale
      {
        var k :| k in stale;
        inner := inner - {k};
        stale := stale - {k};
      }
      assert inner == Unexpired(old(inner), ttl, now);
      dropped := before - |inner|;
    }
  }

  // ---- Runs ------------------------------------------------------------------------------

  /** `victim` is the key the eviction scan settles on, when the put finds the cache full. */
  datatype Op =
    | Put(key: string, response: Response, at: int, victim: string)
    | Get(key: string, at: int)
    | Prune(at: int)

  function Next(max: nat, ttl: nat, s: Store, op: Op): Store {
    match op
    case Put(k, r, t, v) => Evict(s, max, v)[k := Entry(r, t)]
    case Get(k, t) => AfterGet(s, ttl, k, t)
    case Prune(t) => Unexpired(s, ttl, t)
  }

  function After(max: nat, ttl: nat, ops: seq<Op>): Store {
    if ops == [] then map[] else Next(max, ttl, After(max, ttl, ops[..|ops| - 1]), ops[|ops| - 1])
  }

  /** Time does not run backwards, and victims are oldest entries. */
  ghost predicate Legal(max: nat, ttl: nat, ops: seq<Op>) {
    && max >= 1
    && (forall i, j :: 0 <= i < j < |ops| ==> ops[i].at <= ops[j].at)
    && (forall i :: 0 <= i < |ops| && ops[i].Put? && |After(max, ttl, ops[..i])| >= max ==>
          IsOldest(After(max, ttl, ops[..i]), ops[i].victim))
  }

  lemma LegalPrefix(max: nat, ttl: nat, ops: seq<Op>)
    requires Legal(max, ttl, ops) && ops != []
    ensures Legal(max, ttl, ops[..|ops| - 1])
  {
    var front := ops[..|ops| - 1];
    assert forall i :: 0 <= i < |front| ==> front[i] == ops[i] && front[..i] == ops[..i];
  }

  /** Op `i` is the last put of `k` among the first `n`. */
  ghost predicate LatestPut(ops: seq<Op>, n: nat, k: string, i: nat) {
    && i < n <= |ops| && ops[i].Put? && ops[i].key == k
    && forall j :: i < j < n && ops[j].Put? ==> ops[j].key != k
  }

  function Puts(ops: seq<Op>, lo: nat, hi: nat): nat
    requires lo <= hi <= |ops|
    decreases hi
  {
    if lo == hi then 0 else Puts(ops, lo, hi - 1) + if ops[hi - 1].Put? then 1 else 0
  }

  function KeysPut(ops: seq<Op>, lo: nat, hi: nat): set<string>
    requires lo <= hi <= |ops|
    decreases hi
  {
    if lo == hi then {} else KeysPut(ops, lo, hi - 1) + if ops[hi - 1].Put? then {ops[hi - 1].key} else {}
  }

  lemma {:induction false} FewKeysPut(ops: seq<Op>, lo: nat, hi: nat)
    requires lo <= hi <= |ops|
    ensures |KeysPut(ops, lo, hi)| <= Puts(ops, lo, hi)
    ensures forall j :: lo <= j < hi && ops[j].Put? ==> ops[j].key in KeysPut(ops, lo, hi)
    decreases hi
  {
    if lo < hi {
      FewKeysPut(ops, lo, hi - 1);
    }
  }

  // ---- Theorems --------------------------------------------------------------------------

  /** The cache never holds more than `max` entries. */
  lemma {:induction false} SizeBounded(max: nat, ttl: nat, ops: seq<Op>)
    requires Legal(max, ttl, ops)
    ensures |After(max, ttl, ops)| <= max
  {
    if ops != [] {
      var front, last := ops[..|ops| - 1], ops[|ops| - 1];
      var s := After(max, ttl, front);
      LegalPrefix(max, ttl, ops);
      SizeBounded(max, ttl, front);
      match last
      case Put(k, r, t, v) =>
        var e := Evict(s, max, v);
        if |s| >= max {
          assert IsOldest(s, v);
          assert e.Keys == s.Keys - {v} && |e.Keys| == |s.Keys| - 1;
        }
        assert e[k := Entry(r, t)].Keys == e.Keys + {k};
      case Get(k, t) => Smaller(AfterGet(s, ttl, k, t), s);
      case Prune(t) => Smaller(Unexpired(s, ttl, t), s);
    }
  }

  lemma Smaller(a: Store, b: Store)
    requires a.Keys <= b.Keys
    ensures |a| <= |b|
  {
    assert |b.Keys - a.Keys| == |b.Keys| - |a.Keys|;
  }

  /** Whatever is stored under a key is the latest put of that key. */
  lemma {:induction false} StoredIsLatest(max: nat, ttl: nat, ops: seq<Op>, k: string) returns (i: nat)
    requires k in After(max, ttl, ops)
    ensures LatestPut(ops, |ops|, k, i)
    ensures After(max, ttl, ops)[k] == Entry(ops[i].response, ops[i].at)
  {
    var front, last := ops[..|ops| - 1], ops[|ops| - 1];
    if last.Put? && last.key == k {
      i := |ops| - 1;
    } else {
      i := StoredIsLatest(max, ttl, front, k);
      assert forall j :: 0 <= j < |front| ==> front[j] == ops[j];
    }
  }

  /** From `lo` on, and only there, puts are as young as put `i`. */
  ghost predicate AsYoungFrom(ops: seq<Op>, i: nat, lo: nat) {
    lo <= i < |ops| && forall j :: 0 <= j < lo && ops[j].Put? ==> ops[j].at < ops[i].at
  }

  /** An entry can be the oldest of a full cache only once there were `max` puts as young as its own. */
  lemma OldestAfterManyPuts(max: nat, ttl: nat, ops: seq<Op>, k: string, i: nat, lo: nat)
    requires LatestPut(ops, |ops|, k, i) && AsYoungFrom(ops, i, lo)
    requires var s := After(max, ttl, ops); |s| >= max && IsOldest(s, k) && s[k].createdAt == ops[i].at
    ensures Puts(ops, lo, |ops|) >= max
  {
    hide After;
    var s := After(max, ttl, ops);
    var young := KeysPut(ops, lo, |ops|);
    FewKeysPut(ops, lo, |ops|);
    forall j | j in s.Keys ensures j in young {
      var m := StoredIsLatest(max, ttl, ops, j);
      assert s[k].createdAt <= s[j].createdAt;
      assert ops[i].at <= ops[m].at;
      assert lo <= m;
    }
    Within(s.Keys, young);
  }

  lemma Within(a: set<string>, b: set<string>)
    requires a <= b
    ensures |a| <= |b|
  {
    assert |b - a| == |b| - |a|;
  }

  /**
   Hit guarantee: if at most `max` puts are as young as the last put of a key, the key is found, with the
   response last put, for as long as that put is no older than the time to live. If no two puts share an
   instant, `lo` can be `i`, and the key only has to be among the last `max` puts.
   */
  lemma {:induction false} RecentPutIsHit(max: nat, ttl: nat, ops: seq<Op>, k: string, i: nat, lo: nat, now: int)
    requires Legal(max, ttl, ops) && LatestPut(ops, |ops|, k, i)
    requires AsYoungFrom(ops, i, lo) && Puts(ops, lo, |ops|) <= max
    requires forall j :: 0 <= j < |ops| ==> ops[j].at <= now
    requires now - ops[i].at <= ttl
    ensures var s := After(max, ttl, ops); k in s && s[k] == Entry(ops[i].response, ops[i].at)
    ensures Lookup(After(max, ttl, ops), ttl, k, now) == Some(ops[i].response)
  {
    hide Next, IsOldest;
    var n := |ops| - 1;
    var front, last := ops[..n], ops[n];
    if i == n {
      JustPut(max, ttl, After(max, ttl, front), last);
    } else {
      assert forall j :: 0 <= j < n ==> front[j] == ops[j];
      LegalPrefix(max, ttl, ops);
      PutsPrefix(ops, lo, n);
      RecentPutIsHit(max, ttl, front, k, i, lo, now);
      var s := After(max, ttl, front);
      if last.Put? && |s| >= max && last.victim == k {
        assert IsOldest(s, last.victim);
        OldestAfterManyPuts(max, ttl, front, k, i, lo);
        assert false;
      }
      StaysStored(max, ttl, s, last, k, now);
    }
  }

  lemma JustPut(max: nat, ttl: nat, s: Store, op: Op)
    requires op.Put?
    ensures var t := Next(max, ttl, s, op); op.key in t && t[op.key] == Entry(op.response, op.at)
  {
  }

  /** An unexpired entry survives whatever does not replace or evict it. */
  lemma StaysStored(max: nat, ttl: nat, s: Store, op: Op, k: string, now: int)
    requires k in s && op.at <= now && now - s[k].createdAt <= ttl
    requires op.Put? ==> op.key != k && (|s| >= max ==> op.victim != k)
    ensures var t := Next(max, ttl, s, op); k in t && t[k] == s[k]
  {
  }

  lemma {:induction false} PutsPrefix(ops: seq<Op>, lo: nat, hi: nat)
    requires lo <= hi <= |ops|
    ensures forall m :: hi <= m <= |ops| ==> Puts(ops[..m], lo, hi) == Puts(ops, lo, hi)
    decreases hi
  {
    if lo < hi {
      PutsPrefix(ops, lo, hi - 1);
    }
  }

  /** Puts at one instant are all oldest: a full cache may evict the one put last. */
  lemma SameInstantMayMiss()
    ensures var s := map["a" := Entry("1", 0)]["b" := Entry("2", 0)];
            |s| == 2 && IsOldest(s, "b") && Lookup(Evict(s, 2, "b")["c" := Entry("3", 0)], 10, "b", 0).None?
  {
    var s := map["a" := Entry("1", 0)]["b" := Entry("2", 0)];
    assert s.Keys == {"a", "b"} && "a" != "b";
    assert |s| == |s.Keys|;
  }

  /** A hit is the latest put of its key, and no older than the time to live. */
  lemma HitIsFreshAndLatest(max: nat, ttl: nat, ops: seq<Op>, k: string, now: int) returns (i: nat)
    requires Lookup(After(max, ttl, ops), ttl, k, now).Some?
    ensures LatestPut(ops, |ops|, k, i)
    ensures Lookup(After(max, ttl, ops), ttl, k, now).value == ops[i].response && now - ops[i].at <= ttl
  {
    i := StoredIsLatest(max, ttl, ops, k);
  }

  // ---- Pruning ---------------------------------------------------------------------------

  /** What a series of lookups returns. */
  function Results(s: Store, ttl: nat, keys: seq<string>, times: seq<int>): seq<Option<Response>>
    requires |keys| == |times|
    decreases |keys|
  {
    if keys == [] then []
    else [Lookup(s, ttl, keys[0], times[0])] + Results(AfterGet(s, ttl, keys[0], times[0]), ttl, keys[1..], times[1..])
  }

  /** `b` is `a` without some entries that have expired. */
  ghost predicate OnlyStaleGone(a: Store, b: Store, ttl: nat, now: int) {
    && (forall k :: k in b ==> k in a && b[k] == a[k])
    && (forall k :: k in a && k !in b ==> Expired(a[k], ttl, now))
  }

  lemma {:induction false} StaleGoneUnseen(a: Store, b: Store, ttl: nat, now: int, keys: seq<string>, times: seq<int>)
    requires |keys| == |times| && OnlyStaleGone(a, b, ttl, now)
    requires forall i :: 0 <= i < |times| ==> now <= times[i]
    ensures Results(a, ttl, keys, times) == Results(b, ttl, keys, times)
    decreases |keys|
  {
    if keys != [] {
      var k, t := keys[0], times[0];
      StaleGoneUnseen(AfterGet(a, ttl, k, t), AfterGet(b, ttl, k, t), ttl, now, keys[1..], times[1..]);
    }
  }

  /** Until the next put, no lookup can tell whether the cache was pruned. */
  lemma PruneUnseen(s: Store, ttl: nat, now: int, keys: seq<string>, times: seq<int>)
    requires |keys| == |times| && forall i :: 0 <= i < |times| ==> now <= times[i]
    ensures Results(Unexpired(s, ttl, now), ttl, keys, times) == Results(s, ttl, keys, times)
  {
    StaleGoneUnseen(s, Unexpired(s, ttl, now), ttl, now, keys, times);
  }

  /** Pruning leaves exactly the entries no older than the time to live, so that every one it leaves is a hit. */
  lemma PrunedExactly(s: Store, ttl: nat, now: int, k: string)
    ensures var t := Unexpired(s, ttl, now);
            && (k in t <==> k in s && now - s[k].createdAt <= ttl)
            && (k in t <==> Lookup(t, ttl, k, now).Some?)
            && (k in t ==> t[k] == s[k])
  {
  }

  // ---- Least recently used ---------------------------------------------------------------

  /** Op `j` is a lookup that finds `k`. */
  predicate HitOn(max: nat, ttl: nat, ops: seq<Op>, j: nat, k: string) {
    j < |ops| && ops[j].Get? && ops[j].key == k && Lookup(After(max, ttl, ops[..j]), ttl, k, ops[j].at).Some?
  }

  /** Op `j` uses `k`: it puts it, or finds it. */
  predicate Uses(max: nat, ttl: nat, ops: seq<Op>, j: nat, k: string) {
    j < |ops| && ((ops[j].Put? && ops[j].key == k) || HitOn(max, ttl, ops, j, k))
  }

  /** `k` was used at or after the moment of op `j`. */
  ghost predicate UsedSince(max: nat, ttl: nat, ops: seq<Op>, k: string, j: nat)
    requires j < |ops|
  {
    exists m: nat :: Uses(max, ttl, ops, m, k) && ops[j].at <= ops[m].at
  }

  /** No stored key has been left unused for longer than `v`. */
  ghost predicate IsLru(max: nat, ttl: nat, ops: seq<Op>, v: string) {
    && v in After(max, ttl, ops)
    && forall j: nat, k :: Uses(max, ttl, ops, j, v) && k in After(max, ttl, ops) ==> UsedSince(max, ttl, ops, k, j)
  }

  /** Every other stored key has been put since the oldest one was. */
  lemma PutSinceOldest(max: nat, ttl: nat, ops: seq<Op>, v: string, i: nat, j: nat, k: string)
    requires Legal(max, ttl, ops) && IsOldest(After(max, ttl, ops), v) && LatestPut(ops, |ops|, v, i)
    requires j <= i && k in After(max, ttl, ops)
    ensures UsedSince(max, ttl, ops, k, j)
  {
    hide After, Legal, LatestPut, UsedSince;
    var s := After(max, ttl, ops);
    var n := StoredIsLatest(max, ttl, ops, v);
    var m := StoredIsLatest(max, ttl, ops, k);
    LatestIsUnique(ops, v, i, n);
    assert s[v].createdAt <= s[k].createdAt;
    TimesGrow(max, ttl, ops, j, i);
    PutCounts(max, ttl, ops, k, m, j);
  }

  lemma LatestIsUnique(ops: seq<Op>, k: string, i: nat, j: nat)
    requires LatestPut(ops, |ops|, k, i) && LatestPut(ops, |ops|, k, j)
    ensures i == j
  {
  }

  lemma TimesGrow(max: nat, ttl: nat, ops: seq<Op>, j: nat, i: nat)
    requires Legal(max, ttl, ops) && j <= i < |ops|
    ensures ops[j].at <= ops[i].at
  {
    hide After;
  }

  lemma PutCounts(max: nat, ttl: nat, ops: seq<Op>, k: string, m: nat, j: nat)
    requires LatestPut(ops, |ops|, k, m) && j < |ops| && ops[j].at <= ops[m].at
    ensures UsedSince(max, ttl, ops, k, j)
  {
    hide After, HitOn;
    assert Uses(max, ttl, ops, m, k);
  }

  /**
   The repository calls the cache LRU. In every run, the entry that eviction picks is least recently used
   if and only if, for every lookup that found it since its put, all stored keys were used since.
   */
  lemma LruExactly(max: nat, ttl: nat, ops: seq<Op>, v: string, i: nat)
    requires Legal(max, ttl, ops) && IsOldest(After(max, ttl, ops), v) && LatestPut(ops, |ops|, v, i)
    ensures IsLru(max, ttl, ops, v) <==>
            forall j: nat, k ::
              i < j && HitOn(max, ttl, ops, j, v) && k in After(max, ttl, ops) ==> UsedSince(max, ttl, ops, k, j)
  {
    hide After, HitOn, Legal, UsedSince;
    forall j: nat, k | j <= i && Uses(max, ttl, ops, j, v) && k in After(max, ttl, ops)
      ensures UsedSince(max, ttl, ops, k, j)
    {
      PutSinceOldest(max, ttl, ops, v, i, j, k);
    }
    forall j: nat | i < j ensures Uses(max, ttl, ops, j, v) <==> HitOn(max, ttl, ops, j, v) {
      UsedAfterPut(max, ttl, ops, v, i, j);
    }
  }

  lemma UsedAfterPut(max: nat, ttl: nat, ops: seq<Op>, v: string, i: nat, j: nat)
    requires LatestPut(ops, |ops|, v, i) && i < j
    ensures Uses(max, ttl, ops, j, v) <==> HitOn(max, ttl, ops, j, v)
  {
    hide After;
  }

  /** So eviction is LRU for an entry that nobody has found since it was put. */
  lemma UnreadVictimIsLru(max: nat, ttl: nat, ops: seq<Op>, v: string, i: nat)
    requires Legal(max, ttl, ops) && IsOldest(After(max, ttl, ops), v) && LatestPut(ops, |ops|, v, i)
    requires forall j: nat :: i < j ==> !HitOn(max, ttl, ops, j, v)
    ensures IsLru(max, ttl, ops, v)
  {
    hide After, HitOn, Legal, UsedSince, IsLru;
    LruExactly(max, ttl, ops, v, i);
  }

  const ReadFirst := [Put("a", "1", 0, ""), Put("b", "2", 1, ""), Get("a", 2)]

  lemma ReadFirstStores()
    ensures After(2, 10, ReadFirst[..1]) == map["a" := Entry("1", 0)]
    ensures After(2, 10, ReadFirst[..2]) == map["a" := Entry("1", 0), "b" := Entry("2", 1)] == After(2, 10, ReadFirst)
    ensures |After(2, 10, ReadFirst[..1])| == 1 && |After(2, 10, ReadFirst)| == 2
  {
    var a, b := ReadFirst[..1], ReadFirst[..2];
    assert ReadFirst[..2][..1] == a && a[..0] == [];
    var s: Store := map["a" := Entry("1", 0)];
    assert |s| == |s.Keys| && s.Keys == {"a"};
    assert After(2, 10, a) == Next(2, 10, map[], a[0]);
    assert After(2, 10, b) == Next(2, 10, s, b[1]);
    var t: Store := map["a" := Entry("1", 0), "b" := Entry("2", 1)];
    assert t.Keys == {"a", "b"} && |t| == |t.Keys|;
    assert After(2, 10, ReadFirst) == Next(2, 10, t, Get("a", 2));
  }

  /** A run in which the other case occurs: the entry read last is the one that the next put evicts. */
  lemma ReadingDoesNotProtect()
    ensures Legal(2, 10, ReadFirst) && IsOldest(After(2, 10, ReadFirst), "a")
    ensures HitOn(2, 10, ReadFirst, 2, "a") && !IsLru(2, 10, ReadFirst, "a")
  {
    hide After;
    ReadFirstStores();
    assert ReadFirst[..0] == [] && After(2, 10, []) == map[] by { NothingStored(); }
    assert Uses(2, 10, ReadFirst, 2, "a");
    assert forall m: nat :: Uses(2, 10, ReadFirst, m, "b") ==> m == 1;
    assert !UsedSince(2, 10, ReadFirst, "b", 2);
  }

  lemma NothingStored()
    ensures After(2, 10, []) == map[]
  {
  }
}
