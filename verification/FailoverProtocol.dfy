/**
 Many requests and the health task sharing one registry. `Router::try_demote` first counts the healthy
 keys and then marks one, and other tasks can come in between, so here these are two steps, with the
 count taken as one; `Pending` holds the requests between the two.
 */
module FailoverProtocol {
  import opened Router

  /** A demotion whose guard has passed and whose mark is still to come. */
  datatype Pending = Pending(pool: string, hash: string)

  datatype System = System(bad: Registry, pending: map<nat, Pending>)

  datatype Step =
    | Check(task: nat, pool: string, key: PoolKey)
    | Mark(task: nat)
    | Revive(pool: string, hash: string)

  type Pools = map<string, Pool>

  function KeysOf(pools: Pools, pool: string): Pool { if pool in pools then pools[pool] else [] }

  function Count(pools: Pools, r: Registry, pool: string): nat { HealthyCount(r, pool, KeysOf(pools, pool)) }

  function Next(pools: Pools, s: System, step: Step): System {
    match step
    case Check(task, pool, key) =>
      if task in s.pending || Count(pools, s.bad, pool) <= 1 then s
      else s.(pending := s.pending[task := Pending(pool, key.hash)])
    case Mark(task) =>
      if task !in s.pending then s
      else System(MarkBad(s.bad, s.pending[task].pool, s.pending[task].hash), s.pending - {task})
    case Revive(pool, hash) => s.(bad := RemoveBad(s.bad, pool, hash))
  }

  function Exec(pools: Pools, s: System, steps: seq<Step>): System {
    if steps == [] then s else Next(pools, Exec(pools, s, steps[..|steps| - 1]), steps[|steps| - 1])
  }

  /** No two demotions of `pool` are between their check and their mark. */
  ghost predicate Apart(s: System, pool: string) {
    forall a, b :: a in s.pending && b in s.pending && s.pending[a].pool == pool == s.pending[b].pool ==> a == b
  }

  /** `Apart` all the way through a run. */
  ghost predicate Serial(pools: Pools, s: System, steps: seq<Step>, pool: string) {
    Apart(Exec(pools, s, steps), pool) && (steps != [] ==> Serial(pools, s, steps[..|steps| - 1], pool))
  }

  // ---- When the marks on their way can empty a pool --------------------------------------

  ghost function PendingOn(s: System, pool: string): set<string> {
    set t | t in s.pending && s.pending[t].pool == pool :: s.pending[t].hash
  }

  /** A selectable key of the pool that no demotion on its way names. */
  ghost predicate Spared(pools: Pools, s: System, pool: string, k: PoolKey) {
    k in KeysOf(pools, pool) && Selectable(s.bad, pool, k) && k.hash !in PendingOn(s, pool)
  }

  ghost predicate Safe(pools: Pools, s: System, pool: string) { exists k :: Spared(pools, s, pool, k) }

  function Marks(tasks: seq<nat>): seq<Step> {
    if tasks == [] then [] else [Mark(tasks[0])] + Marks(tasks[1..])
  }

  /** Some of the marks on their way, in some order, leave the pool without a selectable key. */
  ghost predicate CanEmpty(pools: Pools, s: System, pool: string) {
    exists tasks :: Count(pools, Exec(pools, s, Marks(tasks)).bad, pool) == 0
  }

  lemma CountIsZero(pools: Pools, r: Registry, pool: string)
    ensures Count(pools, r, pool) == 0 <==> forall k :: k in KeysOf(pools, pool) ==> !Selectable(r, pool, k)
  {
    hide Selectable, Healthy;
    var healthy := Healthy(r, pool, KeysOf(pools, pool));
    HealthyIs(r, pool, KeysOf(pools, pool));
    if healthy != [] {
      SomeMember(healthy);
    }
  }

  /** A mark takes its hash out of what is on its way and into the bad set. */
  lemma MarkStep(pools: Pools, s: System, task: nat, pool: string, k: PoolKey)
    requires task in s.pending
    ensures var p, v := s.pending[task], Next(pools, s, Mark(task));
            && (Selectable(v.bad, pool, k) <==> Selectable(s.bad, pool, k) && !(p.pool == pool && p.hash == k.hash))
            && PendingOn(s, pool) == PendingOn(v, pool) + if p.pool == pool then {p.hash} else {}
  {
    hide MarkBad, BadSet;
    var p, v := s.pending[task], Next(pools, s, Mark(task));
    RegistryRefinesSets(s.bad, p.pool, p.hash, pool);
    RegistryRefinesSets(v.bad, pool, k.hash, pool);
    RegistryRefinesSets(s.bad, pool, k.hash, pool);
    forall t | t in s.pending && t != task ensures t in v.pending && v.pending[t] == s.pending[t] {
    }
  }

  lemma MarkSpares(pools: Pools, s: System, task: nat, pool: string, k: PoolKey)
    requires Spared(pools, s, pool, k)
    ensures Spared(pools, Next(pools, s, Mark(task)), pool, k)
  {
    if task in s.pending {
      var p := s.pending[task];
      assert p.pool == pool ==> p.hash in PendingOn(s, pool);
      hide PendingOn, Next, Selectable;
      MarkStep(pools, s, task, pool, k);
    }
  }

  lemma {:induction false} ExecFirst(pools: Pools, s: System, step: Step, rest: seq<Step>)
    ensures Exec(pools, s, [step] + rest) == Exec(pools, Next(pools, s, step), rest)
    decreases |rest|
  {
    hide Next;
    var all := [step] + rest;
    if rest == [] {
      assert all == [step] && all[..0] == [];
    } else {
      var k := |rest| - 1;
      assert all[..k + 1] == [step] + rest[..k] && all[k + 1] == rest[k];
      ExecFirst(pools, s, step, rest[..k]);
    }
  }

  lemma {:induction false} MarksSpare(pools: Pools, s: System, tasks: seq<nat>, pool: string, k: PoolKey)
    requires Spared(pools, s, pool, k)
    ensures Spared(pools, Exec(pools, s, Marks(tasks)), pool, k)
    decreases |tasks|
  {
    hide Spared, Next, Exec;
    if tasks == [] {
      Start(pools, s);
    } else {
      MarkSpares(pools, s, tasks[0], pool, k);
      MarksSpare(pools, Next(pools, s, Mark(tasks[0])), tasks[1..], pool, k);
      ExecFirst(pools, s, Mark(tasks[0]), Marks(tasks[1..]));
    }
  }

  /** Once all marks have landed, only spared keys are selectable. */
  lemma {:induction false} LandAll(pools: Pools, s: System, pool: string) returns (tasks: seq<nat>)
    ensures forall k :: k in KeysOf(pools, pool) && Selectable(Exec(pools, s, Marks(tasks)).bad, pool, k) ==>
            Spared(pools, s, pool, k)
    decreases |s.pending|
  {
    hide Exec, Selectable;
    if s.pending == map[] {
      tasks := [];
      Start(pools, s);
    } else {
      var t :| t in s.pending;
      var v := Next(pools, s, Mark(t));
      assert v.pending.Keys == s.pending.Keys - {t} && |v.pending| == |v.pending.Keys| &&
        |s.pending| == |s.pending.Keys|;
      hide Next;
      var rest := LandAll(pools, v, pool);
      tasks := [t] + rest;
      assert tasks[1..] == rest;
      ExecFirst(pools, s, Mark(t), Marks(rest));
      forall k | k in KeysOf(pools, pool) && Spared(pools, v, pool, k) ensures Spared(pools, s, pool, k) {
        hide PendingOn;
        MarkStep(pools, s, t, pool, k);
      }
    }
  }

  /** In any state at all: the marks on their way can empty the pool if and only if they name every selectable key. */
  lemma CanEmptyExactly(pools: Pools, s: System, pool: string)
    ensures CanEmpty(pools, s, pool) <==> !Safe(pools, s, pool)
  {
    hide Exec, Marks, HealthyCount, PendingOn, Selectable;
    if Safe(pools, s, pool) {
      var k :| Spared(pools, s, pool, k);
      forall tasks ensures Count(pools, Exec(pools, s, Marks(tasks)).bad, pool) != 0 {
        MarksSpare(pools, s, tasks, pool, k);
        CountIsZero(pools, Exec(pools, s, Marks(tasks)).bad, pool);
      }
    } else {
      var tasks := LandAll(pools, s, pool);
      CountIsZero(pools, Exec(pools, s, Marks(tasks)).bad, pool);
    }
  }

  predicate Passes(pools: Pools, s: System, step: Step) {
    step.Check? && step.task !in s.pending && Count(pools, s.bad, step.pool) > 1
  }

  /** A check that passes although its key is the only selectable one that is spared. */
  ghost predicate Reckless(pools: Pools, s: System, step: Step, pool: string) {
    Passes(pools, s, step) && step.pool == pool && forall k :: Spared(pools, s, pool, k) ==> k.hash == step.key.hash
  }

  lemma CheckStep(pools: Pools, s: System, step: Step, pool: string)
    requires Passes(pools, s, step)
    ensures PendingOn(Next(pools, s, step), pool) ==
            PendingOn(s, pool) + if step.pool == pool then {step.key.hash} else {}
    ensures Next(pools, s, step).bad == s.bad
  {
    hide HealthyCount;
    var v := Next(pools, s, step);
    assert v.pending[step.task] == Pending(step.pool, step.key.hash);
    forall t | t in s.pending ensures t in v.pending && v.pending[t] == s.pending[t] {
    }
  }

  lemma ReviveSpares(pools: Pools, s: System, from: string, hash: string, pool: string, k: PoolKey)
    requires Spared(pools, s, pool, k)
    ensures Spared(pools, Next(pools, s, Revive(from, hash)), pool, k)
  {
    assert PendingOn(Next(pools, s, Revive(from, hash)), pool) == PendingOn(s, pool);
    hide RemoveBad, BadSet, PendingOn;
    var v := RemoveBad(s.bad, from, hash);
    RegistryRefinesSets(s.bad, from, hash, pool);
    RegistryRefinesSets(s.bad, pool, k.hash, pool);
    RegistryRefinesSets(v, pool, k.hash, pool);
  }

  /** The only step that can endanger a pool is a reckless check, and it always does. */
  lemma SafeStep(pools: Pools, s: System, step: Step, pool: string)
    requires Safe(pools, s, pool)
    ensures Safe(pools, Next(pools, s, step), pool) <==> !Reckless(pools, s, step, pool)
  {
    hide Next, Spared, HealthyCount;
    var k :| Spared(pools, s, pool, k);
    match step
    case Mark(task) => MarkSpares(pools, s, task, pool, k);
    case Revive(from, hash) => ReviveSpares(pools, s, from, hash, pool, k);
    case Check(_, _, _) => SafeCheck(pools, s, step, pool);
  }

  lemma SafeCheck(pools: Pools, s: System, step: Step, pool: string)
    requires Safe(pools, s, pool) && step.Check?
    ensures Safe(pools, Next(pools, s, step), pool) <==> !Reckless(pools, s, step, pool)
  {
    hide HealthyCount, PendingOn, Selectable;
    var v := Next(pools, s, step);
    if Passes(pools, s, step) {
      CheckStep(pools, s, step, pool);
      assert forall k :: Spared(pools, v, pool, k) <==>
        Spared(pools, s, pool, k) && !(step.pool == pool && k.hash == step.key.hash);
    }
  }

  /** Along a run, no check is reckless. */
  ghost predicate Careful(pools: Pools, s: System, steps: seq<Step>, pool: string) {
    steps != [] ==>
      var front := steps[..|steps| - 1];
      Careful(pools, s, front, pool) && !Reckless(pools, Exec(pools, s, front), steps[|steps| - 1], pool)
  }

  /** At no point of a run can the marks on their way empty the pool. */
  ghost predicate NeverInDanger(pools: Pools, s: System, steps: seq<Step>, pool: string) {
    Safe(pools, Exec(pools, s, steps), pool) && (steps != [] ==> NeverInDanger(pools, s, steps[..|steps| - 1], pool))
  }

  /**
   Over every interleaving of requests and revivals: a pool is never in danger if and only if no check is
   reckless.
   */
  lemma {:induction false} DangerExactly(pools: Pools, s: System, steps: seq<Step>, pool: string)
    requires Safe(pools, s, pool)
    ensures NeverInDanger(pools, s, steps, pool) <==> Careful(pools, s, steps, pool)
  {
    hide Safe, Reckless, Next;
    if steps != [] {
      var front := steps[..|steps| - 1];
      DangerExactly(pools, s, front, pool);
      if NeverInDanger(pools, s, front, pool) {
        SafeStep(pools, Exec(pools, s, front), steps[|steps| - 1], pool);
      }
    }
  }

  /** A passed check with no other demotion of its pool on the way is not reckless if hashes are distinct. */
  lemma LoneCheck(pools: Pools, s: System, step: Step, pool: string)
    requires Distinct(KeysOf(pools, pool)) && Apart(Next(pools, s, step), pool)
    ensures !Reckless(pools, s, step, pool)
  {
    if Reckless(pools, s, step, pool) {
      var v := Next(pools, s, step);
      assert v.pending[step.task].pool == pool;
      forall t | t in s.pending ensures s.pending[t].pool != pool {
        assert v.pending[t] == s.pending[t];
      }
      assert PendingOn(s, pool) == {};
      hide PendingOn, Next, Distinct, Selectable;
      var keys, h := KeysOf(pools, pool), step.key.hash;
      assert forall k :: k in keys && Selectable(s.bad, pool, k) ==> k.hash == h;
      OneHash(s.bad, pool, keys, h);
    }
  }

  lemma OneHash(r: Registry, pool: string, keys: Pool, h: string)
    requires Distinct(keys) && forall k :: k in keys && Selectable(r, pool, k) ==> k.hash == h
    ensures HealthyCount(r, pool, keys) <= 1
  {
    hide Distinct, HealthyCount, Selectable, MarkBad;
    MarkTakesAtMostOne(r, pool, keys, h);
    assert HealthyCount(MarkBad(r, pool, h), pool, keys) == 0 by { NoneLeft(r, pool, keys, h); }
  }

  lemma NoneLeft(r: Registry, pool: string, keys: Pool, h: string)
    requires forall k :: k in keys && Selectable(r, pool, k) ==> k.hash == h
    ensures HealthyCount(MarkBad(r, pool, h), pool, keys) == 0
  {
    hide MarkBad, BadSet;
    var m := MarkBad(r, pool, h);
    HealthyIs(m, pool, keys);
    RegistryRefinesSets(r, pool, h, pool);
    RegistryRefinesSets(m, pool, h, pool);
    if Healthy(m, pool, keys) != [] {
      SomeMember(Healthy(m, pool, keys));
    }
  }

  lemma SomeMember(keys: seq<PoolKey>)
    requires keys != []
    ensures exists k :: k in keys
  {
    assert keys[0] in keys;
  }

  lemma {:induction false} SerialIsCareful(pools: Pools, s: System, steps: seq<Step>, pool: string)
    requires Distinct(KeysOf(pools, pool)) && Serial(pools, s, steps, pool)
    ensures Careful(pools, s, steps, pool)
  {
    hide Distinct, Next, Reckless, Apart;
    if steps != [] {
      var front := steps[..|steps| - 1];
      SerialIsCareful(pools, s, front, pool);
      LoneCheck(pools, Exec(pools, s, front), steps[|steps| - 1], pool);
    }
  }

  /**
   However requests and revivals interleave, a pool with distinct hashes that starts with a spared key
   is never in danger and keeps a selectable key, as long as no two demotions of that pool overlap.
   */
  lemma NeverEmptied(pools: Pools, s: System, steps: seq<Step>, pool: string)
    requires Distinct(KeysOf(pools, pool)) && Safe(pools, s, pool) && Serial(pools, s, steps, pool)
    ensures NeverInDanger(pools, s, steps, pool)
    ensures Count(pools, Exec(pools, s, steps).bad, pool) >= 1
  {
    hide Distinct, Exec, Serial, Careful, HealthyCount, PendingOn, Selectable;
    SerialIsCareful(pools, s, steps, pool);
    DangerExactly(pools, s, steps, pool);
    CountIsZero(pools, Exec(pools, s, steps).bad, pool);
  }

  lemma {:induction false} ExecMore(pools: Pools, s: System, steps: seq<Step>, step: Step)
    ensures Exec(pools, s, steps + [step]) == Next(pools, Exec(pools, s, steps), step)
  {
    assert (steps + [step])[..|steps|] == steps;
  }

  /**
   With overlap it can fail: whenever just two keys are selectable, two requests that both check before either
   marks take out both.
   */
  lemma OverlapEmptiesPool(pools: Pools, r: Registry, pool: string, a: PoolKey, b: PoolKey)
    requires Distinct(KeysOf(pools, pool)) && Count(pools, r, pool) == 2
    requires a in KeysOf(pools, pool) && b in KeysOf(pools, pool) && a.hash != b.hash
    requires Selectable(r, pool, a) && Selectable(r, pool, b)
    ensures var steps := [Check(0, pool, a), Check(1, pool, b)] + [Mark(0)] + [Mark(1)];
            Count(pools, Exec(pools, System(r, map[]), steps).bad, pool) == 0
    ensures !Apart(Exec(pools, System(r, map[]), [Check(0, pool, a), Check(1, pool, b)]), pool)
  {
    hide HealthyCount, MarkBad, Distinct, Exec, RemoveBad;
    var s0 := System(r, map[]);
    var checks := [Check(0, pool, a), Check(1, pool, b)];
    var s2 := BothCheck(pools, r, pool, a, b);
    assert s2.pending[0].pool == pool == s2.pending[1].pool;
    ExecMore(pools, s0, checks, Mark(0));
    ExecMore(pools, s0, checks + [Mark(0)], Mark(1));
    var m := MarkBad(r, pool, a.hash);
    DemotionTakesOne(r, pool, KeysOf(pools, pool), a);
    assert Selectable(m, pool, b) by { RegistryRefinesSets(r, pool, a.hash, pool); }
    DemotionTakesOne(m, pool, KeysOf(pools, pool), b);
  }

  lemma BothCheck(pools: Pools, r: Registry, pool: string, a: PoolKey, b: PoolKey) returns (s: System)
    requires Count(pools, r, pool) == 2
    ensures s == Exec(pools, System(r, map[]), [Check(0, pool, a), Check(1, pool, b)])
    ensures s == System(r, map[0 := Pending(pool, a.hash), 1 := Pending(pool, b.hash)])
  {
    hide HealthyCount, Exec;
    var s0 := System(r, map[]);
    assert Exec(pools, s0, []) == s0 by { Start(pools, s0); }
    ExecMore(pools, s0, [], Check(0, pool, a));
    assert [] + [Check(0, pool, a)] == [Check(0, pool, a)];
    ExecMore(pools, s0, [Check(0, pool, a)], Check(1, pool, b));
    assert [Check(0, pool, a)] + [Check(1, pool, b)] == [Check(0, pool, a), Check(1, pool, b)];
    s := Exec(pools, s0, [Check(0, pool, a), Check(1, pool, b)]);
  }

  lemma Start(pools: Pools, s: System)
    ensures Exec(pools, s, []) == s
  {
  }

  // ---- try_demote as one atomic step -----------------------------------------------------

  datatype Atom = Demote(pool: string, key: PoolKey) | Return(pool: string, hash: string)

  function Apply(pools: Pools, r: Registry, atom: Atom): Registry {
    match atom
    case Demote(pool, key) => if Count(pools, r, pool) > 1 then MarkBad(r, pool, key.hash) else r
    case Return(pool, hash) => RemoveBad(r, pool, hash)
  }

  function ApplyAll(pools: Pools, r: Registry, atoms: seq<Atom>): Registry {
    if atoms == [] then r else Apply(pools, ApplyAll(pools, r, atoms[..|atoms| - 1]), atoms[|atoms| - 1])
  }

  function Unfold(atoms: seq<Atom>): seq<Step> {
    if atoms == [] then []
    else
      var front := Unfold(atoms[..|atoms| - 1]);
      match atoms[|atoms| - 1]
      case Demote(pool, key) => front + [Check(0, pool, key)] + [Mark(0)]
      case Return(pool, hash) => front + [Revive(pool, hash)]
  }

  lemma SerialMore(pools: Pools, s: System, steps: seq<Step>, step: Step, pool: string)
    requires Serial(pools, s, steps, pool) && Apart(Next(pools, Exec(pools, s, steps), step), pool)
    ensures Serial(pools, s, steps + [step], pool)
  {
    hide Next;
    ExecMore(pools, s, steps, step);
    assert (steps + [step])[..|steps|] == steps;
  }

  lemma {:induction false} AtomicIsSerial(pools: Pools, r: Registry, atoms: seq<Atom>, pool: string)
    ensures Serial(pools, System(r, map[]), Unfold(atoms), pool)
    ensures Exec(pools, System(r, map[]), Unfold(atoms)) == System(ApplyAll(pools, r, atoms), map[])
  {
    hide Exec, HealthyCount, MarkBad, RemoveBad, Serial;
    var s := System(r, map[]);
    if atoms == [] {
      Start(pools, s);
      assert Serial(pools, s, [], pool) by { SerialStart(pools, s, pool); }
    } else {
      var front := Unfold(atoms[..|atoms| - 1]);
      AtomicIsSerial(pools, r, atoms[..|atoms| - 1], pool);
      match atoms[|atoms| - 1]
      case Demote(p, key) =>
        ExecMore(pools, s, front, Check(0, p, key));
        SerialMore(pools, s, front, Check(0, p, key), pool);
        ExecMore(pools, s, front + [Check(0, p, key)], Mark(0));
        SerialMore(pools, s, front + [Check(0, p, key)], Mark(0), pool);
      case Return(p, hash) =>
        ExecMore(pools, s, front, Revive(p, hash));
        SerialMore(pools, s, front, Revive(p, hash), pool);
    }
  }

  lemma SerialStart(pools: Pools, s: System, pool: string)
    requires s.pending == map[]
    ensures Serial(pools, s, [], pool)
  {
  }

  /** With `try_demote` atomic, every interleaving of requests and revivals keeps a selectable key. */
  lemma AtomicKeepsOne(pools: Pools, r: Registry, atoms: seq<Atom>, pool: string)
    requires Distinct(KeysOf(pools, pool)) && Count(pools, r, pool) >= 1
    ensures Count(pools, ApplyAll(pools, r, atoms), pool) >= 1
  {
    hide Distinct, HealthyCount, Exec, Serial, Unfold, ApplyAll, NeverInDanger, Selectable;
    var s := System(r, map[]);
    CountIsZero(pools, r, pool);
    var k :| k in KeysOf(pools, pool) && Selectable(r, pool, k);
    assert PendingOn(s, pool) == {};
    assert Spared(pools, s, pool, k);
    AtomicIsSerial(pools, r, atoms, pool);
    NeverEmptied(pools, s, Unfold(atoms), pool);
  }
}
