/**
 Refreshable credentials (`src/credential/mod.rs`, `src/config/mod.rs`): one sequential
 `ensure_fresh`, the identity that survives token rotation, and the single-flight protocol that
 concurrent calls for one identity follow.
 */
module Credentials {
  import opened Wrappers
  import opened DevicePolling

  datatype KeyEntry = KeyEntry(
    key: string, oauth: bool,
    refresh: Option<string>, expires: Option<int>, issuer: Option<string>, identity: Option<string>)

  function IdentitySecret(e: KeyEntry): string {
    if e.oauth && NonEmpty(e.refresh).Some? then e.refresh.value else e.key
  }

  /** `hash` stands for the digest that `compute_key_hash` takes. */
  function IdentityHash(hash: string -> string, e: KeyEntry): string {
    if NonEmpty(e.identity).Some? then e.identity.value else hash(IdentitySecret(e))
  }

  function ApplyLive(hash: string -> string, e: KeyEntry, live: LiveToken): KeyEntry {
    e.(identity := if NonEmpty(e.identity).None? then Some(IdentityHash(hash, e)) else e.identity,
       key := live.access, refresh := Some(live.refresh), expires := Some(live.expires))
  }

  /** `f` is `e`, or `e` with some token applied. */
  ghost predicate IsRotation(hash: string -> string, e: KeyEntry, f: KeyEntry) {
    f == e || exists live :: f == ApplyLive(hash, e, live)
  }

  predicate IsExpired(expires: int, now: int) { now >= expires }

  predicate Usable(t: Option<LiveToken>, now: int) { t.Some? && !IsExpired(t.value.expires, now) }

  datatype Error = MissingRefresh | UnsupportedIssuer | Refused
  datatype Result = Ok(entry: KeyEntry) | Err(error: Error)

  predicate EntryUsable(e: KeyEntry, now: int) { e.expires.Some? && !IsExpired(e.expires.value, now) }

  predicate Refreshable(e: KeyEntry) { NonEmpty(e.refresh).Some? && e.issuer == Some("xai") }

  function Lookup(tokens: map<string, LiveToken>, id: string): Option<LiveToken> {
    if id in tokens then Some(tokens[id]) else None
  }

  /** What a call returns, and the token it leaves cached for its identity. */
  datatype Ensured = Ensured(result: Result, token: Option<LiveToken>)

  function OwnToken(e: KeyEntry): Option<LiveToken>
    requires e.expires.Some?
  {
    if e.refresh.Some? then Some(LiveToken(e.key, e.refresh.value, e.expires.value)) else None
  }

  /** `refresh_token`: what an issuer's reply, read at `now`, gives for the refresh token sent. */
  function Answer(reply: Reply, refresh: Option<string>, now: int): Option<LiveToken> {
    if reply.Reply? && reply.success then DevicePolling.Credentials(reply.body, refresh, now) else None
  }

  /** Once neither the cached token nor the entry's own is usable: ask the issuer, which gives `answer`. */
  function Refreshed(hash: string -> string, token: Option<LiveToken>, e: KeyEntry, answer: Option<LiveToken>): Ensured
  {
    if NonEmpty(e.refresh).None? then Ensured(Err(MissingRefresh), token)
    else if e.issuer != Some("xai") then Ensured(Err(UnsupportedIssuer), token)
    else if answer.None? then Ensured(Err(Refused), token)
    else Ensured(Ok(ApplyLive(hash, e, answer.value)), answer)
  }

  /** A call's readings of the clock: for the cached token, for the entry's own, and when the reply is in. */
  datatype Times = Times(first: int, second: int, third: int)

  /** One call with `token` cached. */
  function Ensure(hash: string -> string, token: Option<LiveToken>, e: KeyEntry, t: Times, reply: Reply): Ensured {
    if Usable(token, t.first) then Ensured(Ok(ApplyLive(hash, e, token.value)), token)
    else if EntryUsable(e, t.second) then Ensured(Ok(e), if e.refresh.Some? then OwnToken(e) else token)
    else Refreshed(hash, token, e, Answer(reply, e.refresh, t.third))
  }

  class CredentialRuntime {
    var tokens: map<string, LiveToken>
    const hash: string -> string

    constructor (hash: string -> string)
      ensures tokens == map[] && this.hash == hash
    {
      this.tokens, this.hash := map[], hash;
    }

    /** One call, its clock readings and the issuer's reply as arguments; other identities' tokens stay. */
    method EnsureFresh(e: KeyEntry, t: Times, reply: Reply) returns (r: Result)
      modifies this
      ensures !e.oauth ==> r == Ok(e) && tokens == old(tokens)
      ensures e.oauth ==>
                var id := IdentityHash(hash, e);
                && Ensured(r, Lookup(tokens, id)) == Ensure(hash, Lookup(old(tokens), id), e, t, reply)
                && forall other :: other != id ==> Lookup(tokens, other) == Lookup(old(tokens), other)
    {
      if !e.oauth {
        return Ok(e);
      }
      var id := IdentityHash(hash, e);
      if id in tokens && !IsExpired(tokens[id].expires, t.first) {
        return Ok(ApplyLive(hash, e, tokens[id]));
      }
      if e.expires.Some? && !IsExpired(e.expires.value, t.second) {
        if e.refresh.Some? {
          tokens := tokens[id := LiveToken(e.key, e.refresh.value, e.expires.value)];
        }
        return Ok(e);
      }
      if NonEmpty(e.refresh).None? {
        return Err(MissingRefresh);
      }
      if e.issuer != Some("xai") {
        return Err(UnsupportedIssuer);
      }
      var answer := Answer(reply, e.refresh, t.third);
      if answer.None? {
        return Err(Refused);
      }
      tokens := tokens[id := answer.value];
      return Ok(ApplyLive(hash, e, answer.value));
    }
  }

  /** Whether a call gets as far as asking the issuer. */
  predicate Asks(token: Option<LiveToken>, e: KeyEntry, t: Times) {
    !Usable(token, t.first) && !EntryUsable(e, t.second) && Refreshable(e)
  }

  /** The reading of the clock that decides which token is handed out. */
  function DecidedAt(token: Option<LiveToken>, e: KeyEntry, t: Times): int {
    if Usable(token, t.first) then t.first else if EntryUsable(e, t.second) then t.second else t.third
  }

  /** The reply grants a token for no longer than the margin by which tokens are refreshed early. */
  predicate ShortLived(reply: Reply) {
    reply.Reply? && reply.body.expiresIn.Some? && 0 < reply.body.expiresIn.value <= 300
  }

  /**
   The key handed out is promised to be currently valid. It is unexpired at the reading of the clock that
   decided for it, if and only if the issuer was not asked or granted more than five minutes.
   */
  lemma ValidExactly(hash: string -> string, token: Option<LiveToken>, e: KeyEntry, t: Times, reply: Reply)
    requires Ensure(hash, token, e, t, reply).result.Ok?
    ensures var r := Ensure(hash, token, e, t, reply).result;
            && r.entry.expires.Some?
            && (!IsExpired(r.entry.expires.value, DecidedAt(token, e, t)) <==>
                  !(Asks(token, e, t) && ShortLived(reply)))
  {
  }

  /** Such a call: the token obtained is handed out expired, and is expired for the next call as well. */
  lemma ShortLivedHandedOut(hash: string -> string)
    ensures var e := KeyEntry("k", true, Some("r"), Some(0), Some("xai"), None);
            var reply := Reply(true, TokenBody(Some("a"), Some("r2"), Some(299), None));
            var out := Ensure(hash, None, e, Times(1000, 1000, 3000), reply);
            && out.result.Ok? && out.result.entry.expires == Some(2000) && IsExpired(2000, 3000)
            && out.token.Some? && !Usable(out.token, 3000)
  {
  }

  /** What a call returns is the entry itself or the entry with a token applied. */
  lemma EnsuredIsRotation(hash: string -> string, token: Option<LiveToken>, e: KeyEntry, t: Times, reply: Reply)
    ensures var r := Ensure(hash, token, e, t, reply).result; r.Ok? ==> IsRotation(hash, e, r.entry)
  {
    hide ApplyLive;
  }

  /** An entry with a token applied carries that token, and is otherwise the same key. */
  lemma AppliedIs(hash: string -> string, e: KeyEntry, live: LiveToken)
    ensures var f := ApplyLive(hash, e, live);
            && f.expires.Some? && OwnToken(f) == Some(live)
            && f.oauth == e.oauth && f.issuer == e.issuer
  {
  }

  /** The token of an entry handed out is the one left cached, if the entry has one at all. */
  lemma CachedIsHandedOut(hash: string -> string, token: Option<LiveToken>, e: KeyEntry, t: Times, reply: Reply)
    requires Ensure(hash, token, e, t, reply).result.Ok?
    ensures var out := Ensure(hash, token, e, t, reply);
            && out.result.entry.expires.Some?
            && (out.result.entry.refresh.Some? ==> out.token == OwnToken(out.result.entry))
            && (out.result.entry.refresh.None? ==> out == Ensured(Ok(e), token))
  {
    hide ApplyLive, Answer;
    if Usable(token, t.first) {
      AppliedIs(hash, e, token.value);
    } else if !EntryUsable(e, t.second) {
      AppliedIs(hash, e, Answer(reply, e.refresh, t.third).value);
    }
  }

  /**
   The next call for the same identity, whatever entry it is made with and whatever the issuer would say,
   hands out the same token for as long as that is unexpired.
   */
  lemma NextCallReuses(hash: string -> string, token: Option<LiveToken>, e: KeyEntry, t: Times, reply: Reply,
                       f: KeyEntry, u: Times, other: Reply)
    requires Ensure(hash, token, e, t, reply).result.Ok?
    requires var r := Ensure(hash, token, e, t, reply).result.entry;
             r.refresh.Some? && r.expires.Some? && u.first < r.expires.value
    ensures var first := Ensure(hash, token, e, t, reply);
            var next := Ensure(hash, first.token, f, u, other);
            && next.token == first.token && next.result.Ok? && next.result.entry.expires.Some?
            && first.result.entry.expires.Some?
            && OwnToken(next.result.entry) == OwnToken(first.result.entry)
  {
    hide ApplyLive, Answer;
    CachedIsHandedOut(hash, token, e, t, reply);
    AppliedIs(hash, f, Ensure(hash, token, e, t, reply).token.value);
  }

  predicate Absent(s: Option<string>) { s.None? || |s.value| == 0 }

  /** A token the issuer gave: access and refresh token as sent, or the old refresh token if it sent none. */
  lemma AnswerIs(reply: Reply, refresh: Option<string>, now: int)
    ensures match Answer(reply, refresh, now)
            case Some(live) =>
              && reply.Reply? && reply.success
              && reply.body.access == Some(live.access) && live.access != "" && live.refresh != ""
              && (reply.body.refresh == Some(live.refresh) ||
                  (Absent(reply.body.refresh) && refresh == Some(live.refresh)))
              && live.expires == now - 300_000 + 1000 *
                 match reply.body.expiresIn { case Some(n) => if n > 0 then n else 3600 case None => 3600 }
            case None =>
              || !reply.Reply? || !reply.success || Absent(reply.body.access)
              || (Absent(reply.body.refresh) && Absent(refresh))
  {
  }

  /** A call fails exactly if neither token is usable and the entry, its issuer or the answer is no good. */
  lemma FailsExactly(hash: string -> string, token: Option<LiveToken>, e: KeyEntry, t: Times, reply: Reply)
    ensures var r := Ensure(hash, token, e, t, reply).result;
            r.Err? <==>
            && (token.Some? ==> token.value.expires <= t.first) && (e.expires.Some? ==> e.expires.value <= t.second)
            && (Absent(e.refresh) || e.issuer != Some("xai") || Answer(reply, e.refresh, t.third).None?)
    ensures var out := Ensure(hash, token, e, t, reply); out.result.Err? ==> out.token == token
  {
    hide Answer;
  }

  // ---- Identity --------------------------------------------------------------------------

  ghost predicate NeverEmpty(hash: string -> string) { forall s :: hash(s) != "" }

  /** A key is told apart by the identity pinned on it, by an OAuth refresh token, or by the key itself. */
  lemma IdentityIs(hash: string -> string, e: KeyEntry)
    ensures !Absent(e.identity) ==> Some(IdentityHash(hash, e)) == e.identity
    ensures Absent(e.identity) && e.oauth && !Absent(e.refresh) ==> IdentityHash(hash, e) == hash(e.refresh.value)
    ensures Absent(e.identity) && (!e.oauth || Absent(e.refresh)) ==> IdentityHash(hash, e) == hash(e.key)
  {
  }

  /** Applying a rotated token does not change who the key is, even when its refresh token rotates. */
  lemma RotationKeepsIdentity(hash: string -> string, e: KeyEntry, live: LiveToken)
    requires NeverEmpty(hash)
    ensures IdentityHash(hash, ApplyLive(hash, e, live)) == IdentityHash(hash, e)
  {
  }

  ghost predicate Rotations(hash: string -> string, es: seq<KeyEntry>) {
    forall i :: 0 < i < |es| ==> IsRotation(hash, es[i - 1], es[i])
  }

  lemma {:induction false} IdentityStable(hash: string -> string, es: seq<KeyEntry>, n: nat)
    requires NeverEmpty(hash) && Rotations(hash, es) && n < |es|
    ensures IdentityHash(hash, es[n]) == IdentityHash(hash, es[0])
  {
    hide IdentityHash, ApplyLive, NeverEmpty;
    if n > 0 {
      IdentityStable(hash, es, n - 1);
      if es[n] != es[n - 1] {
        var live :| es[n] == ApplyLive(hash, es[n - 1], live);
        RotationKeepsIdentity(hash, es[n - 1], live);
      }
    }
  }

  /** A token just obtained is usable at once exactly when it lives longer than the safety margin. */
  lemma FreshTokenUsable(body: TokenBody, previous: Option<string>, now: int)
    requires DevicePolling.Credentials(body, previous, now).Some?
    ensures Usable(DevicePolling.Credentials(body, previous, now), now) <==>
            !(body.expiresIn.Some? && 0 < body.expiresIn.value <= 300)
  {
  }

  // ---- Single flight ---------------------------------------------------------------------

  /** Where a task is inside `ensure_fresh`; the last three hold the lock. */
  datatype Task = Idle | Waiting(e: KeyEntry) | Holding(e: KeyEntry) | Missed(e: KeyEntry) | Refreshing(e: KeyEntry)

  /** `results` holds what each task's last finished call returned. */
  datatype World = World(
    hash: string -> string, now: int,
    token: Option<LiveToken>, lock: Option<nat>, tasks: map<nat, Task>, results: map<nat, Result>)

  datatype Step =
    | Tick(to: int)
    | Arrive(i: nat, e: KeyEntry)
    | Acquire(i: nat)
    | TakeLive(i: nat)
    | MissLive(i: nat)
    | TakeEntry(i: nat)
    | GiveUp(i: nat)
    | Begin(i: nat)
    | Complete(i: nat, reply: Reply)
    | Cancel(i: nat)

  function At(w: World, i: nat): Task { if i in w.tasks then w.tasks[i] else Idle }

  function Move(w: World, i: nat, t: Task): World { w.(tasks := w.tasks[i := t]) }

  function Release(w: World, i: nat): World { Move(w, i, Idle).(lock := None) }

  /** The call of task `i` returns and leaves its token. */
  function Finish(w: World, i: nat, out: Ensured): World {
    Release(w, i).(token := out.token, results := w.results[i := out.result])
  }

  predicate Enabled(w: World, s: Step) {
    match s
    case Tick(to) => w.now <= to
    case Arrive(i, e) => At(w, i).Idle? && e.oauth
    case Acquire(i) => At(w, i).Waiting? && w.lock.None?
    case TakeLive(i) => At(w, i).Holding? && Usable(w.token, w.now)
    case MissLive(i) => At(w, i).Holding? && !Usable(w.token, w.now)
    case TakeEntry(i) => At(w, i).Missed? && EntryUsable(At(w, i).e, w.now)
    case GiveUp(i) => At(w, i).Missed? && !EntryUsable(At(w, i).e, w.now) && !Refreshable(At(w, i).e)
    case Begin(i) => At(w, i).Missed? && !EntryUsable(At(w, i).e, w.now) && Refreshable(At(w, i).e)
    case Complete(i, _) => At(w, i).Refreshing?
    case Cancel(i) => !At(w, i).Idle?
  }

  function Apply(w: World, s: Step): World
    requires Enabled(w, s)
  {
    match s
    case Tick(to) => w.(now := to)
    case Arrive(i, e) => Move(w, i, Waiting(e))
    case Acquire(i) => Move(w, i, Holding(At(w, i).e)).(lock := Some(i))
    case TakeLive(i) => Finish(w, i, Ensured(Ok(ApplyLive(w.hash, At(w, i).e, w.token.value)), w.token))
    case MissLive(i) => Move(w, i, Missed(At(w, i).e))
    case TakeEntry(i) =>
      var e := At(w, i).e;
      Finish(w, i, Ensured(Ok(e), if e.refresh.Some? then OwnToken(e) else w.token))
    case GiveUp(i) => Finish(w, i, Refreshed(w.hash, w.token, At(w, i).e, None))
    case Begin(i) => Move(w, i, Refreshing(At(w, i).e))
    case Complete(i, reply) =>
      var e := At(w, i).e;
      Finish(w, i, Refreshed(w.hash, w.token, e, Answer(reply, e.refresh, w.now)))
    case Cancel(i) => if w.lock == Some(i) then Release(w, i) else Move(w, i, Idle)
  }

  predicate HasLock(t: Task) { t.Holding? || t.Missed? || t.Refreshing? }

  /** One lock holder, and past its first check it has seen the cached token unusable. */
  ghost predicate Inv(w: World) {
    && (forall i: nat :: HasLock(At(w, i)) <==> w.lock == Some(i))
    && (forall i: nat :: At(w, i).Missed? || At(w, i).Refreshing? ==> !Usable(w.token, w.now))
    && (forall i: nat :: At(w, i).Refreshing? ==> Refreshable(At(w, i).e))
  }

  lemma InvKept(w: World, s: Step)
    requires Inv(w) && Enabled(w, s)
    ensures Inv(Apply(w, s))
  {
    var v := Apply(w, s);
    assert s.Tick? ==> forall i :: At(v, i) == At(w, i);
    assert !s.Tick? ==> forall j :: j != s.i ==> At(v, j) == At(w, j);
  }

  // One call that no other task interrupts is one `ensure_fresh`.

  predicate CanDo(w: World, steps: seq<Step>)
    decreases |steps|
  {
    steps == [] || (Enabled(w, steps[0]) && CanDo(Apply(w, steps[0]), steps[1..]))
  }

  function DoAll(w: World, steps: seq<Step>): World
    requires CanDo(w, steps)
    decreases |steps|
  {
    if steps == [] then w else DoAll(Apply(w, steps[0]), steps[1..])
  }

  lemma OneStep(w: World, step: Step, rest: seq<Step>)
    requires Enabled(w, step) && CanDo(Apply(w, step), rest)
    ensures CanDo(w, [step] + rest) && DoAll(w, [step] + rest) == DoAll(Apply(w, step), rest)
  {
    hide Enabled, Apply;
    assert ([step] + rest)[1..] == rest;
  }

  /** The steps of one call after the lock was taken and the cached token found unusable. */
  function AfterMiss(i: nat, e: KeyEntry, t: Times, reply: Reply): seq<Step> {
    [Tick(t.second)] +
    if EntryUsable(e, t.second) then [TakeEntry(i)]
    else if !Refreshable(e) then [GiveUp(i)]
    else [Begin(i)] + ([Tick(t.third)] + [Complete(i, reply)])
  }

  function OneCall(w: World, i: nat, e: KeyEntry, t: Times, reply: Reply): seq<Step> {
    [Arrive(i, e)] + ([Acquire(i)] + ([Tick(t.first)] +
      if Usable(w.token, t.first) then [TakeLive(i)] else [MissLive(i)] + AfterMiss(i, e, t, reply)))
  }

  lemma LastStep(w: World, step: Step)
    requires Enabled(w, step)
    ensures CanDo(w, [step]) && DoAll(w, [step]) == Apply(w, step)
  {
    hide Enabled, Apply;
    OneStep(w, step, []);
    assert [step] + [] == [step];
  }

  lemma Asked(w: World, i: nat, e: KeyEntry, third: int, reply: Reply)
    requires At(w, i) == Missed(e) && w.now <= third && Refreshable(e) && !EntryUsable(e, w.now)
    ensures var steps := [Begin(i)] + ([Tick(third)] + [Complete(i, reply)]);
            && CanDo(w, steps)
            && DoAll(w, steps) ==
               Finish(w.(now := third), i, Refreshed(w.hash, w.token, e, Answer(reply, e.refresh, third)))
  {
    hide CanDo, DoAll, ApplyLive, Refreshed, Answer;
    var u := Apply(w, Begin(i));
    var v := Apply(u, Tick(third));
    assert At(v, i) == Refreshing(e);
    LastStep(v, Complete(i, reply));
    assert v.tasks[i := Idle] == w.tasks[i := Idle];
    OneStep(u, Tick(third), [Complete(i, reply)]);
    OneStep(w, Begin(i), [Tick(third)] + [Complete(i, reply)]);
  }

  /** What is left of a call whose cached token was found unusable. */
  lemma MissedCall(w: World, i: nat, e: KeyEntry, t: Times, reply: Reply)
    requires At(w, i) == Missed(e) && w.now <= t.second <= t.third && !Usable(w.token, t.first)
    ensures var steps := AfterMiss(i, e, t, reply);
            && CanDo(w, steps)
            && var v, out := DoAll(w, steps), Ensure(w.hash, w.token, e, t, reply);
               v == Finish(w.(now := v.now), i, out)
  {
    hide CanDo, DoAll, ApplyLive;
    var v := Apply(w, Tick(t.second));
    assert At(v, i) == Missed(e);
    if EntryUsable(e, t.second) {
      LastStep(v, TakeEntry(i));
    } else if !Refreshable(e) {
      LastStep(v, GiveUp(i));
    } else {
      Asked(v, i, e, t.third, reply);
    }
    OneStep(w, Tick(t.second), AfterMiss(i, e, t, reply)[1..]);
  }

  /** The protocol, for one task left alone, is `ensure_fresh`: same result, same cached token. */
  lemma AloneIsEnsure(w: World, i: nat, e: KeyEntry, t: Times, reply: Reply)
    requires e.oauth && w.lock.None? && At(w, i).Idle? && w.now <= t.first <= t.second <= t.third
    ensures var steps := OneCall(w, i, e, t, reply);
            var out := Ensure(w.hash, w.token, e, t, reply);
            && CanDo(w, steps)
            && var v := DoAll(w, steps);
               && v.results == w.results[i := out.result] && v.token == out.token && v.lock.None?
               && forall j :: At(v, j) == At(w, j)
  {
    hide CanDo, DoAll, ApplyLive, Refreshed, Answer;
    var a := Apply(w, Arrive(i, e));
    var b := Apply(a, Acquire(i));
    var c := Apply(b, Tick(t.first));
    assert At(c, i) == Holding(e) && c.token == w.token;
    if Usable(w.token, t.first) {
      LastStep(c, TakeLive(i));
    } else {
      MissedCall(Apply(c, MissLive(i)), i, e, t, reply);
      OneStep(c, MissLive(i), AfterMiss(i, e, t, reply));
    }
    var tail := if Usable(w.token, t.first) then [TakeLive(i)] else [MissLive(i)] + AfterMiss(i, e, t, reply);
    OneStep(b, Tick(t.first), tail);
    OneStep(a, Acquire(i), [Tick(t.first)] + tail);
    OneStep(w, Arrive(i, e), [Acquire(i)] + ([Tick(t.first)] + tail));
  }

  datatype Run = Run(worlds: seq<World>, steps: seq<Step>)

  ghost predicate IsRun(r: Run) {
    && |r.worlds| == |r.steps| + 1
    && r.worlds[0].lock.None? && r.worlds[0].tasks == map[]
    && forall n :: 0 <= n < |r.steps| ==>
       Enabled(r.worlds[n], r.steps[n]) && r.worlds[n + 1] == Apply(r.worlds[n], r.steps[n])
  }

  lemma {:induction false} InvAlways(r: Run, n: nat)
    requires IsRun(r) && n < |r.worlds|
    ensures Inv(r.worlds[n])
  {
    hide Apply, Enabled;
    if n > 0 {
      InvAlways(r, n - 1);
      InvKept(r.worlds[n - 1], r.steps[n - 1]);
    }
  }

  /** In every reachable state at most one refresh is in flight. */
  lemma SingleFlight(r: Run, n: nat, i: nat, j: nat)
    requires IsRun(r) && n < |r.worlds| && At(r.worlds[n], i).Refreshing? && At(r.worlds[n], j).Refreshing?
    ensures i == j
  {
    InvAlways(r, n);
  }

  /** A step that replaces the cached token finds it absent or expired. */
  lemma UsableTokenKept(r: Run, n: nat)
    requires IsRun(r) && n < |r.steps| && Usable(r.worlds[n].token, r.worlds[n].now)
    ensures r.worlds[n + 1].token == r.worlds[n].token
  {
    InvAlways(r, n);
  }

  lemma ClockGrows(w: World, s: Step)
    requires Enabled(w, s)
    ensures w.now <= Apply(w, s).now
  {
    hide Ensure, Refreshed, ApplyLive, OwnToken;
  }

  lemma {:induction false} TokensOutlived(r: Run, m: nat, n: nat)
    requires IsRun(r) && m <= n < |r.worlds| && r.worlds[m].token.Some?
    ensures r.worlds[m].now <= r.worlds[n].now
    ensures r.worlds[n].token == r.worlds[m].token || IsExpired(r.worlds[m].token.value.expires, r.worlds[n].now)
    decreases n
  {
    hide Apply, Enabled;
    if m < n {
      TokensOutlived(r, m, n - 1);
      ClockGrows(r.worlds[n - 1], r.steps[n - 1]);
      if Usable(r.worlds[n - 1].token, r.worlds[n - 1].now) {
        UsableTokenKept(r, n - 1);
      }
    }
  }

  /** A refresh starts only when every token ever cached before has expired. */
  lemma RefreshOnlyWhenNeeded(r: Run, m: nat, n: nat)
    requires IsRun(r) && m <= n < |r.steps| && r.steps[n].Begin? && r.worlds[m].token.Some?
    ensures IsExpired(r.worlds[m].token.value.expires, r.worlds[n].now)
  {
    InvAlways(r, n);
    TokensOutlived(r, m, n);
  }

  /** The step at which the call of task `i` returns. */
  predicate Returns(s: Step, i: nat) {
    (s.TakeLive? || s.TakeEntry? || s.GiveUp? || s.Complete?) && s.i == i
  }

  /**
   Over every interleaving: when a call returns a key, the key is unexpired at that moment if and only if
   the call did not come by it through a short-lived reply.
   */
  lemma ValidInRuns(r: Run, n: nat, i: nat)
    requires IsRun(r) && n < |r.steps| && Returns(r.steps[n], i)
    ensures i in r.worlds[n + 1].results
    ensures var out := r.worlds[n + 1].results[i];
            out.Ok? ==>
              && out.entry.expires.Some?
              && (!IsExpired(out.entry.expires.value, r.worlds[n].now) <==>
                    !(r.steps[n].Complete? && ShortLived(r.steps[n].reply)))
  {
    hide IdentityHash;
    InvAlways(r, n);
  }
}
