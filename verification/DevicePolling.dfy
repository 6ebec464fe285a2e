/**
 The device-code polling loop of `src/credential/xai.rs` (section 3.5 of RFC 8628). Times are in
 milliseconds. The environment is a function: for every round it says how late each clock reading
 comes, how long the reply takes, what it is, and by how much a sleep overruns.
 */
module DevicePolling {
  import opened Wrappers

  const REFRESH_SKEW_MS: int := 5 * 60 * 1000
  const DEFAULT_TOKEN_LIFETIME_SECS: int := 3600
  const SLOW_DOWN_INCREMENT_MS: nat := 5000

  datatype LiveToken = LiveToken(access: string, refresh: string, expires: int)
  datatype TokenBody = TokenBody(
    access: Option<string>, refresh: Option<string>, expiresIn: Option<int>, error: Option<string>)
  datatype Reply = NoReply | Unreadable | Reply(success: bool, body: TokenBody)
  datatype Round = Round(checkLag: nat, replyLag: nat, readLag: nat, oversleep: nat, reply: Reply)

  datatype Outcome = Token(token: LiveToken) | BadToken | Denied | CodeExpired | TimedOut | Failed

  function NonEmpty(s: Option<string>): Option<string> { if s.Some? && s.value != "" then s else None }

  /** `credentials_from_token`: a refresh token omitted from the answer is carried over. */
  function Credentials(body: TokenBody, previous: Option<string>, now: int): Option<LiveToken> {
    var refresh := if NonEmpty(body.refresh).Some? then NonEmpty(body.refresh) else NonEmpty(previous);
    if NonEmpty(body.access).None? || refresh.None? then None
    else
      var given := body.expiresIn.Some? && body.expiresIn.value > 0;
      var lifetime := if given then body.expiresIn.value else DEFAULT_TOKEN_LIFETIME_SECS;
      Some(LiveToken(body.access.value, refresh.value, now + lifetime * 1000 - REFRESH_SKEW_MS))
  }

  /** One poll: when the deadline check passed, when the reply was in, and the reply. */
  datatype Poll = Poll(checkedAt: int, repliedAt: int, reply: Reply)

  predicate Says(r: Reply, error: string) { r.Reply? && !r.success && r.body.error == Some(error) }

  predicate KeepsGoing(r: Reply) { Says(r, "authorization_pending") || Says(r, "slow_down") }

  function SlowDowns(log: seq<Poll>): nat {
    if log == [] then 0
    else SlowDowns(log[..|log| - 1]) + if Says(log[|log| - 1].reply, "slow_down") then 1 else 0
  }

  /** What a reply that ends the loop makes of the flow. */
  function Verdict(p: Poll): Outcome {
    match p.reply
    case NoReply => Failed
    case Unreadable => Failed
    case Reply(success, body) =>
      if success then
        (match Credentials(body, None, p.repliedAt) case Some(t) => Token(t) case None => BadToken)
      else if body.error == Some("access_denied") || body.error == Some("authorization_denied") then Denied
      else if body.error == Some("expired_token") then CodeExpired
      else Failed
  }

  /** The errors of section 3.5 of RFC 8628: two mean "not yet", the others end the flow, each in its own way. */
  lemma ErrorsMean(p: Poll, error: string)
    requires p.reply.Reply? && !p.reply.success && p.reply.body.error == Some(error)
    ensures KeepsGoing(p.reply) <==> error in {"authorization_pending", "slow_down"}
    ensures Verdict(p) == Denied <==> error in {"access_denied", "authorization_denied"}
    ensures Verdict(p) == CodeExpired <==> error == "expired_token"
    ensures Verdict(p) in {Denied, CodeExpired, Failed}
  {
  }

  /** Any other reply ends it too: with the token if it grants one that is complete, else with a failure. */
  lemma OthersMean(p: Poll)
    requires !(p.reply.Reply? && !p.reply.success && p.reply.body.error.Some?)
    ensures !KeepsGoing(p.reply)
    ensures Verdict(p) ==
            if !p.reply.Reply? || !p.reply.success then Failed
            else match Credentials(p.reply.body, None, p.repliedAt) { case Some(t) => Token(t) case None => BadToken }
  {
  }

  function InitialInterval(seconds: nat): nat { 1000 * if seconds < 1 then 1 else seconds }

  /**
   The polling discipline: no poll passes its check at or after the deadline; each waits out the
   initial interval plus five seconds per `slow_down` received so far, counted from the reply
   before it; and only the last reply can be something else than "not yet".
   */
  ghost predicate Obeys(start: int, initial: nat, deadline: int, log: seq<Poll>) {
    && (forall i :: 0 <= i < |log| ==> log[i].checkedAt < deadline && log[i].checkedAt <= log[i].repliedAt)
    && (|log| > 0 ==> log[0].checkedAt >= start + initial)
    && (forall i :: 0 < i < |log| ==>
          log[i].checkedAt >= log[i - 1].repliedAt + initial + 5000 * SlowDowns(log[..i]))
    && (forall i :: 0 <= i < |log| - 1 ==> KeepsGoing(log[i].reply))
  }

  lemma {:induction false} ObeysMore(start: int, initial: nat, deadline: int, log: seq<Poll>, p: Poll)
    requires Obeys(start, initial, deadline, log)
    requires p.checkedAt < deadline && p.checkedAt <= p.repliedAt
    requires |log| == 0 ==> p.checkedAt >= start + initial
    requires |log| > 0 ==> KeepsGoing(log[|log| - 1].reply)
    requires |log| > 0 ==> p.checkedAt >= log[|log| - 1].repliedAt + initial + 5000 * SlowDowns(log)
    ensures Obeys(start, initial, deadline, log + [p])
    ensures SlowDowns(log + [p]) == SlowDowns(log) + if Says(p.reply, "slow_down") then 1 else 0
  {
    SlowDownsMore(log, p);
    hide SlowDowns, Says, KeepsGoing;
    var more := log + [p];
    forall i | 0 < i < |more|
      ensures more[i].checkedAt >= more[i - 1].repliedAt + initial + 5000 * SlowDowns(more[..i])
    {
      assert more[..i] == log[..i];
      assert i == |log| ==> log[..i] == log;
    }
  }

  lemma SlowDownsMore(log: seq<Poll>, p: Poll)
    ensures SlowDowns(log + [p]) == SlowDowns(log) + if Says(p.reply, "slow_down") then 1 else 0
  {
    assert (log + [p])[..|log|] == log;
  }

  /** Under the discipline, k polls fit k initial intervals before the deadline. */
  lemma {:induction false} PollsFit(start: int, initial: nat, deadline: int, log: seq<Poll>, k: nat)
    requires Obeys(start, initial, deadline, log) && 1 <= k <= |log|
    ensures log[k - 1].checkedAt >= start + k * initial
    ensures k * initial < deadline - start
  {
    if k > 1 {
      PollsFit(start, initial, deadline, log, k - 1);
      assert k * initial == (k - 1) * initial + initial;
    }
  }

  /**
   Every run obeys the discipline, whatever the server answers and however late everything comes;
   the number of polls is bounded, so the loop ends; and the last reply decides the outcome.
   */
  method PollForTokens(start: int, intervalSeconds: nat, expiresInSeconds: nat,
                       initialOversleep: nat, env: nat -> Round)
    returns (outcome: Outcome, log: seq<Poll>)
    ensures var interval := 1000 * if intervalSeconds < 1 then 1 else intervalSeconds;
            && Obeys(start, interval, start + expiresInSeconds * 1000, log)
            && (|log| > 0 ==> |log| * interval < expiresInSeconds * 1000)
    ensures if |log| > 0 && !KeepsGoing(log[|log| - 1].reply) then outcome == Verdict(log[|log| - 1])
            else outcome == TimedOut
  {
    hide Obeys, Verdict, Says;
    var initial := InitialInterval(intervalSeconds);
    var deadline := start + expiresInSeconds * 1000;
    var interval := initial;
    var now := start + interval + initialOversleep;
    log := [];
    assert Obeys(start, initial, deadline, log) by { NothingPolled(start, initial, deadline); }
    while true
      invariant Obeys(start, initial, deadline, log)
      invariant interval == initial + SLOW_DOWN_INCREMENT_MS * SlowDowns(log)
      invariant |log| == 0 ==> now >= start + initial
      invariant |log| > 0 ==> KeepsGoing(log[|log| - 1].reply)
      invariant |log| > 0 ==> now >= deadline || now >= log[|log| - 1].repliedAt + interval
      decreases if now < deadline then deadline - now else 0
    {
      if |log| > 0 {
        PollsFit(start, initial, deadline, log, |log|);
      }
      var round := env(|log|);
      now := now + round.checkLag;
      if now >= deadline {
        return TimedOut, log;
      }
      var poll := Poll(now, now + round.replyLag, round.reply);
      ObeysMore(start, initial, deadline, log, poll);
      log := log + [poll];
      PollsFit(start, initial, deadline, log, |log|);
      now := now + round.replyLag;
      if !KeepsGoing(poll.reply) {
        return Verdict(poll), log;
      }
      if Says(poll.reply, "slow_down") {
        interval := interval + SLOW_DOWN_INCREMENT_MS;
      }
      now := now + round.readLag;
      var remaining := deadline - now;
      if remaining == 0 {
        return TimedOut, log;
      }
      // A negative remainder, cast to an unsigned integer, exceeds any interval.
      var sleep := if 0 < remaining < interval then remaining else interval;
      now := now + sleep + round.oversleep;
    }
  }

  lemma NothingPolled(start: int, initial: nat, deadline: int)
    ensures Obeys(start, initial, deadline, [])
  {
  }
}
