/** The OAuth device flow of section 3.5 of RFC 8628 as internal/oauth/oauth_device_flow.go runs it, and the token
    source that saves what it yields (internal/oauth/oauth_token_source.go).

    Durations are nanoseconds.  The clock starts when the expiration of the code is computed.  What the endpoints
    and the listener answer, and how long each call and each sleep takes, are parameters. */
module DeviceFlow {
  import opened Wrappers

  datatype Token = Token(access: string, refresh: string, expiresIn: int)

  datatype Reply = Granted(token: Token) | EndpointError(code: string) | OtherError(text: string)

  /** One round of the polling loop: the reply, the time it took, and the time a sleep lasts beyond what was asked. */
  datatype Attempt = Attempt(reply: Reply, took: nat, overslept: nat)

  datatype Config = Config(timeout: int, pollInterval: int)

  datatype AuthResponse = AuthResponse(expiresIn: int, interval: int)

  /** Everything the flow does not decide.  The script holds the rounds that are observed: a flow that needs more of
      them is still polling when it ends. */
  datatype World = World(
    auth: Option<AuthResponse>,
    startTook: nat,
    startError: Option<string>,
    script: seq<Attempt>,
    endError: Option<string>)

  datatype Event = Started(expiresIn: int) | Ended(outcome: bool)

  const SECOND: int := 1_000_000_000
  const AUTH_ERROR := "device authorization failed"

  // ---------------------------------------------------------------- durations

  /** Two's complement, 64 bits. */
  function Wrap64(n: int): (r: int)
    ensures -0x8000_0000_0000_0000 <= r < 0x8000_0000_0000_0000
  {
    (n + 0x8000_0000_0000_0000) % 0x1_0000_0000_0000_0000 - 0x8000_0000_0000_0000
  }

  function SecondsToDuration(seconds: int): int { Wrap64(seconds * SECOND) }

  /** The code lives as long as the server says, or for the configured timeout. */
  function ExpiresIn(config: Config, auth: AuthResponse): int {
    if auth.expiresIn != 0 then SecondsToDuration(auth.expiresIn) else config.timeout
  }

  function Interval(config: Config, auth: AuthResponse): int {
    if config.pollInterval != 0 then config.pollInterval
    else if auth.interval > 0 then SecondsToDuration(auth.interval)
    else 5 * SECOND
  }

  // ---------------------------------------------------------------- when the loop stops

  /** A sleep lasts at least the interval, and returns at once when the interval is not positive. */
  function Slept(interval: int, a: Attempt): nat {
    (if interval > 0 then interval else 0) + a.overslept
  }

  /** The time at which the given poll is sent, when no earlier one stops the loop. */
  function SendTime(interval: int, start: nat, script: seq<Attempt>, k: nat): nat
    requires k <= |script|
  {
    if k == 0 then start
    else SendTime(interval, start, script, k - 1) + script[k - 1].took + Slept(interval, script[k - 1])
  }

  predicate Retryable(reply: Reply) {
    || reply.OtherError?
    || (reply.EndpointError? && reply.code in {"authorization_pending", "slow_down"})
  }

  predicate Continues(expiresIn: int, interval: int, start: nat, script: seq<Attempt>, k: nat)
    requires k < |script|
  {
    Retryable(script[k].reply) && SendTime(interval, start, script, k) + script[k].took <= expiresIn
  }

  /** `polls` requests were sent: every one but the last was followed by another. */
  predicate Polled(expiresIn: int, interval: int, start: nat, script: seq<Attempt>, polls: nat) {
    polls <= |script| && forall k :: 0 <= k < polls - 1 ==> Continues(expiresIn, interval, start, script, k)
  }

  predicate Finished(expiresIn: int, interval: int, start: nat, script: seq<Attempt>, polls: nat) {
    0 < polls <= |script| && !Continues(expiresIn, interval, start, script, polls - 1)
  }

  /** The loop goes on, within the lifetime of the code, exactly after an unexpected error and after the error codes
      "authorization_pending" and "slow_down". */
  lemma GoesOnIff(expiresIn: int, interval: int, start: nat, script: seq<Attempt>, k: nat)
    requires k < |script|
    ensures Continues(expiresIn, interval, start, script, k) <==>
      && SendTime(interval, start, script, k) + script[k].took <= expiresIn
      && (match script[k].reply
          case Granted(_) => false
          case OtherError(_) => true
          case EndpointError(code) => code == "authorization_pending" || code == "slow_down")
  {
  }

  /** Each poll is sent after the last reply and a sleep of at least the interval, and the first one right away. */
  lemma PollsAreSpaced(interval: int, start: nat, script: seq<Attempt>, k: nat)
    requires k < |script|
    ensures SendTime(interval, start, script, 0) == start
    ensures SendTime(interval, start, script, k + 1) >= SendTime(interval, start, script, k) + script[k].took + interval
  {
  }

  /** The lifetime is the one of the server, in seconds, unless it gives none: then it is the configured one.  The
      interval is the configured one, unless there is none: then it is the one of the server, in seconds, or five
      seconds. */
  lemma WhereDurationsComeFrom(config: Config, auth: AuthResponse)
    ensures auth.expiresIn == 0 ==> ExpiresIn(config, auth) == config.timeout
    ensures auth.expiresIn != 0 && -9_223_372_036 <= auth.expiresIn <= 9_223_372_036 ==>
      ExpiresIn(config, auth) == auth.expiresIn * 1_000_000_000
    ensures config.pollInterval != 0 ==> Interval(config, auth) == config.pollInterval
    ensures config.pollInterval == 0 && 0 < auth.interval <= 9_223_372_036 ==>
      Interval(config, auth) == auth.interval * 1_000_000_000
    ensures config.pollInterval == 0 && auth.interval <= 0 ==> Interval(config, auth) == 5_000_000_000
  {
  }

  // ---------------------------------------------------------------- the bound on the polls

  /** The most polls a flow with that lifetime and interval can send. */
  function Bound(expiresIn: int, interval: int): nat
    requires interval > 0
  {
    if expiresIn < 0 then 1 else expiresIn / interval + 2
  }

  lemma {:induction false} SendTimeGrows(interval: int, start: nat, script: seq<Attempt>, k: nat)
    requires interval > 0 && k <= |script|
    ensures SendTime(interval, start, script, k) >= k * interval
  {
    if k > 0 { SendTimeGrows(interval, start, script, k - 1); }
  }

  /** With a positive interval no flow polls more often than the bound, whatever the server replies. */
  lemma PollsAreBounded(expiresIn: int, interval: int, start: nat, script: seq<Attempt>, polls: nat)
    requires interval > 0 && Polled(expiresIn, interval, start, script, polls)
    ensures polls <= Bound(expiresIn, interval)
  {
    if polls >= 2 {
      assert Continues(expiresIn, interval, start, script, polls - 2);
      SendTimeGrows(interval, start, script, polls - 2);
      QuotientFits(expiresIn, interval, polls - 2);
    }
  }

  lemma QuotientFits(total: nat, step: int, n: nat)
    requires step > 0
    ensures n * step <= total <==> n <= total / step
  {
    var q, r := total / step, total % step;
    assert total == q * step + r;
    if n <= q { MultiplesGrow(n, q, step); } else { MultiplesGrow(q + 1, n, step); }
  }

  lemma MultiplesGrow(a: nat, b: nat, step: int)
    requires a <= b && step > 0
    ensures a * step <= b * step
  {
  }

  /** A server that keeps answering "authorization_pending" at once. */
  function Pending(n: nat): (script: seq<Attempt>)
    ensures |script| == n
  {
    seq(n, _ => Attempt(EndpointError("authorization_pending"), 0, 0))
  }

  lemma {:induction false} PendingSendTime(interval: int, n: nat, k: nat)
    requires k <= n
    ensures SendTime(interval, 0, Pending(n), k) == k * (if interval > 0 then interval else 0)
  {
    if k > 0 { PendingSendTime(interval, n, k - 1); }
  }

  /** The bound is reached. */
  lemma BoundIsTight(expiresIn: nat, interval: int)
    requires interval > 0
    ensures var n := Bound(expiresIn, interval);
      Polled(expiresIn, interval, 0, Pending(n), n) && Finished(expiresIn, interval, 0, Pending(n), n)
  {
    var n := Bound(expiresIn, interval);
    forall k | 0 <= k < n - 1 ensures Continues(expiresIn, interval, 0, Pending(n), k) {
      PendingSendTime(interval, n, k);
      QuotientFits(expiresIn, interval, k);
    }
    PendingSendTime(interval, n, n - 1);
    QuotientFits(expiresIn, interval, n - 1);
  }

  /** Without a positive interval, a code that is not born expired is polled for ever. */
  lemma UnboundedWithoutInterval(expiresIn: nat, interval: int, n: nat)
    requires interval <= 0
    ensures Polled(expiresIn, interval, 0, Pending(n), n) && !Finished(expiresIn, interval, 0, Pending(n), n)
  {
    forall k | 0 <= k < n ensures Continues(expiresIn, interval, 0, Pending(n), k) {
      PendingSendTime(interval, n, k);
    }
  }

  ghost predicate BoundedBy(expiresIn: int, interval: int, b: nat) {
    forall start: nat, script, polls: nat | Polled(expiresIn, interval, start, script, polls) :: polls <= b
  }

  /** The number of polls has a bound exactly when the interval is positive or the code is born expired. */
  lemma PollsAreBoundedIff(expiresIn: int, interval: int)
    ensures (exists b: nat :: BoundedBy(expiresIn, interval, b)) <==> interval > 0 || expiresIn < 0
  {
    if interval > 0 {
      forall start: nat, script, polls: nat | Polled(expiresIn, interval, start, script, polls)
        ensures polls <= Bound(expiresIn, interval)
      {
        PollsAreBounded(expiresIn, interval, start, script, polls);
      }
      assert BoundedBy(expiresIn, interval, Bound(expiresIn, interval));
    } else if expiresIn < 0 {
      forall start: nat, script, polls: nat | Polled(expiresIn, interval, start, script, polls) ensures polls <= 1 {
        assert polls > 1 ==> Continues(expiresIn, interval, start, script, 0);
      }
      assert BoundedBy(expiresIn, interval, 1);
    } else {
      forall b: nat ensures !BoundedBy(expiresIn, interval, b) {
        UnboundedWithoutInterval(expiresIn, interval, b + 1);
      }
    }
  }

  /** The settings under which the interval of the loop is positive.  The configured one is used as it is; the one
      of the server is multiplied in 64 bits and can come out negative. */
  lemma IntervalIsPositive(config: Config, auth: AuthResponse)
    requires config.pollInterval >= 0 && (config.pollInterval == 0 ==> auth.interval <= 9_223_372_036)
    ensures Interval(config, auth) > 0
  {
  }

  lemma WrappedIntervalExample()
    ensures Interval(Config(0, 0), AuthResponse(600, 9_223_372_037)) < 0
    ensures !exists b: nat :: BoundedBy(600 * SECOND, Interval(Config(0, 0), AuthResponse(600, 9_223_372_037)), b)
  {
    PollsAreBoundedIff(600 * SECOND, Interval(Config(0, 0), AuthResponse(600, 9_223_372_037)));
  }

  // ---------------------------------------------------------------- the flow

  /** What the flow did: how many times it polled, whether it returned, and what. */
  datatype Outcome = Outcome(polls: nat, finished: bool, token: Option<Token>, error: Option<string>)

  function ErrorText(reply: Reply): string {
    match reply
    case Granted(_) => ""
    case EndpointError(code) => code
    case OtherError(text) => text
  }

  /** Replies that the loop lives through until the code expires. */
  predicate Expired(expiresIn: int, interval: int, start: nat, script: seq<Attempt>, k: nat)
    requires k < |script|
  {
    SendTime(interval, start, script, k) + script[k].took > expiresIn
  }

  class Flow {
    const config: Config
    /** The events sent to the listener. */
    var events: seq<Event>

    constructor (config: Config)
      ensures this.config == config && events == []
    {
      this.config := config;
      events := [];
    }

    /** After a successful start exactly one end event is sent, with outcome true exactly when a token was received; a
        denied request returns the error of the listener, so possibly neither a token nor an error. */
    method Run(w: World) returns (o: Outcome)
      modifies this
      ensures w.auth.None? ==> o == Outcome(0, true, None, Some(AUTH_ERROR)) && events == old(events)
      ensures w.auth.Some? && w.startError.Some? ==>
        && o == Outcome(0, true, None, w.startError)
        && events == old(events) + [Started(ExpiresIn(config, w.auth.value))]
      ensures w.auth.Some? && w.startError.None? ==>
        (var e, i := ExpiresIn(config, w.auth.value), Interval(config, w.auth.value);
         && Polled(e, i, w.startTook, w.script, o.polls)
         && (if o.finished then
               && Finished(e, i, w.startTook, w.script, o.polls)
               && (var reply := w.script[o.polls - 1].reply;
                   && events == old(events) + [Started(e), Ended(reply.Granted?)]
                   && o.token == (if reply.Granted? && w.endError.None? then Some(reply.token) else None)
                   && o.error == (if w.endError.Some? then w.endError
                                  else if !reply.Granted? && Expired(e, i, w.startTook, w.script, o.polls - 1)
                                  then Some(ErrorText(reply)) else None))
             else
               && o == Outcome(|w.script|, false, None, None)
               && events == old(events) + [Started(e)]
               && (o.polls > 0 ==> !Finished(e, i, w.startTook, w.script, o.polls))))
    {
      if w.auth.None? { return Outcome(0, true, None, Some(AUTH_ERROR)); }
      var expiresIn, interval := ExpiresIn(config, w.auth.value), Interval(config, w.auth.value);
      events := events + [Started(expiresIn)];
      if w.startError.Some? { return Outcome(0, true, None, w.startError); }
      var clock, polls := w.startTook, 0;
      while polls < |w.script|
        invariant 0 <= polls <= |w.script|
        invariant clock == SendTime(interval, w.startTook, w.script, polls)
        invariant forall k :: 0 <= k < polls ==> Continues(expiresIn, interval, w.startTook, w.script, k)
        invariant events == old(events) + [Started(expiresIn)]
      {
        var attempt := w.script[polls];
        clock, polls := clock + attempt.took, polls + 1;
        if attempt.reply.Granted? {
          events := events + [Ended(true)];
          if w.endError.Some? { return Outcome(polls, true, None, w.endError); }
          return Outcome(polls, true, Some(attempt.reply.token), None);
        }
        if clock > expiresIn {
          events := events + [Ended(false)];
          var error := if w.endError.Some? then w.endError.value else ErrorText(attempt.reply);
          return Outcome(polls, true, None, Some(error));
        }
        if attempt.reply.OtherError? {
          clock := clock + Slept(interval, attempt);
          continue;
        }
        if attempt.reply.code == "authorization_pending" || attempt.reply.code == "slow_down" {
          clock := clock + Slept(interval, attempt);
          continue;
        }
        events := events + [Ended(false)];
        return Outcome(polls, true, None, w.endError);
      }
      return Outcome(polls, false, None, None);
    }
  }

  // ---------------------------------------------------------------- the token source

  predicate TokenReceived(w: World, o: Outcome) {
    && o.finished && w.auth.Some? && w.startError.None? && w.endError.None?
    && 0 < o.polls <= |w.script| && w.script[o.polls - 1].reply.Granted?
  }

  class TokenSource {
    const flow: Flow
    /** Discovery was attempted: it is not attempted again, even if it failed. */
    var discovered: bool
    /** The tokens that the store accepted, oldest first. */
    var saved: seq<Token>

    constructor (flow: Flow)
      ensures this.flow == flow && !discovered && saved == []
    {
      this.flow := flow;
      discovered := false;
      saved := [];
    }

    /** The source succeeds only with a token that is already in the store, and returns a token exactly when discovery
        did not just fail, the flow received one and the store took it. */
    method RunFlow(discoverError: Option<string>, w: World, saveError: Option<string>)
      returns (o: Outcome)
      modifies this, flow
      ensures discovered
      ensures o.finished && o.error.None? ==> o.token.Some?
      ensures o.token.Some? ==> o.error.None? && saved == old(saved) + [o.token.value]
      ensures o.token.None? ==> saved == old(saved)
      ensures o.token.Some? <==> (old(discovered) || discoverError.None?) && TokenReceived(w, o) && saveError.None?
      ensures o.token.Some? ==>
        && o.token.value == w.script[o.polls - 1].reply.token
        && flow.events == old(flow.events) + [Started(ExpiresIn(flow.config, w.auth.value)), Ended(true)]
      ensures !old(discovered) && discoverError.Some? ==> o.polls == 0 && flow.events == old(flow.events)
    {
      if !discovered {
        discovered := true;
        if discoverError.Some? { return Outcome(0, true, None, discoverError); }
      }
      o := flow.Run(w);
      if !o.finished || o.error.Some? { return; }
      if o.token.None? { return o.(error := Some("flow ended without a token")); }
      if saveError.Some? { return o.(token := None, error := saveError); }
      saved := saved + [o.token.value];
    }
  }
}
