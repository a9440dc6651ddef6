/** The loops of the notification listener: connecting, waiting and retrying
    (internal/database/database_listener.go). */
module ListenLoop {
  import opened Wrappers

  /** How a wait for a notification ends: with one, at its deadline, because the context was cancelled, or with any
      other error. */
  datatype WaitEnd = Notified | TimedOut | Cancelled | Broken

  /** What the listener does: opens a connection and asks it to listen, waits on it, or sleeps before a retry. */
  datatype Event =
    | Attempted(connected: bool, listening: bool)
    | Waited(end: WaitEnd)
    | Slept(cancelled: bool)

  predicate Succeeded(e: Event) { e.Attempted? && e.connected && e.listening }

  /** What may come after what. */
  predicate Follows(before: Option<Event>, e: Event) {
    match e
    case Attempted(_, _) => before.None? || before.value == Slept(false)
    case Slept(_) =>
      before.Some? && ((before.value.Attempted? && !Succeeded(before.value)) || before.value == Waited(Broken))
    case Waited(_) =>
      before.Some? && (Succeeded(before.value) || before.value == Waited(Notified) || before.value == Waited(TimedOut))
  }

  function Last(log: seq<Event>): Option<Event> {
    if log == [] then None else Some(log[|log| - 1])
  }

  /** The log of a listener from its start. */
  predicate Behaviour(log: seq<Event>) {
    log == [] || (Behaviour(log[..|log| - 1]) && Follows(Last(log[..|log| - 1]), log[|log| - 1]))
  }

  /** How many connections were opened. */
  function Opened(log: seq<Event>): nat {
    if log == [] then 0
    else
      var last := log[|log| - 1];
      Opened(log[..|log| - 1]) + if last.Attempted? && last.connected then 1 else 0
  }

  /** How many notifications were processed. */
  function Processed(log: seq<Event>): nat {
    if log == [] then 0
    else Processed(log[..|log| - 1]) + if log[|log| - 1] == Waited(Notified) then 1 else 0
  }

  // ---------------------------------------------------------------- when a new connection is opened

  lemma {:induction false} FollowsAt(log: seq<Event>, i: nat)
    requires Behaviour(log) && i < |log|
    ensures Follows(Last(log[..i]), log[i])
    decreases |log|
  {
    if i < |log| - 1 {
      var init := log[..|log| - 1];
      FollowsAt(init, i);
      assert init[..i] == log[..i];
    }
  }

  lemma FollowsNext(log: seq<Event>, i: nat)
    requires Behaviour(log) && i + 1 < |log|
    ensures Follows(Some(log[i]), log[i + 1])
  {
    FollowsAt(log, i + 1);
    assert log[..i + 1][i] == log[i];
  }

  lemma OpenedNext(log: seq<Event>, i: nat)
    requires i < |log|
    ensures Opened(log[..i + 1]) == Opened(log[..i]) + if log[i].Attempted? && log[i].connected then 1 else 0
  {
    assert log[..i + 1][..i] == log[..i];
  }

  lemma {:induction false} OpenedGrows(log: seq<Event>, i: nat, j: nat)
    requires i <= j <= |log|
    ensures Opened(log[..i]) <= Opened(log[..j])
    decreases j
  {
    if i < j {
      OpenedNext(log, j - 1);
      OpenedGrows(log, i, j - 1);
    }
  }

  /** The next wait is on a new connection exactly when the last one ended with an error that is neither the
      deadline nor a cancellation; after a deadline the listener waits again on the same connection. */
  lemma NewConnectionIff(log: seq<Event>, i: nat, j: nat)
    requires Behaviour(log) && i < j < |log| && log[i].Waited? && log[j].Waited?
    requires forall k :: i < k < j ==> !log[k].Waited?
    ensures Opened(log[..j]) > Opened(log[..i]) <==> log[i] == Waited(Broken)
  {
    OpenedNext(log, i);
    FollowsAt(log, i + 1);
    if j > i + 1 {
      FollowsAt(log, j);
      OpenedNext(log, j - 1);
      OpenedGrows(log, i, j - 1);
    }
  }

  /** Every connection but the first is attempted right after a sleep that was not interrupted, and every sleep
      follows a failed attempt or a broken wait. */
  lemma RetriesSleepFirst(log: seq<Event>, i: nat)
    requires Behaviour(log) && 0 < i < |log|
    ensures log[i].Attempted? ==> log[i - 1] == Slept(false)
    ensures log[i].Slept? ==>
      log[i - 1] == Waited(Broken) || (log[i - 1].Attempted? && !(log[i - 1].connected && log[i - 1].listening))
  {
    FollowsNext(log, i - 1);
  }

  // ---------------------------------------------------------------- answers

  /** What connecting, listening, waiting and sleeping give at one point of time. */
  datatype Answer = Answer(connected: bool, listening: bool, end: WaitEnd, sleepCancelled: bool)

  predicate Matches(e: Event, answer: Answer) {
    match e
    case Attempted(connected, listening) => connected == answer.connected && listening == answer.listening
    case Waited(end) => end == answer.end
    case Slept(cancelled) => cancelled == answer.sleepCancelled
  }

  predicate Matching(log: seq<Event>, script: seq<Answer>) {
    |log| <= |script| && forall i :: 0 <= i < |log| ==> Matches(log[i], script[i])
  }

  // ---------------------------------------------------------------- what ends the listener

  /** The listener has returned: it does nothing more. */
  predicate Ended(log: seq<Event>) {
    Last(log) == Some(Waited(Cancelled)) || Last(log) == Some(Slept(true))
  }

  /** The listener is connected and waits. */
  predicate Waiting(log: seq<Event>) {
    log != [] && (Succeeded(Last(log).value) || (Last(log).value.Waited? && !Last(log).value.end.Broken?))
  }

  /** How the context of the caller ends. */
  datatype Cause = Cancellation | Deadline

  /** From that answer on the context of the caller is done: connecting fails, waits end with its error, and sleeps are
      interrupted. */
  predicate DoneFrom(script: seq<Answer>, k: nat, cause: Cause) {
    forall i :: k <= i < |script| ==>
      var end := if cause.Cancellation? then Cancelled else TimedOut;
      !script[i].connected && script[i].end == end && script[i].sleepCancelled
  }

  /** What the listener does with the answers: as much as they allow, or until it ends. */
  predicate Plays(log: seq<Event>, script: seq<Answer>) {
    Behaviour(log) && Matching(log, script) && (|log| == |script| || Ended(log))
  }

  /** Once the context of the caller is done, the listener returns exactly if it was cancelled or the listener is not
      waiting; a listener that waits when the context reaches its deadline goes on waiting for ever. */
  lemma ReturnsIff(log: seq<Event>, script: seq<Answer>, k: nat, cause: Cause)
    requires Plays(log, script) && k < |log| && k + 2 <= |script| && DoneFrom(script, k, cause)
    ensures Ended(log) <==> cause.Cancellation? || !log[k].Waited?
    ensures Ended(log) ==> |log| <= k + 2
    ensures !Ended(log) ==> |log| == |script| && forall i :: k <= i < |log| ==> log[i] == Waited(TimedOut)
  {
    if log[k].Waited? {
      if cause.Deadline? { WaitsForEver(log, script, k, |log|); } else { EndsAt(log, k); }
    } else if log[k].Slept? {
      EndsAt(log, k);
    } else if k + 1 < |log| {
      FollowsNext(log, k);
      EndsAt(log, k + 1);
    } else {
      assert log[|log| - 1] == log[k];
    }
  }

  /** Nothing follows the end. */
  lemma EndsAt(log: seq<Event>, k: nat)
    requires Behaviour(log) && k < |log| && (log[k] == Waited(Cancelled) || log[k] == Slept(true))
    ensures |log| == k + 1
  {
    if k + 1 < |log| { FollowsNext(log, k); }
  }

  lemma {:induction false} WaitsForEver(log: seq<Event>, script: seq<Answer>, k: nat, n: nat)
    requires Behaviour(log) && Matching(log, script) && DoneFrom(script, k, Deadline)
    requires k < n <= |log| && log[k].Waited?
    ensures forall i :: k <= i < n ==> log[i] == Waited(TimedOut)
    decreases n
  {
    if k < n - 1 {
      WaitsForEver(log, script, k, n - 1);
      FollowsNext(log, n - 2);
    }
    assert Matches(log[n - 1], script[n - 1]);
  }

  // ---------------------------------------------------------------- the loops

  /** How a loop ends: with success, for good, because what is observed ends first, or without having started. */
  datatype Status = Succeeds | Stops | Unfinished | Rejected

  lemma LogGrows(log: seq<Event>, e: Event, script: seq<Answer>)
    requires Behaviour(log) && Follows(Last(log), e)
    requires Matching(log, script) && |log| < |script| && Matches(e, script[|log|])
    ensures Behaviour(log + [e]) && Matching(log + [e], script)
    ensures Opened(log + [e]) == Opened(log) + if e.Attempted? && e.connected then 1 else 0
    ensures Processed(log + [e]) == Processed(log) + if e == Waited(Notified) then 1 else 0
  {
    assert (log + [e])[..|log|] == log;
  }

  class Listener {
    const script: seq<Answer>
    /** The number of the current connection, if there is one. */
    var conn: Option<nat>
    var connections: nat
    var processed: nat
    var ready: bool
    /** What happened so far, which is also how much of the script was used. */
    var log: seq<Event>

    constructor (script: seq<Answer>)
      ensures Valid() && log == [] && this.script == script && !ready
    {
      this.script := script;
      conn, connections, processed, ready, log := None, 0, 0, false, [];
    }

    /** The log is the behaviour that the answers lead to, the counters agree with it, and the connection is the
        last one opened. */
    predicate Valid()
      reads this
    {
      && Behaviour(log) && Matching(log, script)
      && connections == Opened(log) && processed == Processed(log)
      && (conn.Some? ==> conn.value == connections)
      && (log != [] && (Succeeded(Last(log).value) || Last(log).value.Waited?) ==> conn.Some?)
    }

    /** `listen`: always with a new connection. */
    method Attempt() returns (ok: bool)
      requires Valid() && |log| < |script| && (log == [] || Last(log) == Some(Slept(false)))
      modifies this
      ensures Valid() && ready == old(ready) && |log| == |old(log)| + 1 && old(log) <= log
      ensures Last(log).value.Attempted? && (ok <==> Succeeded(Last(log).value))
    {
      var answer := script[|log|];
      var event := Attempted(answer.connected, answer.listening);
      LogGrows(log, event, script);
      log, conn := log + [event], None;
      if !answer.connected { return false; }
      connections := connections + 1;
      conn := Some(connections);
      return answer.listening;
    }

    method SleepBeforeRetry() returns (cancelled: bool)
      requires Valid() && |log| < |script| && Follows(Last(log), Slept(true))
      modifies this
      ensures Valid() && ready == old(ready) && log == old(log) + [Slept(cancelled)]
    {
      cancelled := script[|log|].sleepCancelled;
      LogGrows(log, Slept(cancelled), script);
      log := log + [Slept(cancelled)];
    }

    /** `listenLoop`: tries until a connection listens, and gives up only when a sleep is cancelled. */
    method Connect() returns (status: Status)
      requires Valid() && (log == [] || Last(log) == Some(Slept(false)))
      modifies this
      ensures Valid() && ready == old(ready) && old(log) <= log
      ensures !status.Rejected? && (status.Succeeds? ==> log != [] && Succeeded(Last(log).value))
      ensures status.Stops? ==> Last(log) == Some(Slept(true))
      ensures status.Unfinished? ==> |log| == |script| && !Ended(log) && !Waiting(log)
    {
      while |log| < |script|
        invariant Valid() && ready == old(ready) && old(log) <= log
        invariant log == [] || Last(log) == Some(Slept(false))
        decreases |script| - |log|
      {
        var ok := Attempt();
        if ok { return Succeeds; }
        if |log| == |script| { return Unfinished; }
        var cancelled := SleepBeforeRetry();
        if cancelled { return Stops; }
      }
      return Unfinished;
    }

    /** `wait`: a notification is processed before the wait returns. */
    method Wait() returns (end: WaitEnd)
      requires Valid() && |log| < |script| && Follows(Last(log), Waited(Notified))
      modifies this
      ensures Valid() && ready == old(ready) && log == old(log) + [Waited(end)]
    {
      end := script[|log|].end;
      LogGrows(log, Waited(end), script);
      log := log + [Waited(end)];
      if end.Notified? { processed := processed + 1; }
    }

    /** `waitLoop`: waits while notifications arrive. */
    method WaitLoop() returns (end: Option<WaitEnd>)
      requires Valid() && Follows(Last(log), Waited(Notified))
      modifies this
      ensures Valid() && ready == old(ready) && old(log) <= log
      ensures end.Some? ==> Last(log) == Some(Waited(end.value)) && !end.value.Notified? && |log| > |old(log)|
      ensures end.None? ==> |log| == |script| && !Ended(log) && Waiting(log)
    {
      while |log| < |script|
        invariant Valid() && ready == old(ready) && old(log) <= log && Follows(Last(log), Waited(Notified))
        decreases |script| - |log|
      {
        var result := Wait();
        if !result.Notified? { return Some(result); }
      }
      return None;
    }

    /** `Listen`: whatever the answers, what happens is the behaviour that they lead to, and it says that it is ready
        exactly while it waits on a connection. */
    method Listen(hasCallback: bool) returns (status: Status)
      requires Valid() && log == [] && !ready
      modifies this
      ensures Valid()
      ensures !status.Succeeds? && (status.Rejected? <==> !hasCallback)
      ensures !hasCallback ==> unchanged(this)
      ensures hasCallback ==> Plays(log, script) && (status.Stops? <==> Ended(log))
      ensures hasCallback ==> (ready <==> Waiting(log))
    {
      if !hasCallback { return Rejected; }
      status := Connect();
      if !status.Succeeds? { return; }
      ready := true;
      while |log| < |script|
        invariant Valid() && ready && Follows(Last(log), Waited(Notified))
        decreases |script| - |log|
      {
        var end := WaitLoop();
        if end.None? { return Unfinished; }
        if end.value.TimedOut? { continue; }
        if end.value.Cancelled? { return Stops; }
        ready := false;
        if |log| == |script| { return Unfinished; }
        var cancelled := SleepBeforeRetry();
        if cancelled { return Stops; }
        status := Connect();
        if !status.Succeeds? { return; }
        ready := true;
      }
      return Unfinished;
    }
  }

  /** Listening while nothing ever arrives: one connection, and as many deadlines as one cares to observe. */
  method ListenInVain(n: nat) returns (listener: Listener, status: Status)
    ensures fresh(listener) && listener.Valid() && status.Unfinished?
    ensures |listener.log| == n + 1 && Succeeded(listener.log[0])
    ensures forall i :: 1 <= i <= n ==> listener.log[i] == Waited(TimedOut)
    ensures listener.connections == 1 && listener.conn == Some(1) && listener.processed == 0 && listener.ready
  {
    var answer := Answer(true, true, TimedOut, false);
    listener := new Listener(seq(n + 1, _ => answer));
    status := listener.Listen(true);
    OnlyDeadlines(listener.log, listener.script);
  }

  lemma {:induction false} OnlyDeadlines(log: seq<Event>, script: seq<Answer>)
    requires Behaviour(log) && Matching(log, script)
    requires forall i :: 0 <= i < |log| ==> script[i] == Answer(true, true, TimedOut, false)
    ensures log != [] ==> Succeeded(log[0]) && forall i :: 1 <= i < |log| ==> log[i] == Waited(TimedOut)
    ensures !Ended(log) && Opened(log) == (if log == [] then 0 else 1) && Processed(log) == 0
    decreases |log|
  {
    if log != [] {
      var init := log[..|log| - 1];
      OnlyDeadlines(init, script);
      assert Matches(log[|log| - 1], script[|log| - 1]);
    }
  }
}
