/** The cache of validated tokens and its background cleanup (internal/auth/auth_jwt_validator.go).

    Parsing a bearer string is a function of the string, so a validated token is represented by it and `exp` gives the
    `exp` claim (section 4.1.4 of RFC 7519).  Whether the signature and the claims are accepted is decided by the
    environment at the moment of parsing. */
module TokenCache {

  type Tid = nat

  datatype Config = Config(exp: string -> int, leeway: nat, interval: int)

  function Deadline(c: Config, bearer: string): int { c.exp(bearer) + c.leeway }

  /** A goroutine inside `Validate`, or one that runs `doCleanup`. */
  datatype Pc =
    | Called(bearer: string)
    | Timed(bearer: string, now: int)            // maybeCleanup has read the clock
    | Due(bearer: string, now: int)              // the interval has passed, about to try the lock
    | Elected(bearer: string, now: int)          // owns the cleanup lock, about to start the cleanup
    | Lookup(bearer: string)
    | Found(bearer: string, deadline: int)
    | Dropping(bearer: string)                   // the entry found was past its deadline
    | Parsing(bearer: string)
    | Accepted(bearer: string)                   // fully validated, about to be stored
    | CleanerReady                               // owns the cleanup lock
    | Cleaning(now: int)
    | CleanerDropping(now: int, bearer: string)

  /** `Validate` returned the token of a bearer string at some time, from the cache or after validating it. */
  datatype Return = Return(bearer: string, time: int, cached: bool)

  /** `validated` and `results` are history. */
  datatype State = State(
    clock: int,
    cache: map<string, int>,
    cleanupNano: int,
    cleanupLock: bool,
    pcs: map<Tid, Pc>,
    validated: set<string>,
    results: seq<Return>)

  datatype Action =
    | Tick(elapsed: nat)
    | Call(t: Tid, bearer: string)
    | ReadClock(t: Tid)
    | CompareInterval(t: Tid)
    | TryLock(t: Tid)
    | StartCleanup(t: Tid, cleaner: Tid)
    | Load(t: Tid)
    | CheckDeadline(t: Tid)
    | Drop(t: Tid)
    | ParseFails(t: Tid)
    | ParseSucceeds(t: Tid)
    | Store(t: Tid)
    | CleanerReadsClock(t: Tid)
    | CleanerVisits(t: Tid, bearer: string)
    | CleanerDrops(t: Tid)
    | CleanerEnds(t: Tid)

  predicate Enabled(s: State, a: Action) {
    match a
    case Tick(_) => true
    case Call(t, _) => t !in s.pcs
    case ReadClock(t) => t in s.pcs && s.pcs[t].Called?
    case CompareInterval(t) => t in s.pcs && s.pcs[t].Timed?
    case TryLock(t) => t in s.pcs && s.pcs[t].Due?
    case StartCleanup(t, cleaner) => t in s.pcs && s.pcs[t].Elected? && cleaner !in s.pcs
    case Load(t) => t in s.pcs && s.pcs[t].Lookup?
    case CheckDeadline(t) => t in s.pcs && s.pcs[t].Found?
    case Drop(t) => t in s.pcs && s.pcs[t].Dropping?
    case ParseFails(t) => t in s.pcs && s.pcs[t].Parsing?
    case ParseSucceeds(t) => t in s.pcs && s.pcs[t].Parsing?
    case Store(t) => t in s.pcs && s.pcs[t].Accepted?
    case CleanerReadsClock(t) => t in s.pcs && s.pcs[t].CleanerReady?
    case CleanerVisits(t, bearer) => t in s.pcs && s.pcs[t].Cleaning? && bearer in s.cache
    case CleanerDrops(t) => t in s.pcs && s.pcs[t].CleanerDropping?
    case CleanerEnds(t) => t in s.pcs && s.pcs[t].Cleaning?
  }

  function Goto(s: State, t: Tid, pc: Pc): State { s.(pcs := s.pcs[t := pc]) }

  function Do(c: Config, s: State, a: Action): State
    requires Enabled(s, a)
  {
    match a
    case Tick(elapsed) => s.(clock := s.clock + elapsed)
    case Call(t, bearer) => Goto(s, t, Called(bearer))
    case ReadClock(t) => Goto(s, t, Timed(s.pcs[t].bearer, s.clock))
    case CompareInterval(t) =>
      var Timed(bearer, now) := s.pcs[t];
      if s.cleanupNano != 0 && now - s.cleanupNano < c.interval then Goto(s, t, Lookup(bearer))
      else Goto(s, t, Due(bearer, now))
    case TryLock(t) =>
      var Due(bearer, now) := s.pcs[t];
      if s.cleanupLock then Goto(s, t, Lookup(bearer))
      else Goto(s, t, Elected(bearer, now)).(cleanupLock := true)
    case StartCleanup(t, cleaner) =>
      var Elected(bearer, now) := s.pcs[t];
      s.(pcs := s.pcs[t := Lookup(bearer)][cleaner := CleanerReady], cleanupNano := now)
    case Load(t) =>
      var bearer := s.pcs[t].bearer;
      if bearer in s.cache then Goto(s, t, Found(bearer, s.cache[bearer])) else Goto(s, t, Parsing(bearer))
    case CheckDeadline(t) =>
      var Found(bearer, deadline) := s.pcs[t];
      if s.clock > deadline then Goto(s, t, Dropping(bearer))
      else s.(pcs := s.pcs - {t}, results := s.results + [Return(bearer, s.clock, true)])
    case Drop(t) =>
      Goto(s, t, Parsing(s.pcs[t].bearer)).(cache := s.cache - {s.pcs[t].bearer})
    case ParseFails(t) => s.(pcs := s.pcs - {t})
    case ParseSucceeds(t) =>
      Goto(s, t, Accepted(s.pcs[t].bearer)).(validated := s.validated + {s.pcs[t].bearer})
    case Store(t) =>
      var bearer := s.pcs[t].bearer;
      s.(pcs := s.pcs - {t}, cache := s.cache[bearer := Deadline(c, bearer)],
         results := s.results + [Return(bearer, s.clock, false)])
    case CleanerReadsClock(t) => Goto(s, t, Cleaning(s.clock))
    case CleanerVisits(t, bearer) =>
      var now := s.pcs[t].now;
      if now > s.cache[bearer] then Goto(s, t, CleanerDropping(now, bearer)) else s
    case CleanerDrops(t) =>
      var CleanerDropping(now, bearer) := s.pcs[t];
      Goto(s, t, Cleaning(now)).(cache := s.cache - {bearer})
    case CleanerEnds(t) => s.(pcs := s.pcs - {t}, cleanupLock := false)
  }

  // ---------------------------------------------------------------- the invariant

  /** The goroutine owns the cleanup lock. */
  predicate OwnsCleanup(pc: Pc) {
    pc.Elected? || pc.CleanerReady? || pc.Cleaning? || pc.CleanerDropping?
  }

  ghost predicate CleanupOk(s: State) {
    && (forall t <- s.pcs :: OwnsCleanup(s.pcs[t]) ==> s.cleanupLock)
    && (forall t, u :: t in s.pcs && u in s.pcs && OwnsCleanup(s.pcs[t]) && OwnsCleanup(s.pcs[u]) ==> t == u)
  }

  ghost predicate CacheOk(c: Config, s: State) {
    forall bearer <- s.cache :: s.cache[bearer] == Deadline(c, bearer) && bearer in s.validated
  }

  predicate PcOk(c: Config, s: State, pc: Pc) {
    match pc
    case Found(bearer, deadline) => deadline == Deadline(c, bearer) && bearer in s.validated
    case Dropping(bearer) => s.clock > Deadline(c, bearer)
    case Accepted(bearer) => bearer in s.validated
    case Cleaning(now) => now <= s.clock
    case CleanerDropping(now, bearer) => Deadline(c, bearer) < now <= s.clock
    case _ => true
  }

  ghost predicate ReturnsOk(c: Config, s: State) {
    forall i :: 0 <= i < |s.results| ==>
      var r := s.results[i];
      r.bearer in s.validated && r.time <= s.clock && (r.cached ==> r.time <= Deadline(c, r.bearer))
  }

  ghost predicate Inv(c: Config, s: State) {
    CleanupOk(s) && CacheOk(c, s) && ReturnsOk(c, s) && forall t <- s.pcs :: PcOk(c, s, s.pcs[t])
  }

  function Init(start: int): State { State(start, map[], 0, false, map[], {}, []) }

  lemma StepCleanupOk(c: Config, s: State, a: Action)
    requires CleanupOk(s) && Enabled(s, a)
    ensures CleanupOk(Do(c, s, a))
  {
  }

  lemma StepCacheOk(c: Config, s: State, a: Action)
    requires CacheOk(c, s) && Enabled(s, a) && (a.Store? ==> PcOk(c, s, s.pcs[a.t]))
    ensures CacheOk(c, Do(c, s, a))
  {
  }

  lemma StepReturnsOk(c: Config, s: State, a: Action)
    requires ReturnsOk(c, s) && Enabled(s, a) && (a.Store? || a.CheckDeadline? ==> PcOk(c, s, s.pcs[a.t]))
    ensures ReturnsOk(c, Do(c, s, a))
  {
  }

  lemma StepPcOk(c: Config, s: State, a: Action, t: Tid)
    requires CacheOk(c, s) && Enabled(s, a) && t in Do(c, s, a).pcs && (t in s.pcs ==> PcOk(c, s, s.pcs[t]))
    ensures PcOk(c, Do(c, s, a), Do(c, s, a).pcs[t])
  {
    if a.Tick? || (a.t != t && !(a.StartCleanup? && a.cleaner == t)) {
      OthersUnmoved(c, s, a, t);
    }
  }

  lemma OthersUnmoved(c: Config, s: State, a: Action, t: Tid)
    requires Enabled(s, a) && (a.Tick? || (a.t != t && !(a.StartCleanup? && a.cleaner == t))) && t in Do(c, s, a).pcs
    ensures t in s.pcs && Do(c, s, a).pcs[t] == s.pcs[t]
    ensures Do(c, s, a).clock >= s.clock && Do(c, s, a).validated >= s.validated
  {
  }

  lemma StepInv(c: Config, s: State, a: Action)
    requires Inv(c, s) && Enabled(s, a)
    ensures Inv(c, Do(c, s, a))
  {
    if a.Store? || a.CheckDeadline? { assert PcOk(c, s, s.pcs[a.t]); }
    StepCleanupOk(c, s, a);
    StepCacheOk(c, s, a);
    StepReturnsOk(c, s, a);
    forall t | t in Do(c, s, a).pcs ensures PcOk(c, Do(c, s, a), Do(c, s, a).pcs[t]) {
      StepPcOk(c, s, a, t);
    }
  }

  // ---------------------------------------------------------------- runs

  ghost predicate IsRun(c: Config, states: seq<State>, actions: seq<Action>) {
    && |states| == |actions| + 1 && states[0] == Init(states[0].clock) && states[0].clock > 0
    && forall i {:trigger StepAt(c, states, actions, i)} :: 0 <= i < |actions| ==> StepAt(c, states, actions, i)
  }

  ghost predicate StepAt(c: Config, states: seq<State>, actions: seq<Action>, i: nat)
    requires |states| == |actions| + 1 && i < |actions|
  {
    Enabled(states[i], actions[i]) && states[i + 1] == Do(c, states[i], actions[i])
  }

  lemma {:induction false} RunInv(c: Config, states: seq<State>, actions: seq<Action>, i: nat)
    requires IsRun(c, states, actions) && i < |states|
    ensures Inv(c, states[i])
    decreases i
  {
    if i > 0 {
      assert StepAt(c, states, actions, i - 1);
      RunInv(c, states, actions, i - 1);
      StepInv(c, states[i - 1], actions[i - 1]);
    }
  }

  /** A step of the run that accepts a bearer string after full validation. */
  ghost predicate Validates(states: seq<State>, actions: seq<Action>, i: nat, bearer: string)
    requires |states| == |actions| + 1 && i < |actions|
  {
    actions[i].ParseSucceeds? && actions[i].t in states[i].pcs && states[i].pcs[actions[i].t] == Parsing(bearer)
  }

  lemma {:induction false} ValidatedWasValidated(c: Config, states: seq<State>, actions: seq<Action>, j: nat,
                                                 bearer: string) returns (i: nat)
    requires IsRun(c, states, actions) && j < |states| && bearer in states[j].validated
    ensures i < j && Validates(states, actions, i, bearer)
    decreases j
  {
    assert j > 0;
    assert StepAt(c, states, actions, j - 1);
    if bearer in states[j - 1].validated {
      i := ValidatedWasValidated(c, states, actions, j - 1, bearer);
    } else {
      i := j - 1;
    }
  }

  /** Every token that `Validate` returns was fully validated by an earlier step for the same bearer string, and a
      cached one is returned no later than its expiration plus the leeway. */
  lemma ReturnedTokensAreValid(c: Config, states: seq<State>, actions: seq<Action>, j: nat, k: nat) returns (i: nat)
    requires IsRun(c, states, actions) && j < |states| && k < |states[j].results|
    ensures i < j && Validates(states, actions, i, states[j].results[k].bearer)
    ensures states[j].results[k].cached ==>
      states[j].results[k].time <= c.exp(states[j].results[k].bearer) + c.leeway
  {
    RunInv(c, states, actions, j);
    i := ValidatedWasValidated(c, states, actions, j, states[j].results[k].bearer);
  }

  /** No interleaving of validations and cleanups removes an entry that is not past its deadline. */
  lemma OnlyExpiredEntriesAreRemoved(c: Config, states: seq<State>, actions: seq<Action>, i: nat, bearer: string)
    requires IsRun(c, states, actions) && i < |actions|
    requires bearer in states[i].cache && bearer !in states[i + 1].cache
    ensures states[i].clock > c.exp(bearer) + c.leeway
  {
    assert StepAt(c, states, actions, i);
    RunInv(c, states, actions, i);
    assert PcOk(c, states[i], states[i].pcs[actions[i].t]);
  }

  /** A token that was stored stays in the cache until its expiration plus the leeway has passed. */
  lemma {:induction false} StoredTokenStays(c: Config, states: seq<State>, actions: seq<Action>, i: nat, j: nat, t: Tid)
    requires IsRun(c, states, actions) && i < |actions| && actions[i] == Store(t) && t in states[i].pcs
    requires states[i].pcs[t].Accepted? && i < j < |states|
    requires states[j].clock <= c.exp(states[i].pcs[t].bearer) + c.leeway
    ensures states[i].pcs[t].bearer in states[j].cache
    decreases j
  {
    assert StepAt(c, states, actions, j - 1);
    var bearer := states[i].pcs[t].bearer;
    if i < j - 1 {
      StoredTokenStays(c, states, actions, i, j - 1, t);
      if bearer !in states[j].cache { OnlyExpiredEntriesAreRemoved(c, states, actions, j - 1, bearer); }
    }
  }

  /** A call that finds the token in the cache returns it exactly when the deadline has not passed; otherwise, and when
      it finds none, it validates it again. */
  lemma CachedTokenIsUsedIff(c: Config, states: seq<State>, actions: seq<Action>, i: nat, t: Tid)
    requires IsRun(c, states, actions) && i < |actions| && t in states[i].pcs
    ensures actions[i] == Load(t) && states[i].pcs[t].Lookup? ==>
      var bearer := states[i].pcs[t].bearer;
      && t in states[i + 1].pcs
      && (if bearer in states[i].cache then states[i + 1].pcs[t] == Found(bearer, c.exp(bearer) + c.leeway)
          else states[i + 1].pcs[t] == Parsing(bearer))
    ensures actions[i] == CheckDeadline(t) && states[i].pcs[t].Found? ==>
      var bearer := states[i].pcs[t].bearer;
      if states[i].clock <= c.exp(bearer) + c.leeway then
        t !in states[i + 1].pcs && states[i + 1].results == states[i].results + [Return(bearer, states[i].clock, true)]
      else
        t in states[i + 1].pcs && states[i + 1].pcs[t] == Dropping(bearer)
  {
    assert StepAt(c, states, actions, i);
    RunInv(c, states, actions, i);
    assert PcOk(c, states[i], states[i].pcs[t]);
  }

  /** A cleanup that visits an entry goes on to remove it exactly when the entry is past its deadline. */
  lemma VisitedIsRemovedIff(c: Config, states: seq<State>, actions: seq<Action>, i: nat, t: Tid, bearer: string)
    requires IsRun(c, states, actions) && i < |actions| && actions[i] == CleanerVisits(t, bearer)
    requires t in states[i].pcs && states[i].pcs[t].Cleaning?
    ensures t in states[i + 1].pcs
    ensures states[i + 1].pcs[t] == CleanerDropping(states[i].pcs[t].now, bearer) <==>
      states[i].pcs[t].now > c.exp(bearer) + c.leeway
  {
    assert StepAt(c, states, actions, i);
    RunInv(c, states, actions, i);
  }

  lemma AtMostOneCleanup(c: Config, states: seq<State>, actions: seq<Action>, i: nat, t: Tid, u: Tid)
    requires IsRun(c, states, actions) && i < |states| && t in states[i].pcs && u in states[i].pcs
    requires OwnsCleanup(states[i].pcs[t]) && OwnsCleanup(states[i].pcs[u])
    ensures t == u
  {
    RunInv(c, states, actions, i);
  }

  // ---------------------------------------------------------------- the time between decisions

  /** The goroutine decided on a cleanup although the last decision is less than the interval ago. */
  predicate TooSoon(c: Config, s: State, t: Tid) {
    && t in s.pcs && (s.pcs[t].Due? || s.pcs[t].Elected?)
    && s.cleanupNano != 0 && s.pcs[t].now - s.cleanupNano < c.interval
  }

  /** The interval is the minimum time between decisions as long as no other cleanup starts between the check of a
      goroutine and its own start. */
  lemma {:induction false} UnracedCleanupsAreSpaced(c: Config, states: seq<State>, actions: seq<Action>, i: nat, j: nat,
                                                    t: Tid)
    requires IsRun(c, states, actions) && i < j <= |actions| && actions[i] == CompareInterval(t)
    requires forall k :: i < k < j ==> !actions[k].StartCleanup?
    ensures !TooSoon(c, states[j], t)
    decreases j
  {
    assert StepAt(c, states, actions, j - 1);
    if i < j - 1 { UnracedCleanupsAreSpaced(c, states, actions, i, j - 1, t); }
  }

  /** The goroutines inside `maybeCleanup`, from reading the clock to starting the cleanup. */
  function Busy(s: State): set<Tid> {
    set t <- s.pcs | s.pcs[t].Timed? || s.pcs[t].Due? || s.pcs[t].Elected?
  }

  /** At no moment are more than n goroutines inside `maybeCleanup`. */
  ghost predicate AtMostBusy(states: seq<State>, n: nat) {
    forall i :: 0 <= i < |states| ==> |Busy(states[i])| <= n
  }

  ghost predicate NeverTooSoon(c: Config, states: seq<State>) {
    forall i, t :: 0 <= i < |states| ==> !TooSoon(c, states[i], t)
  }

  lemma AloneIfOne(s: State, t: Tid, u: Tid)
    requires |Busy(s)| <= 1 && t in Busy(s) && u in Busy(s)
    ensures t == u
  {
    var rest := Busy(s) - {t};
    assert |rest| == |Busy(s)| - 1;
    assert rest == {};
  }

  lemma {:induction false} LoneCleanupsAreSpaced(c: Config, states: seq<State>, actions: seq<Action>, i: nat, t: Tid)
    requires IsRun(c, states, actions) && AtMostBusy(states, 1) && i < |states|
    ensures !TooSoon(c, states[i], t)
    decreases i
  {
    if i > 0 {
      assert StepAt(c, states, actions, i - 1);
      LoneCleanupsAreSpaced(c, states, actions, i - 1, t);
      var a := actions[i - 1];
      if a.StartCleanup? && a.t != t && t in Busy(states[i - 1]) { AloneIfOne(states[i - 1], t, a.t); }
    }
  }

  /** The interval is the minimum time between the decisions on cleanups exactly when at most one goroutine at a time is
      let into `maybeCleanup`. */
  lemma CleanupsAreSpacedIff(c: Config, n: nat)
    requires c.interval > 0
    ensures (forall states, actions | IsRun(c, states, actions) && AtMostBusy(states, n) ::
               NeverTooSoon(c, states)) <==>
            n <= 1
  {
    if n <= 1 {
      forall states, actions | IsRun(c, states, actions) && AtMostBusy(states, n) ensures NeverTooSoon(c, states) {
        forall i, t | 0 <= i < |states| ensures !TooSoon(c, states[i], t) {
          LoneCleanupsAreSpaced(c, states, actions, i, t);
        }
      }
    } else {
      var states, actions, k := CleanupsCanCrowd(c);
      assert AtMostBusy(states, n) && TooSoon(c, states[k], actions[k].t);
    }
  }

  // ---------------------------------------------------------------- the time between cleanup runs

  /** No cleanup reads the clock more than d after the time at which it was decided on. */
  ghost predicate Prompt(states: seq<State>, actions: seq<Action>, d: nat)
    requires |states| == |actions| + 1
  {
    forall i :: 0 <= i < |actions| && actions[i].CleanerReadsClock? ==> states[i].clock - states[i].cleanupNano <= d
  }

  /** Any two cleanup runs are at least that far apart. */
  ghost predicate RunsApart(states: seq<State>, actions: seq<Action>, gap: int)
    requires |states| == |actions| + 1
  {
    forall i, j :: 0 <= i < j < |actions| && actions[i].CleanerReadsClock? && actions[j].CleanerReadsClock? ==>
      states[j].clock - states[i].clock >= gap
  }

  /** The times that are remembered are times of the past. */
  ghost predicate TimesOk(s: State) {
    && 0 < s.clock && 0 <= s.cleanupNano <= s.clock
    && (forall t <- Busy(s) :: 0 < s.pcs[t].now <= s.clock)
    && (forall t <- s.pcs :: s.pcs[t].CleanerReady? ==> s.cleanupNano > 0)
  }

  lemma StepTimesOk(c: Config, s: State, a: Action)
    requires TimesOk(s) && Enabled(s, a)
    ensures TimesOk(Do(c, s, a))
  {
    var s' := Do(c, s, a);
    forall t | t in Busy(s') ensures 0 < s'.pcs[t].now <= s'.clock {
      if t in s.pcs && s'.pcs[t] == s.pcs[t] { assert t in Busy(s); }
      if !a.Tick? && a.t == t && !a.ReadClock? { assert t in Busy(s); }
    }
    if a.StartCleanup? { assert a.t in Busy(s); }
  }

  lemma {:induction false} RunTimesOk(c: Config, states: seq<State>, actions: seq<Action>, i: nat)
    requires IsRun(c, states, actions) && i < |states|
    ensures TimesOk(states[i])
    decreases i
  {
    if i > 0 {
      assert StepAt(c, states, actions, i - 1);
      RunTimesOk(c, states, actions, i - 1);
      StepTimesOk(c, states[i - 1], actions[i - 1]);
    }
  }

  /** Nothing is about to run that was not decided on at least the interval after that time. */
  ghost predicate Later(c: Config, s: State, since: int) {
    || s.cleanupNano >= since + c.interval
    || (s.cleanupNano == since && forall t <- s.pcs :: !s.pcs[t].CleanerReady?)
  }

  lemma StepLater(c: Config, s: State, a: Action, since: int)
    requires Enabled(s, a) && since > 0 && c.interval > 0 && Later(c, s, since)
    requires a.StartCleanup? ==> !TooSoon(c, s, a.t)
    ensures Later(c, Do(c, s, a), since)
  {
    var s' := Do(c, s, a);
    if !a.StartCleanup? {
      assert s'.cleanupNano == s.cleanupNano;
      forall t | t in s'.pcs && s'.pcs[t].CleanerReady? ensures t in s.pcs && s.pcs[t].CleanerReady? {}
    }
  }

  lemma RunIsDecided(c: Config, states: seq<State>, actions: seq<Action>, i: nat)
    requires IsRun(c, states, actions) && i < |actions| && actions[i].CleanerReadsClock?
    ensures states[i].cleanupNano > 0 && Later(c, states[i + 1], states[i].cleanupNano)
  {
    assert StepAt(c, states, actions, i);
    RunTimesOk(c, states, actions, i);
    RunInv(c, states, actions, i);
    var s, t := states[i], actions[i].t;
    var after := states[i + 1].pcs;
    forall u | u in after ensures !after[u].CleanerReady? {
      if u != t && u in s.pcs && s.pcs[u].CleanerReady? { assert OwnsCleanup(s.pcs[u]) && OwnsCleanup(s.pcs[t]); }
    }
  }

  lemma {:induction false} RunStaysLater(c: Config, states: seq<State>, actions: seq<Action>, i: nat, j: nat)
    requires IsRun(c, states, actions) && AtMostBusy(states, 1) && c.interval > 0
    requires i < j < |states| && actions[i].CleanerReadsClock?
    ensures Later(c, states[j], states[i].cleanupNano)
    decreases j
  {
    RunIsDecided(c, states, actions, i);
    if i < j - 1 {
      RunStaysLater(c, states, actions, i, j - 1);
      assert StepAt(c, states, actions, j - 1);
      if actions[j - 1].StartCleanup? { LoneCleanupsAreSpaced(c, states, actions, j - 1, actions[j - 1].t); }
      StepLater(c, states[j - 1], actions[j - 1], states[i].cleanupNano);
    }
  }

  /** With one goroutine at a time in `maybeCleanup`, and cleanups that run at most d after the decision, runs are
      at least the interval less d apart. */
  lemma LoneRunsAreApart(c: Config, states: seq<State>, actions: seq<Action>, d: nat)
    requires c.interval > 0 && IsRun(c, states, actions) && AtMostBusy(states, 1) && Prompt(states, actions, d)
    ensures RunsApart(states, actions, c.interval - d)
  {
    forall i, j | 0 <= i < j < |actions| && actions[i].CleanerReadsClock? && actions[j].CleanerReadsClock?
      ensures states[j].clock - states[i].clock >= c.interval - d
    {
      RunStaysLater(c, states, actions, i, j);
      RunTimesOk(c, states, actions, j);
      assert StepAt(c, states, actions, j);
    }
  }

  lemma {:induction false} NobodyRuns(c: Config, states: seq<State>, actions: seq<Action>, i: nat)
    requires IsRun(c, states, actions) && AtMostBusy(states, 0) && i < |states|
    ensures forall t <- states[i].pcs :: !OwnsCleanup(states[i].pcs[t])
    decreases i
  {
    if i > 0 {
      assert StepAt(c, states, actions, i - 1);
      NobodyRuns(c, states, actions, i - 1);
      var s := states[i - 1];
      assert Busy(s) == {} && Busy(states[i]) == {};
      assert forall t <- s.pcs :: s.pcs[t].Elected? ==> t in Busy(s);
      assert forall t <- states[i].pcs :: states[i].pcs[t].Elected? ==> t in Busy(states[i]);
    }
  }

  /** The interval is the minimum time between cleanup runs exactly when nobody is let into `maybeCleanup`, or one
      goroutine at a time is and cleanups run at the time at which they are decided on. */
  lemma CleanupRunsAreApartIff(c: Config, n: nat, d: nat)
    requires c.interval > 0
    ensures (forall states, actions |
               IsRun(c, states, actions) && AtMostBusy(states, n) && Prompt(states, actions, d) ::
               RunsApart(states, actions, c.interval)) <==>
            n == 0 || (n == 1 && d == 0)
  {
    if n == 0 {
      forall states, actions: seq<Action> | IsRun(c, states, actions) && AtMostBusy(states, n)
        ensures RunsApart(states, actions, c.interval)
      {
        forall i | 0 <= i < |actions| ensures !actions[i].CleanerReadsClock? {
          assert StepAt(c, states, actions, i);
          NobodyRuns(c, states, actions, i);
        }
      }
    } else if n == 1 && d == 0 {
      forall states, actions | IsRun(c, states, actions) && AtMostBusy(states, n) && Prompt(states, actions, d)
        ensures RunsApart(states, actions, c.interval)
      {
        LoneRunsAreApart(c, states, actions, d);
      }
    } else if n == 1 {
      var delay := if d < c.interval then d else c.interval;
      var states, actions, i, j := LateRun(c, delay);
      assert Prompt(states, actions, d);
    } else {
      var states, actions, k := CleanupsCanCrowd(c);
      assert AtMostBusy(states, n) && Prompt(states, actions, d);
    }
  }

  // ---------------------------------------------------------------- runs that crowd

  /** A state with an empty cache and no history. */
  function Moment(clock: int, pcs: map<Tid, Pc>, cleanupNano: int, cleanupLock: bool): State {
    Init(clock).(pcs := pcs, cleanupNano := cleanupNano, cleanupLock := cleanupLock)
  }

  /** Only these goroutines are inside `maybeCleanup`. */
  ghost predicate OnlyBusy(pcs: map<Tid, Pc>, who: set<Tid>) {
    forall t <- pcs :: t in who || !(pcs[t].Timed? || pcs[t].Due? || pcs[t].Elected?)
  }

  /** A run with at most n goroutines inside `maybeCleanup` and cleanups that run at most d after the decision. */
  ghost predicate GoodRun(c: Config, states: seq<State>, actions: seq<Action>, n: nat, d: nat) {
    IsRun(c, states, actions) && AtMostBusy(states, n) && Prompt(states, actions, d)
  }

  /** The second run goes on from where the first one ends. */
  ghost predicate Continues(states: seq<State>, actions: seq<Action>, longer: seq<State>, more: seq<Action>)
    requires |states| == |actions| + 1
  {
    && |longer| == |more| + 1 && |actions| <= |more|
    && (forall i {:trigger more[i]} :: 0 <= i < |actions| ==> more[i] == actions[i])
    && (forall i {:trigger longer[i]} :: 0 <= i <= |actions| ==> longer[i] == states[i])
  }

  lemma EmptyRun(c: Config, n: nat, d: nat) returns (states: seq<State>, actions: seq<Action>)
    ensures GoodRun(c, states, actions, n, d) && states[|actions|] == Moment(1, map[], 0, false)
  {
    states, actions := [Moment(1, map[], 0, false)], [];
    assert Busy(states[0]) == {};
  }

  lemma Extend(c: Config, states: seq<State>, actions: seq<Action>, a: Action, next: State, who: set<Tid>, n: nat,
               d: nat)
    returns (longer: seq<State>, more: seq<Action>)
    requires GoodRun(c, states, actions, n, d) && OnlyBusy(next.pcs, who) && |who| <= n
    requires Enabled(states[|actions|], a) && Do(c, states[|actions|], a) == next
    requires a.CleanerReadsClock? ==> states[|actions|].clock - states[|actions|].cleanupNano <= d
    ensures GoodRun(c, longer, more, n, d) && Continues(states, actions, longer, more)
    ensures |more| == |actions| + 1 && more[|actions|] == a && longer[|more|] == next
  {
    longer, more := states + [next], actions + [a];
    RunExtends(c, states, actions, a, next);
    FewBusy(next, who);
  }

  lemma RunExtends(c: Config, states: seq<State>, actions: seq<Action>, a: Action, next: State)
    requires IsRun(c, states, actions) && Enabled(states[|actions|], a) && Do(c, states[|actions|], a) == next
    ensures IsRun(c, states + [next], actions + [a])
  {
    var longer, more := states + [next], actions + [a];
    forall i | 0 <= i < |more| ensures StepAt(c, longer, more, i) {
      if i < |actions| { assert StepAt(c, states, actions, i); }
    }
  }

  lemma FewBusy(s: State, who: set<Tid>)
    requires OnlyBusy(s.pcs, who)
    ensures |Busy(s)| <= |who|
  {
    var busy := Busy(s);
    assert busy <= who;
    assert who == busy + (who - busy) && |who| == |busy| + |who - busy|;
  }

  /** A goroutine calls `Validate` and finds that a cleanup is due. */
  lemma BecomesDue(c: Config, states: seq<State>, actions: seq<Action>, t: Tid, clock: int, pcs: map<Tid, Pc>,
                   nano: int, who: set<Tid>, n: nat, d: nat)
    returns (longer: seq<State>, more: seq<Action>)
    requires GoodRun(c, states, actions, n, d) && states[|actions|] == Moment(clock, pcs, nano, false)
    requires t !in pcs && t in who && OnlyBusy(pcs, who) && |who| <= n && (nano == 0 || clock - nano >= c.interval)
    ensures GoodRun(c, longer, more, n, d) && Continues(states, actions, longer, more)
    ensures longer[|more|] == Moment(clock, pcs[t := Due("", clock)], nano, false)
  {
    longer, more := states, actions;
    longer, more := Extend(c, longer, more, Call(t, ""), Moment(clock, pcs[t := Called("")], nano, false), who, n, d);
    longer, more :=
      Extend(c, longer, more, ReadClock(t), Moment(clock, pcs[t := Timed("", clock)], nano, false), who, n, d);
    longer, more :=
      Extend(c, longer, more, CompareInterval(t), Moment(clock, pcs[t := Due("", clock)], nano, false), who, n, d);
  }

  /** A goroutine that found a cleanup due takes the lock and starts one. */
  lemma Starts(c: Config, states: seq<State>, actions: seq<Action>, t: Tid, cleaner: Tid, now: int, clock: int,
               pcs: map<Tid, Pc>, nano: int, who: set<Tid>, n: nat, d: nat)
    returns (longer: seq<State>, more: seq<Action>)
    requires GoodRun(c, states, actions, n, d)
    requires states[|actions|] == Moment(clock, pcs[t := Due("", now)], nano, false)
    requires cleaner !in pcs && cleaner != t && t in who && OnlyBusy(pcs, who) && |who| <= n
    ensures GoodRun(c, longer, more, n, d) && Continues(states, actions, longer, more)
    ensures longer[|more|] == Moment(clock, pcs[t := Lookup("")][cleaner := CleanerReady], now, true)
    ensures |more| == |actions| + 2 && more[|actions| + 1] == StartCleanup(t, cleaner)
    ensures longer[|actions| + 1] == Moment(clock, pcs[t := Elected("", now)], nano, true)
  {
    longer, more :=
      Extend(c, states, actions, TryLock(t), Moment(clock, pcs[t := Elected("", now)], nano, true), who, n, d);
    longer, more := Extend(c, longer, more, StartCleanup(t, cleaner),
                           Moment(clock, pcs[t := Lookup("")][cleaner := CleanerReady], now, true), who, n, d);
  }

  /** The cleanup runs and is over. */
  lemma Runs(c: Config, states: seq<State>, actions: seq<Action>, cleaner: Tid, clock: int, pcs: map<Tid, Pc>,
             nano: int, who: set<Tid>, n: nat, d: nat)
    returns (longer: seq<State>, more: seq<Action>)
    requires GoodRun(c, states, actions, n, d) && cleaner !in pcs && OnlyBusy(pcs, who) && |who| <= n
    requires states[|actions|] == Moment(clock, pcs[cleaner := CleanerReady], nano, true) && clock - nano <= d
    ensures GoodRun(c, longer, more, n, d) && Continues(states, actions, longer, more)
    ensures |more| == |actions| + 2 && more[|actions|] == CleanerReadsClock(cleaner)
    ensures longer[|more|] == Moment(clock, pcs, nano, false)
  {
    longer, more := Extend(c, states, actions, CleanerReadsClock(cleaner),
                           Moment(clock, pcs[cleaner := Cleaning(clock)], nano, true), who, n, d);
    assert pcs[cleaner := Cleaning(clock)] - {cleaner} == pcs;
    longer, more := Extend(c, longer, more, CleanerEnds(cleaner), Moment(clock, pcs, nano, false), who, n, d);
  }

  /** Two goroutines are enough for the interval not to be kept, whatever it is: both check before either starts, and
      the two cleanups run at the same time. */
  lemma CleanupsCanCrowd(c: Config) returns (states: seq<State>, actions: seq<Action>, k: nat)
    requires c.interval > 0
    ensures IsRun(c, states, actions) && AtMostBusy(states, 2) && Prompt(states, actions, 0)
    ensures k < |actions| && actions[k].StartCleanup? && TooSoon(c, states[k], actions[k].t)
    ensures !RunsApart(states, actions, c.interval)
  {
    var i;
    var onward := Lookup("");
    states, actions, i := FirstOfTwo(c);
    k := |actions| + 1;
    states, actions := Starts(c, states, actions, 1, 3, 1, 1, map[0 := onward], 1, {0, 1}, 2, 0);
    var j := |actions|;
    states, actions := Runs(c, states, actions, 3, 1, map[0 := onward][1 := onward], 1, {0, 1}, 2, 0);
    assert actions[i].CleanerReadsClock? && actions[j].CleanerReadsClock? && states[i].clock == states[j].clock;
  }

  lemma FirstOfTwo(c: Config) returns (states: seq<State>, actions: seq<Action>, i: nat)
    ensures GoodRun(c, states, actions, 2, 0)
    ensures states[|actions|] == Moment(1, map[0 := Lookup("")][1 := Due("", 1)], 1, false)
    ensures i < |actions| && actions[i].CleanerReadsClock? && states[i].clock == 1
  {
    var due, onward, who := Due("", 1), Lookup(""), {0, 1};
    states, actions := BothDue(c);
    states, actions := Starts(c, states, actions, 0, 2, 1, 1, map[1 := due], 0, who, 2, 0);
    i := |actions|;
    states, actions := Runs(c, states, actions, 2, 1, map[1 := due][0 := onward], 1, who, 2, 0);
    assert map[1 := due][0 := onward] == map[0 := onward][1 := due];
  }

  lemma BothDue(c: Config) returns (states: seq<State>, actions: seq<Action>)
    ensures GoodRun(c, states, actions, 2, 0)
    ensures states[|actions|] == Moment(1, map[1 := Due("", 1)][0 := Due("", 1)], 0, false)
  {
    var due, who := Due("", 1), {0, 1};
    states, actions := EmptyRun(c, 2, 0);
    states, actions := BecomesDue(c, states, actions, 0, 1, map[], 0, who, 2, 0);
    states, actions := BecomesDue(c, states, actions, 1, 1, map[0 := due], 0, who, 2, 0);
    assert map[0 := due][1 := due] == map[1 := due][0 := due];
  }

  /** A cleanup that runs late comes closer to the next one by its delay, even with one goroutine at a time. */
  lemma LateRun(c: Config, d: nat) returns (states: seq<State>, actions: seq<Action>, i: nat, j: nat)
    requires c.interval > 0 && d <= c.interval
    ensures IsRun(c, states, actions) && AtMostBusy(states, 1) && Prompt(states, actions, d)
    ensures i < j < |actions| && actions[i].CleanerReadsClock? && actions[j].CleanerReadsClock?
    ensures states[j].clock - states[i].clock == c.interval - d
  {
    var onward, later := Lookup(""), 1 + c.interval;
    states, actions, i := LateFirst(c, d);
    states, actions := BecomesDue(c, states, actions, 1, later, map[0 := onward], 1, {1}, 1, d);
    states, actions := Starts(c, states, actions, 1, 3, later, later, map[0 := onward], 1, {1}, 1, d);
    j := |actions|;
    states, actions := Runs(c, states, actions, 3, later, map[0 := onward][1 := onward], later, {1}, 1, d);
  }

  lemma LateFirst(c: Config, d: nat) returns (states: seq<State>, actions: seq<Action>, i: nat)
    requires c.interval > 0 && d <= c.interval
    ensures GoodRun(c, states, actions, 1, d)
    ensures states[|actions|] == Moment(1 + c.interval, map[0 := Lookup("")], 1, false)
    ensures i < |actions| && actions[i].CleanerReadsClock? && states[i].clock == 1 + d
  {
    var onward, later := Lookup(""), 1 + c.interval;
    states, actions := FirstStarts(c, d);
    states, actions := Extend(c, states, actions, Tick(d),
                              Moment(1 + d, map[0 := onward][2 := CleanerReady], 1, true), {0}, 1, d);
    i := |actions|;
    states, actions := Runs(c, states, actions, 2, 1 + d, map[0 := onward], 1, {0}, 1, d);
    states, actions :=
      Extend(c, states, actions, Tick(c.interval - d), Moment(later, map[0 := onward], 1, false), {0}, 1, d);
  }

  lemma FirstStarts(c: Config, d: nat) returns (states: seq<State>, actions: seq<Action>)
    ensures GoodRun(c, states, actions, 1, d)
    ensures states[|actions|] == Moment(1, map[0 := Lookup("")][2 := CleanerReady], 1, true)
  {
    states, actions := EmptyRun(c, 1, d);
    states, actions := BecomesDue(c, states, actions, 0, 1, map[], 0, {0}, 1, d);
    states, actions := Starts(c, states, actions, 0, 2, 1, 1, map[], 0, {0}, 1, d);
  }

  // ---------------------------------------------------------------- the cleanup loop

  class Validator {
    var cache: map<string, int>

    constructor ()
      ensures cache == map[]
    {
      cache := map[];
    }

    /** `doCleanup` without interference: exactly the entries past their deadline go. */
    method DoCleanup(now: int)
      modifies this
      ensures cache == map bearer | bearer in old(cache) && now <= old(cache)[bearer] :: old(cache)[bearer]
    {
      var pending := cache.Keys;
      while pending != {}
        invariant pending <= cache.Keys <= old(cache).Keys
        invariant forall bearer <- cache :: cache[bearer] == old(cache)[bearer]
        invariant forall bearer <- old(cache) :: now <= old(cache)[bearer] ==> bearer in cache
        invariant forall bearer <- cache.Keys - pending :: now <= cache[bearer]
        decreases pending
      {
        var bearer :| bearer in pending;
        if now > cache[bearer] { cache := cache - {bearer}; }
        pending := pending - {bearer};
      }
    }
  }
}
