/** The cache of JSON web key sets (section 5 of RFC 7517) and its throttled refresh
    (internal/auth/auth_jwks_cache.go). */
module JwksCache {
  import opened Wrappers

  type Tid = nat
  type Key = string

  /** One entry of a key set: its identifier and the outcome of parsing it. */
  datatype KeyData = KeyData(kid: string, parsed: Option<Key>)

  datatype Tag = Tag(issuer: string, kid: string)

  /** The largest `time.Duration`, in nanoseconds. */
  const MAX_DURATION := 0x7fff_ffff_ffff_ffff

  // ---------------------------------------------------------------- reading a key set

  predicate Usable(data: KeyData) { data.kid != "" && data.parsed.Some? }

  /** The keys of a set: entries without identifier or that cannot be parsed are skipped, later ones replace earlier. */
  function KeysOf(data: seq<KeyData>): map<string, Key> {
    if data == [] then map[]
    else
      var last := data[|data| - 1];
      var keys := KeysOf(data[..|data| - 1]);
      if Usable(last) then keys[last.kid := last.parsed.value] else keys
  }

  /** An identifier has a key exactly when it is not empty and some entry with it can be parsed; the key is that of
      the last such entry. */
  lemma LastUsableKeyWins(data: seq<KeyData>, kid: string)
    ensures kid in KeysOf(data) <==>
      kid != "" && exists i :: 0 <= i < |data| && data[i].kid == kid && data[i].parsed.Some?
    ensures kid in KeysOf(data) ==>
      exists i :: 0 <= i < |data| && data[i].kid == kid && data[i].parsed == Some(KeysOf(data)[kid])
                  && forall j :: i < j < |data| && data[j].kid == kid ==> data[j].parsed.None?
  {
    LastUsableWins(data, kid);
  }

  lemma {:induction false} LastUsableWins(data: seq<KeyData>, kid: string)
    ensures kid in KeysOf(data) <==> exists i :: 0 <= i < |data| && Usable(data[i]) && data[i].kid == kid
    ensures kid in KeysOf(data) ==>
      exists i :: 0 <= i < |data| && Usable(data[i]) && data[i].kid == kid && data[i].parsed.value == KeysOf(data)[kid]
                  && forall j :: i < j < |data| ==> !(Usable(data[j]) && data[j].kid == kid)
  {
    if data != [] {
      var n := |data| - 1;
      LastUsableWins(data[..n], kid);
      if Usable(data[n]) && data[n].kid == kid {
      } else if kid in KeysOf(data) {
        var i :| 0 <= i < n && Usable(data[..n][i]) && data[..n][i].kid == kid &&
          data[..n][i].parsed.value == KeysOf(data[..n])[kid] &&
          forall j :: i < j < n ==> !(Usable(data[..n][j]) && data[..n][j].kid == kid);
        assert data[i] == data[..n][i];
        forall j | i < j < |data| ensures !(Usable(data[j]) && data[j].kid == kid) {
          if j < n { assert data[j] == data[..n][j]; }
        }
      } else {
        forall i | 0 <= i < |data| ensures !(Usable(data[i]) && data[i].kid == kid) {
          if i < n { assert data[i] == data[..n][i]; }
        }
      }
    }
  }

  /** The cache after replacing all the keys of one issuer. */
  function Replaced(cache: map<Tag, Key>, issuer: string, keys: map<string, Key>): map<Tag, Key> {
    (map tag | tag in cache && tag.issuer != issuer :: cache[tag]) +
    (map kid | kid in keys :: Tag(issuer, kid) := keys[kid])
  }

  // ---------------------------------------------------------------- the protocol

  /** A thread inside `refresh`.  `since` is when its load started and `data` what it loaded. */
  datatype Pc =
    | AtLock(issuer: string)
    | Checking(issuer: string)
    | Loading(issuer: string, since: int)
    | Replacing(issuer: string, since: int, data: seq<KeyData>)
    | Stamping(issuer: string, since: int)
    | Unlocking(issuer: string)

  datatype Config = Config(trusted: set<string>, minTTL: int)

  /** `refreshed` is `refreshNano`, zero until the first success.  `lastLoad` and `successes` are history: the last key
      set put in the cache and the times of all successful refreshes, per issuer. */
  datatype State = State(
    clock: int,
    cache: map<Tag, Key>,
    refreshed: map<string, int>,
    locks: map<string, Tid>,
    pcs: map<Tid, Pc>,
    lastLoad: map<string, seq<KeyData>>,
    successes: map<string, seq<int>>)

  function Init(c: Config, start: int): State {
    State(start, map[], map i | i in c.trusted :: 0, map[], map[], map[], map i | i in c.trusted :: [])
  }

  /** The time since a refresh, which does not overflow. */
  function AgeAt(clock: int, nano: int): int {
    if nano == 0 then MAX_DURATION
    else if clock - nano > MAX_DURATION then MAX_DURATION
    else clock - nano
  }

  function Age(s: State, issuer: string): int
    requires issuer in s.refreshed
  {
    AgeAt(s.clock, s.refreshed[issuer])
  }

  datatype Action =
    | Tick(elapsed: nat)
    | CallRefresh(t: Tid, issuer: string)
    | Lock(t: Tid)
    | Check(t: Tid)
    | LoadFails(t: Tid)
    | LoadSucceeds(t: Tid, data: seq<KeyData>)
    | Replace(t: Tid)
    | Stamp(t: Tid)
    | Unlock(t: Tid)

  /** Refreshes are only started for trusted issuers, by foreground requests or in the background. */
  predicate Enabled(c: Config, s: State, a: Action) {
    match a
    case Tick(_) => true
    case CallRefresh(t, issuer) => t !in s.pcs && issuer in c.trusted
    case Lock(t) => t in s.pcs && s.pcs[t].AtLock? && s.pcs[t].issuer !in s.locks
    case Check(t) => t in s.pcs && s.pcs[t].Checking? && s.pcs[t].issuer in s.refreshed
    case LoadFails(t) => t in s.pcs && s.pcs[t].Loading?
    case LoadSucceeds(t, _) => t in s.pcs && s.pcs[t].Loading?
    case Replace(t) => t in s.pcs && s.pcs[t].Replacing?
    case Stamp(t) => t in s.pcs && s.pcs[t].Stamping? && s.pcs[t].issuer in s.successes
    case Unlock(t) => t in s.pcs && s.pcs[t].Unlocking?
  }

  function Do(c: Config, s: State, a: Action): State
    requires Enabled(c, s, a)
  {
    match a
    case Tick(elapsed) => s.(clock := s.clock + elapsed)
    case CallRefresh(t, issuer) => s.(pcs := s.pcs[t := AtLock(issuer)])
    case Lock(t) =>
      var issuer := s.pcs[t].issuer;
      s.(pcs := s.pcs[t := Checking(issuer)], locks := s.locks[issuer := t])
    case Check(t) =>
      var issuer := s.pcs[t].issuer;
      if Age(s, issuer) <= c.minTTL then s.(pcs := s.pcs[t := Unlocking(issuer)])
      else s.(pcs := s.pcs[t := Loading(issuer, s.clock)])
    case LoadFails(t) => s.(pcs := s.pcs[t := Unlocking(s.pcs[t].issuer)])
    case LoadSucceeds(t, data) => s.(pcs := s.pcs[t := Replacing(s.pcs[t].issuer, s.pcs[t].since, data)])
    case Replace(t) =>
      var Replacing(issuer, since, data) := s.pcs[t];
      s.(pcs := s.pcs[t := Stamping(issuer, since)],
         cache := Replaced(s.cache, issuer, KeysOf(data)),
         lastLoad := s.lastLoad[issuer := data])
    case Stamp(t) =>
      var issuer := s.pcs[t].issuer;
      s.(pcs := s.pcs[t := Unlocking(issuer)],
         refreshed := s.refreshed[issuer := s.clock],
         successes := s.successes[issuer := s.successes[issuer] + [s.clock]])
    case Unlock(t) => s.(pcs := s.pcs - {t}, locks := s.locks - {s.pcs[t].issuer})
  }

  // ---------------------------------------------------------------- the invariant

  predicate HoldsLock(pc: Pc) { !pc.AtLock? }

  predicate Holds(s: State, t: Tid, issuer: string) {
    t in s.pcs && HoldsLock(s.pcs[t]) && s.pcs[t].issuer == issuer
  }

  predicate Locked(s: State, t: Tid, issuer: string) {
    issuer in s.locks && s.locks[issuer] == t
  }

  /** The lock of an issuer is held by the thread that the lock says, and by no other. */
  ghost predicate LocksOk(s: State) {
    forall t, issuer :: Holds(s, t, issuer) <==> Locked(s, t, issuer)
  }

  /** The cache is exactly the keys of the last set loaded for each issuer, and only of trusted issuers. */
  ghost predicate CacheOk(c: Config, s: State) {
    && s.lastLoad.Keys <= c.trusted
    && (forall tag: Tag :: tag in s.cache <==> tag.issuer in s.lastLoad && tag.kid in KeysOf(s.lastLoad[tag.issuer]))
    && (forall tag <- s.cache :: s.cache[tag] == KeysOf(s.lastLoad[tag.issuer])[tag.kid])
  }

  ghost predicate Spaced(c: Config, times: seq<int>) {
    forall i, j :: 0 <= i < j < |times| ==> times[j] > times[i] + c.minTTL
  }

  /** Successful refreshes are spaced and the last one is the recorded one. */
  ghost predicate TimesOk(c: Config, s: State) {
    && s.clock > 0
    && s.successes.Keys == c.trusted && s.refreshed.Keys == c.trusted
    && (forall issuer <- c.trusted :: IssuerTimesOk(c, s.clock, s.successes[issuer], s.refreshed[issuer]))
  }

  ghost predicate IssuerTimesOk(c: Config, clock: int, times: seq<int>, refreshed: int) {
    Spaced(c, times) &&
    if times == [] then refreshed == 0 else 0 < refreshed <= clock && refreshed == times[|times| - 1]
  }

  /** Started late enough after everything that was loaded before. */
  ghost predicate Late(c: Config, s: State, issuer: string, since: int) {
    issuer in s.successes && since <= s.clock &&
    forall i :: 0 <= i < |s.successes[issuer]| ==> since > s.successes[issuer][i] + c.minTTL
  }

  ghost predicate PcOk(c: Config, s: State, pc: Pc) {
    pc.issuer in c.trusted &&
    (pc.Loading? || pc.Replacing? || pc.Stamping? ==> Late(c, s, pc.issuer, pc.since))
  }

  ghost predicate Inv(c: Config, s: State) {
    LocksOk(s) && CacheOk(c, s) && TimesOk(c, s) && forall t <- s.pcs :: PcOk(c, s, s.pcs[t])
  }

  ghost predicate ValidConfig(c: Config) { c.minTTL >= 0 }

  lemma InitInv(c: Config, start: int)
    requires start > 0
    ensures Inv(c, Init(c, start))
  {
  }

  lemma StepLocksOk(c: Config, s: State, a: Action)
    requires LocksOk(s) && Enabled(c, s, a)
    ensures LocksOk(Do(c, s, a))
  {
    var s' := Do(c, s, a);
    forall t, issuer ensures Holds(s', t, issuer) <==> Locked(s', t, issuer) {
      assert Holds(s, t, issuer) <==> Locked(s, t, issuer);
      if !a.Tick? && a.t in s.pcs { assert Holds(s, a.t, issuer) <==> Locked(s, a.t, issuer); }
    }
  }

  lemma ReplacedMeaning(cache: map<Tag, Key>, issuer: string, keys: map<string, Key>, tag: Tag)
    ensures tag in Replaced(cache, issuer, keys) <==>
      if tag.issuer == issuer then tag.kid in keys else tag in cache
    ensures tag in Replaced(cache, issuer, keys) ==>
      Replaced(cache, issuer, keys)[tag] == if tag.issuer == issuer then keys[tag.kid] else cache[tag]
  {
  }

  /** Only replacing entries touches the cache, and then it becomes the keys of what was loaded. */
  lemma StepCacheOk(c: Config, s: State, a: Action)
    requires CacheOk(c, s) && Enabled(c, s, a) && (a.Replace? ==> s.pcs[a.t].issuer in c.trusted)
    ensures CacheOk(c, Do(c, s, a))
  {
    var s' := Do(c, s, a);
    if a.Replace? {
      var Replacing(issuer, since, data) := s.pcs[a.t];
      forall tag: Tag
        ensures tag in s'.cache <==> tag.issuer in s'.lastLoad && tag.kid in KeysOf(s'.lastLoad[tag.issuer])
        ensures tag in s'.cache ==> s'.cache[tag] == KeysOf(s'.lastLoad[tag.issuer])[tag.kid]
      {
        ReplacedMeaning(s.cache, issuer, KeysOf(data), tag);
      }
    } else {
      assert s'.cache == s.cache && s'.lastLoad == s.lastLoad;
    }
  }

  lemma OnlyStampRecords(c: Config, s: State, a: Action)
    requires Enabled(c, s, a) && !a.Stamp?
    ensures var s' := Do(c, s, a);
      s'.successes == s.successes && s'.refreshed == s.refreshed && s'.clock >= s.clock
  {
  }

  lemma StepTimesOk(c: Config, s: State, a: Action)
    requires ValidConfig(c) && TimesOk(c, s) && Enabled(c, s, a) && (a.Stamp? ==> PcOk(c, s, s.pcs[a.t]))
    ensures TimesOk(c, Do(c, s, a))
  {
    if a.Stamp? { StampTimesOk(c, s, a.t); } else { OnlyStampRecords(c, s, a); }
  }

  lemma IssuerStamped(c: Config, clock: int, times: seq<int>, refreshed: int, since: int)
    requires clock > 0 && IssuerTimesOk(c, clock, times, refreshed) && since <= clock
    requires forall i :: 0 <= i < |times| ==> since > times[i] + c.minTTL
    ensures IssuerTimesOk(c, clock, times + [clock], clock)
  {
    SpacedSnoc(c, times, since, clock);
  }

  /** Only the times of the issuer that is stamped change. */
  lemma StampChanges(c: Config, s: State, t: Tid)
    requires Enabled(c, s, Stamp(t))
    ensures var s', issuer := Do(c, s, Stamp(t)), s.pcs[t].issuer;
      && s'.clock == s.clock
      && s'.successes == s.successes[issuer := s.successes[issuer] + [s.clock]]
      && s'.refreshed == s.refreshed[issuer := s.clock]
  {
  }

  lemma StampTimesOk(c: Config, s: State, t: Tid)
    requires ValidConfig(c) && TimesOk(c, s) && Enabled(c, s, Stamp(t)) && PcOk(c, s, s.pcs[t])
    ensures TimesOk(c, Do(c, s, Stamp(t)))
  {
    var issuer := s.pcs[t].issuer;
    StampChanges(c, s, t);
    IssuerStamped(c, s.clock, s.successes[issuer], s.refreshed[issuer], s.pcs[t].since);
  }

  lemma SpacedSnoc(c: Config, times: seq<int>, since: int, now: int)
    requires Spaced(c, times) && since <= now
    requires forall i :: 0 <= i < |times| ==> since > times[i] + c.minTTL
    ensures Spaced(c, times + [now])
  {
  }

  /** A load starts only when the throttle lets it: later than `minTTL` after every earlier success. */
  lemma CheckIsLate(c: Config, s: State, t: Tid)
    requires ValidConfig(c) && TimesOk(c, s) && Enabled(c, s, Check(t)) && Age(s, s.pcs[t].issuer) > c.minTTL
    ensures Late(c, s, s.pcs[t].issuer, s.clock)
  {
    var issuer := s.pcs[t].issuer;
    assert IssuerTimesOk(c, s.clock, s.successes[issuer], s.refreshed[issuer]);
  }

  /** What a program counter promises survives the steps of other threads: nobody else refreshes the same issuer. */
  lemma OtherPcOk(c: Config, s: State, a: Action, t: Tid)
    requires LocksOk(s) && Enabled(c, s, a) && (a.Tick? || a.t != t) && t in s.pcs && PcOk(c, s, s.pcs[t])
    ensures PcOk(c, Do(c, s, a), s.pcs[t])
  {
    if a.Stamp? && HoldsLock(s.pcs[t]) {
      assert Holds(s, t, s.pcs[t].issuer) && Holds(s, a.t, s.pcs[a.t].issuer);
      assert s.pcs[a.t].issuer != s.pcs[t].issuer;
    } else if !a.Stamp? {
      OnlyStampRecords(c, s, a);
    }
  }

  lemma ActorPcOk(c: Config, s: State, a: Action)
    requires ValidConfig(c) && TimesOk(c, s) && Enabled(c, s, a) && !a.Tick? && a.t in Do(c, s, a).pcs
    requires a.t in s.pcs ==> PcOk(c, s, s.pcs[a.t])
    ensures PcOk(c, Do(c, s, a), Do(c, s, a).pcs[a.t])
  {
    if a.Check? && Do(c, s, a).pcs[a.t].Loading? { CheckIsLate(c, s, a.t); }
  }

  lemma OthersUnmoved(c: Config, s: State, a: Action, t: Tid)
    requires Enabled(c, s, a) && (a.Tick? || a.t != t) && t in Do(c, s, a).pcs
    ensures t in s.pcs && Do(c, s, a).pcs[t] == s.pcs[t]
  {
  }

  lemma StepPcOk(c: Config, s: State, a: Action, t: Tid)
    requires ValidConfig(c) && LocksOk(s) && TimesOk(c, s) && Enabled(c, s, a) && t in Do(c, s, a).pcs
    requires t in s.pcs ==> PcOk(c, s, s.pcs[t])
    ensures PcOk(c, Do(c, s, a), Do(c, s, a).pcs[t])
  {
    if a.Tick? || a.t != t {
      OthersUnmoved(c, s, a, t);
      OtherPcOk(c, s, a, t);
    } else {
      ActorPcOk(c, s, a);
    }
  }

  lemma StepInv(c: Config, s: State, a: Action)
    requires ValidConfig(c) && Inv(c, s) && Enabled(c, s, a)
    ensures Inv(c, Do(c, s, a))
  {
    StepLocksOk(c, s, a);
    if a.Replace? || a.Stamp? { assert PcOk(c, s, s.pcs[a.t]); }
    StepCacheOk(c, s, a);
    StepTimesOk(c, s, a);
    forall t | t in Do(c, s, a).pcs ensures PcOk(c, Do(c, s, a), Do(c, s, a).pcs[t]) {
      StepPcOk(c, s, a, t);
    }
  }

  // ---------------------------------------------------------------- runs

  ghost predicate IsRun(c: Config, states: seq<State>, actions: seq<Action>) {
    && |states| == |actions| + 1 && (exists start :: start > 0 && states[0] == Init(c, start))
    && forall i {:trigger StepAt(c, states, actions, i)} :: 0 <= i < |actions| ==> StepAt(c, states, actions, i)
  }

  ghost predicate StepAt(c: Config, states: seq<State>, actions: seq<Action>, i: nat)
    requires |states| == |actions| + 1 && i < |actions|
  {
    Enabled(c, states[i], actions[i]) && states[i + 1] == Do(c, states[i], actions[i])
  }

  lemma {:induction false} RunInv(c: Config, states: seq<State>, actions: seq<Action>, i: nat)
    requires ValidConfig(c) && IsRun(c, states, actions) && i < |states|
    ensures Inv(c, states[i])
    decreases i
  {
    if i == 0 {
      var start :| start > 0 && states[0] == Init(c, start);
      InitInv(c, start);
    } else {
      assert StepAt(c, states, actions, i - 1);
      RunInv(c, states, actions, i - 1);
      StepInv(c, states[i - 1], actions[i - 1]);
    }
  }

  /** The key set that a step puts in place for an issuer. */
  function LoadedBy(s: State, a: Action, issuer: string): Option<seq<KeyData>> {
    if a.Replace? && a.t in s.pcs && s.pcs[a.t].Replacing? && s.pcs[a.t].issuer == issuer
    then Some(s.pcs[a.t].data) else None
  }

  /** The key set that the last successful refresh of an issuer put in place during the first steps of a run. */
  ghost function LastLoaded(states: seq<State>, actions: seq<Action>, i: nat, issuer: string): Option<seq<KeyData>>
    requires |states| == |actions| + 1 && i < |states|
  {
    if i == 0 then None
    else
      var loaded := LoadedBy(states[i - 1], actions[i - 1], issuer);
      if loaded.Some? then loaded else LastLoaded(states, actions, i - 1, issuer)
  }

  function Recorded(s: State, issuer: string): Option<seq<KeyData>> {
    if issuer in s.lastLoad then Some(s.lastLoad[issuer]) else None
  }

  lemma StepRecords(c: Config, s: State, a: Action, issuer: string)
    requires Enabled(c, s, a)
    ensures Recorded(Do(c, s, a), issuer) ==
      if LoadedBy(s, a, issuer).Some? then LoadedBy(s, a, issuer) else Recorded(s, issuer)
  {
  }

  lemma {:induction false} LastLoadIsRecorded(c: Config, states: seq<State>, actions: seq<Action>, i: nat,
                                              issuer: string)
    requires IsRun(c, states, actions) && i < |states|
    ensures LastLoaded(states, actions, i, issuer) == Recorded(states[i], issuer)
    decreases i
  {
    if i > 0 {
      LastLoadIsRecorded(c, states, actions, i - 1, issuer);
      assert StepAt(c, states, actions, i - 1);
      StepRecords(c, states[i - 1], actions[i - 1], issuer);
    }
  }

  /** In every reachable state the cache answers exactly like the last key set loaded for the issuer: a failed load, a
      throttled one or the refresh of another issuer changes nothing. */
  lemma CacheIsLastLoad(c: Config, states: seq<State>, actions: seq<Action>, i: nat, tag: Tag)
    requires ValidConfig(c) && IsRun(c, states, actions) && i < |states|
    ensures var loaded := LastLoaded(states, actions, i, tag.issuer);
      && (tag in states[i].cache <==> loaded.Some? && tag.kid in KeysOf(loaded.value))
      && (tag in states[i].cache ==> states[i].cache[tag] == KeysOf(loaded.value)[tag.kid])
  {
    RunInv(c, states, actions, i);
    LastLoadIsRecorded(c, states, actions, i, tag.issuer);
  }

  lemma UntrustedIssuersHaveNoKeys(c: Config, states: seq<State>, actions: seq<Action>, i: nat, tag: Tag)
    requires ValidConfig(c) && IsRun(c, states, actions) && i < |states| && tag.issuer !in c.trusted
    ensures tag !in states[i].cache
  {
    RunInv(c, states, actions, i);
  }

  /** The throttle: a load starts only more than `minTTL` after every successful refresh of the same issuer. */
  lemma LoadsAreThrottled(c: Config, states: seq<State>, actions: seq<Action>, i: nat, t: Tid, k: nat)
    requires ValidConfig(c) && IsRun(c, states, actions) && i < |actions| && actions[i] == Check(t)
    requires t in states[i + 1].pcs && states[i + 1].pcs[t].Loading?
    requires states[i + 1].pcs[t].issuer in states[i].successes
    requires k < |states[i].successes[states[i + 1].pcs[t].issuer]|
    ensures states[i].clock > states[i].successes[states[i + 1].pcs[t].issuer][k] + c.minTTL
  {
    assert StepAt(c, states, actions, i);
    RunInv(c, states, actions, i);
    CheckIsLate(c, states[i], t);
  }

  /** When `minTTL` is the largest duration no refresh ever gets past the throttle, and the cache stays empty. */
  lemma {:induction false} NothingIsEverLoaded(c: Config, states: seq<State>, actions: seq<Action>, i: nat)
    requires c.minTTL >= MAX_DURATION && IsRun(c, states, actions) && i < |states|
    ensures states[i].cache == map[]
    ensures forall t <- states[i].pcs :: var pc := states[i].pcs[t]; pc.AtLock? || pc.Checking? || pc.Unlocking?
    decreases i
  {
    if i > 0 {
      assert StepAt(c, states, actions, i - 1);
      NothingIsEverLoaded(c, states, actions, i - 1);
    }
  }

  /** Otherwise the first refresh of an issuer goes through, and what it loads is in the cache. */
  lemma FirstRefreshLoads(c: Config, issuer: string, kid: string, key: Key)
    returns (states: seq<State>, actions: seq<Action>)
    requires c.minTTL < MAX_DURATION && issuer in c.trusted && kid != ""
    ensures IsRun(c, states, actions) && Tag(issuer, kid) in states[|actions|].cache
    ensures states[|actions|].cache[Tag(issuer, kid)] == key
  {
    var data := [KeyData(kid, Some(key))];
    var s := Init(c, 1);
    states, actions := [s], [];
    states, actions := Extend(c, states, actions, CallRefresh(0, issuer));
    states, actions := Extend(c, states, actions, Lock(0));
    states, actions := Extend(c, states, actions, Check(0));
    states, actions := Extend(c, states, actions, LoadSucceeds(0, data));
    states, actions := Extend(c, states, actions, Replace(0));
    assert data[..0] == [] && KeysOf(data) == map[kid := key];
    ReplacedMeaning(map[], issuer, KeysOf(data), Tag(issuer, kid));
  }

  lemma Extend(c: Config, states: seq<State>, actions: seq<Action>, a: Action)
    returns (longer: seq<State>, more: seq<Action>)
    requires IsRun(c, states, actions) && Enabled(c, states[|actions|], a)
    ensures IsRun(c, longer, more) && |more| == |actions| + 1
    ensures longer[|more|] == Do(c, states[|actions|], a)
  {
    longer, more := states + [Do(c, states[|actions|], a)], actions + [a];
    assert longer[0] == states[0];
    forall i | 0 <= i < |more| ensures StepAt(c, longer, more, i) {
      if i < |actions| { assert StepAt(c, states, actions, i); }
    }
  }

  /** Some run puts a key in the cache exactly when `minTTL` is less than the largest duration. */
  lemma KeysCanBeLoadedIff(c: Config)
    requires c.trusted != {}
    ensures (exists states: seq<State>, actions: seq<Action> ::
               IsRun(c, states, actions) && states[|actions|].cache != map[]) <==>
            c.minTTL < MAX_DURATION
  {
    if c.minTTL < MAX_DURATION {
      var issuer :| issuer in c.trusted;
      var states, actions := FirstRefreshLoads(c, issuer, "kid", "key");
      assert IsRun(c, states, actions) && states[|actions|].cache != map[];
    } else {
      forall states: seq<State>, actions: seq<Action> | IsRun(c, states, actions)
        ensures states[|actions|].cache == map[]
      {
        NothingIsEverLoaded(c, states, actions, |actions|);
      }
    }
  }

  /** A refresh that has the lock loads exactly when `minTTL` is less than the largest duration and more than
      `minTTL` has passed since every successful refresh of the issuer. */
  lemma LoadsIff(c: Config, states: seq<State>, actions: seq<Action>, i: nat, t: Tid)
    requires ValidConfig(c) && IsRun(c, states, actions) && i < |actions| && actions[i] == Check(t)
    requires t in states[i].pcs && states[i].pcs[t].issuer in states[i].successes && t in states[i + 1].pcs
    ensures var times := states[i].successes[states[i].pcs[t].issuer];
      states[i + 1].pcs[t].Loading? <==>
      c.minTTL < MAX_DURATION && forall k :: 0 <= k < |times| ==> states[i].clock - times[k] > c.minTTL
  {
    assert StepAt(c, states, actions, i);
    RunInv(c, states, actions, i);
    var s, issuer := states[i], states[i].pcs[t].issuer;
    assert IssuerTimesOk(c, s.clock, s.successes[issuer], s.refreshed[issuer]);
    if states[i + 1].pcs[t].Loading? { CheckIsLate(c, s, t); }
  }

  /** A successful refresh is recorded with the time at which it is over. */
  lemma SuccessIsStampedNow(c: Config, states: seq<State>, actions: seq<Action>, i: nat)
    requires ValidConfig(c) && IsRun(c, states, actions) && i < |actions| && actions[i].Stamp?
    requires actions[i].t in states[i].pcs
    ensures var issuer := states[i].pcs[actions[i].t].issuer;
      && issuer in states[i].successes && issuer in states[i + 1].successes && issuer in states[i + 1].refreshed
      && states[i + 1].successes[issuer] == states[i].successes[issuer] + [states[i].clock]
      && states[i + 1].refreshed[issuer] == states[i].clock
  {
    assert StepAt(c, states, actions, i);
  }

  // ---------------------------------------------------------------- how many refreshes fit in a window

  ghost function Within(times: seq<int>, from: int, length: nat): set<int> {
    set k | 0 <= k < |times| && from <= times[k] <= from + length
  }

  lemma {:induction false} SpacedDistance(c: Config, times: seq<int>, i: nat, j: nat)
    requires c.minTTL >= 0 && Spaced(c, times) && i <= j < |times|
    ensures times[j] - times[i] >= (j - i) * c.minTTL
    decreases j
  {
    if i < j {
      SpacedDistance(c, times, i, j - 1);
      assert (j - i) * c.minTTL == (j - 1 - i) * c.minTTL + c.minTTL;
    }
  }

  ghost function Range(lo: int, n: nat): set<int> {
    if n == 0 then {} else Range(lo, n - 1) + {lo + n - 1}
  }

  lemma {:induction false} RangeMeaning(lo: int, n: nat)
    ensures |Range(lo, n)| == n
    ensures forall k :: k in Range(lo, n) <==> lo <= k < lo + n
  {
    if n > 0 { RangeMeaning(lo, n - 1); }
  }

  lemma MulMonotone(a: int, b: int, unit: int)
    requires a <= b && unit > 0
    ensures a * unit <= b * unit
  {
    assert (b - a) * unit >= 0;
  }

  lemma QuotientBound(steps: nat, unit: int, length: nat)
    requires unit > 0 && steps * unit <= length
    ensures steps <= length / unit
  {
    var q := length / unit;
    assert length < (q + 1) * unit;
    if steps >= q + 1 { MulMonotone(q + 1, steps, unit); }
  }

  /** Any window holds at most one more successful refresh of an issuer than the times `minTTL` fits in it. */
  lemma RefreshesPerWindow(c: Config, states: seq<State>, actions: seq<Action>, i: nat, issuer: string,
                           from: int, length: nat)
    requires c.minTTL > 0 && IsRun(c, states, actions) && i < |states| && issuer in states[i].successes
    ensures |Within(states[i].successes[issuer], from, length)| <= length / c.minTTL + 1
  {
    RunInv(c, states, actions, i);
    assert IssuerTimesOk(c, states[i].clock, states[i].successes[issuer], states[i].refreshed[issuer]);
    SpacedWindow(c, states[i].successes[issuer], from, length);
  }

  lemma SpacedWindow(c: Config, times: seq<int>, from: int, length: nat)
    requires c.minTTL > 0 && Spaced(c, times)
    ensures |Within(times, from, length)| <= length / c.minTTL + 1
  {
    var first := 0;
    while first < |times| && times[first] < from
      invariant first <= |times| && forall k :: 0 <= k < first ==> times[k] < from
    {
      first := first + 1;
    }
    var n := length / c.minTTL + 1;
    RangeMeaning(first, n);
    forall k | k in Within(times, from, length) ensures k in Range(first, n) {
      SpacedDistance(c, times, first, k);
      QuotientBound(k - first, c.minTTL, length);
    }
    SubsetSize(Within(times, from, length), Range(first, n));
  }

  lemma SubsetSize(a: set<int>, b: set<int>)
    requires a <= b
    ensures |a| <= |b|
  {
    assert b == a + (b - a) && |b| == |a| + |b - a|;
  }

  // ---------------------------------------------------------------- the cache object

  datatype Answer = Found(key: Key) | BadIssuer | LoadError | BadKey

  /** The cache and its operations without interference.  `now` is the time of the call, `loaded` what a load of the key
      set brings, and `done` the time when it is finished. */
  class Cache {
    const trusted: set<string>
    const minTTL: int
    const maxTTL: int
    var entries: map<Tag, Key>
    var refreshed: map<string, int>

    constructor (trusted: set<string>, minTTL: int, maxTTL: int)
      ensures this.trusted == trusted && this.minTTL == minTTL && this.maxTTL == maxTTL
      ensures Valid() && entries == map[] && forall issuer <- trusted :: refreshed[issuer] == 0
    {
      this.trusted, this.minTTL, this.maxTTL := trusted, minTTL, maxTTL;
      entries := map[];
      refreshed := map issuer | issuer in trusted :: 0;
    }

    predicate Valid()
      reads this
    {
      refreshed.Keys == trusted && forall tag <- entries :: tag.issuer in trusted
    }

    /** A refresh that the throttle stops succeeds and changes nothing; a failed load changes nothing either. */
    method Refresh(issuer: string, now: int, loaded: Option<seq<KeyData>>, done: int) returns (ok: bool)
      requires Valid() && issuer in trusted
      modifies this`entries, this`refreshed
      ensures Valid()
      ensures var stamp := old(refreshed)[issuer];
        var starts := minTTL < MAX_DURATION && (stamp == 0 || now - stamp > minTTL);
        && (ok <==> !starts || loaded.Some?)
        && (!(starts && loaded.Some?) ==> unchanged(this))
        && (starts && loaded.Some? ==>
              && entries == Replaced(old(entries), issuer, KeysOf(loaded.value))
              && refreshed == old(refreshed)[issuer := done])
    {
      if AgeAt(now, refreshed[issuer]) <= minTTL { return true; }
      if loaded.None? { return false; }
      var keys := ReadKeys(loaded.value);
      ReplaceEntries(issuer, keys);
      refreshed := refreshed[issuer := done];
      return true;
    }

    /** A cached key is returned at once, however old; a missing one is looked for again after a refresh. */
    method Get(issuer: string, kid: string, now: int, loaded: Option<seq<KeyData>>, done: int)
      returns (answer: Answer, background: bool)
      requires Valid()
      modifies this`entries, this`refreshed
      ensures Valid() && (answer == BadIssuer <==> issuer !in trusted)
      ensures var tag := Tag(issuer, kid);
        var stamp := if issuer in trusted then old(refreshed)[issuer] else 0;
        var loads := issuer in trusted && tag !in old(entries) && minTTL < MAX_DURATION &&
          (stamp == 0 || now - stamp > minTTL);
        && (answer.Found? || answer.BadKey? ==>
              answer == if tag in entries then Found(entries[tag]) else BadKey)
        && (tag in old(entries) ==> answer.Found?)
        && (answer == LoadError <==> loads && loaded.None?)
        && (background <==> tag in old(entries) && 0 < maxTTL < MAX_DURATION && (stamp == 0 || now - stamp > maxTTL))
        && (loads && loaded.Some? ==>
              && entries == Replaced(old(entries), issuer, KeysOf(loaded.value))
              && refreshed == old(refreshed)[issuer := done])
        && (!(loads && loaded.Some?) ==> unchanged(this))
    {
      background := false;
      if issuer !in trusted { return BadIssuer, false; }
      var key := GetEntry(issuer, kid);
      if key.Some? {
        background := maxTTL > 0 && AgeAt(now, refreshed[issuer]) > maxTTL;
        return Found(key.value), background;
      }
      var ok := Refresh(issuer, now, loaded, done);
      if !ok { return LoadError, false; }
      key := GetEntry(issuer, kid);
      if key.Some? { return Found(key.value), false; }
      return BadKey, false;
    }

    method ReadKeys(data: seq<KeyData>) returns (keys: map<string, Key>)
      ensures keys == KeysOf(data)
    {
      keys := map[];
      for i := 0 to |data|
        invariant keys == KeysOf(data[..i])
      {
        assert data[..i + 1][..i] == data[..i];
        if data[i].kid == "" { continue; }
        if data[i].parsed.None? { continue; }
        keys := keys[data[i].kid := data[i].parsed.value];
      }
      assert data[..|data|] == data;
    }

    method GetEntry(issuer: string, kid: string) returns (key: Option<Key>)
      ensures key == if Tag(issuer, kid) in entries then Some(entries[Tag(issuer, kid)]) else None
    {
      if Tag(issuer, kid) in entries { key := Some(entries[Tag(issuer, kid)]); } else { key := None; }
    }

    /** Removes all the entries of the issuer, visiting the map in any order. */
    method DeleteEntries(issuer: string)
      modifies this`entries
      ensures entries == map tag | tag in old(entries) && tag.issuer != issuer :: old(entries)[tag]
    {
      var pending := entries.Keys;
      while pending != {}
        invariant pending <= entries.Keys <= old(entries).Keys
        invariant forall tag <- entries :: entries[tag] == old(entries)[tag]
        invariant forall tag <- old(entries) :: tag.issuer != issuer ==> tag in entries
        invariant forall tag <- entries.Keys - pending :: tag.issuer != issuer
        decreases pending
      {
        var tag :| tag in pending;
        if tag.issuer == issuer { entries := entries - {tag}; }
        pending := pending - {tag};
      }
    }

    method ReplaceEntries(issuer: string, keys: map<string, Key>)
      modifies this`entries
      ensures entries == Replaced(old(entries), issuer, keys)
    {
      DeleteEntries(issuer);
      InsertEntries(issuer, keys);
    }

    method InsertEntries(issuer: string, keys: map<string, Key>)
      modifies this`entries
      ensures entries == old(entries) + map kid | kid in keys :: Tag(issuer, kid) := keys[kid]
    {
      var pending := keys.Keys;
      while pending != {}
        invariant pending <= keys.Keys && entries == Inserted(old(entries), issuer, keys, keys.Keys - pending)
        decreases pending
      {
        var kid :| kid in pending;
        InsertedNext(old(entries), issuer, keys, keys.Keys - pending, kid);
        assert keys.Keys - pending + {kid} == keys.Keys - (pending - {kid});
        entries := entries[Tag(issuer, kid) := keys[kid]];
        pending := pending - {kid};
      }
      assert keys.Keys - pending == keys.Keys;
    }
  }

  /** The cache after adding some of the keys. */
  function Inserted(cache: map<Tag, Key>, issuer: string, keys: map<string, Key>, done: set<string>): map<Tag, Key>
    requires done <= keys.Keys
  {
    cache + map kid | kid in done :: Tag(issuer, kid) := keys[kid]
  }

  lemma InsertedNext(cache: map<Tag, Key>, issuer: string, keys: map<string, Key>, done: set<string>, kid: string)
    requires done <= keys.Keys && kid in keys
    ensures Inserted(cache, issuer, keys, done + {kid}) ==
      Inserted(cache, issuer, keys, done)[Tag(issuer, kid) := keys[kid]]
  {
  }
}
