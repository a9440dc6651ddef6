/** The console session manager as a concurrent protocol (internal/console/manager.go).

    Every thread that is inside `Connect`, `Close` or `CancelSessions` has a program counter.  A step executes the code
    between two points where another thread can interfere: the mutex is explicit, and everything outside the locked
    regions (the cancel of an evicted session, the backend dial, the final cancel) interleaves freely.  Contexts may
    also be cancelled at any moment by their timeout or by their parent. */
module ConsoleSessions {
  import opened Wrappers

  type Tid = nat
  type Sid = nat

  datatype Session = Session(key: string, user: string, client: string)

  // ---------------------------------------------------------------- the locked regions as functions

  /** What `Connect` decides about a key while it holds the lock. */
  datatype Admission = Vacant | Evict(stale: Sid) | Refuse(existing: Sid)

  function Admit(sessions: map<string, Sid>, table: map<Sid, Session>, request: Session): Admission {
    if request.key !in sessions then Vacant
    else
      var existing := sessions[request.key];
      if request.client != "" && existing in table && table[existing].client == request.client &&
         table[existing].user == request.user
      then Evict(existing) else Refuse(existing)
  }

  /** `removeSession`: only the owner is removed. */
  function Unregister(sessions: map<string, Sid>, key: string, owner: Sid): map<string, Sid> {
    if key in sessions && sessions[key] == owner then sessions - {key} else sessions
  }

  // ---------------------------------------------------------------- states

  datatype Pc =
    | ConnectAtLock(request: Session)
    | Deciding(request: Session)                     // holds the lock, about to look the key up
    | Inserting(request: Session, victim: Option<Sid>)  // holds the lock, the slot is vacant
    | Inserted(sid: Sid, victim: Option<Sid>)           // holds the lock, about to release it
    | Evicting(sid: Sid, victim: Option<Sid>)           // about to cancel the evicted session
    | Dialing(sid: Sid)
    | LeaveAtLock(sid: Sid, closing: bool)           // failed dial or Close, about to lock
    | Leaving(sid: Sid, closing: bool)               // holds the lock in removeSession
    | Left(sid: Sid, closing: bool)                  // holds the lock, about to release it
    | Cancelling(sid: Sid, closing: bool)            // about to cancel its own session
    | SweepAtLock
    | Sweeping(todo: set<Sid>)                       // holds the lock in CancelSessions

  /** `table` remembers every session ever created; `connected`, `failed` and `closed` the fate of its connection
      (`closed` is the state of `closeOnce`). */
  datatype State = State(
    lock: Option<Tid>,
    sessions: map<string, Sid>,
    table: map<Sid, Session>,
    cancelled: set<Sid>,
    connected: set<Sid>,
    failed: set<Sid>,
    closed: set<Sid>,
    pcs: map<Tid, Pc>)

  const INIT := State(None, map[], map[], {}, {}, {}, {}, map[])

  predicate HoldsLock(pc: Pc) {
    pc.Deciding? || pc.Inserting? || pc.Inserted? || pc.Leaving? || pc.Left? || pc.Sweeping?
  }

  /** The thread will cancel the session before it finishes. */
  predicate Owes(pc: Pc, sid: Sid) {
    match pc
    case Inserting(_, victim) => victim == Some(sid)
    case Inserted(_, victim) => victim == Some(sid)
    case Evicting(_, victim) => victim == Some(sid)
    case LeaveAtLock(own, _) => own == sid
    case Leaving(own, _) => own == sid
    case Left(own, _) => own == sid
    case Cancelling(own, _) => own == sid
    case _ => false
  }

  predicate InMap(s: State, sid: Sid) {
    sid in s.table && s.table[sid].key in s.sessions && s.sessions[s.table[sid].key] == sid
  }

  ghost predicate Owed(s: State, sid: Sid) {
    exists t <- s.pcs :: Owes(s.pcs[t], sid)
  }

  ghost predicate Live(s: State, sid: Sid) {
    sid in s.table && sid !in s.cancelled && !Owed(s, sid)
  }

  // ---------------------------------------------------------------- steps

  datatype Action =
    | CallConnect(t: Tid, request: Session)
    | CallClose(t: Tid, sid: Sid)
    | CallCancelSessions(t: Tid)
    | Acquire(t: Tid)
    | Decide(t: Tid)
    | Insert(t: Tid, sid: Sid)
    | Release(t: Tid)
    | CancelEvicted(t: Tid)
    | DialSucceeds(t: Tid)
    | DialFails(t: Tid)
    | RemoveOwn(t: Tid)
    | CancelOwn(t: Tid)
    | SweepOne(t: Tid, sid: Sid)
    | Expire(sid: Sid)

  predicate Enabled(s: State, a: Action) {
    match a
    case CallConnect(t, request) => t !in s.pcs && request.key != ""
    case CallClose(t, sid) => t !in s.pcs && sid in s.connected
    case CallCancelSessions(t) => t !in s.pcs
    case Acquire(t) =>
      s.lock.None? && t in s.pcs && (s.pcs[t].ConnectAtLock? || s.pcs[t].LeaveAtLock? || s.pcs[t].SweepAtLock?)
    case Decide(t) => t in s.pcs && s.pcs[t].Deciding?
    case Insert(t, sid) => t in s.pcs && s.pcs[t].Inserting? && sid !in s.table
    case Release(t) =>
      t in s.pcs && (s.pcs[t].Inserted? || s.pcs[t].Left? || (s.pcs[t].Sweeping? && s.pcs[t].todo == {}))
    case CancelEvicted(t) => t in s.pcs && s.pcs[t].Evicting?
    case DialSucceeds(t) => t in s.pcs && s.pcs[t].Dialing?
    case DialFails(t) => t in s.pcs && s.pcs[t].Dialing?
    case RemoveOwn(t) => t in s.pcs && s.pcs[t].Leaving? && s.pcs[t].sid in s.table
    case CancelOwn(t) => t in s.pcs && s.pcs[t].Cancelling?
    case SweepOne(t, sid) => t in s.pcs && s.pcs[t].Sweeping? && sid in s.pcs[t].todo
    case Expire(sid) => sid in s.table
  }

  function Goto(s: State, t: Tid, pc: Pc): State { s.(pcs := s.pcs[t := pc]) }
  function Finish(s: State, t: Tid): State { s.(pcs := s.pcs - {t}) }

  function Do(s: State, a: Action): State
    requires Enabled(s, a)
  {
    match a
    case CallConnect(t, request) => Goto(s, t, ConnectAtLock(request))
    case CallClose(t, sid) =>
      if sid in s.closed then s else Goto(s, t, LeaveAtLock(sid, true)).(closed := s.closed + {sid})
    case CallCancelSessions(t) => Goto(s, t, SweepAtLock)
    case Acquire(t) =>
      var s' := s.(lock := Some(t));
      (match s.pcs[t]
       case ConnectAtLock(request) => Goto(s', t, Deciding(request))
       case LeaveAtLock(sid, closing) => Goto(s', t, Leaving(sid, closing))
       case SweepAtLock => Goto(s', t, Sweeping(s.sessions.Values)))
    case Decide(t) =>
      var request := s.pcs[t].request;
      (match Admit(s.sessions, s.table, request)
       case Vacant => Goto(s, t, Inserting(request, None))
       case Evict(stale) =>
         Goto(s, t, Inserting(request, Some(stale))).(sessions := s.sessions - {request.key})
       case Refuse(_) => Finish(s, t).(lock := None))
    case Insert(t, sid) =>
      var request := s.pcs[t].request;
      Goto(s, t, Inserted(sid, s.pcs[t].victim)).(
        table := s.table[sid := request], sessions := s.sessions[request.key := sid])
    case Release(t) =>
      var s' := s.(lock := None);
      (match s.pcs[t]
       case Inserted(sid, victim) => Goto(s', t, Evicting(sid, victim))
       case Left(sid, closing) => Goto(s', t, Cancelling(sid, closing))
       case Sweeping(_) => Finish(s', t))
    case CancelEvicted(t) =>
      var victim := s.pcs[t].victim;
      Goto(s, t, Dialing(s.pcs[t].sid)).(
        cancelled := if victim.Some? then s.cancelled + {victim.value} else s.cancelled)
    case DialSucceeds(t) => Finish(s, t).(connected := s.connected + {s.pcs[t].sid})
    case DialFails(t) => Goto(s, t, LeaveAtLock(s.pcs[t].sid, false)).(failed := s.failed + {s.pcs[t].sid})
    case RemoveOwn(t) =>
      var Leaving(sid, closing) := s.pcs[t];
      Goto(s, t, Left(sid, closing)).(sessions := Unregister(s.sessions, s.table[sid].key, sid))
    case CancelOwn(t) => Finish(s, t).(cancelled := s.cancelled + {s.pcs[t].sid})
    case SweepOne(t, sid) =>
      Goto(s, t, Sweeping(s.pcs[t].todo - {sid})).(cancelled := s.cancelled + {sid})
    case Expire(sid) => s.(cancelled := s.cancelled + {sid})
  }

  // ---------------------------------------------------------------- the invariant

  /** What a program counter says about the sessions it names. */
  predicate PcOk(s: State, pc: Pc) {
    match pc
    case ConnectAtLock(request) => request.key != ""
    case Deciding(request) => request.key != ""
    case Inserting(request, victim) =>
      request.key !in s.sessions && (victim.Some? ==> victim.value in s.table)
    case Inserted(sid, victim) => sid in s.table && (victim.Some? ==> victim.value in s.table)
    case Evicting(sid, victim) => sid in s.table && (victim.Some? ==> victim.value in s.table)
    case Dialing(sid) => sid in s.table && sid !in s.connected && sid !in s.failed
    case LeaveAtLock(sid, closing) => sid in s.table && (if closing then sid in s.closed else sid in s.failed)
    case Leaving(sid, closing) => sid in s.table && (if closing then sid in s.closed else sid in s.failed)
    case Left(sid, closing) =>
      sid in s.table && (if closing then sid in s.closed else sid in s.failed) && !InMap(s, sid)
    case Cancelling(sid, closing) =>
      sid in s.table && (if closing then sid in s.closed else sid in s.failed) && !InMap(s, sid)
    case SweepAtLock => true
    case Sweeping(todo) => forall key <- s.sessions :: s.sessions[key] in todo || s.sessions[key] in s.cancelled
  }

  /** The thread is still inside the `Connect` call that created the session, before its dial returned. */
  predicate Creates(pc: Pc, sid: Sid) {
    (pc.Inserted? || pc.Evicting? || pc.Dialing?) && pc.sid == sid
  }

  ghost predicate MutualExclusion(s: State) {
    && (s.lock.Some? ==> s.lock.value in s.pcs)
    && forall t <- s.pcs :: HoldsLock(s.pcs[t]) <==> s.lock == Some(t)
  }

  ghost predicate MapOk(s: State) {
    forall key <- s.sessions :: s.sessions[key] in s.table && s.table[s.sessions[key]].key == key
  }

  /** No session is forgotten: it is registered, cancelled, or some thread will cancel it. */
  ghost predicate NoneForgotten(s: State) {
    forall sid <- s.table :: InMap(s, sid) || sid in s.cancelled || Owed(s, sid)
  }

  ghost predicate PcsOk(s: State) {
    forall t <- s.pcs :: PcOk(s, s.pcs[t])
  }

  /** Each session has one creator, and its connection either was handed out or failed. */
  ghost predicate FatesOk(s: State) {
    && s.connected <= s.table.Keys && s.failed <= s.table.Keys
    && s.closed <= s.connected && s.connected !! s.failed
    && (forall t <- s.pcs, sid :: Creates(s.pcs[t], sid) ==> sid !in s.connected && sid !in s.failed)
    && (forall t, u, sid :: t in s.pcs && u in s.pcs && Creates(s.pcs[t], sid) && Creates(s.pcs[u], sid) ==> t == u)
  }

  ghost predicate Inv(s: State) {
    MutualExclusion(s) && MapOk(s) && NoneForgotten(s) && PcsOk(s) && FatesOk(s)
  }

  lemma InitInv()
    ensures Inv(INIT)
  {
  }

  lemma StepMutualExclusion(s: State, a: Action)
    requires Inv(s) && Enabled(s, a)
    ensures MutualExclusion(Do(s, a))
  {
  }

  lemma StepMapOk(s: State, a: Action)
    requires Inv(s) && Enabled(s, a)
    ensures MapOk(Do(s, a))
  {
  }

  function Actor(a: Action): Option<Tid> {
    if a.Expire? then None else Some(a.t)
  }

  lemma OthersUnmoved(s: State, a: Action, u: Tid)
    requires Enabled(s, a) && Actor(a) != Some(u)
    ensures u in Do(s, a).pcs <==> u in s.pcs
    ensures u in s.pcs ==> Do(s, a).pcs[u] == s.pcs[u]
  {
  }

  lemma StaysOut(s: State, a: Action, sid: Sid)
    requires Enabled(s, a) && sid in s.table && !InMap(s, sid)
    ensures sid in Do(s, a).table && !InMap(Do(s, a), sid)
  {
  }

  /** Nobody changes the map while another thread holds the lock. */
  lemma LockProtectsMap(s: State, a: Action, u: Tid)
    requires MutualExclusion(s) && Enabled(s, a) && u in s.pcs && HoldsLock(s.pcs[u]) && Actor(a) != Some(u)
    ensures Do(s, a).sessions == s.sessions
  {
  }

  /** The threads that do not take the step keep what their program counters promise. */
  lemma OtherPcsOk(s: State, a: Action, u: Tid)
    requires Inv(s) && Enabled(s, a) && u in s.pcs && Actor(a) != Some(u)
    ensures u in Do(s, a).pcs && Do(s, a).pcs[u] == s.pcs[u] && PcOk(Do(s, a), s.pcs[u])
  {
    var pc := s.pcs[u];
    OthersUnmoved(s, a, u);
    if HoldsLock(pc) { LockProtectsMap(s, a, u); }
    if pc.Left? || pc.Cancelling? { StaysOut(s, a, pc.sid); }
    assert PcOk(s, pc);
    if a.DialSucceeds? || a.DialFails? {
      assert Creates(s.pcs[a.t], s.pcs[a.t].sid);
      if pc.Dialing? { assert Creates(pc, pc.sid); }
    }
  }

  lemma ActorPcOk(s: State, a: Action)
    requires Inv(s) && Enabled(s, a) && Actor(a).Some? && a.t in Do(s, a).pcs
    ensures PcOk(Do(s, a), Do(s, a).pcs[a.t])
  {
    if a.t in s.pcs { assert PcOk(s, s.pcs[a.t]); }
    if a.CancelEvicted? { assert Creates(s.pcs[a.t], s.pcs[a.t].sid); }
  }

  lemma StepPcsOk(s: State, a: Action)
    requires Inv(s) && Enabled(s, a)
    ensures PcsOk(Do(s, a))
  {
    var s' := Do(s, a);
    forall u | u in s'.pcs ensures PcOk(s', s'.pcs[u]) {
      if Actor(a) == Some(u) { ActorPcOk(s, a); } else { OtherPcsOk(s, a, u); }
    }
  }

  lemma CreatorsComeFromInsert(s: State, a: Action, u: Tid, sid: Sid)
    requires Inv(s) && Enabled(s, a) && u in Do(s, a).pcs && Creates(Do(s, a).pcs[u], sid)
    ensures (u in s.pcs && Creates(s.pcs[u], sid)) || a == Insert(u, sid)
  {
  }

  lemma CreatorIsUndecided(s: State, a: Action, u: Tid, sid: Sid)
    requires Inv(s) && Enabled(s, a) && u in Do(s, a).pcs && Creates(Do(s, a).pcs[u], sid)
    ensures sid !in Do(s, a).connected && sid !in Do(s, a).failed
  {
    CreatorsComeFromInsert(s, a, u, sid);
    if a.DialSucceeds? || a.DialFails? { assert Creates(s.pcs[a.t], s.pcs[a.t].sid); }
  }

  lemma StepFatesOk(s: State, a: Action)
    requires Inv(s) && Enabled(s, a)
    ensures FatesOk(Do(s, a))
  {
    var s' := Do(s, a);
    forall u, sid | u in s'.pcs && Creates(s'.pcs[u], sid) ensures sid !in s'.connected && sid !in s'.failed {
      CreatorIsUndecided(s, a, u, sid);
    }
    forall t, u, sid | t in s'.pcs && u in s'.pcs && Creates(s'.pcs[t], sid) && Creates(s'.pcs[u], sid)
      ensures t == u
    {
      CreatorsComeFromInsert(s, a, t, sid);
      CreatorsComeFromInsert(s, a, u, sid);
      if t in s.pcs { assert PcOk(s, s.pcs[t]); }
      if u in s.pcs { assert PcOk(s, s.pcs[u]); }
    }
    StepFateSets(s, a);
  }

  lemma StepFateSets(s: State, a: Action)
    requires Inv(s) && Enabled(s, a)
    ensures var s' := Do(s, a);
      && s'.connected <= s'.table.Keys && s'.failed <= s'.table.Keys
      && s'.closed <= s'.connected && s'.connected !! s'.failed
  {
    if Actor(a).Some? && a.t in s.pcs {
      assert PcOk(s, s.pcs[a.t]);
      assert a.DialSucceeds? || a.DialFails? ==> Creates(s.pcs[a.t], s.pcs[a.t].sid);
    }
  }

  lemma OwedPersists(s: State, a: Action, sid: Sid)
    requires Inv(s) && Enabled(s, a) && Owed(s, sid)
    ensures Owed(Do(s, a), sid) || sid in Do(s, a).cancelled
  {
    var u :| u in s.pcs && Owes(s.pcs[u], sid);
    if u in Do(s, a).pcs && Owes(Do(s, a).pcs[u], sid) {
    } else {
      assert sid in Do(s, a).cancelled;
    }
  }

  /** A session that leaves the map in a step is from then on owed a cancel by the thread that took the step. */
  lemma LeavesOwed(s: State, a: Action, sid: Sid)
    requires Inv(s) && Enabled(s, a) && InMap(s, sid) && !InMap(Do(s, a), sid)
    ensures Actor(a).Some? && a.t in Do(s, a).pcs && Owes(Do(s, a).pcs[a.t], sid)
  {
    if Actor(a).Some? && a.t in s.pcs { assert PcOk(s, s.pcs[a.t]); }
  }

  lemma StepNoneForgotten(s: State, a: Action)
    requires Inv(s) && Enabled(s, a)
    ensures NoneForgotten(Do(s, a))
  {
    var s' := Do(s, a);
    forall sid | sid in s'.table ensures InMap(s', sid) || sid in s'.cancelled || Owed(s', sid) {
      if sid in s.table {
        if Owed(s, sid) { OwedPersists(s, a, sid); }
        else if InMap(s, sid) && !InMap(s', sid) { LeavesOwed(s, a, sid); }
      }
    }
  }

  lemma StepInv(s: State, a: Action)
    requires Inv(s) && Enabled(s, a)
    ensures Inv(Do(s, a))
  {
    StepMutualExclusion(s, a);
    StepMapOk(s, a);
    StepPcsOk(s, a);
    StepFatesOk(s, a);
    StepNoneForgotten(s, a);
  }

  // ---------------------------------------------------------------- runs

  /** A run: the states it goes through and the actions between them, in any interleaving of any threads. */
  ghost predicate IsRun(states: seq<State>, actions: seq<Action>) {
    && |states| == |actions| + 1 && states[0] == INIT
    && forall i {:trigger StepAt(states, actions, i)} :: 0 <= i < |actions| ==> StepAt(states, actions, i)
  }

  ghost predicate StepAt(states: seq<State>, actions: seq<Action>, i: nat)
    requires |states| == |actions| + 1 && i < |actions|
  {
    Enabled(states[i], actions[i]) && states[i + 1] == Do(states[i], actions[i])
  }

  lemma {:induction false} RunInv(states: seq<State>, actions: seq<Action>, i: nat)
    requires IsRun(states, actions) && i < |states|
    ensures Inv(states[i])
    decreases i
  {
    if i > 0 {
      assert StepAt(states, actions, i - 1);
      RunInv(states, actions, i - 1);
      StepInv(states[i - 1], actions[i - 1]);
    }
  }

  /** In every reachable state a console has at most one session that is neither cancelled nor about to be. */
  lemma AtMostOneLiveSession(states: seq<State>, actions: seq<Action>, i: nat, a: Sid, b: Sid)
    requires IsRun(states, actions) && i < |states|
    requires Live(states[i], a) && Live(states[i], b) && states[i].table[a].key == states[i].table[b].key
    ensures a == b
  {
    RunInv(states, actions, i);
    assert InMap(states[i], a) && InMap(states[i], b);
  }

  /** When nobody is inside `Connect`, `Close` or `CancelSessions`, exactly the registered sessions may be
      uncancelled. */
  lemma QuietStateHasNoStrays(states: seq<State>, actions: seq<Action>, i: nat, sid: Sid)
    requires IsRun(states, actions) && i < |states|
    requires states[i].pcs == map[] && sid in states[i].table && !InMap(states[i], sid)
    ensures sid in states[i].cancelled
  {
    RunInv(states, actions, i);
    assert !Owed(states[i], sid);
  }

  /** What happens to a request that has the lock: a free console is given to it; a session of the same user with
      the same non-empty client makes way for it; any other session keeps the console. */
  lemma AdmissionIff(states: seq<State>, actions: seq<Action>, i: nat, t: Tid)
    requires IsRun(states, actions) && i < |actions| && actions[i] == Decide(t)
    requires t in states[i].pcs && states[i].pcs[t].Deciding?
    ensures var s, s' := states[i], states[i + 1];
      var request := s.pcs[t].request;
      && (request.key !in s.sessions ==>
            s' == s.(pcs := s.pcs[t := Inserting(request, None)]))
      && (request.key in s.sessions ==>
            var existing := s.sessions[request.key];
            && existing in s.table && s.table[existing].key == request.key
            && (if request.client != "" && s.table[existing] == request then
                  s' == s.(pcs := s.pcs[t := Inserting(request, Some(existing))],
                           sessions := s.sessions - {request.key})
                else
                  s' == s.(pcs := s.pcs - {t}, lock := None)))
  {
    assert StepAt(states, actions, i);
    RunInv(states, actions, i);
  }

  /** A session leaves the map only by its own failed dial, by its own Close, or because the same user came back
      with the same non-empty client identifier. */
  lemma RemovalHasACause(states: seq<State>, actions: seq<Action>, i: nat, sid: Sid)
    requires IsRun(states, actions) && i < |actions| && InMap(states[i], sid) && !InMap(states[i + 1], sid)
    ensures var s, a := states[i], actions[i];
      && Actor(a).Some? && a.t in s.pcs
      && (|| (a.RemoveOwn? && s.pcs[a.t] == Leaving(sid, false) && sid in s.failed)
          || (a.RemoveOwn? && s.pcs[a.t] == Leaving(sid, true) && sid in s.closed)
          || (a.Decide? && s.pcs[a.t] == Deciding(s.table[sid]) && s.table[sid].client != ""))
  {
    assert StepAt(states, actions, i);
    RunInv(states, actions, i);
    var s, a := states[i], actions[i];
    if Actor(a).Some? && a.t in s.pcs { assert PcOk(s, s.pcs[a.t]); }
  }

  /** A session that has left the map never returns to it. */
  lemma {:induction false} RemovalIsFinal(states: seq<State>, actions: seq<Action>, i: nat, j: nat, sid: Sid)
    requires IsRun(states, actions) && i <= j < |states| && sid in states[i].table && !InMap(states[i], sid)
    ensures sid in states[j].table && !InMap(states[j], sid)
    decreases j
  {
    if i < j {
      RemovalIsFinal(states, actions, i, j - 1, sid);
      assert StepAt(states, actions, j - 1);
      StaysOut(states[j - 1], actions[j - 1], sid);
    }
  }

  /** The late Close of an evicted session removes nothing, in particular not its successor. */
  lemma LateCloseIsHarmless(states: seq<State>, actions: seq<Action>, i: nat, j: nat, sid: Sid, t: Tid)
    requires IsRun(states, actions) && i <= j < |actions| && sid in states[i].table && !InMap(states[i], sid)
    requires actions[j] == RemoveOwn(t) && t in states[j].pcs && states[j].pcs[t] == Leaving(sid, true)
    ensures states[j + 1].sessions == states[j].sessions
  {
    RemovalIsFinal(states, actions, i, j, sid);
    assert StepAt(states, actions, j);
  }

  /** The session that a thread is about to evict, or has evicted, is of the same console, user and non-empty client as
      the one that takes its place. */
  predicate VictimOk(s: State, pc: Pc) {
    match pc
    case Inserting(request, Some(victim)) =>
      victim in s.table && s.table[victim] == request && request.client != ""
    case Inserted(sid, Some(victim)) => Succeeds(s, sid, victim)
    case Evicting(sid, Some(victim)) => Succeeds(s, sid, victim)
    case _ => true
  }

  predicate Succeeds(s: State, sid: Sid, victim: Sid) {
    sid in s.table && victim in s.table && victim != sid && s.table[victim] == s.table[sid] && s.table[sid].client != ""
  }

  lemma StepVictimOk(s: State, a: Action, t: Tid)
    requires MapOk(s) && Enabled(s, a) && t in Do(s, a).pcs && (t in s.pcs ==> VictimOk(s, s.pcs[t]))
    ensures VictimOk(Do(s, a), Do(s, a).pcs[t])
  {
    if Actor(a) != Some(t) { OthersUnmoved(s, a, t); }
  }

  lemma {:induction false} VictimsAreOk(states: seq<State>, actions: seq<Action>, i: nat, t: Tid)
    requires IsRun(states, actions) && i < |states| && t in states[i].pcs
    ensures VictimOk(states[i], states[i].pcs[t])
    decreases i
  {
    assert i > 0;
    assert StepAt(states, actions, i - 1);
    RunInv(states, actions, i - 1);
    if t in states[i - 1].pcs { VictimsAreOk(states, actions, i - 1, t); }
    StepVictimOk(states[i - 1], actions[i - 1], t);
  }

  /** A session is cancelled only by its own expiration, its own failed dial or Close, the sweep, or the eviction by
      another session of the same console, user and non-empty client. */
  lemma CancelHasACause(states: seq<State>, actions: seq<Action>, i: nat, sid: Sid)
    requires IsRun(states, actions) && i < |actions|
    requires sid !in states[i].cancelled && sid in states[i + 1].cancelled
    ensures var s, a := states[i], actions[i];
      || a == Expire(sid)
      || (a.SweepOne? && a.sid == sid)
      || (a.CancelOwn? && a.t in s.pcs && s.pcs[a.t] == Cancelling(sid, false) && sid in s.failed)
      || (a.CancelOwn? && a.t in s.pcs && s.pcs[a.t] == Cancelling(sid, true) && sid in s.closed)
      || (a.CancelEvicted? && a.t in s.pcs && s.pcs[a.t].Evicting? && Succeeds(s, s.pcs[a.t].sid, sid))
  {
    assert StepAt(states, actions, i);
    RunInv(states, actions, i);
    var s, a := states[i], actions[i];
    if Actor(a).Some? && a.t in s.pcs {
      assert PcOk(s, s.pcs[a.t]);
      VictimsAreOk(states, actions, i, a.t);
    }
  }

  /** Once `CancelSessions` lets the lock go, every registered session is cancelled. */
  lemma SweepCancelsAll(states: seq<State>, actions: seq<Action>, i: nat, t: Tid, key: string)
    requires IsRun(states, actions) && i < |actions| && actions[i] == Release(t)
    requires t in states[i].pcs && states[i].pcs[t].Sweeping?
    requires key in states[i + 1].sessions
    ensures states[i + 1].sessions[key] in states[i + 1].cancelled
  {
    assert StepAt(states, actions, i);
    RunInv(states, actions, i);
    assert PcOk(states[i], states[i].pcs[t]);
  }

  /** A session is closed at most once: two threads are never inside the Close of the same connection. */
  ghost predicate Closes(pc: Pc, sid: Sid) {
    (pc.LeaveAtLock? || pc.Leaving? || pc.Left? || pc.Cancelling?) && pc.closing && pc.sid == sid
  }

  lemma {:induction false} CloseRunsOnce(states: seq<State>, actions: seq<Action>, i: nat, sid: Sid, t: Tid, u: Tid)
    requires IsRun(states, actions) && i < |states| && t in states[i].pcs && u in states[i].pcs
    requires Closes(states[i].pcs[t], sid) && Closes(states[i].pcs[u], sid)
    ensures t == u
    decreases i
  {
    if i > 0 {
      var s, a := states[i - 1], actions[i - 1];
      RunClosesBefore(states, actions, i - 1, t, sid);
      RunClosesBefore(states, actions, i - 1, u, sid);
      if t in s.pcs && Closes(s.pcs[t], sid) && u in s.pcs && Closes(s.pcs[u], sid) {
        CloseRunsOnce(states, actions, i - 1, sid, t, u);
      }
    }
  }

  lemma {:induction false} StaysClosed(states: seq<State>, actions: seq<Action>, i: nat, j: nat, sid: Sid)
    requires IsRun(states, actions) && i <= j < |states| && sid in states[i].closed
    ensures sid in states[j].closed
    decreases j
  {
    if i < j {
      StaysClosed(states, actions, i, j - 1, sid);
      assert StepAt(states, actions, j - 1);
    }
  }

  /** Closing a connection again, at any later time, changes nothing. */
  lemma SecondCloseChangesNothing(states: seq<State>, actions: seq<Action>, i: nat, j: nat, t: Tid, u: Tid, sid: Sid)
    requires IsRun(states, actions) && i < j < |actions|
    requires actions[i] == CallClose(t, sid) && actions[j] == CallClose(u, sid)
    ensures states[j + 1] == states[j]
  {
    assert StepAt(states, actions, i);
    StaysClosed(states, actions, i + 1, j, sid);
    assert StepAt(states, actions, j);
  }

  lemma RunClosesBefore(states: seq<State>, actions: seq<Action>, i: nat, t: Tid, sid: Sid)
    requires IsRun(states, actions) && i < |actions|
    requires t in states[i + 1].pcs && Closes(states[i + 1].pcs[t], sid)
    ensures var s := states[i];
      || (actions[i] == CallClose(t, sid) && sid !in s.closed)
      || (t in s.pcs && Closes(s.pcs[t], sid) && sid in s.closed)
  {
    assert StepAt(states, actions, i);
    RunInv(states, actions, i);
    ClosesBefore(states[i], actions[i], t, sid);
  }

  lemma ClosesBefore(s: State, a: Action, t: Tid, sid: Sid)
    requires PcsOk(s) && Enabled(s, a) && t in Do(s, a).pcs && Closes(Do(s, a).pcs[t], sid)
    ensures (a == CallClose(t, sid) && sid !in s.closed) || (t in s.pcs && Closes(s.pcs[t], sid) && sid in s.closed)
  {
    if Actor(a) != Some(t) { OthersUnmoved(s, a, t); }
    if t in s.pcs { assert PcOk(s, s.pcs[t]); }
  }

  // ---------------------------------------------------------------- the manager

  datatype Outcome = Connected(sid: Sid) | NoUri | UnsupportedType | SessionExists(existing: Sid) | DialError

  /** The manager's own fields and methods.  The methods below are the sequential code of the locked regions and of the
      calls around them; the steps of the protocol use the same `Admit` and `Unregister`. */
  class Manager {
    const backends: set<string>
    var sessions: map<string, Sid>
    var table: map<Sid, Session>
    var cancelled: set<Sid>

    constructor (backends: set<string>)
      ensures this.backends == backends && sessions == map[] && table == map[] && cancelled == {}
    {
      this.backends := backends;
      sessions, table, cancelled := map[], map[], {};
    }

    /** Admission under the lock: refuses, or evicts and registers the new session. */
    method Register(request: Session, sid: Sid) returns (refused: Option<Sid>, victim: Option<Sid>)
      requires sid !in table
      modifies this`sessions, this`table
      ensures request.key !in old(sessions) ==> refused.None? && victim.None?
      ensures request.key in old(sessions) ==>
        var existing := old(sessions)[request.key];
        if request.client != "" && existing in old(table) &&
           old(table)[existing].client == request.client && old(table)[existing].user == request.user
        then refused.None? && victim == Some(existing)
        else refused == Some(existing) && victim.None?
      ensures refused.Some? ==> sessions == old(sessions) && table == old(table)
      ensures refused.None? ==> sessions == old(sessions)[request.key := sid] && table == old(table)[sid := request]
    {
      refused, victim := None, None;
      if request.key in sessions {
        var existing := sessions[request.key];
        if request.client != "" && existing in table && table[existing].client == request.client &&
           table[existing].user == request.user
        {
          victim := Some(existing);
          sessions := sessions - {request.key};
        } else {
          refused := Some(existing);
          return;
        }
      }
      table := table[sid := request];
      sessions := sessions[request.key := sid];
    }

    method RemoveSession(key: string, owner: Sid)
      modifies this`sessions
      ensures sessions == Unregister(old(sessions), key, owner)
    {
      if key in sessions && sessions[key] == owner { sessions := sessions - {key}; }
    }

    method Cancel(sid: Sid)
      modifies this`cancelled
      ensures cancelled == old(cancelled) + {sid}
    {
      cancelled := cancelled + {sid};
    }

    /** The call without interference.  Only another user or client, or one without client identifier, is refused; a
        failed dial leaves the map as if the evicted session had just ended. */
    method Connect(uri: string, resourceType: string, user: string, client: string, sid: Sid, dialSucceeds: bool)
      returns (outcome: Outcome)
      requires sid !in table
      modifies this`sessions, this`table, this`cancelled
      ensures var request := Session(uri, user, client);
        var taken := uri in old(sessions);
        var evicts := taken && client != "" && old(sessions)[uri] in old(table) &&
          old(table)[old(sessions)[uri]].client == client && old(table)[old(sessions)[uri]].user == user;
        var evicted := if evicts then {old(sessions)[uri]} else {};
        if uri == "" then outcome == NoUri && unchanged(this)
        else if resourceType !in backends then outcome == UnsupportedType && unchanged(this)
        else if taken && !evicts then outcome == SessionExists(old(sessions)[uri]) && unchanged(this)
        else
          && table == old(table)[sid := request]
          && (if dialSucceeds then
                outcome == Connected(sid) && sessions == old(sessions)[uri := sid] &&
                cancelled == old(cancelled) + evicted
              else
                outcome == DialError && sessions == old(sessions) - {uri} &&
                cancelled == old(cancelled) + evicted + {sid})
    {
      if uri == "" { return NoUri; }
      if resourceType !in backends { return UnsupportedType; }
      var refused, victim := Register(Session(uri, user, client), sid);
      if refused.Some? { return SessionExists(refused.value); }
      if victim.Some? { Cancel(victim.value); }
      if !dialSucceeds {
        RemoveSession(uri, sid);
        Cancel(sid);
        return DialError;
      }
      return Connected(sid);
    }

    /** Cancels every registered session, one after the other in any order, and removes none. */
    method CancelSessions()
      modifies this`cancelled
      ensures cancelled == old(cancelled) + sessions.Values
    {
      var todo := sessions.Keys;
      while todo != {}
        invariant todo <= sessions.Keys
        invariant old(cancelled) <= cancelled <= old(cancelled) + sessions.Values
        invariant forall key <- sessions.Keys - todo :: sessions[key] in cancelled
        decreases todo
      {
        var key :| key in todo;
        Cancel(sessions[key]);
        todo := todo - {key};
      }
    }
  }
}
