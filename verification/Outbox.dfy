/** The notification outbox: a notifier writes a row and a NOTIFY in the caller's transaction, a listener fetches the
    row by its identifier, and a cleaner deletes old rows (internal/database/database_notifier.go,
    internal/database/database_listener.go).

    PostgreSQL is modelled by what these files rely on: a NOTIFY reaches the connections that listen when, and only
    when, its transaction commits, in order; `now()` is the start of the transaction; statements of a transaction
    are invisible to others before it commits. */
module Outbox {
  import opened Wrappers

  type Xid = nat
  type Id = string

  /** One minute, in the microseconds of PostgreSQL timestamps. */
  const MINUTE := 60_000_000

  datatype Row = Row(payload: string, created: int)

  /** An open transaction: what it inserted and, in order, what it announced.  A failed statement dooms it. */
  datatype Tx = Tx(start: int, rows: map<Id, Row>, notes: seq<Id>, doomed: bool)

  /** The listener: without connection, or with the notifications its connection has received. */
  datatype Listener = Disconnected | Listening(queue: seq<Id>, taken: Option<Id>)

  datatype Delivery = Delivery(id: Id, payload: string)

  /** `cleanups` holds the `now()` of the deletions that are running.  `used`, `committed`, `discarded` and
      `delivered` are history: the identifiers ever generated, what was committed, what was rolled back, and the
      callback's calls. */
  datatype State = State(
    clock: int,
    txs: map<Xid, Tx>,
    rows: map<Id, Row>,
    listener: Listener,
    cleanups: set<int>,
    used: set<Id>,
    committed: map<Id, Row>,
    discarded: set<Id>,
    delivered: seq<Delivery>)

  datatype Action =
    | Tick(elapsed: nat)
    | Begin(x: Xid)
    | Notify(x: Xid, id: Id, payload: string)
    | NotifyFails(x: Xid)
    | Commit(x: Xid)
    | Rollback(x: Xid)
    | Connect
    | Disconnect
    | Take
    | Process
    | FetchFails
    | CleanupStarts
    | CleanupDeletes(since: int, ids: set<Id>)

  predicate Enabled(s: State, a: Action) {
    match a
    case Tick(_) => true
    case Begin(x) => x !in s.txs
    case Notify(x, id, _) => x in s.txs && !s.txs[x].doomed && id !in s.used
    case NotifyFails(x) => x in s.txs
    case Commit(x) => x in s.txs && !s.txs[x].doomed
    case Rollback(x) => x in s.txs
    case Connect => s.listener.Disconnected?
    case Disconnect => s.listener.Listening?
    case Take => s.listener.Listening? && s.listener.taken.None? && s.listener.queue != []
    case Process => s.listener.Listening? && s.listener.taken.Some?
    case FetchFails => s.listener.Listening? && s.listener.taken.Some?
    case CleanupStarts => true
    case CleanupDeletes(since, ids) =>
      since in s.cleanups && forall id <- ids :: id in s.rows && s.rows[id].created < since - MINUTE
  }

  function Do(s: State, a: Action): State
    requires Enabled(s, a)
  {
    match a
    case Tick(elapsed) => s.(clock := s.clock + elapsed)
    case Begin(x) => s.(txs := s.txs[x := Tx(s.clock, map[], [], false)])
    case Notify(x, id, payload) =>
      var tx := s.txs[x];
      s.(used := s.used + {id},
         txs := s.txs[x := tx.(rows := tx.rows[id := Row(payload, tx.start)], notes := tx.notes + [id])])
    case NotifyFails(x) => s.(txs := s.txs[x := s.txs[x].(doomed := true)])
    case Commit(x) =>
      var tx := s.txs[x];
      s.(txs := s.txs - {x}, rows := s.rows + tx.rows, committed := s.committed + tx.rows,
         listener := if s.listener.Listening? then s.listener.(queue := s.listener.queue + tx.notes) else s.listener)
    case Rollback(x) => s.(txs := s.txs - {x}, discarded := s.discarded + s.txs[x].rows.Keys)
    case Connect => s.(listener := Listening([], None))
    case Disconnect => s.(listener := Disconnected)
    case Take => s.(listener := Listening(s.listener.queue[1..], Some(s.listener.queue[0])))
    case Process =>
      var id := s.listener.taken.value;
      var s' := s.(listener := s.listener.(taken := None));
      if id in s.rows then s'.(delivered := s.delivered + [Delivery(id, s.rows[id].payload)]) else s'
    case FetchFails => s.(listener := s.listener.(taken := None))
    case CleanupStarts => s.(cleanups := s.cleanups + {s.clock})
    case CleanupDeletes(since, ids) => s.(cleanups := s.cleanups - {since}, rows := s.rows - ids)
  }

  function Init(start: int): State { State(start, map[], map[], Disconnected, {}, {}, map[], {}, []) }

  // ---------------------------------------------------------------- the invariant

  /** Identifiers belong to one open transaction, or were committed, or were discarded. */
  ghost predicate IdsOk(s: State) {
    && s.committed.Keys <= s.used && s.discarded <= s.used && s.committed.Keys !! s.discarded
    && (forall x <- s.txs :: s.txs[x].rows.Keys <= s.used && s.txs[x].rows.Keys !! s.committed.Keys &&
                             s.txs[x].rows.Keys !! s.discarded)
    && (forall x, y :: x in s.txs && y in s.txs && x != y ==> s.txs[x].rows.Keys !! s.txs[y].rows.Keys)
  }

  /** A stored row is as committed, and a committed one is missing only if its minute has passed. */
  ghost predicate RowsOk(s: State) {
    && (forall id <- s.rows :: id in s.committed && s.rows[id] == s.committed[id])
    && (forall id <- s.committed :: id in s.rows || s.clock > s.committed[id].created + MINUTE)
    && (forall since <- s.cleanups :: since <= s.clock)
  }

  predicate Distinct(ids: seq<Id>) {
    forall i, j :: 0 <= i < j < |ids| ==> ids[i] != ids[j]
  }

  ghost predicate TxOk(tx: Tx) {
    Distinct(tx.notes) && (forall i :: 0 <= i < |tx.notes| ==> tx.notes[i] in tx.rows) &&
    (forall id <- tx.rows :: tx.rows[id].created == tx.start)
  }

  ghost predicate TxsOk(s: State) {
    forall x <- s.txs :: TxOk(s.txs[x]) && s.txs[x].start <= s.clock
  }

  /** The notifications that the listener has processed or still has, in order. */
  function InFlight(l: Listener): seq<Id> {
    if l.Disconnected? then [] else (if l.taken.Some? then [l.taken.value] else []) + l.queue
  }

  /** Notifications are different from each other and from the delivered ones, and committed. */
  ghost predicate FlightOk(flight: seq<Id>, delivered: seq<Delivery>, committed: map<Id, Row>) {
    && Distinct(flight)
    && (forall i :: 0 <= i < |flight| ==> flight[i] in committed)
    && (forall i, k :: 0 <= i < |flight| && 0 <= k < |delivered| ==> flight[i] != delivered[k].id)
  }

  ghost predicate InFlightOk(s: State) { FlightOk(InFlight(s.listener), s.delivered, s.committed) }

  lemma FlightConsumed(flight: seq<Id>, delivered: seq<Delivery>, committed: map<Id, Row>, payload: string)
    requires flight != [] && FlightOk(flight, delivered, committed)
    ensures FlightOk(flight[1..], delivered, committed)
    ensures FlightOk(flight[1..], delivered + [Delivery(flight[0], payload)], committed)
  {
    var rest := flight[1..];
    forall i | 0 <= i < |rest| ensures rest[i] == flight[i + 1] && rest[i] != flight[0] {}
  }

  /** Deliveries are committed notifications, each at most once. */
  ghost predicate DeliveredOk(s: State) {
    && (forall k :: 0 <= k < |s.delivered| ==>
          s.delivered[k].id in s.committed && s.delivered[k].payload == s.committed[s.delivered[k].id].payload)
    && (forall i, k :: 0 <= i < k < |s.delivered| ==> s.delivered[i].id != s.delivered[k].id)
  }

  ghost predicate Inv(s: State) {
    IdsOk(s) && RowsOk(s) && TxsOk(s) && InFlightOk(s) && DeliveredOk(s)
  }

  lemma StepIdsOk(s: State, a: Action)
    requires IdsOk(s) && Enabled(s, a)
    ensures IdsOk(Do(s, a))
  {
  }

  lemma StepRowsOk(s: State, a: Action)
    requires RowsOk(s) && IdsOk(s) && Enabled(s, a)
    ensures RowsOk(Do(s, a))
  {
  }

  lemma StepTxsOk(s: State, a: Action)
    requires TxsOk(s) && IdsOk(s) && Enabled(s, a)
    ensures TxsOk(Do(s, a))
  {
    var s' := Do(s, a);
    forall x | x in s'.txs ensures TxOk(s'.txs[x]) && s'.txs[x].start <= s'.clock {
      if x in s.txs { assert TxOk(s.txs[x]) && s.txs[x].rows.Keys <= s.used; }
    }
  }

  /** How a step changes what the listener has: commits append, taking moves nothing, processing consumes the first,
      whether its row can be fetched and decoded or not. */
  lemma InFlightMoves(s: State, a: Action)
    requires Enabled(s, a)
    ensures var f, f' := InFlight(s.listener), InFlight(Do(s, a).listener);
      && (a.Commit? && s.listener.Listening? ==> f' == f + s.txs[a.x].notes)
      && (a.Process? || a.FetchFails? ==> f != [] && f' == f[1..] && f[0] == s.listener.taken.value)
      && (a.Connect? || a.Disconnect? ==> f' == [])
      && (!a.Commit? && !a.Process? && !a.FetchFails? && !a.Connect? && !a.Disconnect? ==> f' == f)
      && (a.Commit? && s.listener.Disconnected? ==> f' == f)
  {
  }

  /** What was committed stays committed as it was. */
  lemma CommittedPersists(s: State, a: Action, id: Id)
    requires IdsOk(s) && Enabled(s, a) && id in s.committed
    ensures id in Do(s, a).committed && Do(s, a).committed[id] == s.committed[id]
  {
    if a.Commit? { assert id !in s.txs[a.x].rows; }
  }

  lemma OnlyProcessDelivers(s: State, a: Action)
    requires Enabled(s, a) && !a.Process?
    ensures Do(s, a).delivered == s.delivered
  {
  }

  lemma StepInFlightOk(s: State, a: Action)
    requires Inv(s) && Enabled(s, a)
    ensures InFlightOk(Do(s, a))
  {
    var s' := Do(s, a);
    var f, f' := InFlight(s.listener), InFlight(s'.listener);
    InFlightMoves(s, a);
    if a.Commit? && s.listener.Listening? {
      CommitInFlightOk(s, a.x);
    } else if a.Process? {
      ProcessInFlightOk(s);
    } else if a.FetchFails? {
      FlightConsumed(f, s.delivered, s.committed, "");
    } else {
      OnlyProcessDelivers(s, a);
      forall i | 0 <= i < |f'| ensures f'[i] in s'.committed { CommittedPersists(s, a, f[i]); }
    }
  }

  lemma ProcessInFlightOk(s: State)
    requires InFlightOk(s) && Enabled(s, Process)
    ensures InFlightOk(Do(s, Process))
  {
    InFlightMoves(s, Process);
    var id := s.listener.taken.value;
    FlightConsumed(InFlight(s.listener), s.delivered, s.committed, if id in s.rows then s.rows[id].payload else "");
  }

  /** New notifications come after those on their way, and are none of those delivered. */
  lemma FlightExtended(flight: seq<Id>, notes: seq<Id>, delivered: seq<Delivery>, before: map<Id, Row>,
                       after: map<Id, Row>)
    requires FlightOk(flight, delivered, before) && Distinct(notes)
    requires before.Keys <= after.Keys
    requires forall i :: 0 <= i < |notes| ==> notes[i] !in before && notes[i] in after
    requires forall k :: 0 <= k < |delivered| ==> delivered[k].id in before
    ensures FlightOk(flight + notes, delivered, after)
  {
  }

  lemma CommitInFlightOk(s: State, x: Xid)
    requires Inv(s) && Enabled(s, Commit(x)) && s.listener.Listening?
    ensures InFlightOk(Do(s, Commit(x)))
  {
    InFlightMoves(s, Commit(x));
    var tx := s.txs[x];
    assert TxOk(tx) && tx.rows.Keys !! s.committed.Keys;
    FlightExtended(InFlight(s.listener), tx.notes, s.delivered, s.committed, s.committed + tx.rows);
  }

  lemma StepDeliveredOk(s: State, a: Action)
    requires Inv(s) && Enabled(s, a)
    ensures DeliveredOk(Do(s, a))
  {
    var s' := Do(s, a);
    forall k | 0 <= k < |s.delivered|
      ensures s.delivered[k].id in s'.committed
      ensures s'.committed[s.delivered[k].id] == s.committed[s.delivered[k].id]
    {
      CommittedPersists(s, a, s.delivered[k].id);
    }
    if a.Process? {
      InFlightMoves(s, a);
      var f := InFlight(s.listener);
      assert f[0] in s.committed && s'.committed == s.committed;
    } else {
      OnlyProcessDelivers(s, a);
    }
  }

  lemma StepInv(s: State, a: Action)
    requires Inv(s) && Enabled(s, a)
    ensures Inv(Do(s, a))
  {
    StepIdsOk(s, a);
    StepRowsOk(s, a);
    StepTxsOk(s, a);
    StepInFlightOk(s, a);
    StepDeliveredOk(s, a);
  }

  // ---------------------------------------------------------------- runs

  ghost predicate IsRun(states: seq<State>, actions: seq<Action>) {
    && |states| == |actions| + 1 && states[0] == Init(states[0].clock)
    && forall i {:trigger StepAt(states, actions, i)} :: 0 <= i < |actions| ==> StepAt(states, actions, i)
  }

  ghost predicate StepAt(states: seq<State>, actions: seq<Action>, i: nat)
    requires |states| == |actions| + 1 && i < |actions|
  {
    Enabled(states[i], actions[i]) && states[i + 1] == Do(states[i], actions[i])
  }

  lemma {:induction false} RunInv(states: seq<State>, actions: seq<Action>, i: nat)
    requires IsRun(states, actions) && i < |states|
    ensures Inv(states[i])
    decreases i
  {
    if i > 0 {
      assert StepAt(states, actions, i - 1);
      RunInv(states, actions, i - 1);
      StepInv(states[i - 1], actions[i - 1]);
    }
  }

  /** The step that passed an identifier and a payload to `Notify` in some transaction. */
  ghost predicate NotifiedAt(actions: seq<Action>, i: nat, x: Xid, id: Id, payload: string) {
    i < |actions| && actions[i] == Notify(x, id, payload)
  }

  ghost predicate CommittedAt(actions: seq<Action>, i: nat, x: Xid) {
    i < |actions| && actions[i] == Commit(x)
  }

  lemma {:induction false} OpenRowWasNotified(states: seq<State>, actions: seq<Action>, j: nat, x: Xid, id: Id)
    returns (n: nat)
    requires IsRun(states, actions) && j < |states| && x in states[j].txs && id in states[j].txs[x].rows
    ensures n < j && NotifiedAt(actions, n, x, id, states[j].txs[x].rows[id].payload)
    decreases j
  {
    assert j > 0;
    assert StepAt(states, actions, j - 1);
    var s := states[j - 1];
    if x in s.txs && id in s.txs[x].rows && s.txs[x].rows[id] == states[j].txs[x].rows[id] {
      n := OpenRowWasNotified(states, actions, j - 1, x, id);
    } else {
      n := j - 1;
    }
  }

  /** A committed row was committed by the last step, or before it as it is now. */
  lemma NewlyCommitted(states: seq<State>, actions: seq<Action>, i: nat, id: Id)
    requires IsRun(states, actions) && i < |actions| && id in states[i + 1].committed
    ensures var s, a, row := states[i], actions[i], states[i + 1].committed[id];
      if id in s.committed then s.committed[id] == row
      else a.Commit? && a.x in s.txs && id in s.txs[a.x].rows && s.txs[a.x].rows[id] == row
  {
    assert StepAt(states, actions, i);
    RunInv(states, actions, i);
    if id in states[i].committed { CommittedPersists(states[i], actions[i], id); }
  }

  lemma {:induction false} CommittedRowWasNotified(states: seq<State>, actions: seq<Action>, j: nat, id: Id)
    returns (x: Xid, n: nat, c: nat)
    requires IsRun(states, actions) && j < |states| && id in states[j].committed
    ensures n < c < j && CommittedAt(actions, c, x)
    ensures NotifiedAt(actions, n, x, id, states[j].committed[id].payload)
    decreases j
  {
    assert j > 0;
    NewlyCommitted(states, actions, j - 1, id);
    if id in states[j - 1].committed {
      x, n, c := CommittedRowWasNotified(states, actions, j - 1, id);
    } else {
      x, c := actions[j - 1].x, j - 1;
      n := OpenRowWasNotified(states, actions, j - 1, x, id);
    }
  }

  /** Whatever the callback receives was passed to `Notify`, with that payload, in a transaction that later
      committed. */
  lemma DeliveredWasCommitted(states: seq<State>, actions: seq<Action>, j: nat, k: nat)
    returns (x: Xid, n: nat, c: nat)
    requires IsRun(states, actions) && j < |states| && k < |states[j].delivered|
    ensures n < c < j && CommittedAt(actions, c, x)
    ensures NotifiedAt(actions, n, x, states[j].delivered[k].id, states[j].delivered[k].payload)
  {
    RunInv(states, actions, j);
    x, n, c := CommittedRowWasNotified(states, actions, j, states[j].delivered[k].id);
  }

  /** A notification of a transaction that rolls back is never delivered, then or later. */
  lemma {:induction false} RolledBackIsNeverDelivered(states: seq<State>, actions: seq<Action>, i: nat, j: nat, id: Id,
                                                      k: nat)
    requires IsRun(states, actions) && i < |actions| && actions[i].Rollback?
    requires actions[i].x in states[i].txs && id in states[i].txs[actions[i].x].rows
    requires i < j < |states| && k < |states[j].delivered|
    ensures states[j].delivered[k].id != id
  {
    DiscardedStays(states, actions, i, j, id);
    RunInv(states, actions, j);
  }

  lemma {:induction false} DiscardedStays(states: seq<State>, actions: seq<Action>, i: nat, j: nat, id: Id)
    requires IsRun(states, actions) && i < |actions| && actions[i].Rollback?
    requires actions[i].x in states[i].txs && id in states[i].txs[actions[i].x].rows && i < j < |states|
    ensures id in states[j].discarded
    decreases j
  {
    assert StepAt(states, actions, j - 1);
    if i < j - 1 { DiscardedStays(states, actions, i, j - 1, id); }
  }

  /** No notification is delivered twice, whatever the reconnections. */
  lemma DeliveredAtMostOnce(states: seq<State>, actions: seq<Action>, j: nat, k: nat, l: nat)
    requires IsRun(states, actions) && j < |states| && k < |states[j].delivered| && l < |states[j].delivered|
    requires states[j].delivered[k].id == states[j].delivered[l].id
    ensures k == l
  {
    RunInv(states, actions, j);
  }

  /** A notification whose row is fetched within one minute of the row's creation finds it, however the cleanups
      interleave, and the callback gets the payload that was committed. */
  lemma ProcessedWithinAMinuteIsDelivered(states: seq<State>, actions: seq<Action>, i: nat)
    requires IsRun(states, actions) && i < |actions| && actions[i] == Process
    requires states[i].listener.Listening? && states[i].listener.taken.Some?
    ensures var id := states[i].listener.taken.value;
      && id in states[i].committed
      && (states[i].clock <= states[i].committed[id].created + MINUTE ==>
            states[i + 1].delivered == states[i].delivered + [Delivery(id, states[i].committed[id].payload)])
  {
    assert StepAt(states, actions, i);
    RunInv(states, actions, i);
    assert InFlight(states[i].listener)[0] in states[i].committed;
  }

  /** The creation timestamp of a row is the start of the transaction, so a long one leaves less than a minute. */
  lemma RowAgesFromTransactionStart(states: seq<State>, actions: seq<Action>, i: nat, x: Xid, id: Id)
    requires IsRun(states, actions) && i < |actions| && actions[i] == Commit(x)
    requires x in states[i].txs && id in states[i].txs[x].rows
    ensures id in states[i + 1].committed
    ensures states[i + 1].committed[id].created == states[i].txs[x].start <= states[i].clock
  {
    assert StepAt(states, actions, i);
    RunInv(states, actions, i);
  }

  // ---------------------------------------------------------------- nothing is lost while the listener is connected

  ghost predicate Delivered(s: State, id: Id) {
    exists k :: 0 <= k < |s.delivered| && s.delivered[k].id == id
  }

  /** The step processes the notification more than a minute after the creation of its row. */
  ghost predicate LateAt(states: seq<State>, actions: seq<Action>, k: nat, id: Id)
    requires |states| == |actions| + 1 && k < |actions|
  {
    && actions[k] == Process && states[k].listener.Listening? && states[k].listener.taken == Some(id)
    && id in states[k].committed && states[k].clock > states[k].committed[id].created + MINUTE
  }

  /** The step loses the notification because its row cannot be fetched or decoded. */
  ghost predicate LostAt(states: seq<State>, actions: seq<Action>, k: nat, id: Id)
    requires |states| == |actions| + 1 && k < |actions|
  {
    actions[k] == FetchFails && states[k].listener.Listening? && states[k].listener.taken == Some(id)
  }

  /** While the listener stays connected after a commit, each notification of the transaction is still on its way, was
      delivered, was processed more than a minute after the creation of its row, or was lost because its
      row could not be fetched or decoded. */
  lemma {:induction false} NotificationIsAccountedFor(states: seq<State>, actions: seq<Action>, i: nat, j: nat, id: Id)
    requires IsRun(states, actions) && i < j < |states| && actions[i].Commit? && actions[i].x in states[i].txs
    requires id in states[i].txs[actions[i].x].notes && states[i].listener.Listening?
    requires forall k :: i < k < j ==> !actions[k].Disconnect?
    ensures states[j].listener.Listening?
    ensures || id in InFlight(states[j].listener) || Delivered(states[j], id)
            || (exists k :: i < k < j && LateAt(states, actions, k, id))
            || (exists k :: i < k < j && LostAt(states, actions, k, id))
    decreases j
  {
    if i == j - 1 {
      CommitAnnounces(states, actions, i, id);
    } else {
      NotificationIsAccountedFor(states, actions, i, j - 1, id);
      StepAccounts(states, actions, j - 1, id);
    }
  }

  lemma CommitAnnounces(states: seq<State>, actions: seq<Action>, i: nat, id: Id)
    requires IsRun(states, actions) && i < |actions| && actions[i].Commit? && actions[i].x in states[i].txs
    requires id in states[i].txs[actions[i].x].notes && states[i].listener.Listening?
    ensures states[i + 1].listener.Listening? && id in InFlight(states[i + 1].listener)
  {
    assert StepAt(states, actions, i);
    InFlightMoves(states[i], actions[i]);
  }

  lemma StepAccounts(states: seq<State>, actions: seq<Action>, i: nat, id: Id)
    requires IsRun(states, actions) && i < |actions| && states[i].listener.Listening? && !actions[i].Disconnect?
    ensures states[i + 1].listener.Listening?
    ensures Delivered(states[i], id) ==> Delivered(states[i + 1], id)
    ensures id in InFlight(states[i].listener) ==>
      || id in InFlight(states[i + 1].listener) || Delivered(states[i + 1], id)
      || LateAt(states, actions, i, id) || LostAt(states, actions, i, id)
  {
    var s, a := states[i], actions[i];
    assert StepAt(states, actions, i);
    InFlightMoves(s, a);
    if Delivered(s, id) { DeliveredStays(s, a, id); }
    if id in InFlight(s.listener) && a.Process? && id == InFlight(s.listener)[0] {
      ProcessedWithinAMinuteIsDelivered(states, actions, i);
      if s.clock <= s.committed[id].created + MINUTE { assert states[i + 1].delivered[|s.delivered|].id == id; }
    }
  }

  lemma DeliveredStays(s: State, a: Action, id: Id)
    requires Enabled(s, a) && Delivered(s, id)
    ensures Delivered(Do(s, a), id)
  {
    var k :| 0 <= k < |s.delivered| && s.delivered[k].id == id;
    assert Do(s, a).delivered[k] == s.delivered[k];
  }

  // ---------------------------------------------------------------- deliveries keep the order

  /** The notifications of the transactions that committed, in the order of the commits. */
  ghost function Announced(states: seq<State>, actions: seq<Action>, j: nat): seq<Id>
    requires |states| == |actions| + 1 && j <= |actions|
  {
    if j == 0 then []
    else
      var a := actions[j - 1];
      Announced(states, actions, j - 1) +
      if a.Commit? && a.x in states[j - 1].txs then states[j - 1].txs[a.x].notes else []
  }

  /** The members of the first sequence appear in the second one, in the same order. */
  ghost predicate InOrder(ids: seq<Id>, order: seq<Id>) {
    exists at: seq<int> :: Placing(ids, order, at)
  }

  ghost predicate Placing(ids: seq<Id>, order: seq<Id>, at: seq<int>) {
    && |at| == |ids|
    && (forall i :: 0 <= i < |ids| ==> 0 <= at[i] < |order| && order[at[i]] == ids[i])
    && (forall i, k :: 0 <= i < k < |ids| ==> at[i] < at[k])
  }

  lemma OrderGrows(ids: seq<Id>, order: seq<Id>, more: seq<Id>)
    requires InOrder(ids, order)
    ensures InOrder(ids, order + more) && InOrder(ids + more, order + more)
  {
    var at :| Placing(ids, order, at);
    assert Placing(ids, order + more, at);
    var tail := seq(|more|, i requires 0 <= i < |more| => |order| + i);
    assert Placing(ids + more, order + more, at + tail);
  }

  lemma OrderPrefix(ids: seq<Id>, order: seq<Id>, n: nat)
    requires InOrder(ids, order) && n <= |ids|
    ensures InOrder(ids[..n], order)
  {
    var at :| Placing(ids, order, at);
    assert Placing(ids[..n], order, at[..n]);
  }

  lemma OrderDrop(ids: seq<Id>, order: seq<Id>, n: nat)
    requires InOrder(ids, order) && n < |ids|
    ensures InOrder(ids[..n] + ids[n + 1..], order)
  {
    var at :| Placing(ids, order, at);
    assert Placing(ids[..n] + ids[n + 1..], order, at[..n] + at[n + 1..]);
  }

  function DeliveredIds(s: State): (ids: seq<Id>)
    ensures |ids| == |s.delivered|
  {
    seq(|s.delivered|, k requires 0 <= k < |s.delivered| => s.delivered[k].id)
  }

  /** What was delivered, followed by what is on its way, keeps the order of the commits. */
  lemma {:induction false} FlightKeepsOrder(states: seq<State>, actions: seq<Action>, j: nat)
    requires IsRun(states, actions) && j < |states|
    ensures InOrder(DeliveredIds(states[j]) + InFlight(states[j].listener), Announced(states, actions, j))
    decreases j
  {
    if j == 0 {
      assert DeliveredIds(states[0]) + InFlight(states[0].listener) == [];
      assert Placing([], [], []);
    } else {
      assert StepAt(states, actions, j - 1);
      FlightKeepsOrder(states, actions, j - 1);
      StepKeepsOrder(states[j - 1], actions[j - 1], Announced(states, actions, j - 1));
    }
  }

  lemma StepKeepsOrder(s: State, a: Action, order: seq<Id>)
    requires Enabled(s, a) && InOrder(DeliveredIds(s) + InFlight(s.listener), order)
    ensures InOrder(DeliveredIds(Do(s, a)) + InFlight(Do(s, a).listener),
                    order + if a.Commit? then s.txs[a.x].notes else [])
  {
    var s' := Do(s, a);
    var ids, f, f' := DeliveredIds(s), InFlight(s.listener), InFlight(s'.listener);
    var more := if a.Commit? then s.txs[a.x].notes else [];
    InFlightMoves(s, a);
    OrderGrows(ids + f, order, more);
    if a.Process? {
      ProcessKeepsOrder(s, order);
      OrderGrows(DeliveredIds(s') + f', order, []);
    } else if a.FetchFails? {
      assert DeliveredIds(s') == ids;
      OrderMove(ids, f, order);
      OrderGrows(ids + f', order, []);
    } else {
      OnlyProcessDelivers(s, a);
      assert DeliveredIds(s') == ids;
      if f' == f + more {
        assert ids + f' == ids + f + more;
      } else if f' == [] {
        assert (ids + f)[..|ids|] == ids + [];
        OrderPrefix(ids + f, order + more, |ids|);
      }
    }
  }

  lemma ProcessKeepsOrder(s: State, order: seq<Id>)
    requires Enabled(s, Process) && InOrder(DeliveredIds(s) + InFlight(s.listener), order)
    ensures InOrder(DeliveredIds(Do(s, Process)) + InFlight(Do(s, Process).listener), order)
  {
    var ids, f := DeliveredIds(s), InFlight(s.listener);
    InFlightMoves(s, Process);
    ProcessedIds(s);
    OrderMove(ids, f, order);
    assert ids + [] == ids;
  }

  lemma OrderMove(ids: seq<Id>, flight: seq<Id>, order: seq<Id>)
    requires InOrder(ids + flight, order) && flight != []
    ensures InOrder(ids + [flight[0]] + flight[1..], order) && InOrder(ids + flight[1..], order)
  {
    assert ids + [flight[0]] + flight[1..] == ids + flight;
    OrderDrop(ids + flight, order, |ids|);
    assert (ids + flight)[..|ids|] == ids && (ids + flight)[|ids| + 1..] == flight[1..];
  }

  lemma ProcessedIds(s: State)
    requires Enabled(s, Process)
    ensures DeliveredIds(Do(s, Process)) ==
      DeliveredIds(s) + if InFlight(s.listener)[0] in s.rows then [InFlight(s.listener)[0]] else []
  {
    InFlightMoves(s, Process);
  }

  /** The callback gets the payloads in the order in which their transactions committed and, within a transaction,
      in the order in which it announced them, whatever was lost in between. */
  lemma DeliveriesKeepOrder(states: seq<State>, actions: seq<Action>, j: nat)
    requires IsRun(states, actions) && j < |states|
    ensures InOrder(DeliveredIds(states[j]), Announced(states, actions, j))
  {
    FlightKeepsOrder(states, actions, j);
    var ids, f := DeliveredIds(states[j]), InFlight(states[j].listener);
    OrderPrefix(ids + f, Announced(states, actions, j), |ids|);
    assert (ids + f)[..|ids|] == ids;
  }

  /** The step that announced a notification of an open transaction, with everything announced before it. */
  lemma {:induction false} AnnouncedInCallOrder(states: seq<State>, actions: seq<Action>, j: nat, x: Xid, p: nat,
                                                q: nat)
    returns (m: nat, n: nat)
    requires IsRun(states, actions) && j < |states| && x in states[j].txs && p < q < |states[j].txs[x].notes|
    ensures m < n < j && actions[m].Notify? && actions[n].Notify? && actions[m].x == actions[n].x == x
    ensures actions[m].id == states[j].txs[x].notes[p] && actions[n].id == states[j].txs[x].notes[q]
    decreases j
  {
    assert j > 0;
    assert StepAt(states, actions, j - 1);
    var s := states[j - 1];
    if x in s.txs && q < |s.txs[x].notes| && s.txs[x].notes <= states[j].txs[x].notes {
      m, n := AnnouncedInCallOrder(states, actions, j - 1, x, p, q);
    } else {
      n := j - 1;
      m := AnnouncedByCall(states, actions, j - 1, x, p);
    }
  }

  lemma {:induction false} AnnouncedByCall(states: seq<State>, actions: seq<Action>, j: nat, x: Xid, p: nat)
    returns (m: nat)
    requires IsRun(states, actions) && j < |states| && x in states[j].txs && p < |states[j].txs[x].notes|
    ensures m < j && actions[m].Notify? && actions[m].x == x && actions[m].id == states[j].txs[x].notes[p]
    decreases j
  {
    assert j > 0;
    assert StepAt(states, actions, j - 1);
    var s := states[j - 1];
    if x in s.txs && p < |s.txs[x].notes| && s.txs[x].notes <= states[j].txs[x].notes {
      m := AnnouncedByCall(states, actions, j - 1, x, p);
    } else {
      m := j - 1;
    }
  }

  // ---------------------------------------------------------------- failed notifications

  /** A transaction in which a notification failed does not commit: as long as it is open it can only be rolled back. */
  lemma {:induction false} FailedNotifyDooms(states: seq<State>, actions: seq<Action>, i: nat, j: nat, x: Xid)
    requires IsRun(states, actions) && i < j < |states| && actions[i] == NotifyFails(x)
    requires forall k :: i < k < j ==> actions[k] != Rollback(x)
    ensures x in states[j].txs && states[j].txs[x].doomed && !Enabled(states[j], Commit(x))
    decreases j
  {
    assert StepAt(states, actions, j - 1);
    if i < j - 1 { FailedNotifyDooms(states, actions, i, j - 1, x); }
  }
}
