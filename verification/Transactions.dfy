/** Lazy transactions whose fate is decided by the errors that accumulate in them
    (internal/database/database_tx_manager.go, internal/database/database_tx_scope.go). */
module Transactions {
  import opened Wrappers

  // ---------------------------------------------------------------- task traces

  /** How a statement ends: well, refused by the client library before it is sent (arguments that cannot be encoded, a
      context that is done), or failed in the database. */
  datatype Ending = Succeeded | Refused | FailedInDatabase

  /** What a task does, step by step.  A task may ignore or act on the outcome of each step, so its trace is arbitrary.
      `Statement` is a Query, QueryRow or Exec: the begin of the real transaction may fail when there is none yet, and
      otherwise the statement ends in one of three ways. */
  datatype Op =
    | Statement(write: string, beginOk: bool, ending: Ending)
    | Report(error: Option<string>)
    | Nested(task: Task)

  /** How a task ends: it returns, with or without error, or it panics. */
  datatype Finish = Returns(error: Option<string>) | Panics(value: string)

  /** A task that was called, or one that was rejected because of its signature or arguments. */
  datatype Task = Task(ops: seq<Op>, finish: Finish) | Rejected(reason: string)

  /** The error with which running a task ends: a panic is recovered and becomes one. */
  function Outcome(task: Task): Option<string> {
    match task
    case Rejected(reason) => Some(reason)
    case Task(_, Returns(error)) => error
    case Task(_, Panics(value)) => Some("task panicked: " + value)
  }

  /** Nothing went wrong at any depth: no error reported, none returned and no panic. */
  predicate ErrorFree(task: Task) {
    task.Task? && task.finish == Returns(None) && forall op <- task.ops :: OpErrorFree(op)
  }

  predicate OpErrorFree(op: Op) {
    match op
    case Statement(_, _, _) => true
    case Report(error) => error.None?
    case Nested(task) => ErrorFree(task)
  }

  // ---------------------------------------------------------------- the transaction as a value

  /** A real database transaction: a statement that fails in the database aborts it, and then only a rollback is
      possible. */
  datatype RealTx = RealTx(pending: seq<string>, aborted: bool)

  datatype TxState = TxState(actual: Option<RealTx>, errs: seq<string>)

  const FRESH_TX := TxState(None, [])

  function Noted(s: TxState, error: Option<string>): TxState {
    if error.Some? then s.(errs := s.errs + [error.value]) else s
  }

  /** A statement begins the real transaction if there is none yet; when that fails, the statement does not run. */
  function Executed(s: TxState, write: string, beginOk: bool, ending: Ending): TxState {
    if s.actual.None? && !beginOk then s
    else
      var actual := if s.actual.Some? then s.actual.value else RealTx([], false);
      if ending.Refused? then s.(actual := Some(actual))
      else if ending.Succeeded? && !actual.aborted then
        s.(actual := Some(actual.(pending := actual.pending + [write])))
      else s.(actual := Some(actual.(aborted := true)))
  }

  function AfterOp(s: TxState, op: Op): TxState
    decreases op
  {
    match op
    case Statement(write, beginOk, ending) => Executed(s, write, beginOk, ending)
    case Report(error) => Noted(s, error)
    case Nested(task) => Noted(AfterTask(s, task), Outcome(task))
  }

  function AfterOps(s: TxState, ops: seq<Op>): TxState
    decreases ops
  {
    if ops == [] then s
    else
      assert ops[|ops| - 1] in ops;
      AfterOp(AfterOps(s, ops[..|ops| - 1]), ops[|ops| - 1])
  }

  function AfterTask(s: TxState, task: Task): TxState
    decreases task
  {
    if task.Rejected? then s else AfterOps(s, task.ops)
  }

  // ---------------------------------------------------------------- what the accumulated errors say

  /** Errors only accumulate, and a step adds one exactly when something went wrong in it at some depth. */
  lemma {:induction false} OpErrors(s: TxState, op: Op)
    ensures s.errs <= AfterOp(s, op).errs
    ensures AfterOp(s, op).errs == s.errs <==> OpErrorFree(op)
    decreases op
  {
    if op.Nested? { TaskErrors(s, op.task); }
  }

  lemma {:induction false} OpsErrors(s: TxState, ops: seq<Op>)
    ensures s.errs <= AfterOps(s, ops).errs
    ensures AfterOps(s, ops).errs == s.errs <==> forall op <- ops :: OpErrorFree(op)
    decreases ops
  {
    if ops != [] {
      var init, last := ops[..|ops| - 1], ops[|ops| - 1];
      assert last in ops && ops == init + [last];
      OpsErrors(s, init);
      OpErrors(AfterOps(s, init), last);
    }
  }

  lemma {:induction false} TaskErrors(s: TxState, task: Task)
    ensures s.errs <= AfterTask(s, task).errs
    ensures Noted(AfterTask(s, task), Outcome(task)).errs == s.errs <==> ErrorFree(task)
    decreases task
  {
    if task.Task? { OpsErrors(s, task.ops); }
  }

  /** The errors at the end of the transaction, once the outcome of the task itself has been reported. */
  function FinalState(task: Task): TxState { Noted(AfterTask(FRESH_TX, task), Outcome(task)) }

  lemma ErrorFreeIff(task: Task)
    ensures FinalState(task).errs == [] <==> ErrorFree(task)
  {
    TaskErrors(FRESH_TX, task);
  }

  // ---------------------------------------------------------------- the objects

  /** The database: the committed writes, and how many real transactions were begun and ended. */
  class Database {
    var durable: seq<string>
    var begun: nat
    var ended: nat

    constructor ()
      ensures durable == [] && begun == 0 && ended == 0
    {
      durable, begun, ended := [], 0, 0;
    }
  }

  /** What the writes of the transaction become when it ends. */
  function Persisted(s: TxState, commitOk: bool): seq<string> {
    if s.actual.Some? && s.errs == [] && commitOk && !s.actual.value.aborted then s.actual.value.pending else []
  }

  /** The error of ending the transaction. */
  function EndError(s: TxState, commitOk: bool, rollbackOk: bool): Option<string> {
    if s.actual.None? then None
    else if s.errs == [] then
      if commitOk && !s.actual.value.aborted then None else Some("commit failed")
    else if rollbackOk then None else Some("rollback failed")
  }

  class ManagedTx {
    const db: Database
    var actual: Option<RealTx>
    var errs: seq<string>

    constructor (db: Database)
      ensures this.db == db && State() == FRESH_TX
    {
      this.db := db;
      actual, errs := None, [];
    }

    function State(): TxState
      reads this
    {
      TxState(actual, errs)
    }

    /** Begins the real transaction unless there is one already. */
    method EnsureReal(beginOk: bool) returns (ok: bool)
      modifies this`actual, db`begun
      ensures ok == (old(actual).Some? || beginOk)
      ensures actual == if old(actual).None? && beginOk then Some(RealTx([], false)) else old(actual)
      ensures db.begun == old(db.begun) + if old(actual).None? && beginOk then 1 else 0
    {
      if actual.Some? { return true; }
      if beginOk {
        actual := Some(RealTx([], false));
        db.begun := db.begun + 1;
      }
      return beginOk;
    }

    method Exec(write: string, beginOk: bool, ending: Ending)
      modifies this`actual, db`begun
      ensures State() == Executed(old(State()), write, beginOk, ending)
      ensures db.begun - old(db.begun) == (if old(actual).None? && actual.Some? then 1 else 0)
    {
      var ok := EnsureReal(beginOk);
      if !ok || ending.Refused? { return; }
      if ending.Succeeded? && !actual.value.aborted {
        actual := Some(actual.value.(pending := actual.value.pending + [write]));
      } else {
        actual := Some(actual.value.(aborted := true));
      }
    }

    method ReportError(error: Option<string>)
      modifies this`errs
      ensures State() == Noted(old(State()), error)
    {
      if error.Some? { errs := errs + [error.value]; }
    }

    /** `runTxTask`: runs the steps of the task and recovers its panic. */
    method RunTask(task: Task) returns (error: Option<string>)
      modifies this`actual, this`errs, db`begun
      ensures State() == AfterTask(old(State()), task) && error == Outcome(task)
      ensures db.begun - old(db.begun) == (if old(actual).None? && actual.Some? then 1 else 0)
      ensures old(actual).Some? ==> actual.Some?
      decreases task, 1
    {
      if task.Rejected? { return Some(task.reason); }
      for i := 0 to |task.ops|
        invariant State() == AfterOps(old(State()), task.ops[..i])
        invariant db.begun - old(db.begun) == (if old(actual).None? && actual.Some? then 1 else 0)
        invariant old(actual).Some? ==> actual.Some?
      {
        assert task.ops[..i + 1][..i] == task.ops[..i] && task.ops[i] in task.ops;
        RunOp(task.ops[i]);
      }
      assert task.ops[..|task.ops|] == task.ops;
      match task.finish
      case Returns(result) => error := result;
      case Panics(value) => error := Some("task panicked: " + value);
    }

    method RunOp(op: Op)
      modifies this`actual, this`errs, db`begun
      ensures State() == AfterOp(old(State()), op)
      ensures db.begun - old(db.begun) == (if old(actual).None? && actual.Some? then 1 else 0)
      ensures old(actual).Some? ==> actual.Some?
      decreases op, 0
    {
      match op
      case Statement(write, beginOk, ending) => Exec(write, beginOk, ending);
      case Report(error) => ReportError(error);
      case Nested(task) => var _ := Run(task);
    }

    /** Runs a task inside the transaction: its error is reported and returned, and the transaction goes on. */
    method Run(task: Task) returns (error: Option<string>)
      modifies this`actual, this`errs, db`begun
      ensures State() == Noted(AfterTask(old(State()), task), Outcome(task)) && error == Outcome(task)
      ensures db.begun - old(db.begun) == (if old(actual).None? && actual.Some? then 1 else 0)
      ensures old(actual).Some? ==> actual.Some?
      decreases task, 2
    {
      error := RunTask(task);
      if error.Some? { ReportError(error); }
    }

    /** Commits when no error was reported, rolls back otherwise, and does nothing when nothing was begun. */
    method End(commitOk: bool, rollbackOk: bool) returns (error: Option<string>)
      modifies db`durable, db`ended
      ensures db.durable == old(db.durable) + Persisted(State(), commitOk)
      ensures db.ended == old(db.ended) + if actual.Some? then 1 else 0
      ensures error == EndError(State(), commitOk, rollbackOk)
    {
      if actual.None? { return None; }
      db.ended := db.ended + 1;
      if |errs| == 0 {
        if commitOk && !actual.value.aborted {
          db.durable := db.durable + actual.value.pending;
          return None;
        }
        return Some("commit failed");
      }
      return if rollbackOk then None else Some("rollback failed");
    }
  }

  // ---------------------------------------------------------------- running a task in its own transaction

  function JoinErrors(task: Option<string>, end: Option<string>): Option<string> {
    if task.None? then end else if end.None? then task else Some(task.value + "\n" + end.value)
  }

  /** `txManager.Run`: at most one real transaction, ended exactly once, and all of its writes or none of them. */
  method RunInNewTx(db: Database, task: Task, commitOk: bool, rollbackOk: bool) returns (error: Option<string>)
    modifies db
    ensures db.begun - old(db.begun) == db.ended - old(db.ended) <= 1
    ensures db.begun > old(db.begun) <==> FinalState(task).actual.Some?
    ensures db.durable == old(db.durable) + Persisted(FinalState(task), commitOk)
    ensures error == JoinErrors(Outcome(task), EndError(FinalState(task), commitOk, rollbackOk))
  {
    var tx := new ManagedTx(db);
    var taskErr := tx.RunTask(task);
    if taskErr.Some? { tx.ReportError(taskErr); }
    var endErr := tx.End(commitOk, rollbackOk);
    return JoinErrors(taskErr, endErr);
  }

  datatype ScopeResult = Returned(error: Option<string>) | Panicked(value: string)

  /** `WithNewTx`: it fails without touching the database when there is no manager in the context, and it re-raises
      panics after rolling back. */
  method WithNewTx(db: Database, hasManager: bool, task: Task, commitOk: bool, rollbackOk: bool)
    returns (result: ScopeResult)
    requires task.Task?
    modifies db
    ensures !hasManager ==> unchanged(db) && result == Returned(Some("no transaction manager"))
    ensures hasManager ==>
      && db.begun - old(db.begun) == db.ended - old(db.ended) <= 1
      && db.durable == old(db.durable) + Persisted(FinalState(task), commitOk)
    ensures hasManager && task.finish.Panics? ==> result == Panicked(task.finish.value)
    ensures hasManager && task.finish.Returns? ==>
      result == Returned(if task.finish.error.Some? then task.finish.error
                         else EndError(FinalState(task), commitOk, rollbackOk))
  {
    if !hasManager { return Returned(Some("no transaction manager")); }
    var tx := new ManagedTx(db);
    ghost var start := tx.State();
    for i := 0 to |task.ops|
      invariant tx.db == db && tx.State() == AfterOps(start, task.ops[..i])
      invariant db.begun - old(db.begun) == (if tx.actual.Some? then 1 else 0)
      invariant db.ended == old(db.ended) && db.durable == old(db.durable)
    {
      assert task.ops[..i + 1][..i] == task.ops[..i];
      tx.RunOp(task.ops[i]);
    }
    assert task.ops[..|task.ops|] == task.ops;
    match task.finish
    case Panics(value) =>
      tx.ReportError(Some("panic: " + value));
      var _ := tx.End(commitOk, rollbackOk);
      assert tx.errs != [] && FinalState(task).errs != [];
      return Panicked(value);
    case Returns(error) =>
      tx.ReportError(error);
      var endErr := tx.End(commitOk, rollbackOk);
      return Returned(if error.Some? then error else endErr);
  }

  // ---------------------------------------------------------------- when the writes persist

  /** All the writes of a task, at every depth, in the order in which they were issued. */
  function OpWrites(op: Op): seq<string>
    decreases op
  {
    match op
    case Statement(write, _, _) => [write]
    case Report(_) => []
    case Nested(task) => Writes(task)
  }

  function OpsWrites(ops: seq<Op>): seq<string>
    decreases ops
  {
    if ops == [] then []
    else
      assert ops[|ops| - 1] in ops;
      OpsWrites(ops[..|ops| - 1]) + OpWrites(ops[|ops| - 1])
  }

  function Writes(task: Task): seq<string>
    decreases task
  {
    if task.Rejected? then [] else OpsWrites(task.ops)
  }

  /** A real transaction is open after a step of the trace, given whether one was open before it. */
  predicate OpOpens(open: bool, op: Op)
    decreases op
  {
    match op
    case Statement(_, beginOk, _) => open || beginOk
    case Report(_) => open
    case Nested(task) => Opens(open, task)
  }

  predicate OpsOpen(open: bool, ops: seq<Op>)
    decreases ops
  {
    if ops == [] then open
    else
      assert ops[|ops| - 1] in ops;
      OpOpens(OpsOpen(open, ops[..|ops| - 1]), ops[|ops| - 1])
  }

  predicate Opens(open: bool, task: Task)
    decreases task
  {
    if task.Rejected? then open else OpsOpen(open, task.ops)
  }

  /** The writes that reach the database: all but those of statements for which no transaction could be begun, or that
      were refused before they were sent. */
  function OpRan(open: bool, op: Op): seq<string>
    decreases op
  {
    match op
    case Statement(write, beginOk, ending) => if (open || beginOk) && !ending.Refused? then [write] else []
    case Report(_) => []
    case Nested(task) => Ran(open, task)
  }

  function OpsRan(open: bool, ops: seq<Op>): seq<string>
    decreases ops
  {
    if ops == [] then []
    else
      assert ops[|ops| - 1] in ops;
      OpsRan(open, ops[..|ops| - 1]) + OpRan(OpsOpen(open, ops[..|ops| - 1]), ops[|ops| - 1])
  }

  function Ran(open: bool, task: Task): seq<string>
    decreases task
  {
    if task.Rejected? then [] else OpsRan(open, task.ops)
  }

  /** No statement that reached the database failed there. */
  predicate OpSound(open: bool, op: Op)
    decreases op
  {
    match op
    case Statement(_, beginOk, ending) => open || beginOk ==> !ending.FailedInDatabase?
    case Report(_) => true
    case Nested(task) => Sound(open, task)
  }

  predicate OpsSound(open: bool, ops: seq<Op>)
    decreases ops
  {
    if ops == [] then true
    else
      assert ops[|ops| - 1] in ops;
      OpsSound(open, ops[..|ops| - 1]) && OpSound(OpsOpen(open, ops[..|ops| - 1]), ops[|ops| - 1])
  }

  predicate Sound(open: bool, task: Task)
    decreases task
  {
    if task.Rejected? then true else OpsSound(open, task.ops)
  }

  /** The transaction is what a trace makes of it: open or not, with the writes that ran, and aborted if one failed. */
  predicate Reflects(s: TxState, open: bool, ran: seq<string>, sound: bool) {
    if s.actual.None? then !open && ran == [] && sound
    else open && s.actual.value.aborted == !sound && (sound ==> s.actual.value.pending == ran)
  }

  lemma {:induction false} OpReflects(s: TxState, open: bool, ran: seq<string>, sound: bool, op: Op)
    requires Reflects(s, open, ran, sound)
    ensures Reflects(AfterOp(s, op), OpOpens(open, op), ran + OpRan(open, op), sound && OpSound(open, op))
    decreases op, 0
  {
    match op
    case Statement(write, _, _) => assert [] + [write] == [write] && ran + [] == ran;
    case Report(_) => assert ran + [] == ran;
    case Nested(task) => TaskReflects(s, open, ran, sound, task);
  }

  lemma {:induction false} OpsReflect(s: TxState, open: bool, ran: seq<string>, sound: bool, ops: seq<Op>)
    requires Reflects(s, open, ran, sound)
    ensures Reflects(AfterOps(s, ops), OpsOpen(open, ops), ran + OpsRan(open, ops), sound && OpsSound(open, ops))
    decreases ops, 0
  {
    if ops == [] {
      assert ran + [] == ran;
    } else {
      var init, last := ops[..|ops| - 1], ops[|ops| - 1];
      assert last in ops;
      OpsReflect(s, open, ran, sound, init);
      OpReflects(AfterOps(s, init), OpsOpen(open, init), ran + OpsRan(open, init), sound && OpsSound(open, init), last);
      assert ran + OpsRan(open, ops) == ran + OpsRan(open, init) + OpRan(OpsOpen(open, init), last);
    }
  }

  lemma {:induction false} TaskReflects(s: TxState, open: bool, ran: seq<string>, sound: bool, task: Task)
    requires Reflects(s, open, ran, sound)
    ensures Reflects(AfterTask(s, task), Opens(open, task), ran + Ran(open, task), sound && Sound(open, task))
    decreases task, 0
  {
    if task.Task? { OpsReflect(s, open, ran, sound, task.ops); } else { assert ran + [] == ran; }
  }

  /** What becomes durable, read off the trace: the writes that ran, when nothing went wrong at any depth, no statement
      failed in the database and the commit succeeded; otherwise nothing. */
  lemma PersistedIsWhatRan(task: Task, commitOk: bool)
    ensures Persisted(FinalState(task), commitOk) ==
      if ErrorFree(task) && Sound(false, task) && commitOk then Ran(false, task) else []
  {
    ErrorFreeIff(task);
    TaskReflects(FRESH_TX, false, [], true, task);
    assert [] + Ran(false, task) == Ran(false, task);
  }

  /** Every statement of the trace was sent in a transaction. */
  predicate OpSent(open: bool, op: Op)
    decreases op
  {
    match op
    case Statement(_, beginOk, ending) => (open || beginOk) && !ending.Refused?
    case Report(_) => true
    case Nested(task) => Sent(open, task)
  }

  predicate OpsSent(open: bool, ops: seq<Op>)
    decreases ops
  {
    if ops == [] then true
    else
      assert ops[|ops| - 1] in ops;
      OpsSent(open, ops[..|ops| - 1]) && OpSent(OpsOpen(open, ops[..|ops| - 1]), ops[|ops| - 1])
  }

  predicate Sent(open: bool, task: Task)
    decreases task
  {
    if task.Rejected? then true else OpsSent(open, task.ops)
  }

  lemma {:induction false} OpRanAllIff(open: bool, op: Op)
    ensures |OpRan(open, op)| <= |OpWrites(op)|
    ensures OpRan(open, op) == OpWrites(op) <==> OpSent(open, op)
    ensures |OpRan(open, op)| == |OpWrites(op)| <==> OpSent(open, op)
    decreases op
  {
    if op.Nested? { RanAllIff(open, op.task); }
  }

  lemma {:induction false} OpsRanAllIff(open: bool, ops: seq<Op>)
    ensures |OpsRan(open, ops)| <= |OpsWrites(ops)|
    ensures OpsRan(open, ops) == OpsWrites(ops) <==> OpsSent(open, ops)
    ensures |OpsRan(open, ops)| == |OpsWrites(ops)| <==> OpsSent(open, ops)
    decreases ops
  {
    if ops != [] {
      var init, last := ops[..|ops| - 1], ops[|ops| - 1];
      assert last in ops;
      OpsRanAllIff(open, init);
      OpRanAllIff(OpsOpen(open, init), last);
    }
  }

  /** All the writes of a task ran exactly when every statement was sent. */
  lemma {:induction false} RanAllIff(open: bool, task: Task)
    ensures |Ran(open, task)| <= |Writes(task)|
    ensures Ran(open, task) == Writes(task) <==> Sent(open, task)
    ensures |Ran(open, task)| == |Writes(task)| <==> Sent(open, task)
    decreases task
  {
    if task.Task? { OpsRanAllIff(open, task.ops); }
  }

  /** All the writes of a task become durable exactly when there are none, or nothing went wrong at any depth, every
      statement was sent and succeeded, and the commit succeeded. */
  lemma WritesPersistIff(task: Task, commitOk: bool)
    ensures Persisted(FinalState(task), commitOk) == Writes(task) <==>
      Writes(task) == [] || (ErrorFree(task) && Sent(false, task) && Sound(false, task) && commitOk)
  {
    PersistedIsWhatRan(task, commitOk);
    RanAllIff(false, task);
  }

  // ---------------------------------------------------------------- tasks that fail

  /** The task was rejected, panics, or returns an error. */
  predicate FailsItself(task: Task) {
    match task
    case Rejected(_) => true
    case Task(_, Panics(_)) => true
    case Task(_, Returns(error)) => error.Some?
  }

  /** A task that is rejected, panics or returns an error persists nothing, and makes `Run` return an error,
      whatever it did before and whatever the database answers. */
  lemma FailedTaskPersistsNothing(task: Task, commitOk: bool, rollbackOk: bool)
    requires FailsItself(task)
    ensures Persisted(FinalState(task), commitOk) == []
    ensures JoinErrors(Outcome(task), EndError(FinalState(task), commitOk, rollbackOk)).Some?
  {
    PersistedIsWhatRan(task, commitOk);
  }

  /** The same happens to all the writes around a nested task that fails, although the outer task goes on. */
  lemma FailedNestedTaskPersistsNothing(ops: seq<Op>, finish: Finish, k: nat, commitOk: bool)
    requires k < |ops| && ops[k].Nested? && FailsItself(ops[k].task)
    ensures Persisted(FinalState(Task(ops, finish)), commitOk) == []
  {
    assert ops[k] in ops && !OpErrorFree(ops[k]);
    PersistedIsWhatRan(Task(ops, finish), commitOk);
  }

  /** `Run` returns an error exactly when the task itself fails or the transaction that it opened cannot be ended: not
      committed when nothing went wrong, or not rolled back when something did. */
  lemma RunFailsIff(task: Task, commitOk: bool, rollbackOk: bool)
    ensures JoinErrors(Outcome(task), EndError(FinalState(task), commitOk, rollbackOk)).Some? <==>
      || FailsItself(task)
      || (Opens(false, task) && if ErrorFree(task) then !commitOk || !Sound(false, task) else !rollbackOk)
  {
    ErrorFreeIff(task);
    TaskReflects(FRESH_TX, false, [], true, task);
  }

  /** `Run` may return no error although the writes were rolled back. */
  lemma NoErrorButRolledBack()
    ensures var task := Task([Statement("w", true, Succeeded), Report(Some("e"))], Returns(None));
      && JoinErrors(Outcome(task), EndError(FinalState(task), true, true)) == None
      && FinalState(task).actual == Some(RealTx(["w"], false)) && Persisted(FinalState(task), true) == []
  {
    var ops := [Statement("w", true, Succeeded), Report(Some("e"))];
    assert ops[..1] == [ops[0]] && [ops[0]][..0] == [];
    assert AfterOp(FRESH_TX, ops[0]) == TxState(Some(RealTx(["w"], false)), []) by { assert [] + ["w"] == ["w"]; }
    assert AfterOps(FRESH_TX, [ops[0]]) == AfterOp(FRESH_TX, ops[0]);
  }

  /** `Run` may return no error although a write is missing: when a task goes on after a failed begin. */
  lemma NoErrorButPartlyPersisted()
    ensures var task := Task([Statement("w1", false, Succeeded), Statement("w2", true, Succeeded)], Returns(None));
      && JoinErrors(Outcome(task), EndError(FinalState(task), true, true)) == None
      && Writes(task) == ["w1", "w2"] && Persisted(FinalState(task), true) == ["w2"]
  {
    var ops := [Statement("w1", false, Succeeded), Statement("w2", true, Succeeded)];
    assert ops[..1] == [ops[0]] && [ops[0]][..0] == [];
    assert AfterOps(FRESH_TX, [ops[0]]) == FRESH_TX;
    assert AfterOps(FRESH_TX, ops) == TxState(Some(RealTx(["w2"], false)), []) by { assert [] + ["w2"] == ["w2"]; }
    assert OpsWrites([ops[0]]) == ["w1"] by { assert [] + ["w1"] == ["w1"]; }
  }

  /** The same when it goes on after a statement that was refused before it was sent. */
  lemma NoErrorButRefused()
    ensures var task := Task([Statement("w1", true, Refused), Statement("w2", true, Succeeded)], Returns(None));
      && JoinErrors(Outcome(task), EndError(FinalState(task), true, true)) == None
      && Writes(task) == ["w1", "w2"] && Persisted(FinalState(task), true) == ["w2"]
  {
    var ops := [Statement("w1", true, Refused), Statement("w2", true, Succeeded)];
    assert ops[..1] == [ops[0]] && [ops[0]][..0] == [];
    assert AfterOps(FRESH_TX, [ops[0]]) == TxState(Some(RealTx([], false)), []);
    assert AfterOps(FRESH_TX, ops) == TxState(Some(RealTx(["w2"], false)), []) by { assert [] + ["w2"] == ["w2"]; }
    assert OpsWrites([ops[0]]) == ["w1"] by { assert [] + ["w1"] == ["w1"]; }
  }

  /** When `Run` returns no error, all the writes are durable exactly if there are none, or the task reported no
      error on the way and every statement was sent. */
  lemma NoErrorMeansPersistedIff(task: Task, commitOk: bool, rollbackOk: bool)
    requires JoinErrors(Outcome(task), EndError(FinalState(task), commitOk, rollbackOk)) == None
    ensures Persisted(FinalState(task), commitOk) == Writes(task) <==>
      Writes(task) == [] || ((forall op <- task.ops :: OpErrorFree(op)) && Sent(false, task))
  {
    ErrorFreeIff(task);
    WritesPersistIff(task, commitOk);
    TaskReflects(FRESH_TX, false, [], true, task);
    RanAllIff(false, task);
    assert [] + Ran(false, task) == Ran(false, task);
  }

  /** A task in which everything goes well persists all its writes, nested ones included, in order. */
  lemma CleanTaskPersistsEverything(task: Task)
    requires ErrorFree(task) && Sent(false, task) && Sound(false, task)
    ensures Persisted(FinalState(task), true) == Writes(task)
  {
    WritesPersistIff(task, true);
  }
}
