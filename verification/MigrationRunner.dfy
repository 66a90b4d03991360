/**
 * The runner as it works on a live connection: statements, a transaction that is begun, committed
 * or rolled back, a status updated step by step, and cleanup at the end. Every method is proved to
 * do to its connection what the functions of MigrationRun say.
 */
module MigrationRunner {
  import opened Outcomes
  import opened MigrationHistory
  import opened MigrationRun
  import opened MigrationSafety
  import opened MigrationSessions
  import opened MigrationProgress
  import opened MigrationExactness

  function Raised(failure: Option<Failure>, dirty: bool, uncertain: bool): Option<Failure> {
    if failure.Some? then Some(Reported(failure.value.cause, dirty, uncertain)) else None
  }

  predicate Rested(catalog: Catalog, m: Machine)
    requires |catalog.steps| > 0
  {
    m.open.None? && Settled(catalog, m.durable) && TraceVerified(catalog, m.log)
  }

  lemma RunRests(catalog: Catalog, op: Operation, now: int, m: Machine)
    requires ValidCatalog(catalog)
    ensures var r := Run(catalog, op, now, m);
      Rested(catalog, m) && now > 0 ==> Rested(catalog, r.m) && Progressed(catalog, m.durable, r.m.durable, r.m.log)
  {
    if Rested(catalog, m) && now > 0 {
      RunKeeps(catalog, op, now, m);
    }
  }

  lemma RunAchieves(catalog: Catalog, op: Operation, now: int, m: Machine)
    requires ValidCatalog(catalog)
    ensures var r := Run(catalog, op, now, m);
      m.open.None? && now > 0 ==>
        && (r.failure.None? ==> Achieved(catalog, op, now, m.durable, r))
        && (Calm(m) ==> (r.failure.None? <==> Founded(catalog, op, m.durable)))
  {
    if m.open.None? && now > 0 {
      SuccessExactly(catalog, op, now, m);
    }
  }

  class Runner {
    const catalog: Catalog
    var durable: Db
    var tx: Option<Db>
    var faults: seq<Fault>
    var log: seq<Event>

    constructor (catalog: Catalog, durable: Db, faults: seq<Fault>)
      ensures this.catalog == catalog && State() == Machine(durable, None, faults, [])
      ensures ValidCatalog(catalog) && durable.journal.None? ==> Valid()
    {
      this.catalog := catalog;
      this.durable := durable;
      this.tx := None;
      this.faults := faults;
      this.log := [];
    }

    function State(): Machine
      reads this
    {
      Machine(durable, tx, faults, log)
    }

    /**
     * Between runs: no transaction is open, the journal is a prefix of the catalog that fits the
     * schema, and every completion so far was over content that verified.
     */
    ghost predicate Valid()
      reads this
    {
      ValidCatalog(catalog) && Rested(catalog, State())
    }

    /** The connection is where `p` leaves it, with its error. */
    predicate Made(p: Progress, failure: Option<Failure>)
      reads this
    {
      State() == p.m && failure == (if p.Broke? then Some(p.failure) else None)
    }

    predicate Ended(o: Outcome, status: Status, failure: Option<Failure>)
      reads this
    {
      State() == o.m && status == o.status && failure == o.failure
    }

    // ----- the connection -----

    method Draw() returns (fault: Fault)
      modifies this
      ensures fault == old(NextFault(State())) && State() == old(Drawn(State()))
    {
      if faults == [] {
        return Fine;
      }
      fault := faults[0];
      faults := faults[1..];
    }

    method Store(db: Db)
      modifies this
      ensures State() == old(WithView(State(), db))
    {
      if tx.Some? {
        tx := Some(db);
      } else {
        durable := db;
      }
    }

    method Query(holds: bool, cause: Cause) returns (failure: Option<Failure>)
      modifies this
      ensures Made(old(Check(State(), holds, cause)), failure)
    {
      var fault := Draw();
      if fault != Fine {
        return Some(Plain(Infrastructure));
      }
      return if holds then None else Some(Plain(cause));
    }

    method Execute(statement: Statement) returns (failure: Option<Failure>)
      modifies this
      ensures Made(old(Write(State(), View(State()).(content := statement(View(State()).content)))), failure)
    {
      var before := View(State());
      var after := before.(content := statement(before.content));
      var fault := Draw();
      match fault {
        case Fine =>
          Store(after);
          return None;
        case Fail(applied) =>
          if applied {
            Store(after);
          }
        case Mangled(content) =>
          Store(before.(content := content));
      }
      return Some(Plain(Infrastructure));
    }

    method ExecuteJournal(rows: seq<Record>) returns (failure: Option<Failure>)
      modifies this
      ensures Made(old(WriteJournal(State(), rows)), failure)
    {
      var fault := Draw();
      if fault == Fine || fault == Fail(true) {
        Store(View(State()).(journal := Some(rows)));
      }
      return if fault == Fine then None else Some(Plain(Infrastructure));
    }

    method BeginTx() returns (failure: Option<Failure>)
      modifies this
      ensures Made(old(Begin(State())), failure)
    {
      var fault := Draw();
      if fault != Fine {
        return Some(Plain(Infrastructure));
      }
      tx := Some(durable);
      return None;
    }

    method RollbackTx()
      modifies this
      ensures State() == old(Rollback(State()))
    {
      tx := None;
    }

    method CommitTx() returns (failure: Option<Failure>)
      modifies this
      ensures Made(old(Commit(State())), failure)
    {
      var fault := Draw();
      if fault == Fine || fault == Fail(true) {
        durable := View(State());
      }
      tx := None;
      return if fault == Fine then None else Some(Reported(Infrastructure, false, true));
    }

    // ----- the journal -----

    method ReadBack() returns (status: Status, failure: Option<Failure>)
      requires ValidCatalog(catalog)
      modifies this
      ensures Ended(old(Reread(catalog, State())), status, failure)
    {
      var fault := Draw();
      if fault != Fine {
        return Status(0, false, [], []), Some(Plain(Infrastructure));
      }
      var cause;
      status, cause := ReadHistory(catalog, Rows(State()));
      failure := if cause.None? then None else Some(Reported(HistoryRejected, status.dirty, false));
    }

    method StartJournal(step: Step, mode: Mode, now: int) returns (failure: Option<Failure>)
      modifies this
      ensures Made(old(StartRecord(catalog, step, mode, now, State())), failure)
    {
      var rows := Rows(State());
      var i := 0;
      while i < |rows| && rows[i].id != step.id
        invariant 0 <= i <= |rows|
        invariant forall j :: 0 <= j < i ==> rows[j].id != step.id
      {
        i := i + 1;
      }
      if i < |rows| {
        var _ := Draw();
        return Some(Plain(Infrastructure));
      }
      failure := ExecuteJournal(Inserted(rows, NewRecord(catalog, step, mode, now)));
    }

    method CompleteJournal(i: nat, step: Step, now: int) returns (failure: Option<Failure>)
      modifies this
      ensures Made(old(CompleteRecord(i, step, now, State())), failure)
    {
      var rows := Rows(State());
      var count := CountCompletable(rows, step);
      if count > 0 {
        log := log + [CompletedStep(i, View(State()).content)];
      }
      failure := ExecuteJournal(CompletedRows(rows, step, now));
      if failure.None? && count != 1 {
        failure := Some(Plain(HistoryRejected));
      }
    }

    method EnsureJournal() returns (failure: Option<Failure>)
      modifies this
      ensures Made(old(CreateJournal(State())), failure)
    {
      if View(State()).journal.None? {
        failure := ExecuteJournal([]);
        failure := Raised(failure, false, false);
      } else {
        failure := None;
      }
    }

    // ----- one step -----

    method VerifyRevision(step: Step) returns (failure: Option<Failure>)
      modifies this
      ensures Made(old(VerifyStep(catalog, step, State())), failure)
    {
      var content := View(State()).content;
      failure := Query(Verified(catalog, step, content), Drift);
    }

    method Preconditions(step: Step) returns (failure: Option<Failure>)
      modifies this
      ensures Made(old(CheckPreconditions(step, State())), failure)
    {
      var content := View(State()).content;
      failure := Query(step.preconditions(content) && (step.retry.Some? ==> step.retry.value(content)), Precondition);
    }

    method RunStatements(i: nat, step: Step) returns (failure: Option<Failure>)
      modifies this
      ensures Made(old(Statements(i, step, 0, State())), failure)
    {
      for k := 0 to |step.statements|
        invariant Statements(i, step, k, State()) == old(Statements(i, step, 0, State()))
      {
        log := log + [RanStatement(i)];
        failure := Execute(step.statements[k]);
        if failure.Some? {
          return;
        }
      }
      return None;
    }

    method ExecuteMigration(i: nat, now: int) returns (failure: Option<Failure>)
      requires i < |catalog.steps|
      modifies this
      ensures Made(old(ExecuteStep(catalog, i, now, State())), failure)
    {
      var step := catalog.steps[i];
      failure := RunStatements(i, step);
      if failure.None? {
        failure := VerifyRevision(step);
      }
      if failure.None? {
        failure := CompleteJournal(i, step, now);
      }
      failure := Raised(failure, !step.transactional, !step.transactional);
    }

    method ApplyMigration(i: nat, now: int) returns (failure: Option<Failure>)
      requires i < |catalog.steps|
      modifies this
      ensures Made(old(ApplyStep(catalog, i, now, State())), failure)
    {
      var step := catalog.steps[i];
      var own := step.transactional && !catalog.dialect.Sqlite?;
      if own {
        failure := BeginTx();
        if failure.Some? {
          RollbackTx();
          return;
        }
      }
      failure := RunStep(i, now);
      if own {
        if failure.Some? {
          RollbackTx();
        } else {
          failure := CommitTx();
        }
      }
    }

    method RunStep(i: nat, now: int) returns (failure: Option<Failure>)
      requires i < |catalog.steps|
      modifies this
      ensures Made(old(StepBody(catalog, i, now, State())), failure)
    {
      var step := catalog.steps[i];
      failure := Preconditions(step);
      if failure.Some? {
        return Raised(failure, false, false);
      }
      failure := StartJournal(step, Mode.Executed, now);
      if failure.Some? {
        return Raised(failure, !step.transactional, !step.transactional);
      }
      failure := ExecuteMigration(i, now);
    }

    method RecordBaseline(now: int) returns (failure: Option<Failure>)
      requires |catalog.steps| > 0
      modifies this
      ensures Made(old(RecordAdoption(catalog, now, State())), failure)
    {
      var own := !catalog.dialect.Sqlite?;
      if own {
        failure := BeginTx();
        if failure.Some? {
          RollbackTx();
          return;
        }
      }
      failure := StartJournal(catalog.steps[0], Adopted, now);
      if failure.None? {
        failure := CompleteJournal(0, catalog.steps[0], now);
      }
      if own {
        if failure.Some? {
          RollbackTx();
        } else {
          failure := CommitTx();
        }
      }
    }
 
    // ----- the operations -----

    method VerifyTarget(status: Status) returns (failure: Option<Failure>)
      requires |catalog.steps| > 0
      modifies this
      ensures Ended(old(RunVerify(catalog, State(), status)), status, failure)
    {
      if |status.history| == 0 {
        return Some(Plain(Untracked));
      }
      if status.dirty {
        return Some(Plain(DirtyHistory));
      }
      if status.revision != catalog.target {
        return Some(Plain(Incompatible));
      }
      failure := VerifyRevision(catalog.steps[|catalog.steps| - 1]);
    }

    method RepairComplete(before: Status, id: int, now: int) returns (status: Status, failure: Option<Failure>)
      requires ValidCatalog(catalog) && |before.history| <= |catalog.steps|
      modifies this
      ensures Ended(old(RunRepair(catalog, now, State(), before, id)), status, failure)
    {
      status := before;
      if !status.dirty || |status.history| == 0 || status.history[|status.history| - 1].id != id {
        return status, Some(Plain(DirtyHistory));
      }
      var i := |status.history| - 1;
      failure := VerifyRevision(catalog.steps[i]);
      if failure.Some? {
        return status, Raised(failure, true, false);
      }
      failure := CompleteJournal(i, catalog.steps[i], now);
      if failure.Some? {
        return status, Raised(failure, true, true);
      }
      status, failure := ReadBack();
    }

    method RetryStep(before: Status, id: int, now: int) returns (status: Status, failure: Option<Failure>)
      requires ValidCatalog(catalog) && |before.history| <= |catalog.steps|
      modifies this
      ensures Ended(old(RunRetry(catalog, now, State(), before, id)), status, failure)
    {
      status := before;
      var index := |status.history| - 1;
      if !status.dirty || index < 0 || status.history[index].id != id {
        return status, Some(Reported(DirtyHistory, status.dirty, false));
      }
      var step := catalog.steps[index];
      if index == 0 || step.transactional || step.retry.None? {
        return status, Some(Reported(RetryUnsupported, status.dirty, false));
      }
      failure := VerifyRevision(catalog.steps[index - 1]);
      if failure.Some? {
        return status, Raised(failure, status.dirty, false);
      }
      failure := Preconditions(step);
      if failure.Some? {
        return status, Raised(failure, status.dirty, false);
      }
      failure := ExecuteMigration(index, now);
      if failure.Some? {
        return;
      }
      status, failure := ReadBack();
    }

    method AdoptBaseline(before: Status, now: int) returns (status: Status, failure: Option<Failure>)
      requires ValidCatalog(catalog)
      modifies this
      ensures Ended(old(RunAdopt(catalog, now, State(), before)), status, failure)
    {
      status := before;
      if status.dirty {
        return status, Some(Reported(DirtyHistory, true, false));
      }
      if |status.history| != 0 {
        return status, Some(Plain(AlreadyTracked));
      }
      failure := VerifyRevision(catalog.steps[0]);
      if failure.Some? {
        return status, Raised(failure, false, false);
      }
      failure := EnsureJournal();
      if failure.None? {
        failure := RecordBaseline(now);
      }
      if failure.None? {
        status, failure := ReadBack();
      }
    }

    /** Nothing owned exists yet, or the revision of the last record verifies. */
    method CheckBefore(status: Status) returns (failure: Option<Failure>)
      requires |status.history| <= |catalog.steps|
      modifies this
      ensures Made(old(Preflight(catalog, State(), status)), failure)
    {
      if |status.history| == 0 {
        failure := Query(Unused(catalog, View(State()).content), Untracked);
        if failure.None? {
          failure := EnsureJournal();
        }
      } else {
        failure := VerifyRevision(catalog.steps[|status.history| - 1]);
        failure := Raised(failure, false, false);
      }
    }

    /** One iteration of the loop, for a step beyond the revision. */
    method ApplyNext(i: nat, before: Status, now: int) returns (status: Status, failure: Option<Failure>)
      requires ValidCatalog(catalog) && i < |catalog.steps| && catalog.steps[i].id > before.revision
      modifies this
      ensures failure.Some? ==> Ended(old(ApplyFrom(catalog, i, now, State(), before)), status, failure)
      ensures failure.None? ==> ApplyFrom(catalog, i + 1, now, State(), status) == old(ApplyFrom(catalog, i, now, State(), before))
    {
      failure := ApplyMigration(i, now);
      if failure.Some? {
        status := if failure.value.Reported? then before.(dirty := failure.value.dirty) else before;
        return;
      }
      status, failure := ReadBack();
    }

    /** The loop over the steps; `goal` is where its functional form ends. */
    method ApplySteps(before: Status, now: int, ghost goal: Outcome) returns (status: Status, failure: Option<Failure>)
      requires ValidCatalog(catalog) && goal == ApplyFrom(catalog, 0, now, State(), before)
      modifies this
      ensures Ended(goal, status, failure)
    {
      status := before;
      for i := 0 to |catalog.steps|
        invariant ApplyFrom(catalog, i, now, State(), status) == goal
      {
        if catalog.steps[i].id > status.revision {
          status, failure := ApplyNext(i, status, now);
          if failure.Some? {
            return;
          }
        }
      }
      return status, None;
    }

    method ApplyPending(before: Status, now: int) returns (status: Status, failure: Option<Failure>)
      requires ValidCatalog(catalog) && |before.history| <= |catalog.steps|
      modifies this
      ensures Ended(old(RunApply(catalog, now, State(), before)), status, failure)
    {
      if before.dirty {
        return before, Some(Reported(DirtyHistory, true, false));
      }
      failure := CheckBefore(before);
      if failure.Some? {
        return before, failure;
      }
      status, failure := ApplySteps(before, now, ApplyFrom(catalog, 0, now, State(), before));
    }

    method Dispatch(before: Status, op: Operation, now: int) returns (status: Status, failure: Option<Failure>)
      requires ValidCatalog(catalog) && |before.history| <= |catalog.steps|
      modifies this
      ensures Ended(old(Perform(catalog, op, now, State(), before)), status, failure)
    {
      status := before;
      match op
      case Verify => failure := VerifyTarget(status);
      case Repair(id) => status, failure := RepairComplete(before, id, now);
      case Retry(id) => status, failure := RetryStep(before, id, now);
      case Adopt(_) => status, failure := AdoptBaseline(before, now);
      case Apply => status, failure := ApplyPending(before, now);
    }

    // ----- one run -----

    method InspectHistory() returns (status: Status, failure: Option<Failure>)
      requires ValidCatalog(catalog)
      modifies this
      ensures Ended(old(Inspect(catalog, State())), status, failure)
    {
      status := Unread(catalog);
      failure := Query(true, Infrastructure);
      if failure.Some? || View(State()).journal.None? {
        return;
      }
      failure := Query(true, Drift);
      if failure.Some? {
        return status, Raised(failure, false, false);
      }
      status, failure := ReadBack();
    }

    /** Ends SQLite's transaction and then tries everything that releases the session. */
    method CloseLease(commit: bool) returns (failure: Option<Failure>)
      modifies this
      ensures Made(old(Close(catalog.dialect, State(), commit)), failure)
    {
      failure := None;
      if tx.Some? {
        if commit {
          failure := CommitTx();
        } else {
          RollbackTx();
        }
      }
      var n := Releases(catalog.dialect);
      ghost var ended := State();
      ghost var broke := failure.Some?;
      for k := 0 to n
        invariant Release(State(), n - k) == Release(ended, n)
        invariant failure.Some? || !Released(State(), n - k) <==> broke || !Released(ended, n)
        invariant failure.Some? ==> failure == Some(Reported(Infrastructure, false, true))
      {
        var fault := Draw();
        if fault != Fine {
          failure := Some(Reported(Infrastructure, false, true));
        }
      }
    }

    method RunOperation(op: Operation, now: int) returns (status: Status, failure: Option<Failure>, closing: bool)
      requires ValidCatalog(catalog)
      modifies this
      ensures old(Run(catalog, op, now, State())) == Report(State(), status, failure, closing)
      ensures old(Valid()) && now > 0 ==> Valid() && Progressed(catalog, old(durable), durable, log)
      ensures old(tx).None? && now > 0 && failure.None? ==>
        Achieved(catalog, op, now, old(durable), Report(State(), status, failure, closing))
      ensures old(tx).None? && now > 0 && old(Calm(State())) ==> (failure.None? <==> Founded(catalog, op, old(durable)))
    {
      RunRests(catalog, op, now, State());
      RunAchieves(catalog, op, now, State());
      closing := false;
      if op.Adopt? && op.id != catalog.bootstrap {
        return Status(0, false, [], []), Some(Reported(WrongBaseline, false, false)), false;
      }
      if catalog.dialect.Sqlite? {
        failure := BeginTx();
      } else {
        failure := Query(true, Infrastructure);
      }
      if failure.Some? {
        return Status(0, false, [], []), Some(Reported(Infrastructure, false, false)), false;
      }
      var initial;
      initial, status, failure := InspectAndPerform(op, now);
      status, failure, closing := Conclude(initial, status, failure);
    }

    /** What is deferred to the end of a run: the last look at the context, the release, and the error to report. */
    method Conclude(initial: Status, reached: Status, problem: Option<Failure>)
      returns (status: Status, failure: Option<Failure>, closing: bool)
      modifies this
      ensures old(Finish(catalog, initial, Outcome(State(), reached, problem))) == Report(State(), status, failure, closing)
    {
      status, failure := reached, problem;
      if failure.None? {
        failure := Query(true, Infrastructure);
      }
      var cleanup := CloseLease(failure.None?);
      closing := cleanup.Some?;
      if failure.Some? && failure.value.Plain? && !closing {
        failure := Some(Reported(failure.value.cause, status.dirty, false));
      } else if closing && (failure.None? || failure.value.Plain?) {
        failure := Some(Reported(Infrastructure, false, true));
      }
      if failure.Some? && catalog.dialect.Sqlite? {
        status := initial;
      }
    }

    method InspectAndPerform(op: Operation, now: int) returns (initial: Status, status: Status, failure: Option<Failure>)
      requires ValidCatalog(catalog)
      modifies this
      ensures Ended(old(Body(catalog, op, now, State()).0), status, failure) && initial == old(Body(catalog, op, now, State()).1)
    {
      status, failure := InspectHistory();
      if failure.Some? {
        return Unread(catalog), status, failure;
      }
      initial := status;
      if |status.history| <= |catalog.steps| {
        status, failure := Dispatch(initial, op, now);
      }
    }
  }
}
