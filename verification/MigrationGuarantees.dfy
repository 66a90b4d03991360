/**
 * What an operator can rely on: a failed SQLite run changes nothing, a dirty journal freezes
 * the database, and repair and retry touch only the record they name.
 */
module MigrationGuarantees {
  import opened Outcomes
  import opened MigrationHistory
  import opened MigrationRun
  import opened MigrationSafety
  import opened MigrationSessions

  // ----- SQLite: one transaction per run -----

  /** No transaction was begun or ended; under an open one the database is the same. */
  predicate Inside(m: Machine, later: Machine) {
    later.open.Some? == m.open.Some? && (m.open.Some? ==> later.durable == m.durable)
  }

  lemma ExecuteStepInside(catalog: Catalog, i: nat, now: int, m: Machine)
    requires i < |catalog.steps|
    ensures Inside(m, ExecuteStep(catalog, i, now, m).m)
  {
    StatementsFrame(i, catalog.steps[i], 0, m);
  }

  lemma StepInside(catalog: Catalog, i: nat, now: int, m: Machine)
    requires i < |catalog.steps| && catalog.dialect.Sqlite?
    ensures Inside(m, ApplyStep(catalog, i, now, m).m)
  {
    var p := StartStep(catalog, i, now, m);
    if p.Done? {
      ExecuteStepInside(catalog, i, now, p.m);
    }
  }

  lemma {:induction false} ApplyInside(catalog: Catalog, i: nat, now: int, m: Machine, status: Status)
    requires i <= |catalog.steps| && catalog.dialect.Sqlite?
    ensures Inside(m, ApplyFrom(catalog, i, now, m, status).m)
    decreases |catalog.steps| - i
  {
    if i < |catalog.steps| {
      if catalog.steps[i].id <= status.revision {
        ApplyInside(catalog, i + 1, now, m, status);
      } else {
        StepInside(catalog, i, now, m);
        var p := ApplyStep(catalog, i, now, m);
        if p.Done? {
          var read := Reread(catalog, p.m);
          ApplyInside(catalog, i + 1, now, read.m, read.status);
        }
      }
    }
  }

  lemma RetryInside(catalog: Catalog, now: int, m: Machine, status: Status, id: int)
    requires |status.history| <= |catalog.steps|
    ensures Inside(m, RunRetry(catalog, now, m, status, id).m)
  {
    RetryByParts(catalog, now, m, status, id);
    var i := |status.history| - 1;
    if Names(status, id) && Retryable(catalog, i) {
      RetryChecksOnly(catalog, i, m, status.dirty);
      ExecuteStepInside(catalog, i, now, RetryChecks(catalog, i, m, status.dirty).m);
    }
  }

  lemma RepairInside(catalog: Catalog, now: int, m: Machine, status: Status, id: int)
    requires |status.history| <= |catalog.steps|
    ensures Inside(m, RunRepair(catalog, now, m, status, id).m)
  {}

  lemma RecordAdoptionInside(catalog: Catalog, now: int, m: Machine)
    requires |catalog.steps| > 0 && catalog.dialect.Sqlite?
    ensures Inside(m, RecordAdoption(catalog, now, m).m)
  {}

  lemma AdoptInside(catalog: Catalog, now: int, m: Machine, status: Status)
    requires |catalog.steps| > 0 && catalog.dialect.Sqlite?
    ensures Inside(m, RunAdopt(catalog, now, m, status).m)
  {
    var m1 := VerifyStep(catalog, catalog.steps[0], m).m;
    var m2 := CreateJournal(m1).m;
    assert Inside(m, m1) && Inside(m1, m2);
    RecordAdoptionInside(catalog, now, m2);
  }

  lemma PerformInside(catalog: Catalog, op: Operation, now: int, m: Machine, status: Status)
    requires |catalog.steps| > 0 && |status.history| <= |catalog.steps|
    requires catalog.dialect.Sqlite? || op.Repair? || op.Retry?
    ensures Inside(m, Perform(catalog, op, now, m, status).m)
  {
    match op
    case Verify =>
    case Repair(id) => RepairInside(catalog, now, m, status, id);
    case Retry(id) => RetryInside(catalog, now, m, status, id);
    case Adopt(_) => AdoptInside(catalog, now, m, status);
    case Apply =>
      var p := Preflight(catalog, m, status);
      assert Inside(m, p.m);
      ApplyInside(catalog, 0, now, p.m, status);
  }

  lemma BodyInside(catalog: Catalog, op: Operation, now: int, m: Machine)
    requires |catalog.steps| > 0 && (catalog.dialect.Sqlite? || op.Repair? || op.Retry?)
    ensures Inside(m, Body(catalog, op, now, m).0.m)
  {
    var read := Inspect(catalog, m);
    if read.failure.None? && |read.status.history| <= |catalog.steps| {
      PerformInside(catalog, op, now, read.m, read.status);
    }
  }

  /** The status before a run: nothing was read, or what the journal says. */
  predicate StartingStatus(catalog: Catalog, db: Db, status: Status) {
    || status == Status(0, false, [], [])
    || status == Unread(catalog)
    || (ValidHistory(catalog, JournalRows(db)) && status == StatusOf(catalog, JournalRows(db)))
  }

  /** The run itself succeeded, so that its transaction was committed and the commit took effect. */
  predicate Published(catalog: Catalog, op: Operation, now: int, m: Machine)
    requires |catalog.steps| > 0
  {
    && !(op.Adopt? && op.id != catalog.bootstrap)
    && Begin(m).Done?
    && var o := Body(catalog, op, now, Begin(m).m).0;
       && o.failure.None?
       && NextFault(o.m) == Fine
       && (NextFault(Drawn(o.m)).Fine? || NextFault(Drawn(o.m)) == Fail(true))
  }

  /**
   * A SQLite run changes the database exactly when its commit took effect. When it reports a
   * failure, the status is the starting one and, unless releasing the lease failed, so is the database.
   */
  lemma SqliteAtomic(catalog: Catalog, op: Operation, now: int, m: Machine)
    requires |catalog.steps| > 0 && catalog.dialect.Sqlite? && m.open.None?
    ensures var r := Run(catalog, op, now, m);
      && r.m.open.None?
      && r.m.durable == (if Published(catalog, op, now, m) then View(Body(catalog, op, now, Begin(m).m).0.m) else m.durable)
      && (r.failure.Some? ==> StartingStatus(catalog, m.durable, r.status))
      && (r.failure.Some? && !r.closing ==> r.m.durable == m.durable)
      && (r.failure.Some? && r.m.durable != m.durable ==> r.failure.value.Reported? && r.failure.value.uncertain)
  {
    if !(op.Adopt? && op.id != catalog.bootstrap) && Begin(m).Done? {
      var leased := Begin(m).m;
      assert View(leased) == m.durable;
      BodyInside(catalog, op, now, leased);
      BodyStarts(catalog, op, now, leased);
      FinishAtomic(catalog, Body(catalog, op, now, leased).1, leased, Body(catalog, op, now, leased).0);
    }
  }

  lemma BodyStarts(catalog: Catalog, op: Operation, now: int, m: Machine)
    requires |catalog.steps| > 0
    ensures StartingStatus(catalog, View(m), Body(catalog, op, now, m).1)
  {}

  lemma FinishAtomic(catalog: Catalog, initial: Status, m: Machine, o: Outcome)
    requires catalog.dialect.Sqlite? && m.open.Some? && Inside(m, o.m)
    ensures var r := Finish(catalog, initial, o);
      && r.m.open.None?
      && r.m.durable == (if o.failure.None? && NextFault(o.m) == Fine
                           && (NextFault(Drawn(o.m)).Fine? || NextFault(Drawn(o.m)) == Fail(true)) then View(o.m) else m.durable)
      && (r.failure.Some? ==> r.status == initial)
      && (r.failure.Some? && !r.closing ==> r.m.durable == m.durable)
      && (r.failure.Some? && r.m.durable != m.durable ==> r.failure.value.Reported? && r.failure.value.uncertain)
  {}

  /** `k` effects that succeed, then one that fails. */
  function FailingAfter(k: nat): seq<Fault> { if k == 0 then [Fail(false)] else [Fine] + FailingAfter(k - 1) }

  lemma DrawFine(m: Machine, k: nat)
    requires k > 0 && m.faults == FailingAfter(k)
    ensures NextFault(m) == Fine && Drawn(m) == m.(faults := FailingAfter(k - 1))
  {}

  const EMPTY := Content(map[], map[])

  /** A SQLite catalog whose only step creates nothing. */
  function BareCatalog(): Catalog {
    Catalog(Sqlite, 1, 1, [Step(1, "1.json", "", Baseline, true, "", map[], c => true, c => true, None, [])], {})
  }

  function BareStart(): Record { NewRecord(BareCatalog(), BareCatalog().steps[0], Mode.Executed, 1) }

  function BareMachine(k: nat, open: Db): Machine { Machine(Db(None, EMPTY), Some(open), FailingAfter(k), []) }

  const BARE_DONE := CompletedRow(BareStart(), 1)

  lemma BareStep()
    ensures ApplyStep(BareCatalog(), 0, 1, BareMachine(7, Db(Some([]), EMPTY)))
         == Done(BareMachine(3, Db(Some([BARE_DONE]), EMPTY)).(log := [CompletedStep(0, EMPTY)]))
  {
    var catalog := BareCatalog();
    var step := catalog.steps[0];
    var m := BareMachine(7, Db(Some([]), EMPTY));
    DrawFine(m, 7);
    var m1 := BareMachine(6, Db(Some([]), EMPTY));
    assert CheckPreconditions(step, m) == Done(m1);
    DrawFine(m1, 6);
    var m2 := BareMachine(5, Db(Some([BareStart()]), EMPTY));
    assert Inserted([], BareStart()) == [BareStart()];
    assert StartRecord(catalog, step, Mode.Executed, 1, m1) == Done(m2);
    assert Statements(0, step, 0, m2) == Done(m2);
    DrawFine(m2, 5);
    var m3 := BareMachine(4, Db(Some([BareStart()]), EMPTY));
    assert VerifyStep(catalog, step, m2) == Done(m3);
    BareCompletes(m3);
  }

  lemma BareCompletes(m: Machine)
    requires m == BareMachine(4, Db(Some([BareStart()]), EMPTY))
    ensures CompleteRecord(0, BareCatalog().steps[0], 1, m)
         == Done(BareMachine(3, Db(Some([BARE_DONE]), EMPTY)).(log := [CompletedStep(0, EMPTY)]))
  {
    var step := BareCatalog().steps[0];
    var marked := m.(log := [CompletedStep(0, EMPTY)]);
    DrawFine(marked, 4);
    assert CountCompletable([BareStart()], step) == 1;
    assert CompletedRows([BareStart()], step, 1) == [BARE_DONE];
    assert m.log + [CompletedStep(0, EMPTY)] == [CompletedStep(0, EMPTY)];
  }

  lemma BareBody()
    ensures Body(BareCatalog(), Apply, 1, BareMachine(10, Db(None, EMPTY)))
         == (Outcome(BareMachine(2, Db(Some([BARE_DONE]), EMPTY)).(log := [CompletedStep(0, EMPTY)]),
                     StatusOf(BareCatalog(), [BARE_DONE]), None), Unread(BareCatalog()))
  {
    var catalog := BareCatalog();
    DrawFine(BareMachine(10, Db(None, EMPTY)), 10);
    DrawFine(BareMachine(9, Db(None, EMPTY)), 9);
    DrawFine(BareMachine(8, Db(None, EMPTY)), 8);
    var m := BareMachine(7, Db(Some([]), EMPTY));
    assert Preflight(catalog, BareMachine(9, Db(None, EMPTY)), Unread(catalog)) == Done(m);
    BareStep();
    var m1 := BareMachine(3, Db(Some([BARE_DONE]), EMPTY)).(log := [CompletedStep(0, EMPTY)]);
    DrawFine(m1, 3);
    assert RowFits(catalog, 0, BARE_DONE) && ValidHistory(catalog, [BARE_DONE]);
    var read := Reread(catalog, m1);
    assert read == Outcome(Drawn(m1), StatusOf(catalog, [BARE_DONE]), None);
    assert ApplyFrom(catalog, 1, 1, read.m, read.status) == read;
  }

  /**
   * Restoring the session settings can fail after the commit: the run then reports a failure and
   * its starting status, yet the database has changed.
   */
  lemma CommittedYetFailed()
    ensures var m := Machine(Db(None, EMPTY), None, FailingAfter(11), []);
      var r := Run(BareCatalog(), Apply, 1, m);
      && r.failure.Some? && r.closing && r.status == Unread(BareCatalog())
      && r.m.durable == Db(Some([BARE_DONE]), EMPTY)
  {
    var m := Machine(Db(None, EMPTY), None, FailingAfter(11), []);
    DrawFine(m, 11);
    assert Lease(BareCatalog(), m) == Done(BareMachine(10, Db(None, EMPTY)));
    BareBody();
    var o := Body(BareCatalog(), Apply, 1, BareMachine(10, Db(None, EMPTY))).0;
    DrawFine(o.m, 2);
    DrawFine(Drawn(o.m), 1);
    assert Close(Sqlite, Drawn(o.m), true).Broke?;
  }

  // ----- a dirty journal freezes the database -----

  /** Nothing happened but drawn faults, and the outcome is an error. */
  predicate Refused(m: Machine, o: Outcome) { Unmoved(m, o.m) && o.failure.Some? }

  lemma Refusals(catalog: Catalog, op: Operation, now: int, m: Machine, status: Status)
    requires |catalog.steps| > 0 && |status.history| <= |catalog.steps|
    ensures status.dirty && (op.Apply? || op.Adopt? || op.Verify?) ==> Refused(m, Perform(catalog, op, now, m, status))
    ensures op.Verify? ==> Unmoved(m, Perform(catalog, op, now, m, status).m)
    ensures op.Repair? && !Names(status, op.id) ==> Refused(m, Perform(catalog, op, now, m, status))
    ensures op.Retry? && !(Names(status, op.id) && Retryable(catalog, |status.history| - 1)) ==>
              Refused(m, Perform(catalog, op, now, m, status))
    ensures op.Adopt? && |status.history| > 0 ==> Refused(m, Perform(catalog, op, now, m, status))
  {}

  /** The operation may touch a database with this journal. */
  predicate Permitted(catalog: Catalog, op: Operation, rows: seq<Record>) {
    match op
    case Verify => false
    case Apply => !IsDirty(rows)
    case Adopt(id) => rows == [] && id == catalog.bootstrap
    case Repair(id) => IsDirty(rows) && rows[|rows| - 1].id == id
    case Retry(id) => IsDirty(rows) && rows[|rows| - 1].id == id && |rows| <= |catalog.steps| && Retryable(catalog, |rows| - 1)
  }

  /** A journal that cannot be read, or does not permit the operation, leaves everything as it was. */
  lemma BodyRefuses(catalog: Catalog, op: Operation, now: int, m: Machine)
    requires |catalog.steps| > 0
    requires !(ValidHistory(catalog, Rows(m)) && Permitted(catalog, op, Rows(m))) && !(op.Adopt? && op.id != catalog.bootstrap)
    ensures var o := Body(catalog, op, now, m).0;
      Unmoved(m, o.m) && (!op.Verify? || IsDirty(Rows(m)) ==> o.failure.Some?)
  {
    var read := Inspect(catalog, m);
    InspectReads(catalog, m);
    if read.failure.None? && |read.status.history| <= |catalog.steps| {
      Refusals(catalog, op, now, read.m, read.status);
    }
  }

  /** Inspection moves nothing, and succeeds only on a journal that reads back. */
  lemma InspectReads(catalog: Catalog, m: Machine)
    ensures var read := Inspect(catalog, m);
      && Unmoved(m, read.m)
      && (read.failure.None? ==>
            ValidHistory(catalog, Rows(m)) && read.status.history == Rows(m) && read.status.dirty == IsDirty(Rows(m)))
  {
    assert Rows(m) == [] ==> ValidHistory(catalog, Rows(m));
  }

  lemma FinishRefuses(catalog: Catalog, initial: Status, m: Machine, o: Outcome)
    requires Unmoved(m, o.m) && (m.open.Some? ==> View(m) == m.durable)
    ensures var r := Finish(catalog, initial, o);
      r.m.durable == m.durable && r.m.log == m.log && (o.failure.Some? ==> r.failure.Some?)
  {}

  /**
   * A run leaves the database and the trace alone unless its journal reads back and permits the
   * operation: a dirty journal freezes apply, adopt and verify, repair and retry need the exact
   * last identifier, retry never runs for the baseline or a transactional step.
   */
  lemma UnpermittedRunsChangeNothing(catalog: Catalog, op: Operation, now: int, m: Machine)
    requires |catalog.steps| > 0 && m.open.None?
    requires !(ValidHistory(catalog, JournalRows(m.durable)) && Permitted(catalog, op, JournalRows(m.durable)))
    ensures var r := Run(catalog, op, now, m);
      && r.m.durable == m.durable && r.m.log == m.log
      && (!op.Verify? || IsDirty(JournalRows(m.durable)) ==> r.failure.Some?)
  {
    var leased := Lease(catalog, m);
    if leased.Done? && !(op.Adopt? && op.id != catalog.bootstrap) {
      assert View(leased.m) == m.durable && leased.m.log == m.log;
      BodyRefuses(catalog, op, now, leased.m);
      FinishRefuses(catalog, Body(catalog, op, now, leased.m).1, leased.m, Body(catalog, op, now, leased.m).0);
    }
  }

  // ----- repair and retry change only the last record -----

  /** The journal is as before, or its last record is complete now. */
  predicate LastOnly(before: Db, later: Db, now: int) {
    later.journal == before.journal || later.journal == Some(LastCompletedAt(JournalRows(before), now))
  }

  function LastCompletedAt(rows: seq<Record>, now: int): seq<Record> {
    if rows == [] then [] else rows[|rows| - 1 := CompletedRow(rows[|rows| - 1], now)]
  }

  /** Everything a repair relies on. */
  predicate RepairFounded(catalog: Catalog, id: int, db: Db) {
    var rows := JournalRows(db);
    && ValidHistory(catalog, rows) && Permitted(catalog, Repair(id), rows)
    && Verified(catalog, catalog.steps[|rows| - 1], db.content)
  }

  /** Everything a retry relies on. */
  predicate RetryFounded(catalog: Catalog, id: int, db: Db) {
    var rows := JournalRows(db);
    && ValidHistory(catalog, rows) && Permitted(catalog, Retry(id), rows)
    && Verified(catalog, catalog.steps[|rows| - 2], db.content)
    && var step := catalog.steps[|rows| - 1];
       step.preconditions(db.content) && step.retry.value(db.content)
  }

  lemma CompleteLastOnly(catalog: Catalog, now: int, m: Machine)
    requires ValidCatalog(catalog) && ValidHistory(catalog, Rows(m)) && IsDirty(Rows(m))
    ensures var p := CompleteRecord(|Rows(m)| - 1, catalog.steps[|Rows(m)| - 1], now, m);
      LastOnly(View(m), View(p.m), now) && View(p.m).content == View(m).content
  {
    CompletesLast(catalog, Rows(m), now);
  }

  lemma RepairViews(catalog: Catalog, now: int, m: Machine, status: Status, id: int)
    requires |status.history| <= |catalog.steps| && Names(status, id)
    ensures var later := RunRepair(catalog, now, m, status, id).m;
      var i := |status.history| - 1;
      var m1 := m.(faults := Drawn(m).faults);
      View(later) == View(m) || View(later) == View(CompleteRecord(i, catalog.steps[i], now, m1).m)
  {
    var i := |status.history| - 1;
    var p := VerifyStep(catalog, catalog.steps[i], m);
    assert p.m == m.(faults := Drawn(m).faults) && View(p.m) == View(m);
    if p.Done? {
      var q := CompleteRecord(i, catalog.steps[i], now, p.m);
      assert q.Done? ==> View(Reread(catalog, q.m).m) == View(q.m);
    }
  }

  lemma UnverifiedRepair(catalog: Catalog, now: int, m: Machine, status: Status, id: int)
    requires |status.history| <= |catalog.steps| && Names(status, id)
    ensures !Verified(catalog, catalog.steps[|status.history| - 1], View(m).content) ==>
      View(RunRepair(catalog, now, m, status, id).m) == View(m)
  {}

  lemma FoundedRepair(catalog: Catalog, m: Machine, status: Status, id: int)
    requires ValidHistory(catalog, Rows(m)) && status == StatusOf(catalog, Rows(m)) && Names(status, id)
    requires Verified(catalog, catalog.steps[|Rows(m)| - 1], View(m).content)
    ensures RepairFounded(catalog, id, View(m))
  {}

  lemma RepairEffect(catalog: Catalog, now: int, m: Machine, status: Status, id: int)
    requires ValidCatalog(catalog) && ValidHistory(catalog, Rows(m)) && status == StatusOf(catalog, Rows(m))
    requires Names(status, id)
    ensures var later := RunRepair(catalog, now, m, status, id).m;
      View(later).content == View(m).content && LastOnly(View(m), View(later), now)
  {
    RepairViews(catalog, now, m, status, id);
    AtMostCompleted(catalog, now, m, View(RunRepair(catalog, now, m, status, id).m));
  }

  lemma AtMostCompleted(catalog: Catalog, now: int, m: Machine, later: Db)
    requires ValidCatalog(catalog) && ValidHistory(catalog, Rows(m)) && IsDirty(Rows(m))
    requires var m1 := m.(faults := Drawn(m).faults);
      later == View(m) || later == View(CompleteRecord(|Rows(m)| - 1, catalog.steps[|Rows(m)| - 1], now, m1).m)
    ensures later.content == View(m).content && LastOnly(View(m), later, now)
  {
    CompleteLastOnly(catalog, now, m.(faults := Drawn(m).faults));
  }

  predicate RetryAsked(catalog: Catalog, m: Machine, status: Status, id: int) {
    && ValidCatalog(catalog) && ValidHistory(catalog, Rows(m)) && status == StatusOf(catalog, Rows(m))
    && Names(status, id) && Retryable(catalog, |Rows(m)| - 1)
  }

  lemma RetryLastOnly(catalog: Catalog, now: int, m: Machine, status: Status, id: int)
    requires RetryAsked(catalog, m, status, id)
    ensures LastOnly(View(m), View(RunRetry(catalog, now, m, status, id).m), now)
  {
    var i := |Rows(m)| - 1;
    var p := RetryChecks(catalog, i, m, status.dirty);
    RetryChecksOnly(catalog, i, m, status.dirty);
    RetryViews(catalog, now, m, status, id);
    if p.Done? {
      assert View(p.m) == View(m);
      ExecuteLastOnly(catalog, now, p.m);
    }
  }

  lemma FoundedRetry(catalog: Catalog, m: Machine, status: Status, id: int)
    requires RetryAsked(catalog, m, status, id)
    requires RetryChecks(catalog, |Rows(m)| - 1, m, status.dirty).Done?
    ensures RetryFounded(catalog, id, View(m))
  {}

  lemma ChangedAfterChecks(catalog: Catalog, now: int, m: Machine, status: Status, id: int)
    requires RetryAsked(catalog, m, status, id)
    requires var o := RunRetry(catalog, now, m, status, id); View(o.m) != View(m) || o.m.log != m.log
    ensures RetryChecks(catalog, |Rows(m)| - 1, m, status.dirty).Done?
  {}

  lemma RetryViews(catalog: Catalog, now: int, m: Machine, status: Status, id: int)
    requires |status.history| <= |catalog.steps| && Names(status, id) && Retryable(catalog, |status.history| - 1)
    ensures var i := |status.history| - 1;
      var o := RunRetry(catalog, now, m, status, id);
      var p := RetryChecks(catalog, i, m, status.dirty);
      && (p.Broke? ==> o.m == p.m)
      && (p.Done? ==> View(o.m) == View(ExecuteStep(catalog, i, now, p.m).m))
  {
    RetryByParts(catalog, now, m, status, id);
  }

  lemma ExecuteLastOnly(catalog: Catalog, now: int, m: Machine)
    requires ValidCatalog(catalog) && ValidHistory(catalog, Rows(m)) && IsDirty(Rows(m))
    ensures LastOnly(View(m), View(ExecuteStep(catalog, |Rows(m)| - 1, now, m).m), now)
  {
    var last := |Rows(m)| - 1;
    StatementsFrame(last, catalog.steps[last], 0, m);
    var p1 := Statements(last, catalog.steps[last], 0, m);
    var p2 := VerifyStep(catalog, catalog.steps[last], p1.m);
    if p1.Done? && p2.Done? {
      assert Rows(p2.m) == Rows(m);
      CompleteLastOnly(catalog, now, p2.m);
    }
  }

  lemma RetryEffect(catalog: Catalog, now: int, m: Machine, status: Status, id: int)
    requires RetryAsked(catalog, m, status, id)
    ensures var later := RunRetry(catalog, now, m, status, id).m;
      && LastOnly(View(m), View(later), now)
      && (View(later) != View(m) || later.log != m.log ==> RetryFounded(catalog, id, View(m)))
  {
    RetryLastOnly(catalog, now, m, status, id);
    var later := RunRetry(catalog, now, m, status, id).m;
    if View(later) != View(m) || later.log != m.log {
      ChangedAfterChecks(catalog, now, m, status, id);
      FoundedRetry(catalog, m, status, id);
    }
  }

  /** The journal reads back and permits the repair or the retry. */
  lemma PermittedEffect(catalog: Catalog, op: Operation, now: int, m: Machine, status: Status)
    requires ValidCatalog(catalog) && ValidHistory(catalog, Rows(m)) && status == StatusOf(catalog, Rows(m))
    requires (op.Repair? || op.Retry?) && Permitted(catalog, op, Rows(m))
    ensures var later := Perform(catalog, op, now, m, status).m;
      && LastOnly(View(m), View(later), now)
      && (op.Repair? ==> View(later).content == View(m).content)
      && (View(later) != View(m) ==> if op.Repair? then RepairFounded(catalog, op.id, View(m)) else RetryFounded(catalog, op.id, View(m)))
  {
    if op.Repair? {
      RepairEffect(catalog, now, m, status, op.id);
      UnverifiedRepair(catalog, now, m, status, op.id);
      if Verified(catalog, catalog.steps[|Rows(m)| - 1], View(m).content) {
        FoundedRepair(catalog, m, status, op.id);
      }
    } else {
      RetryEffect(catalog, now, m, status, op.id);
    }
  }

  /** The view of a leased run after its repair or retry. */
  lemma BodyEffect(catalog: Catalog, op: Operation, now: int, m: Machine)
    requires ValidCatalog(catalog) && (op.Repair? || op.Retry?)
    ensures var later := Body(catalog, op, now, m).0.m;
      && LastOnly(View(m), View(later), now)
      && (op.Repair? ==> View(later).content == View(m).content)
      && (View(later) != View(m) ==> if op.Repair? then RepairFounded(catalog, op.id, View(m)) else RetryFounded(catalog, op.id, View(m)))
  {
    if !(ValidHistory(catalog, Rows(m)) && Permitted(catalog, op, Rows(m))) {
      BodyRefuses(catalog, op, now, m);
    } else {
      var read := Inspect(catalog, m);
      assert Unmoved(m, read.m) && View(read.m) == View(m);
      if read.failure.None? {
        PermittedEffect(catalog, op, now, read.m, read.status);
      }
    }
  }

  lemma FinishPublishes(catalog: Catalog, initial: Status, o: Outcome)
    ensures var r := Finish(catalog, initial, o);
      r.m.durable == o.m.durable || r.m.durable == View(o.m)
  {}

  /**
   * Repair and retry change no record but the last, turning it from started to complete. A repair
   * changes nothing else, and only when the schema and data verify; a retry changes anything only
   * from the verified schema of the step before, with its preconditions met.
   */
  lemma RepairAndRetryAreExact(catalog: Catalog, op: Operation, now: int, m: Machine)
    requires ValidCatalog(catalog) && (op.Repair? || op.Retry?) && m.open.None?
    ensures var later := Run(catalog, op, now, m).m.durable;
      && LastOnly(m.durable, later, now)
      && (op.Repair? ==> later.content == m.durable.content)
      && (later != m.durable ==> if op.Repair? then RepairFounded(catalog, op.id, m.durable) else RetryFounded(catalog, op.id, m.durable))
  {
    var leased := Lease(catalog, m);
    if leased.Done? {
      assert View(leased.m) == m.durable;
      var body := Body(catalog, op, now, leased.m);
      BodyEffect(catalog, op, now, leased.m);
      FinishPublishes(catalog, body.1, body.0);
      BodyInside(catalog, op, now, leased.m);
    }
  }
}
