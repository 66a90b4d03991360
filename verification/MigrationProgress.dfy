/**
 * When nothing fails, apply reaches the target and a second apply does nothing; and whatever
 * fails, a run that reports success leaves a clean journal, one that leaves a dirty journal says so.
 */
module MigrationProgress {
  import opened Outcomes
  import opened MigrationHistory
  import opened MigrationRun
  import opened MigrationSafety
  import opened MigrationSessions
  import opened MigrationGuarantees

  // ----- runs without faults -----

  predicate Calm(m: Machine) { m.faults == [] }

  /** The content after the step's statements from number `k` on. */
  function Ran(step: Step, k: nat, content: Content): Content
    requires k <= |step.statements|
    decreases |step.statements| - k
  {
    if k == |step.statements| then content else Ran(step, k + 1, step.statements[k](content))
  }

  function ContentAfter(catalog: Catalog, i: nat, content: Content): Content
    requires i <= |catalog.steps|
    decreases |catalog.steps| - i
  {
    if i == |catalog.steps| then content else ContentAfter(catalog, i + 1, Ran(catalog.steps[i], 0, content))
  }

  predicate Allowed(step: Step, content: Content) {
    step.preconditions(content) && (step.retry.Some? ==> step.retry.value(content))
  }

  /** From this content every step from `i` on finds its preconditions and reaches its snapshot. */
  predicate Sound(catalog: Catalog, i: nat, content: Content)
    requires i <= |catalog.steps|
    decreases |catalog.steps| - i
  {
    i == |catalog.steps|
    || (&& Allowed(catalog.steps[i], content)
        && Verified(catalog, catalog.steps[i], Ran(catalog.steps[i], 0, content))
        && Sound(catalog, i + 1, Ran(catalog.steps[i], 0, content)))
  }

  lemma {:induction false} StatementsSucceed(i: nat, step: Step, k: nat, m: Machine)
    requires Calm(m) && k <= |step.statements|
    ensures var p := Statements(i, step, k, m);
      && p.Done? && Calm(p.m) && p.m.open.Some? == m.open.Some?
      && View(p.m) == View(m).(content := Ran(step, k, View(m).content))
    decreases |step.statements| - k
  {
    if k < |step.statements| {
      var m0 := m.(log := m.log + [RanStatement(i)]);
      var after := View(m).(content := step.statements[k](View(m).content));
      assert Write(m0, after) == Done(WithView(m0, after));
      StatementsSucceed(i, step, k + 1, WithView(m0, after));
    }
  }

  lemma ExecuteSucceeds(catalog: Catalog, now: int, m: Machine)
    requires ValidCatalog(catalog) && ValidHistory(catalog, Rows(m)) && IsDirty(Rows(m)) && Calm(m)
    requires var step := catalog.steps[|Rows(m)| - 1]; Verified(catalog, step, Ran(step, 0, View(m).content))
    ensures var p := ExecuteStep(catalog, |Rows(m)| - 1, now, m);
      && p.Done? && Calm(p.m)
      && View(p.m).content == Ran(catalog.steps[|Rows(m)| - 1], 0, View(m).content)
  {
    var last := |Rows(m)| - 1;
    var step := catalog.steps[last];
    StatementsSucceed(last, step, 0, m);
    var p1 := Statements(last, step, 0, m);
    assert VerifyStep(catalog, step, p1.m) == Done(p1.m);
    CompletesLast(catalog, Rows(m), now);
  }

  lemma StepBodySucceeds(catalog: Catalog, now: int, m: Machine)
    requires ValidCatalog(catalog) && now > 0 && View(m).journal.Some? && Calm(m)
    requires ValidHistory(catalog, Rows(m)) && !IsDirty(Rows(m)) && |Rows(m)| < |catalog.steps|
    requires var step := catalog.steps[|Rows(m)|];
      Allowed(step, View(m).content) && Verified(catalog, step, Ran(step, 0, View(m).content))
    ensures var p := StepBody(catalog, |Rows(m)|, now, m);
      && p.Done? && Calm(p.m)
      && View(p.m).content == Ran(catalog.steps[|Rows(m)|], 0, View(m).content)
  {
    var n := |Rows(m)|;
    StartStepKeeps(catalog, now, m);
    StartedHistory(catalog, Rows(m), Mode.Executed, now);
    assert CheckPreconditions(catalog.steps[n], m) == Done(m);
    var p := StartStep(catalog, n, now, m);
    assert p.Done? && Calm(p.m);
    assert Rows(p.m) == WithStarted(catalog, Rows(m), now);
    ExecuteSucceeds(catalog, now, p.m);
  }

  lemma ApplyStepSucceeds(catalog: Catalog, now: int, m: Machine)
    requires ValidCatalog(catalog) && now > 0 && Leased(catalog, m) && View(m).journal.Some? && Calm(m)
    requires !IsDirty(Rows(m)) && |Rows(m)| < |catalog.steps| && Sound(catalog, |Rows(m)|, View(m).content)
    ensures var p := ApplyStep(catalog, |Rows(m)|, now, m);
      && p.Done? && Calm(p.m)
      && View(p.m).content == Ran(catalog.steps[|Rows(m)|], 0, View(m).content)
  {
    var n := |Rows(m)|;
    if OwnTransaction(catalog, catalog.steps[n]) {
      var m1 := m.(open := Some(m.durable));
      assert Begin(m) == Done(m1) && View(m1) == View(m) && Rows(m1) == Rows(m);
      StepBodySucceeds(catalog, now, m1);
    } else {
      StepBodySucceeds(catalog, now, m);
    }
  }

  /** Everything the next iteration of the loop needs. */
  lemma NextStepReady(catalog: Catalog, now: int, m: Machine)
    requires ValidCatalog(catalog) && now > 0 && Leased(catalog, m) && View(m).journal.Some? && Calm(m)
    requires !IsDirty(Rows(m)) && |Rows(m)| < |catalog.steps| && Sound(catalog, |Rows(m)|, View(m).content)
    ensures var p := ApplyStep(catalog, |Rows(m)|, now, m);
      && p.Done? && Calm(p.m) && |Rows(p.m)| == |Rows(m)| + 1
      && Ready(catalog, p.m, StatusOf(catalog, Rows(p.m)))
      && View(p.m).content == Ran(catalog.steps[|Rows(m)|], 0, View(m).content)
      && Reread(catalog, p.m) == Outcome(p.m, StatusOf(catalog, Rows(p.m)), None)
  {
    ApplyStepKeeps(catalog, now, m);
    ApplyStepSucceeds(catalog, now, m);
    AdvancedLeased(catalog, m, ApplyStep(catalog, |Rows(m)|, now, m).m);
  }

  /** Every step has been applied, without a failure. */
  predicate Finished(catalog: Catalog, reached: Content, o: Outcome) {
    o.failure.None? && Calm(o.m) && |Rows(o.m)| == |catalog.steps| && !IsDirty(Rows(o.m)) && View(o.m).content == reached
  }

  lemma {:induction false} ApplyFromSucceeds(catalog: Catalog, i: nat, now: int, m: Machine, status: Status)
    requires ValidCatalog(catalog) && now > 0 && Ready(catalog, m, status) && i <= |Rows(m)| && Calm(m)
    requires Sound(catalog, |Rows(m)|, View(m).content)
    ensures Finished(catalog, ContentAfter(catalog, |Rows(m)|, View(m).content), ApplyFrom(catalog, i, now, m, status))
    decreases |catalog.steps| - i
  {
    if i < |catalog.steps| {
      LoopUnrolls(catalog, i, now, m, status);
      SkipsCompleted(catalog, m, status, i);
      if i < |Rows(m)| {
        ApplyFromSucceeds(catalog, i + 1, now, m, status);
      } else {
        NextStepReady(catalog, now, m);
        var p := ApplyStep(catalog, i, now, m);
        ApplyFromSucceeds(catalog, i + 1, now, p.m, StatusOf(catalog, Rows(p.m)));
      }
    }
  }

  lemma PreflightSucceeds(catalog: Catalog, m: Machine, status: Status)
    requires Known(catalog, m, status) && Calm(m)
    requires Rows(m) == [] ==> Unused(catalog, View(m).content)
    requires Rows(m) != [] ==> Verified(catalog, catalog.steps[|Rows(m)| - 1], View(m).content)
    ensures var p := Preflight(catalog, m, status); p.Done? && Calm(p.m) && View(p.m).content == View(m).content
  {}

  lemma InspectSucceeds(catalog: Catalog, m: Machine)
    requires ValidCatalog(catalog) && Leased(catalog, m) && Calm(m)
    ensures Inspect(catalog, m) == Outcome(m, StatusOf(catalog, Rows(m)), None) && Known(catalog, m, StatusOf(catalog, Rows(m)))
  {}

  lemma BodySucceeds(catalog: Catalog, now: int, m: Machine)
    requires ValidCatalog(catalog) && now > 0 && Leased(catalog, m) && Calm(m) && !IsDirty(Rows(m))
    requires Rows(m) == [] ==> Unused(catalog, View(m).content)
    requires Rows(m) != [] ==> Verified(catalog, catalog.steps[|Rows(m)| - 1], View(m).content)
    requires Sound(catalog, |Rows(m)|, View(m).content)
    ensures Finished(catalog, ContentAfter(catalog, |Rows(m)|, View(m).content), Body(catalog, Apply, now, m).0)
  {
    var status := StatusOf(catalog, Rows(m));
    InspectSucceeds(catalog, m);
    PreflightKeeps(catalog, m, status);
    PreflightSucceeds(catalog, m, status);
    ApplyFromSucceeds(catalog, 0, now, Preflight(catalog, m, status).m, status);
  }

  /** A database at rest from which the remaining steps can run. */
  predicate Prepared(catalog: Catalog, db: Db) {
    var rows := JournalRows(db);
    && Settled(catalog, db) && !IsDirty(rows) && Sound(catalog, |rows|, db.content)
    && (rows == [] ==> Unused(catalog, db.content))
    && (rows != [] ==> Verified(catalog, catalog.steps[|rows| - 1], db.content))
  }

  /** A database at the target revision with that content, and a status that says so. */
  predicate AtTarget(catalog: Catalog, content: Content, db: Db, status: Status) {
    && Settled(catalog, db) && db.content == content
    && status == StatusOf(catalog, JournalRows(db))
    && status.pending == [] && !status.dirty && status.revision == catalog.target
  }

  /** When every effect succeeds and the catalog is sound, apply empties the pending list at the target revision. */
  lemma ApplyReachesTarget(catalog: Catalog, now: int, m: Machine)
    requires ValidCatalog(catalog) && now > 0 && m.open.None? && Calm(m) && TraceVerified(catalog, m.log)
    requires Prepared(catalog, m.durable)
    ensures var r := Run(catalog, Apply, now, m);
      && r.failure.None?
      && AtTarget(catalog, ContentAfter(catalog, |JournalRows(m.durable)|, m.durable.content), r.m.durable, r.status)
  {
    var leased := if catalog.dialect.Sqlite? then m.(open := Some(m.durable)) else m;
    assert Lease(catalog, m) == Done(leased);
    assert View(leased) == m.durable && Rows(leased) == JournalRows(m.durable);
    BodyReachesTarget(catalog, now, leased);
    var body := Body(catalog, Apply, now, leased);
    FinishSucceeds(catalog, body.1, body.0);
  }

  lemma BodyReachesTarget(catalog: Catalog, now: int, m: Machine)
    requires ValidCatalog(catalog) && now > 0 && Leased(catalog, m) && Calm(m) && Prepared(catalog, View(m))
    ensures var o := Body(catalog, Apply, now, m).0;
      && o.failure.None? && Calm(o.m)
      && AtTarget(catalog, ContentAfter(catalog, |Rows(m)|, View(m).content), View(o.m), o.status)
  {
    BodySucceeds(catalog, now, m);
    BodyKeeps(catalog, Apply, now, m);
    var o := Body(catalog, Apply, now, m).0;
    TargetStatus(catalog, Rows(o.m));
  }

  lemma FinishSucceeds(catalog: Catalog, initial: Status, o: Outcome)
    requires o.failure.None? && Calm(o.m)
    ensures var r := Finish(catalog, initial, o); r.failure.None? && r.status == o.status && r.m.durable == View(o.m)
  {}

  lemma TargetStatus(catalog: Catalog, rows: seq<Record>)
    requires ValidCatalog(catalog) && ValidHistory(catalog, rows) && |rows| == |catalog.steps| && !IsDirty(rows)
    ensures StatusOf(catalog, rows).pending == [] && StatusOf(catalog, rows).revision == catalog.target
  {
    assert RowFits(catalog, |rows| - 1, rows[|rows| - 1]);
  }

  /** At the target the loop has nothing left to do. */
  lemma {:induction false} LoopIdle(catalog: Catalog, i: nat, now: int, m: Machine, status: Status)
    requires ValidCatalog(catalog) && Ready(catalog, m, status) && i <= |Rows(m)| == |catalog.steps|
    ensures ApplyFrom(catalog, i, now, m, status) == Outcome(m, status, None)
    decreases |catalog.steps| - i
  {
    if i < |catalog.steps| {
      SkipsCompleted(catalog, m, status, i);
      LoopIdle(catalog, i + 1, now, m, status);
    }
  }

  /** Whatever fails, an apply at the target revision executes no statement and changes nothing. */
  lemma SecondApplyIdle(catalog: Catalog, now: int, m: Machine)
    requires ValidCatalog(catalog) && m.open.None? && Settled(catalog, m.durable) && TraceVerified(catalog, m.log)
    requires !IsDirty(JournalRows(m.durable)) && |JournalRows(m.durable)| == |catalog.steps|
    ensures var r := Run(catalog, Apply, now, m);
      r.m.durable == m.durable && r.m.log == m.log
  {
    var leased := Lease(catalog, m);
    if leased.Done? {
      assert View(leased.m) == m.durable && leased.m.log == m.log && Leased(catalog, leased.m);
      BodyIdle(catalog, now, leased.m);
      var body := Body(catalog, Apply, now, leased.m);
      FinishRefuses(catalog, body.1, leased.m, body.0);
    }
  }

  lemma BodyIdle(catalog: Catalog, now: int, m: Machine)
    requires ValidCatalog(catalog) && Leased(catalog, m) && !IsDirty(Rows(m)) && |Rows(m)| == |catalog.steps|
    ensures Unmoved(m, Body(catalog, Apply, now, m).0.m)
  {
    InspectKeeps(catalog, m);
    var read := Inspect(catalog, m);
    if read.failure.None? {
      PreflightKeeps(catalog, read.m, read.status);
      var p := Preflight(catalog, read.m, read.status);
      assert Unmoved(m, p.m);
      if p.Done? {
        LoopIdle(catalog, 0, now, p.m, read.status);
      }
    }
  }

  // ----- what a run reports -----

  /** The outcome of an operation owns up to a dirty journal. */
  predicate Told(o: Outcome) {
    && (o.failure.None? ==> !IsDirty(Rows(o.m)))
    && (o.failure.Some? && IsDirty(Rows(o.m)) ==> Loud(o.failure.value, o.status))
  }

  predicate Loud(failure: Failure, status: Status) {
    if failure.Plain? then status.dirty else failure.dirty
  }

  /** A step that leaves its record started outside a transaction says that the journal is dirty. */
  lemma StepIsLoud(catalog: Catalog, now: int, m: Machine)
    requires ValidCatalog(catalog) && now > 0 && View(m).journal.Some?
    requires ValidHistory(catalog, Rows(m)) && !IsDirty(Rows(m)) && |Rows(m)| < |catalog.steps|
    requires !catalog.steps[|Rows(m)|].transactional
    ensures var p := StepBody(catalog, |Rows(m)|, now, m);
      p.Broke? && IsDirty(Rows(p.m)) ==> p.failure.Reported? && p.failure.dirty
  {}

  lemma ExecuteIsLoud(catalog: Catalog, i: nat, now: int, m: Machine)
    requires i < |catalog.steps| && !catalog.steps[i].transactional
    ensures var p := ExecuteStep(catalog, i, now, m); p.Broke? ==> p.failure.Reported? && p.failure.dirty
  {}

  /** Outside SQLite a failed step leaves no dirty journal that it does not report. */
  lemma ApplyStepIsLoud(catalog: Catalog, now: int, m: Machine)
    requires ValidCatalog(catalog) && now > 0 && Leased(catalog, m) && View(m).journal.Some? && !catalog.dialect.Sqlite?
    requires !IsDirty(Rows(m)) && |Rows(m)| < |catalog.steps|
    ensures var p := ApplyStep(catalog, |Rows(m)|, now, m);
      p.Broke? && IsDirty(Rows(p.m)) ==> p.failure.Reported? && p.failure.dirty
  {
    if OwnTransaction(catalog, catalog.steps[|Rows(m)|]) {
      TransactionalStepAtomic(catalog, now, m);
    } else {
      StepIsLoud(catalog, now, m);
    }
  }

  /** Where the loop goes on after a step: ready again, or with a failed reading of a clean journal. */
  lemma AfterStepTold(catalog: Catalog, now: int, m: Machine)
    requires ValidCatalog(catalog) && now > 0 && Leased(catalog, m) && View(m).journal.Some? && !catalog.dialect.Sqlite?
    requires !IsDirty(Rows(m)) && |Rows(m)| < |catalog.steps|
    ensures var p := ApplyStep(catalog, |Rows(m)|, now, m);
      p.Done? ==>
        var read := Reread(catalog, p.m);
        && |Rows(read.m)| == |Rows(m)| + 1 && !IsDirty(Rows(read.m))
        && (read.failure.None? ==> Ready(catalog, read.m, read.status))
  {
    ApplyStepKeeps(catalog, now, m);
    var p := ApplyStep(catalog, |Rows(m)|, now, m);
    if p.Done? {
      AdvancedLeased(catalog, m, p.m);
      ReadyAfterReading(catalog, p.m);
    }
  }

  lemma ReadyAfterReading(catalog: Catalog, m: Machine)
    requires Leased(catalog, m) && View(m).journal.Some? && !IsDirty(Rows(m))
    ensures var read := Reread(catalog, m);
      && Rows(read.m) == Rows(m)
      && (read.failure.None? ==> Ready(catalog, read.m, read.status))
  {}

  lemma {:induction false} ApplyFromIsTold(catalog: Catalog, i: nat, now: int, m: Machine, status: Status)
    requires ValidCatalog(catalog) && now > 0 && Ready(catalog, m, status) && i <= |Rows(m)| && !catalog.dialect.Sqlite?
    ensures Told(ApplyFrom(catalog, i, now, m, status))
    decreases |catalog.steps| - i
  {
    if i < |catalog.steps| {
      SkipsCompleted(catalog, m, status, i);
      LoopUnrolls(catalog, i, now, m, status);
      if i < |Rows(m)| {
        ApplyFromIsTold(catalog, i + 1, now, m, status);
      } else {
        LoopStops(catalog, i, now, m, status);
        ApplyStepIsLoud(catalog, now, m);
        AfterStepTold(catalog, now, m);
        var p := ApplyStep(catalog, i, now, m);
        if p.Done? && Reread(catalog, p.m).failure.None? {
          ApplyFromIsTold(catalog, i + 1, now, Reread(catalog, p.m).m, Reread(catalog, p.m).status);
        }
      }
    }
  }

  lemma RunVerifyIsTold(catalog: Catalog, m: Machine, status: Status)
    requires Known(catalog, m, status)
    ensures Told(RunVerify(catalog, m, status))
  {}

  function Repaired(catalog: Catalog, now: int, m: Machine, status: Status): Outcome
    requires 0 < |status.history| <= |catalog.steps|
  {
    var i := |status.history| - 1;
    match Raise(CompleteRecord(i, catalog.steps[i], now, m), true, true)
    case Broke(m2, e) => Outcome(m2, status, Some(e))
    case Done(m2) => Reread(catalog, m2)
  }

  lemma RepairedIsTold(catalog: Catalog, now: int, m: Machine, status: Status)
    requires ValidCatalog(catalog) && now > 0 && ValidHistory(catalog, Rows(m)) && IsDirty(Rows(m)) && status.history == Rows(m)
    ensures Told(Repaired(catalog, now, m, status))
  {
    CompletesLast(catalog, Rows(m), now);
    CompletedHistory(catalog, Rows(m), now);
  }

  lemma RunRepairIsTold(catalog: Catalog, now: int, m: Machine, status: Status, id: int)
    requires Known(catalog, m, status) && now > 0
    ensures Told(RunRepair(catalog, now, m, status, id))
  {
    if Names(status, id) {
      var last := |Rows(m)| - 1;
      var p1 := VerifyStep(catalog, catalog.steps[last], m);
      assert View(p1.m) == View(m);
      if p1.Done? {
        assert RunRepair(catalog, now, m, status, id) == Repaired(catalog, now, p1.m, status);
        RepairedIsTold(catalog, now, p1.m, status);
      }
    }
  }

  /** Once the checks of a retry have passed. */
  lemma RetriedIsTold(catalog: Catalog, now: int, m: Machine, status: Status)
    requires ValidCatalog(catalog) && now > 0 && View(m).journal.Some? && TraceVerified(catalog, m.log)
    requires ValidHistory(catalog, Rows(m)) && IsDirty(Rows(m)) && !catalog.steps[|Rows(m)| - 1].transactional
    ensures var p := ExecuteStep(catalog, |Rows(m)| - 1, now, m);
      Told(if p.Broke? then Outcome(p.m, status, Some(p.failure)) else Reread(catalog, p.m))
  {
    ExecuteIsLoud(catalog, |Rows(m)| - 1, now, m);
    ExecuteStepKeeps(catalog, now, m);
  }

  lemma RunRetryIsTold(catalog: Catalog, now: int, m: Machine, status: Status, id: int)
    requires Known(catalog, m, status) && now > 0
    ensures Told(RunRetry(catalog, now, m, status, id))
  {
    RetryByParts(catalog, now, m, status, id);
    var last := |Rows(m)| - 1;
    if Names(status, id) && Retryable(catalog, last) {
      var p := RetryChecks(catalog, last, m, status.dirty);
      RetryChecksOnly(catalog, last, m, status.dirty);
      RetryChecksLoud(catalog, last, m, status.dirty);
      if p.Done? {
        RetriedAfterChecks(catalog, now, m, p.m, status);
      }
    }
  }

  lemma RetriedAfterChecks(catalog: Catalog, now: int, m: Machine, m1: Machine, status: Status)
    requires ValidCatalog(catalog) && Leased(catalog, m) && now > 0 && Unmoved(m, m1) && IsDirty(Rows(m))
    ensures var p := ExecuteStep(catalog, |Rows(m)| - 1, now, m1);
      Told(if p.Broke? then Outcome(p.m, status, Some(p.failure)) else Reread(catalog, p.m))
  {
    assert View(m1) == View(m);
    RetriedIsTold(catalog, now, m1, status);
  }

  lemma RetryChecksLoud(catalog: Catalog, i: nat, m: Machine, dirty: bool)
    requires 0 < i < |catalog.steps|
    ensures var p := RetryChecks(catalog, i, m, dirty); p.Broke? ==> p.failure.Reported? && p.failure.dirty == dirty
  {}

  /** Outside SQLite the adoption record is written whole or not at all. */
  lemma AdoptionIsClean(catalog: Catalog, now: int, m: Machine)
    requires ValidCatalog(catalog) && now > 0 && Leased(catalog, m) && View(m).journal.Some? && Rows(m) == []
    requires Verified(catalog, catalog.steps[0], View(m).content) && !catalog.dialect.Sqlite?
    ensures !IsDirty(Rows(RecordAdoption(catalog, now, m).m))
  {
    var p1 := Begin(m);
    if p1.Done? {
      assert View(p1.m) == View(m) && Rows(p1.m) == [];
      AdoptionBodyKeeps(catalog, now, p1.m);
    }
  }

  lemma RunAdoptIsTold(catalog: Catalog, now: int, m: Machine, status: Status)
    requires Known(catalog, m, status) && now > 0 && !catalog.dialect.Sqlite?
    ensures Told(RunAdopt(catalog, now, m, status))
  {
    if !status.dirty && |status.history| == 0 {
      var p1 := VerifyStep(catalog, catalog.steps[0], m);
      UnmovedAdvances(catalog, m, p1.m);
      if p1.Done? {
        CreateJournalKeeps(catalog, p1.m);
        var p2 := CreateJournal(p1.m);
        if p2.Done? {
          AdoptionIsClean(catalog, now, p2.m);
          assert Rows(Reread(catalog, RecordAdoption(catalog, now, p2.m).m).m) == Rows(RecordAdoption(catalog, now, p2.m).m);
        }
      }
    }
  }

  lemma RunApplyIsTold(catalog: Catalog, now: int, m: Machine, status: Status)
    requires Known(catalog, m, status) && now > 0 && !catalog.dialect.Sqlite?
    ensures Told(RunApply(catalog, now, m, status))
  {
    if !status.dirty {
      PreflightKeeps(catalog, m, status);
      var p := Preflight(catalog, m, status);
      if p.Done? {
        ApplyFromIsTold(catalog, 0, now, p.m, status);
      }
    }
  }

  lemma PerformIsTold(catalog: Catalog, op: Operation, now: int, m: Machine, status: Status)
    requires Known(catalog, m, status) && now > 0 && !catalog.dialect.Sqlite?
    ensures Told(Perform(catalog, op, now, m, status))
  {
    match op
    case Verify => RunVerifyIsTold(catalog, m, status);
    case Repair(id) => RunRepairIsTold(catalog, now, m, status, id);
    case Retry(id) => RunRetryIsTold(catalog, now, m, status, id);
    case Adopt(_) => RunAdoptIsTold(catalog, now, m, status);
    case Apply => RunApplyIsTold(catalog, now, m, status);
  }

  lemma SqliteNeverDirty(catalog: Catalog, db: Db)
    requires ValidCatalog(catalog) && catalog.dialect.Sqlite? && Settled(catalog, db)
    ensures !IsDirty(JournalRows(db))
  {}

  /** The run got its lease and could read the journal. */
  predicate Read(catalog: Catalog, op: Operation, m: Machine) {
    && !(op.Adopt? && op.id != catalog.bootstrap)
    && Lease(catalog, m).Done? && Inspect(catalog, Lease(catalog, m).m).failure.None?
  }

  /**
   * A run that reports success leaves a clean journal and reports its status. A run that could read
   * the journal and leaves it dirty reports a failure that is marked dirty or uncertain.
   */
  lemma ReportsAreHonest(catalog: Catalog, op: Operation, now: int, m: Machine)
    requires ValidCatalog(catalog) && now > 0 && m.open.None?
    requires Settled(catalog, m.durable) && TraceVerified(catalog, m.log)
    ensures var r := Run(catalog, op, now, m);
      Honest(catalog, r) && (Read(catalog, op, m) ==> Forthcoming(r))
  {
    RunKeeps(catalog, op, now, m);
    if catalog.dialect.Sqlite? {
      SqliteNeverDirty(catalog, Run(catalog, op, now, m).m.durable);
    }
    if Lease(catalog, m).Done? && !(op.Adopt? && op.id != catalog.bootstrap) {
      LeasedRunIsHonest(catalog, op, now, m, Lease(catalog, m).m);
    }
  }

  /** Success means a clean journal, and a status that is that journal's. */
  predicate Honest(catalog: Catalog, r: Report) {
    var rows := JournalRows(r.m.durable);
    r.failure.None? ==> ValidHistory(catalog, rows) && !IsDirty(rows) && r.status == StatusOf(catalog, rows)
  }

  /** A dirty journal is reported. */
  predicate Forthcoming(r: Report) {
    IsDirty(JournalRows(r.m.durable)) ==>
      r.failure.Some? && r.failure.value.Reported? && (r.failure.value.dirty || r.failure.value.uncertain)
  }

  lemma LeasedRunIsHonest(catalog: Catalog, op: Operation, now: int, m: Machine, leased: Machine)
    requires ValidCatalog(catalog) && now > 0 && m.open.None? && Settled(catalog, m.durable) && TraceVerified(catalog, m.log)
    requires Lease(catalog, m) == Done(leased)
    ensures var body := Body(catalog, op, now, leased);
      var r := Finish(catalog, body.1, body.0);
      && (catalog.dialect.Sqlite? && !IsDirty(JournalRows(r.m.durable)) ==> Honest(catalog, r))
      && (!catalog.dialect.Sqlite? ==>
            && (Inspect(catalog, leased).failure.None? ==> Forthcoming(r))
            && Honest(catalog, r))
  {
    assert View(leased) == m.durable && Leased(catalog, leased);
    var body := Body(catalog, op, now, leased);
    BodyKeeps(catalog, op, now, leased);
    SuccessReportsStatus(catalog, body.1, leased, body.0);
    FinishOpenless(catalog, body.1, leased, body.0);
    if !catalog.dialect.Sqlite? && Inspect(catalog, leased).failure.None? {
      BodyIsTold(catalog, op, now, leased);
      FinishIsHonest(catalog, body.1, body.0);
    }
  }

  lemma FinishOpenless(catalog: Catalog, initial: Status, m: Machine, o: Outcome)
    requires Leased(catalog, m) && Kept(catalog, m, o)
    ensures Finish(catalog, initial, o).m.open.None?
    ensures o.failure.Some? ==> Finish(catalog, initial, o).failure.Some?
  {}

  lemma BodyIsTold(catalog: Catalog, op: Operation, now: int, m: Machine)
    requires ValidCatalog(catalog) && now > 0 && Leased(catalog, m) && !catalog.dialect.Sqlite?
    requires Inspect(catalog, m).failure.None?
    ensures Told(Body(catalog, op, now, m).0)
  {
    InspectKeeps(catalog, m);
    var read := Inspect(catalog, m);
    PerformIsTold(catalog, op, now, read.m, read.status);
  }

  lemma FinishIsHonest(catalog: Catalog, initial: Status, o: Outcome)
    requires o.m.open.None? && Told(o)
    ensures var r := Finish(catalog, initial, o);
      && (r.failure.None? ==> !IsDirty(Rows(r.m)))
      && (IsDirty(Rows(r.m)) ==>
            r.failure.Some? && r.failure.value.Reported? && (r.failure.value.dirty || r.failure.value.uncertain))
  {}

  lemma SuccessReportsStatus(catalog: Catalog, initial: Status, m: Machine, o: Outcome)
    requires Leased(catalog, m) && Kept(catalog, m, o)
    ensures var r := Finish(catalog, initial, o);
      r.failure.None? ==> ValidHistory(catalog, Rows(r.m)) && r.status == StatusOf(catalog, Rows(r.m))
  {}
}
