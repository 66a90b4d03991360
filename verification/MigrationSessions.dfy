/**
 * Whole runs, and any number of them: apply, adopt, repair, retry and verify with every
 * failure and crash, on databases whose application data changes in between.
 */
module MigrationSessions {
  import opened Outcomes
  import opened MigrationHistory
  import opened MigrationRun
  import opened MigrationSafety

  // ----- composing parts of a run -----

  lemma GrownTransitive(catalog: Catalog, a: Db, b: Db, c: Db, log: seq<Event>, more: seq<Event>)
    requires Grown(catalog, a, b, log) && Grown(catalog, b, c, more) && log <= more
    ensures Grown(catalog, a, c, more)
    ensures CompleteCount(JournalRows(a)) <= CompleteCount(JournalRows(b)) && |JournalRows(b)| <= |JournalRows(c)|
  {
    FollowsTransitive(a, b, c);
    forall i | CompleteCount(JournalRows(a)) <= i < CompleteCount(JournalRows(c))
      ensures Traced(more, i)
    {
      if i < CompleteCount(JournalRows(b)) {
        assert Traced(log, i);
        var k :| 0 <= k < |log| && log[k].CompletedStep? && log[k].i == i;
        assert more[k] == log[k];
      }
    }
  }

  lemma ProgressedTransitive(catalog: Catalog, a: Db, b: Db, c: Db, log: seq<Event>, more: seq<Event>)
    requires Progressed(catalog, a, b, log) && Progressed(catalog, b, c, more) && log <= more
    ensures Progressed(catalog, a, c, more)
  {
    GrownTransitive(catalog, a, b, c, log, more);
  }

  lemma SafeAfter(catalog: Catalog, a: Machine, b: Machine, c: Machine)
    requires Advanced(catalog, a, b) && Safe(catalog, b, c)
    ensures Safe(catalog, a, c)
    ensures Advanced(catalog, b, c) ==> Advanced(catalog, a, c)
  {
    if a.open.None? {
      ProgressedTransitive(catalog, a.durable, b.durable, c.durable, b.log, c.log);
    }
    if Advanced(catalog, b, c) {
      ProgressedTransitive(catalog, View(a), View(b), View(c), b.log, c.log);
    }
  }

  /** Only faults were drawn. */
  predicate Unmoved(m: Machine, later: Machine) { later == m.(faults := later.faults) }

  lemma UnmovedAdvances(catalog: Catalog, m: Machine, later: Machine)
    requires Leased(catalog, m) && Unmoved(m, later)
    ensures Advanced(catalog, m, later) && Leased(catalog, later)
  {}

  /** What an operation's outcome keeps; success reports the status of the journal it leaves. */
  predicate Kept(catalog: Catalog, m: Machine, o: Outcome) {
    && Safe(catalog, m, o.m)
    && (o.failure.None? ==> Advanced(catalog, m, o.m) && o.status == StatusOf(catalog, Rows(o.m)))
  }

  lemma KeptAfter(catalog: Catalog, a: Machine, b: Machine, o: Outcome)
    requires Advanced(catalog, a, b) && Kept(catalog, b, o)
    ensures Kept(catalog, a, o)
  {
    SafeAfter(catalog, a, b, o.m);
  }

  lemma AdvancedLeased(catalog: Catalog, m: Machine, later: Machine)
    requires Leased(catalog, m) && Advanced(catalog, m, later)
    ensures Leased(catalog, later)
  {}

  lemma RereadKeeps(catalog: Catalog, m: Machine)
    requires Leased(catalog, m)
    ensures var o := Reread(catalog, m); Kept(catalog, m, o) && Unmoved(m, o.m)
  {}

  // ----- the loop of apply -----

  /** Ready to run the next step. */
  predicate Ready(catalog: Catalog, m: Machine, status: Status) {
    && Leased(catalog, m) && View(m).journal.Some? && !IsDirty(Rows(m))
    && status == StatusOf(catalog, Rows(m))
  }

  /** A step is skipped exactly when its record is complete. */
  lemma SkipsCompleted(catalog: Catalog, m: Machine, status: Status, i: nat)
    requires ValidCatalog(catalog) && Ready(catalog, m, status) && i <= |Rows(m)| && i < |catalog.steps|
    ensures catalog.steps[i].id <= status.revision <==> i < |Rows(m)|
  {
    var n := |Rows(m)|;
    if n > 0 {
      assert RowFits(catalog, n - 1, Rows(m)[n - 1]);
    }
  }

  lemma LoopUnrolls(catalog: Catalog, i: nat, now: int, m: Machine, status: Status)
    requires i < |catalog.steps|
    ensures catalog.steps[i].id <= status.revision ==>
              ApplyFrom(catalog, i, now, m, status) == ApplyFrom(catalog, i + 1, now, m, status)
    ensures var p := ApplyStep(catalog, i, now, m);
      !(catalog.steps[i].id <= status.revision) && p.Done? && Reread(catalog, p.m).failure.None? ==>
        ApplyFrom(catalog, i, now, m, status) == ApplyFrom(catalog, i + 1, now, Reread(catalog, p.m).m, Reread(catalog, p.m).status)
  {}

  lemma LoopStops(catalog: Catalog, i: nat, now: int, m: Machine, status: Status)
    requires i < |catalog.steps| && catalog.steps[i].id > status.revision
    ensures var p := ApplyStep(catalog, i, now, m);
      var told := if p.Broke? && p.failure.Reported? then status.(dirty := p.failure.dirty) else status;
      && (p.Broke? ==> ApplyFrom(catalog, i, now, m, status) == Outcome(p.m, told, Some(p.failure)))
      && (p.Done? && Reread(catalog, p.m).failure.Some? ==> ApplyFrom(catalog, i, now, m, status) == Reread(catalog, p.m))
  {}

  lemma {:induction false} ApplyFromKeeps(catalog: Catalog, i: nat, now: int, m: Machine, status: Status)
    requires ValidCatalog(catalog) && now > 0 && Ready(catalog, m, status) && i <= |Rows(m)|
    ensures Kept(catalog, m, ApplyFrom(catalog, i, now, m, status))
    decreases |catalog.steps| - i
  {
    if i == |catalog.steps| {
      UnmovedAdvances(catalog, m, m);
    } else if i < |Rows(m)| {
      SkipsCompleted(catalog, m, status, i);
      LoopUnrolls(catalog, i, now, m, status);
      ApplyFromKeeps(catalog, i + 1, now, m, status);
    } else {
      NextStepKeeps(catalog, i, now, m, status);
    }
  }

  lemma NextStepKeeps(catalog: Catalog, i: nat, now: int, m: Machine, status: Status)
    requires ValidCatalog(catalog) && now > 0 && Ready(catalog, m, status) && i == |Rows(m)| < |catalog.steps|
    ensures Kept(catalog, m, ApplyFrom(catalog, i, now, m, status))
    decreases |catalog.steps| - i, 1
  {
    var p := ApplyStep(catalog, i, now, m);
    SkipsCompleted(catalog, m, status, i);
    LoopUnrolls(catalog, i, now, m, status);
    LoopStops(catalog, i, now, m, status);
    ApplyStepKeeps(catalog, now, m);
    if p.Done? {
      AdvancedLeased(catalog, m, p.m);
      AfterStepKeeps(catalog, i, now, m, p.m);
    }
  }

  lemma AfterStepKeeps(catalog: Catalog, i: nat, now: int, m: Machine, later: Machine)
    requires ValidCatalog(catalog) && now > 0 && i < |catalog.steps| && i == |Rows(m)|
    requires Advanced(catalog, m, later) && OneFurther(catalog, m, later) && Leased(catalog, later)
    ensures var read := Reread(catalog, later);
      Kept(catalog, m, if read.failure.Some? then read else ApplyFrom(catalog, i + 1, now, read.m, read.status))
    decreases |catalog.steps| - i, 0
  {
    var read := Reread(catalog, later);
    RereadKeeps(catalog, later);
    KeptAfter(catalog, m, later, read);
    if read.failure.None? {
      UnmovedAdvances(catalog, later, read.m);
      assert Rows(read.m) == Rows(later);
      ApplyFromKeeps(catalog, i + 1, now, read.m, read.status);
      KeptAfter(catalog, m, read.m, ApplyFrom(catalog, i + 1, now, read.m, read.status));
    }
  }

  // ----- the operations -----

  /** The status a run read from the journal it has leased. */
  predicate Known(catalog: Catalog, m: Machine, status: Status) {
    && ValidCatalog(catalog) && Leased(catalog, m)
    && status == StatusOf(catalog, Rows(m))
    && (View(m).journal.None? ==> status.history == [])
  }

  lemma RunVerifyKeeps(catalog: Catalog, m: Machine, status: Status)
    requires Known(catalog, m, status)
    ensures Kept(catalog, m, RunVerify(catalog, m, status)) && Unmoved(m, RunVerify(catalog, m, status).m)
  {
    UnmovedAdvances(catalog, m, RunVerify(catalog, m, status).m);
  }

  /** The last record, still started before, is complete over content that verified. */
  lemma LastCompleted(catalog: Catalog, m: Machine, later: Machine)
    requires Leased(catalog, m) && IsDirty(Rows(m)) && Framed(m, later) && TraceVerified(catalog, later.log)
    requires CompletedNow(catalog, Rows(m), later)
    ensures Advanced(catalog, m, later) && Leased(catalog, later)
  {}

  /** The last record is still started; what it describes may have changed. */
  lemma StillStarted(catalog: Catalog, m: Machine, later: Machine)
    requires Leased(catalog, m) && IsDirty(Rows(m)) && Framed(m, later) && TraceVerified(catalog, later.log)
    requires View(later).journal == View(m).journal
    ensures Safe(catalog, m, later)
  {}

  lemma RunRepairKeeps(catalog: Catalog, now: int, m: Machine, status: Status, id: int)
    requires Known(catalog, m, status) && now > 0
    ensures Kept(catalog, m, RunRepair(catalog, now, m, status, id))
  {
    UnmovedAdvances(catalog, m, m);
    if Names(status, id) {
      var last := |Rows(m)| - 1;
      var p1 := VerifyStep(catalog, catalog.steps[last], m);
      UnmovedAdvances(catalog, m, p1.m);
      if p1.Done? {
        CompleteRecordKeeps(catalog, now, p1.m);
        var p2 := CompleteRecord(last, catalog.steps[last], now, p1.m);
        EndOfStep(catalog, m, p1.m, p2);
      }
    }
  }

  /** Reading the journal back after the last step ended, well or not. */
  lemma EndOfStep(catalog: Catalog, m: Machine, m1: Machine, p: Progress)
    requires Leased(catalog, m) && IsDirty(Rows(m)) && Unmoved(m, m1) && StepEnded(catalog, m1, p)
    ensures Safe(catalog, m, p.m)
    ensures p.Done? ==> Kept(catalog, m, Reread(catalog, p.m))
  {
    assert View(m1) == View(m) && Rows(m1) == Rows(m);
    if CompletedNow(catalog, Rows(m), p.m) {
      LastCompleted(catalog, m, p.m);
      RereadKeeps(catalog, p.m);
      KeptAfter(catalog, m, p.m, Reread(catalog, p.m));
    } else {
      StillStarted(catalog, m, p.m);
    }
  }

  predicate Retryable(catalog: Catalog, i: nat)
    requires i < |catalog.steps|
  {
    i > 0 && !catalog.steps[i].transactional && catalog.steps[i].retry.Some?
  }

  /** Everything a retry checks before it touches the database. */
  function RetryChecks(catalog: Catalog, i: nat, m: Machine, dirty: bool): Progress
    requires 0 < i < |catalog.steps|
  {
    match Raise(VerifyStep(catalog, catalog.steps[i - 1], m), dirty, false)
    case Broke(m1, e) => Broke(m1, e)
    case Done(m1) => Raise(CheckPreconditions(catalog.steps[i], m1), dirty, false)
  }

  lemma RetryByParts(catalog: Catalog, now: int, m: Machine, status: Status, id: int)
    requires |status.history| <= |catalog.steps|
    ensures var o := RunRetry(catalog, now, m, status, id);
      var i := |status.history| - 1;
      if !Names(status, id) then o == Outcome(m, status, Some(Reported(DirtyHistory, status.dirty, false)))
      else if !Retryable(catalog, i) then o == Outcome(m, status, Some(Reported(RetryUnsupported, status.dirty, false)))
      else
        var p := RetryChecks(catalog, i, m, status.dirty);
        if p.Broke? then o == Outcome(p.m, status, Some(p.failure))
        else
          var q := ExecuteStep(catalog, i, now, p.m);
          o == if q.Broke? then Outcome(q.m, status, Some(q.failure)) else Reread(catalog, q.m)
  {}

  lemma RunRetryKeeps(catalog: Catalog, now: int, m: Machine, status: Status, id: int)
    requires Known(catalog, m, status) && now > 0
    ensures Kept(catalog, m, RunRetry(catalog, now, m, status, id))
  {
    RetryByParts(catalog, now, m, status, id);
    UnmovedAdvances(catalog, m, m);
    var last := |Rows(m)| - 1;
    if Names(status, id) && Retryable(catalog, last) {
      var p := RetryChecks(catalog, last, m, status.dirty);
      RetryChecksOnly(catalog, last, m, status.dirty);
      UnmovedAdvances(catalog, m, p.m);
      if p.Done? {
        RetriedKeeps(catalog, now, m, p.m);
      }
    }
  }

  lemma RetryChecksOnly(catalog: Catalog, i: nat, m: Machine, dirty: bool)
    requires 0 < i < |catalog.steps|
    ensures Unmoved(m, RetryChecks(catalog, i, m, dirty).m)
  {}

  lemma RetriedKeeps(catalog: Catalog, now: int, m: Machine, m1: Machine)
    requires ValidCatalog(catalog) && now > 0 && Leased(catalog, m) && IsDirty(Rows(m)) && Unmoved(m, m1)
    ensures var p := ExecuteStep(catalog, |Rows(m)| - 1, now, m1);
      Safe(catalog, m, p.m) && (p.Done? ==> Kept(catalog, m, Reread(catalog, p.m)))
  {
    assert View(m1) == View(m);
    ExecuteStepKeeps(catalog, now, m1);
    EndOfStep(catalog, m, m1, ExecuteStep(catalog, |Rows(m)| - 1, now, m1));
  }

  lemma CreateJournalKeeps(catalog: Catalog, m: Machine)
    requires Leased(catalog, m)
    ensures var p := CreateJournal(m);
      && Advanced(catalog, m, p.m) && Leased(catalog, p.m) && Rows(p.m) == Rows(m) && View(p.m).content == View(m).content
      && p.m.log == m.log && (p.Done? ==> View(p.m).journal.Some?)
  {}

  /** The baseline is recorded as adopted, over content that verified, or the journal is still empty. */
  lemma AdoptionBodyKeeps(catalog: Catalog, now: int, m: Machine)
    requires ValidCatalog(catalog) && now > 0 && View(m).journal.Some? && Rows(m) == []
    requires TraceVerified(catalog, m.log) && Verified(catalog, catalog.steps[0], View(m).content)
    ensures var p := AdoptionBody(catalog, now, m);
      && Framed(m, p.m) && TraceVerified(catalog, p.m.log)
      && (p.Done? ==> OneFurther(catalog, m, p.m))
  {
    StartRecordKeeps(catalog, Adopted, now, m);
    var row := NewRecord(catalog, catalog.steps[0], Adopted, now);
    assert [] + [row] == [row];
    var p1 := StartRecord(catalog, catalog.steps[0], Adopted, now, m);
    if p1.Done? {
      AdoptedCompletes(catalog, now, m, p1.m);
    }
  }

  lemma AdoptedCompletes(catalog: Catalog, now: int, m: Machine, m1: Machine)
    requires ValidCatalog(catalog) && now > 0 && Rows(m) == [] && Framed(m, m1)
    requires View(m1).journal == Some([NewRecord(catalog, catalog.steps[0], Adopted, now)]) && ValidHistory(catalog, Rows(m1))
    requires TraceVerified(catalog, m1.log) && Verified(catalog, catalog.steps[0], View(m1).content)
    ensures var p := CompleteRecord(0, catalog.steps[0], now, m1);
      && Framed(m, p.m) && TraceVerified(catalog, p.m.log)
      && (p.Done? ==> OneFurther(catalog, m, p.m))
  {
    CompleteRecordKeeps(catalog, now, m1);
    var p := CompleteRecord(0, catalog.steps[0], now, m1);
    FramedTransitive(m, m1, p.m);
    CompletesLast(catalog, Rows(m1), now);
  }

  /** Adoption runs in a transaction of its own, or in the SQLite run's. */
  lemma RecordAdoptionKeeps(catalog: Catalog, now: int, m: Machine)
    requires ValidCatalog(catalog) && now > 0 && Leased(catalog, m) && View(m).journal.Some? && Rows(m) == []
    requires Verified(catalog, catalog.steps[0], View(m).content)
    ensures var p := RecordAdoption(catalog, now, m);
      Safe(catalog, m, p.m) && (p.Done? ==> Advanced(catalog, m, p.m))
  {
    if catalog.dialect.Sqlite? {
      AdoptionBodyKeeps(catalog, now, m);
    } else {
      var p1 := Begin(m);
      if p1.Done? {
        assert View(p1.m) == View(m) && Rows(p1.m) == [];
        AdoptionBodyKeeps(catalog, now, p1.m);
        var p2 := AdoptionBody(catalog, now, p1.m);
        if p2.Done? {
          assert OneFurther(catalog, m, p2.m);
          CommitKeeps(catalog, m, p2.m);
        }
      }
    }
  }

  lemma RunAdoptKeeps(catalog: Catalog, now: int, m: Machine, status: Status)
    requires Known(catalog, m, status) && now > 0
    ensures Kept(catalog, m, RunAdopt(catalog, now, m, status))
  {
    UnmovedAdvances(catalog, m, m);
    if !status.dirty && |status.history| == 0 {
      var p1 := VerifyStep(catalog, catalog.steps[0], m);
      UnmovedAdvances(catalog, m, p1.m);
      if p1.Done? {
        CreateJournalKeeps(catalog, p1.m);
        var p2 := CreateJournal(p1.m);
        SafeAfter(catalog, m, p1.m, p2.m);
        if p2.Done? {
          AdoptionEnds(catalog, now, m, p2.m);
        }
      }
    }
  }

  lemma AdoptionEnds(catalog: Catalog, now: int, m: Machine, m2: Machine)
    requires ValidCatalog(catalog) && now > 0 && Leased(catalog, m) && Advanced(catalog, m, m2) && Leased(catalog, m2)
    requires View(m2).journal.Some? && Rows(m2) == [] && Verified(catalog, catalog.steps[0], View(m2).content)
    ensures var p := RecordAdoption(catalog, now, m2);
      Safe(catalog, m, p.m) && (p.Done? ==> Kept(catalog, m, Reread(catalog, p.m)))
  {
    RecordAdoptionKeeps(catalog, now, m2);
    var p := RecordAdoption(catalog, now, m2);
    SafeAfter(catalog, m, m2, p.m);
    if p.Done? {
      AdvancedLeased(catalog, m2, p.m);
      RereadKeeps(catalog, p.m);
      KeptAfter(catalog, m, p.m, Reread(catalog, p.m));
    }
  }

  lemma PreflightKeeps(catalog: Catalog, m: Machine, status: Status)
    requires Known(catalog, m, status)
    ensures var p := Preflight(catalog, m, status);
      && Advanced(catalog, m, p.m) && Leased(catalog, p.m) && Rows(p.m) == Rows(m)
      && (p.Done? ==> View(p.m).journal.Some?)
  {
    if |status.history| == 0 {
      var p1 := Check(m, Unused(catalog, View(m).content), Untracked);
      UnmovedAdvances(catalog, m, p1.m);
      if p1.Done? {
        CreateJournalKeeps(catalog, p1.m);
        SafeAfter(catalog, m, p1.m, CreateJournal(p1.m).m);
      }
    } else {
      UnmovedAdvances(catalog, m, Preflight(catalog, m, status).m);
    }
  }

  lemma RunApplyKeeps(catalog: Catalog, now: int, m: Machine, status: Status)
    requires Known(catalog, m, status) && now > 0
    ensures Kept(catalog, m, RunApply(catalog, now, m, status))
  {
    UnmovedAdvances(catalog, m, m);
    if !status.dirty {
      PreflightKeeps(catalog, m, status);
      var p := Preflight(catalog, m, status);
      if p.Done? {
        ApplyFromKeeps(catalog, 0, now, p.m, status);
        KeptAfter(catalog, m, p.m, ApplyFrom(catalog, 0, now, p.m, status));
      }
    }
  }

  lemma PerformKeeps(catalog: Catalog, op: Operation, now: int, m: Machine, status: Status)
    requires Known(catalog, m, status) && now > 0
    ensures Kept(catalog, m, Perform(catalog, op, now, m, status))
  {
    match op
    case Verify => RunVerifyKeeps(catalog, m, status);
    case Repair(id) => RunRepairKeeps(catalog, now, m, status, id);
    case Retry(id) => RunRetryKeeps(catalog, now, m, status, id);
    case Adopt(_) => RunAdoptKeeps(catalog, now, m, status);
    case Apply => RunApplyKeeps(catalog, now, m, status);
  }

  // ----- one run -----

  /** Reading the journal at the start of a run. */
  lemma InspectKeeps(catalog: Catalog, m: Machine)
    requires ValidCatalog(catalog) && Leased(catalog, m)
    ensures var o := Inspect(catalog, m);
      Unmoved(m, o.m) && Kept(catalog, m, o) && (o.failure.None? ==> Known(catalog, o.m, o.status))
  {
    var p1 := Check(m, true, Infrastructure);
    UnmovedAdvances(catalog, m, p1.m);
    if p1.Done? && View(p1.m).journal.Some? {
      var p2 := Check(p1.m, true, Drift);
      UnmovedAdvances(catalog, m, p2.m);
      RereadKeeps(catalog, p2.m);
      KeptAfter(catalog, m, p2.m, Reread(catalog, p2.m));
    }
  }

  lemma BodyKeeps(catalog: Catalog, op: Operation, now: int, m: Machine)
    requires ValidCatalog(catalog) && now > 0 && Leased(catalog, m)
    ensures Kept(catalog, m, Body(catalog, op, now, m).0)
  {
    InspectKeeps(catalog, m);
    var read := Inspect(catalog, m);
    if read.failure.None? {
      PerformKeeps(catalog, op, now, read.m, read.status);
      KeptAfter(catalog, m, read.m, Perform(catalog, op, now, read.m, read.status));
    }
  }

  /** What a whole run keeps of the database and of the trace. */
  predicate RunSafe(catalog: Catalog, m: Machine, r: Report) {
    && r.m.open.None? && m.log <= r.m.log && TraceVerified(catalog, r.m.log)
    && Progressed(catalog, m.durable, r.m.durable, r.m.log)
  }

  lemma CloseKeeps(catalog: Catalog, base: Machine, m: Machine, o: Outcome, commit: bool)
    requires Leased(catalog, m) && Kept(catalog, m, o) && (commit ==> o.failure.None?)
    requires m.open.Some? ==> View(m) == m.durable
    ensures var p := Close(catalog.dialect, o.m, commit);
      && p.m.open.None? && p.m.log == o.m.log && Progressed(catalog, m.durable, p.m.durable, p.m.log)
  {}

  lemma FinishKeeps(catalog: Catalog, initial: Status, m: Machine, o: Outcome)
    requires Leased(catalog, m) && Kept(catalog, m, o)
    requires m.open.Some? ==> View(m) == m.durable
    ensures RunSafe(catalog, m, Finish(catalog, initial, o))
  {
    if o.failure.Some? {
      CloseKeeps(catalog, m, m, o, false);
    } else {
      var p := Check(o.m, true, Infrastructure);
      var checked := o.(m := p.m);
      assert Unmoved(o.m, p.m);
      CloseKeeps(catalog, m, m, checked, p.Done?);
    }
  }

  /** Whatever fails during a run, the database is settled afterwards and has only progressed. */
  lemma RunKeeps(catalog: Catalog, op: Operation, now: int, m: Machine)
    requires ValidCatalog(catalog) && now > 0 && m.open.None?
    requires Settled(catalog, m.durable) && TraceVerified(catalog, m.log)
    ensures RunSafe(catalog, m, Run(catalog, op, now, m))
  {
    var leased := Lease(catalog, m);
    if leased.Done? && !(op.Adopt? && op.id != catalog.bootstrap) {
      assert View(leased.m) == m.durable && leased.m.durable == m.durable && leased.m.log == m.log;
      BodyKeeps(catalog, op, now, leased.m);
      var body := Body(catalog, op, now, leased.m);
      FinishKeeps(catalog, body.1, leased.m, body.0);
    }
  }

  // ----- sessions -----

  /** A run with its own clock and faults, or the application writing its data. */
  datatype Occasion = Migrate(op: Operation, now: int, faults: seq<Fault>) | WriteData(data: map<string, string>)

  predicate Clocked(occasions: seq<Occasion>) {
    forall k :: 0 <= k < |occasions| && occasions[k].Migrate? ==> occasions[k].now > 0
  }

  function After(catalog: Catalog, occasion: Occasion, m: Machine): Machine
    requires |catalog.steps| > 0
  {
    match occasion
    case Migrate(op, now, faults) => Run(catalog, op, now, m.(faults := faults)).m
    case WriteData(data) => m.(durable := m.durable.(content := m.durable.content.(data := data)))
  }

  function AfterAll(catalog: Catalog, occasions: seq<Occasion>, m: Machine): Machine
    requires |catalog.steps| > 0
  {
    if occasions == [] then m else AfterAll(catalog, occasions[1..], After(catalog, occasions[0], m))
  }

  /** What a session keeps: the schema, too, changes only with a record in the journal. */
  predicate SessionSafe(catalog: Catalog, m: Machine, later: Machine) {
    && later.open.None? && m.log <= later.log && TraceVerified(catalog, later.log)
    && Grown(catalog, m.durable, later.durable, later.log)
    && (later.durable.content.objects != m.durable.content.objects ==> Recorded(m.durable, later.durable))
  }

  lemma {:induction false} SessionKeepsFrom(catalog: Catalog, occasions: seq<Occasion>, m: Machine)
    requires ValidCatalog(catalog) && Clocked(occasions) && m.open.None?
    requires Settled(catalog, m.durable) && TraceVerified(catalog, m.log)
    ensures SessionSafe(catalog, m, AfterAll(catalog, occasions, m))
  {
    if occasions != [] {
      OccasionKeeps(catalog, occasions[0], m);
      var next := After(catalog, occasions[0], m);
      SessionKeepsFrom(catalog, occasions[1..], next);
      var later := AfterAll(catalog, occasions[1..], next);
      GrownTransitive(catalog, m.durable, next.durable, later.durable, next.log, later.log);
    }
  }

  lemma OccasionKeeps(catalog: Catalog, occasion: Occasion, m: Machine)
    requires ValidCatalog(catalog) && Clocked([occasion]) && m.open.None?
    requires Settled(catalog, m.durable) && TraceVerified(catalog, m.log)
    ensures SessionSafe(catalog, m, After(catalog, occasion, m))
  {
    assert [occasion][0] == occasion;
    if occasion.Migrate? {
      RunKeeps(catalog, occasion.op, occasion.now, m.(faults := occasion.faults));
    }
  }

  function Untouched(content: Content): Machine { Machine(Db(None, content), None, [], []) }

  /**
   * Starting from any database without a journal, after any occasions: the journal is a prefix
   * of the catalog with only the last record possibly incomplete, every complete record was
   * completed over content that verified, and a clean journal means the schema of its revision.
   */
  lemma SessionSafety(catalog: Catalog, content: Content, occasions: seq<Occasion>)
    requires ValidCatalog(catalog) && Clocked(occasions)
    ensures var m := AfterAll(catalog, occasions, Untouched(content));
      var rows := JournalRows(m.durable);
      && ValidHistory(catalog, rows) && TraceVerified(catalog, m.log)
      && (|rows| > 0 && !IsDirty(rows) ==> ObjectsMatch(catalog, catalog.steps[|rows| - 1], m.durable.content))
      && (IsDirty(rows) ==> !catalog.steps[|rows| - 1].transactional)
      && (m.durable.content.objects != content.objects ==> |rows| > 0)
      && (forall i :: 0 <= i < |rows| && IsComplete(rows[i]) ==> Traced(m.log, i))
  {
    SessionKeepsFrom(catalog, occasions, Untouched(content));
    var rows := JournalRows(AfterAll(catalog, occasions, Untouched(content)).durable);
    assert forall i :: 0 <= i < |rows| && IsComplete(rows[i]) ==> i < CompleteCount(rows);
  }
}
