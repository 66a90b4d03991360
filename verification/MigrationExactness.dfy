/**
 * What a run that reports success found and did, for every operation and whatever faults it drew,
 * and when a run that nothing disturbs succeeds: conditions and effects on the database alone.
 */
module MigrationExactness {
  import opened Outcomes
  import opened MigrationHistory
  import opened MigrationRun
  import opened MigrationSafety
  import opened MigrationSessions
  import opened MigrationGuarantees
  import opened MigrationProgress

  // ----- conditions and effects -----

  /** Everything the operation needs of a database to succeed on it. */
  predicate Founded(catalog: Catalog, op: Operation, db: Db) {
    var rows := JournalRows(db);
    && ValidHistory(catalog, rows)
    && match op
       case Verify =>
         |rows| > 0 && |rows| == |catalog.steps| && !IsDirty(rows) && Verified(catalog, catalog.steps[|rows| - 1], db.content)
       case Adopt(id) =>
         rows == [] && |catalog.steps| > 0 && id == catalog.bootstrap && Verified(catalog, catalog.steps[0], db.content)
       case Repair(id) => RepairFounded(catalog, id, db)
       case Retry(id) =>
         RetryFounded(catalog, id, db)
         && var step := catalog.steps[|rows| - 1]; Verified(catalog, step, Ran(step, 0, db.content))
       case Apply =>
         && !IsDirty(rows) && Sound(catalog, |rows|, db.content)
         && if rows == [] then Unused(catalog, db.content)
            else Verified(catalog, catalog.steps[|rows| - 1], db.content)
  }

  /** A record of the step at position `i`, started and completed. */
  function Whole(catalog: Catalog, i: nat, mode: Mode, now: int): Record
    requires i < |catalog.steps|
  {
    CompletedRow(NewRecord(catalog, catalog.steps[i], mode, now), now)
  }

  function WholeFrom(catalog: Catalog, i: nat, now: int): seq<Record>
    requires i <= |catalog.steps|
    decreases |catalog.steps| - i
  {
    if i == |catalog.steps| then [] else [Whole(catalog, i, Mode.Executed, now)] + WholeFrom(catalog, i + 1, now)
  }

  /** What the operation makes of a database on which it succeeds. */
  function Effect(catalog: Catalog, op: Operation, now: int, db: Db): Db
    requires Founded(catalog, op, db)
  {
    var rows := JournalRows(db);
    match op
    case Verify => db
    case Adopt(_) => Db(Some([Whole(catalog, 0, Adopted, now)]), db.content)
    case Repair(_) => Db(Some(LastCompletedAt(rows, now)), db.content)
    case Retry(_) => Db(Some(LastCompletedAt(rows, now)), Ran(catalog.steps[|rows| - 1], 0, db.content))
    case Apply => Db(Some(rows + WholeFrom(catalog, |rows|, now)), ContentAfter(catalog, |rows|, db.content))
  }

  // ----- parts of a run -----

  /** A leased machine: SQLite runs in one transaction, the others in none. */
  predicate Seated(catalog: Catalog, m: Machine) { m.open.Some? == catalog.dialect.Sqlite? }

  /** What a part that succeeded did to the view; nothing is disturbed that was calm. */
  predicate Moved(m: Machine, later: Machine, db: Db) {
    later.open.Some? == m.open.Some? && View(later) == db && (Calm(m) ==> Calm(later))
  }

  /** The part succeeds only when `holds`, then makes the view `db`; undisturbed it succeeds whenever `holds`. */
  predicate Yields(m: Machine, p: Progress, holds: bool, db: Db) {
    && (p.Done? ==> holds && Moved(m, p.m, db))
    && (Calm(m) && holds ==> p.Done?)
  }

  /** One part after another. */
  lemma Sequenced(m: Machine, p: Progress, q: Progress, first: bool, between: Db, second: bool, db: Db)
    requires Yields(m, p, first, between)
    requires if p.Broke? then q.Broke? else Yields(p.m, q, second, db)
    ensures Yields(m, q, first && second, db)
  {}

  lemma {:induction false} StatementsExact(i: nat, step: Step, k: nat, m: Machine)
    requires k <= |step.statements|
    ensures Yields(m, Statements(i, step, k, m), true, View(m).(content := Ran(step, k, View(m).content)))
    decreases |step.statements| - k
  {
    if k < |step.statements| {
      var m0 := m.(log := m.log + [RanStatement(i)]);
      var after := View(m).(content := step.statements[k](View(m).content));
      var p := Write(m0, after);
      if p.Done? {
        assert View(p.m) == after;
        StatementsExact(i, step, k + 1, p.m);
      }
    }
  }

  /** Completing the last record, of a journal that reads back. */
  lemma CompleteExact(catalog: Catalog, now: int, m: Machine)
    requires ValidCatalog(catalog) && ValidHistory(catalog, Rows(m)) && IsDirty(Rows(m))
    ensures Yields(m, CompleteRecord(|Rows(m)| - 1, catalog.steps[|Rows(m)| - 1], now, m), true,
                   Db(Some(LastCompletedAt(Rows(m), now)), View(m).content))
  {
    CompletesLast(catalog, Rows(m), now);
  }

  /** Verification and completion, with a step's own way of reporting. */
  function Concluded(catalog: Catalog, i: nat, now: int, m: Machine): Progress
    requires i < |catalog.steps|
  {
    match VerifyStep(catalog, catalog.steps[i], m)
    case Broke(m1, e) => Broke(m1, e)
    case Done(m1) => CompleteRecord(i, catalog.steps[i], now, m1)
  }

  lemma ConcludedExact(catalog: Catalog, now: int, m: Machine)
    requires ValidCatalog(catalog) && ValidHistory(catalog, Rows(m)) && IsDirty(Rows(m))
    ensures Yields(m, Concluded(catalog, |Rows(m)| - 1, now, m),
                   Verified(catalog, catalog.steps[|Rows(m)| - 1], View(m).content),
                   Db(Some(LastCompletedAt(Rows(m), now)), View(m).content))
  {
    var p := VerifyStep(catalog, catalog.steps[|Rows(m)| - 1], m);
    if p.Done? {
      assert View(p.m) == View(m);
      CompleteExact(catalog, now, p.m);
    }
  }

  lemma ExecuteByParts(catalog: Catalog, i: nat, now: int, m: Machine)
    requires i < |catalog.steps|
    ensures var p := Statements(i, catalog.steps[i], 0, m);
      var q := ExecuteStep(catalog, i, now, m);
      if p.Broke? then q.Broke?
      else
        var c := Concluded(catalog, i, now, p.m);
        q.m == c.m && q.Done? == c.Done?
  {}

  lemma ExecuteExact(catalog: Catalog, now: int, m: Machine)
    requires ValidCatalog(catalog) && ValidHistory(catalog, Rows(m)) && IsDirty(Rows(m))
    ensures var step := catalog.steps[|Rows(m)| - 1];
      var reached := Ran(step, 0, View(m).content);
      Yields(m, ExecuteStep(catalog, |Rows(m)| - 1, now, m), Verified(catalog, step, reached),
             Db(Some(LastCompletedAt(Rows(m), now)), reached))
  {
    var last := |Rows(m)| - 1;
    ExecuteByParts(catalog, last, now, m);
    StatementsExact(last, catalog.steps[last], 0, m);
    var p := Statements(last, catalog.steps[last], 0, m);
    if p.Done? {
      assert Rows(p.m) == Rows(m);
      ConcludedExact(catalog, now, p.m);
    }
    var reached := View(m).(content := Ran(catalog.steps[last], 0, View(m).content));
    Sequenced(m, p, ExecuteStep(catalog, last, now, m), true, reached, Verified(catalog, catalog.steps[last], reached.content),
              Db(Some(LastCompletedAt(Rows(m), now)), reached.content));
  }

  lemma StartExact(catalog: Catalog, mode: Mode, now: int, m: Machine)
    requires ValidCatalog(catalog) && now > 0 && View(m).journal.Some?
    requires ValidHistory(catalog, Rows(m)) && !IsDirty(Rows(m)) && |Rows(m)| < |catalog.steps|
    requires mode == Mode.Executed || (mode == Adopted && |Rows(m)| == 0)
    ensures var step := catalog.steps[|Rows(m)|];
      var started := Rows(m) + [NewRecord(catalog, step, mode, now)];
      && ValidHistory(catalog, started) && IsDirty(started)
      && LastCompletedAt(started, now) == Rows(m) + [Whole(catalog, |Rows(m)|, mode, now)]
      && Yields(m, StartRecord(catalog, step, mode, now, m), true, Db(Some(started), View(m).content))
  {
    StartedHistory(catalog, Rows(m), mode, now);
  }

  /** The database after the step that follows its journal. */
  function Stepped(catalog: Catalog, now: int, db: Db): Db
    requires |JournalRows(db)| < |catalog.steps|
  {
    var n := |JournalRows(db)|;
    Db(Some(JournalRows(db) + [Whole(catalog, n, Mode.Executed, now)]), Ran(catalog.steps[n], 0, db.content))
  }

  predicate StepSound(catalog: Catalog, db: Db)
    requires |JournalRows(db)| < |catalog.steps|
  {
    var step := catalog.steps[|JournalRows(db)|];
    Allowed(step, db.content) && Verified(catalog, step, Ran(step, 0, db.content))
  }

  lemma StepBodyExact(catalog: Catalog, now: int, m: Machine)
    requires ValidCatalog(catalog) && now > 0 && View(m).journal.Some?
    requires ValidHistory(catalog, Rows(m)) && !IsDirty(Rows(m)) && |Rows(m)| < |catalog.steps|
    ensures Yields(m, StepBody(catalog, |Rows(m)|, now, m), StepSound(catalog, View(m)), Stepped(catalog, now, View(m)))
  {
    var n := |Rows(m)|;
    StartStepExact(catalog, now, m);
    var p := StartStep(catalog, n, now, m);
    if p.Done? {
      ExecuteExact(catalog, now, p.m);
    }
  }

  lemma StartStepExact(catalog: Catalog, now: int, m: Machine)
    requires ValidCatalog(catalog) && now > 0 && View(m).journal.Some?
    requires ValidHistory(catalog, Rows(m)) && !IsDirty(Rows(m)) && |Rows(m)| < |catalog.steps|
    ensures var started := WithStarted(catalog, Rows(m), now);
      && ValidHistory(catalog, started) && IsDirty(started)
      && LastCompletedAt(started, now) == Rows(m) + [Whole(catalog, |Rows(m)|, Mode.Executed, now)]
      && Yields(m, StartStep(catalog, |Rows(m)|, now, m), Allowed(catalog.steps[|Rows(m)|], View(m).content),
                Db(Some(started), View(m).content))
  {
    StartExact(catalog, Mode.Executed, now, m);
    var p := CheckPreconditions(catalog.steps[|Rows(m)|], m);
    if p.Done? {
      assert View(p.m) == View(m);
      StartExact(catalog, Mode.Executed, now, p.m);
    }
  }

  lemma ApplyStepExact(catalog: Catalog, now: int, m: Machine)
    requires ValidCatalog(catalog) && now > 0 && View(m).journal.Some? && Seated(catalog, m)
    requires ValidHistory(catalog, Rows(m)) && !IsDirty(Rows(m)) && |Rows(m)| < |catalog.steps|
    ensures Yields(m, ApplyStep(catalog, |Rows(m)|, now, m), StepSound(catalog, View(m)), Stepped(catalog, now, View(m)))
  {
    if OwnTransaction(catalog, catalog.steps[|Rows(m)|]) {
      var p := Begin(m);
      if p.Done? {
        assert View(p.m) == View(m);
        StepBodyExact(catalog, now, p.m);
      }
    } else {
      StepBodyExact(catalog, now, m);
    }
  }

  /** Reading back a journal that is fine gives its status. */
  predicate Reports(catalog: Catalog, m: Machine, o: Outcome, holds: bool, db: Db) {
    && (o.failure.None? ==>
          holds && Moved(m, o.m, db) && ValidHistory(catalog, JournalRows(db)) && o.status == StatusOf(catalog, JournalRows(db)))
    && (Calm(m) && holds ==> o.failure.None?)
  }

  lemma RereadExact(catalog: Catalog, m: Machine)
    ensures Reports(catalog, m, Reread(catalog, m), ValidHistory(catalog, Rows(m)), View(m))
  {}

  /** An outcome after a part of the run. */
  lemma ReportedAfter(catalog: Catalog, m: Machine, p: Progress, o: Outcome, first: bool, between: Db, second: bool, db: Db)
    requires Yields(m, p, first, between)
    requires if p.Broke? then o.failure.Some? else Reports(catalog, p.m, o, second, db)
    ensures Reports(catalog, m, o, first && second, db)
  {}

  // ----- the loop of apply -----

  /** Ready for the next step, in any machine. */
  predicate Poised(catalog: Catalog, m: Machine, status: Status) {
    && Seated(catalog, m) && View(m).journal.Some?
    && ValidHistory(catalog, Rows(m)) && !IsDirty(Rows(m)) && status == StatusOf(catalog, Rows(m))
  }

  lemma SkipsDone(catalog: Catalog, m: Machine, status: Status, i: nat)
    requires ValidCatalog(catalog) && Poised(catalog, m, status) && i <= |Rows(m)| && i < |catalog.steps|
    ensures catalog.steps[i].id <= status.revision <==> i < |Rows(m)|
  {
    var n := |Rows(m)|;
    if n > 0 {
      assert RowFits(catalog, n - 1, Rows(m)[n - 1]);
    }
  }

  /** The database once every step beyond its journal has run. */
  function Completed(catalog: Catalog, now: int, db: Db): Db
    requires |JournalRows(db)| <= |catalog.steps|
  {
    var n := |JournalRows(db)|;
    Db(Some(JournalRows(db) + WholeFrom(catalog, n, now)), ContentAfter(catalog, n, db.content))
  }

  lemma SteppedHistory(catalog: Catalog, now: int, db: Db)
    requires ValidCatalog(catalog) && now > 0
    requires ValidHistory(catalog, JournalRows(db)) && !IsDirty(JournalRows(db)) && |JournalRows(db)| < |catalog.steps|
    ensures var rows := JournalRows(Stepped(catalog, now, db));
      ValidHistory(catalog, rows) && !IsDirty(rows) && |rows| == |JournalRows(db)| + 1
  {
    var rows := JournalRows(db);
    var started := rows + [NewRecord(catalog, catalog.steps[|rows|], Mode.Executed, now)];
    StartedHistory(catalog, rows, Mode.Executed, now);
    CompletedHistory(catalog, started, now);
    assert LastCompletedAt(started, now) == JournalRows(Stepped(catalog, now, db));
  }

  lemma SteppedOn(catalog: Catalog, now: int, db: Db)
    requires |JournalRows(db)| < |catalog.steps|
    ensures var next := Stepped(catalog, now, db);
      |JournalRows(next)| <= |catalog.steps| && Completed(catalog, now, next) == Completed(catalog, now, db)
  {
    var rows := JournalRows(db);
    var n := |rows|;
    RowsRegrouped(rows, Whole(catalog, n, Mode.Executed, now), WholeFrom(catalog, n + 1, now));
    assert WholeFrom(catalog, n, now) == [Whole(catalog, n, Mode.Executed, now)] + WholeFrom(catalog, n + 1, now);
    assert ContentAfter(catalog, n, db.content) == ContentAfter(catalog, n + 1, Stepped(catalog, now, db).content);
  }

  lemma RowsRegrouped(rows: seq<Record>, row: Record, later: seq<Record>)
    ensures (rows + [row]) + later == rows + ([row] + later)
  {}

  lemma SteppedSound(catalog: Catalog, now: int, db: Db)
    requires |JournalRows(db)| < |catalog.steps|
    ensures var next := Stepped(catalog, now, db);
      Sound(catalog, |JournalRows(db)|, db.content) <==>
        StepSound(catalog, db) && Sound(catalog, |JournalRows(db)| + 1, next.content)
  {}

  lemma SteppedCompletes(catalog: Catalog, now: int, db: Db)
    requires ValidCatalog(catalog) && now > 0
    requires ValidHistory(catalog, JournalRows(db)) && !IsDirty(JournalRows(db)) && |JournalRows(db)| < |catalog.steps|
    ensures var next := Stepped(catalog, now, db);
      && ValidHistory(catalog, JournalRows(next)) && !IsDirty(JournalRows(next))
      && Completed(catalog, now, next) == Completed(catalog, now, db)
      && (Sound(catalog, |JournalRows(db)|, db.content) <==>
            StepSound(catalog, db) && Sound(catalog, |JournalRows(next)|, next.content))
  {
    SteppedHistory(catalog, now, db);
    SteppedOn(catalog, now, db);
    SteppedSound(catalog, now, db);
  }

  /** Past the last step there is nothing to do. */
  lemma LoopEnds(catalog: Catalog, now: int, m: Machine, status: Status)
    requires Poised(catalog, m, status) && |Rows(m)| == |catalog.steps|
    ensures Reports(catalog, m, ApplyFrom(catalog, |catalog.steps|, now, m, status),
                    Sound(catalog, |Rows(m)|, View(m).content), Completed(catalog, now, View(m)))
  {
    assert Rows(m) + [] == Rows(m);
  }

  lemma LoopExact(catalog: Catalog, i: nat, now: int, m: Machine, status: Status)
    requires ValidCatalog(catalog) && now > 0 && Poised(catalog, m, status) && i <= |Rows(m)|
    ensures Reports(catalog, m, ApplyFrom(catalog, i, now, m, status),
                    Sound(catalog, |Rows(m)|, View(m).content), Completed(catalog, now, View(m)))
    decreases |catalog.steps| - i
  {
    var n := |Rows(m)|;
    forall k | i <= k < n ensures catalog.steps[k].id <= status.revision {
      SkipsDone(catalog, m, status, k);
    }
    LoopSkips(catalog, i, n, now, m, status);
    if n == |catalog.steps| {
      LoopEnds(catalog, now, m, status);
    } else {
      SkipsDone(catalog, m, status, n);
      LoopStepExact(catalog, n, now, m, status);
    }
  }

  lemma LoopSkipsOne(catalog: Catalog, i: nat, now: int, m: Machine, status: Status)
    requires i < |catalog.steps| && catalog.steps[i].id <= status.revision
    ensures ApplyFrom(catalog, i, now, m, status) == ApplyFrom(catalog, i + 1, now, m, status)
  {}

  lemma {:induction false} AllTheSame(outcomes: seq<Outcome>, i: nat, n: nat)
    requires i <= n < |outcomes| && forall k :: i <= k < n ==> outcomes[k] == outcomes[k + 1]
    ensures outcomes[i] == outcomes[n]
    decreases n - i
  {
    if i < n {
      AllTheSame(outcomes, i + 1, n);
    }
  }

  /** Steps up to the revision are passed over. */
  lemma LoopSkips(catalog: Catalog, i: nat, n: nat, now: int, m: Machine, status: Status)
    requires i <= n <= |catalog.steps| && forall k :: i <= k < n ==> catalog.steps[k].id <= status.revision
    ensures ApplyFrom(catalog, i, now, m, status) == ApplyFrom(catalog, n, now, m, status)
  {
    var outcomes := seq(n + 1, k requires 0 <= k <= n => ApplyFrom(catalog, k, now, m, status));
    forall k | i <= k < n ensures outcomes[k] == outcomes[k + 1] {
      LoopSkipsOne(catalog, k, now, m, status);
    }
    AllTheSame(outcomes, i, n);
  }

  lemma LoopStepExact(catalog: Catalog, i: nat, now: int, m: Machine, status: Status)
    requires ValidCatalog(catalog) && now > 0 && Poised(catalog, m, status) && i == |Rows(m)| < |catalog.steps|
    requires catalog.steps[i].id > status.revision
    ensures Reports(catalog, m, ApplyFrom(catalog, i, now, m, status),
                    Sound(catalog, i, View(m).content), Completed(catalog, now, View(m)))
    decreases |catalog.steps| - i, 0
  {
    var p := ApplyStep(catalog, i, now, m);
    ApplyStepExact(catalog, now, m);
    SteppedCompletes(catalog, now, View(m));
    LoopUnrolls(catalog, i, now, m, status);
    LoopStops(catalog, i, now, m, status);
    if p.Done? {
      RereadExact(catalog, p.m);
      var read := Reread(catalog, p.m);
      if read.failure.None? {
        LoopExact(catalog, i + 1, now, read.m, read.status);
      }
    }
  }

  // ----- the operations -----

  /** The status a run read from the journal, in any machine. */
  predicate Informed(catalog: Catalog, m: Machine, status: Status) {
    && ValidCatalog(catalog) && Seated(catalog, m)
    && ValidHistory(catalog, Rows(m)) && status == StatusOf(catalog, Rows(m))
  }

  lemma TargetReached(catalog: Catalog, rows: seq<Record>)
    requires ValidCatalog(catalog) && ValidHistory(catalog, rows) && |rows| > 0 && !IsDirty(rows)
    ensures RevisionOf(rows) == catalog.target <==> |rows| == |catalog.steps|
  {
    assert RowFits(catalog, |rows| - 1, rows[|rows| - 1]);
  }

  lemma VerifyExact(catalog: Catalog, m: Machine, status: Status)
    requires Informed(catalog, m, status)
    ensures Reports(catalog, m, RunVerify(catalog, m, status), Founded(catalog, Verify, View(m)), View(m))
  {
    if |Rows(m)| > 0 && !IsDirty(Rows(m)) {
      TargetReached(catalog, Rows(m));
    }
  }

  lemma RepairExact(catalog: Catalog, now: int, m: Machine, status: Status, id: int)
    requires Informed(catalog, m, status) && now > 0
    ensures Reports(catalog, m, RunRepair(catalog, now, m, status, id), RepairFounded(catalog, id, View(m)),
                    Db(Some(LastCompletedAt(Rows(m), now)), View(m).content))
  {
    RepairIs(catalog, now, m, status, id);
    RepairShown(catalog, now, m, status, id, RunRepair(catalog, now, m, status, id));
  }

  /** An outcome reached the way a repair reaches its own. */
  predicate RepairsTo(catalog: Catalog, now: int, m: Machine, status: Status, id: int, o: Outcome)
    requires |status.history| <= |catalog.steps|
  {
    if !Names(status, id) then o.failure.Some?
    else
      var p := VerifyStep(catalog, catalog.steps[|status.history| - 1], m);
      if p.Broke? then o.failure.Some? else o == Repaired(catalog, now, p.m, status)
  }

  lemma RepairShown(catalog: Catalog, now: int, m: Machine, status: Status, id: int, o: Outcome)
    requires Informed(catalog, m, status) && now > 0 && RepairsTo(catalog, now, m, status, id, o)
    ensures Reports(catalog, m, o, RepairFounded(catalog, id, View(m)),
                    Db(Some(LastCompletedAt(Rows(m), now)), View(m).content))
  {
    if Names(status, id) {
      var p := VerifyStep(catalog, catalog.steps[|Rows(m)| - 1], m);
      if p.Done? {
        RepairedExact(catalog, now, p.m, status);
      }
    }
    RepairSettled(catalog, m, status, id, o, Db(Some(LastCompletedAt(Rows(m), now)), View(m).content));
  }

  /** From what a repair does after its verification to the whole of it. */
  lemma RepairSettled(catalog: Catalog, m: Machine, status: Status, id: int, o: Outcome, db: Db)
    requires Informed(catalog, m, status)
    requires
      if !Names(status, id) then o.failure.Some?
      else
        var p := VerifyStep(catalog, catalog.steps[|Rows(m)| - 1], m);
        if p.Broke? then o.failure.Some? else Reports(catalog, p.m, o, true, db)
    ensures Reports(catalog, m, o, RepairFounded(catalog, id, View(m)), db)
  {
    RepairFoundedExactly(catalog, m, status, id);
    if Names(status, id) {
      var step := catalog.steps[|Rows(m)| - 1];
      var holds := Verified(catalog, step, View(m).content);
      VerifyStepExact(catalog, step, m);
      ReportedAfter(catalog, m, VerifyStep(catalog, step, m), o, holds, View(m), true, db);
    }
  }

  lemma RepairFoundedExactly(catalog: Catalog, m: Machine, status: Status, id: int)
    requires Informed(catalog, m, status)
    ensures RepairFounded(catalog, id, View(m)) <==>
      Names(status, id) && Verified(catalog, catalog.steps[|Rows(m)| - 1], View(m).content)
  {}

  lemma VerifyStepExact(catalog: Catalog, step: Step, m: Machine)
    ensures Yields(m, VerifyStep(catalog, step, m), Verified(catalog, step, View(m).content), View(m))
  {}

  lemma RepairIs(catalog: Catalog, now: int, m: Machine, status: Status, id: int)
    requires |status.history| <= |catalog.steps|
    ensures RepairsTo(catalog, now, m, status, id, RunRepair(catalog, now, m, status, id))
  {}

  /** The completion and the reading back, once the revision has verified. */
  lemma RepairedExact(catalog: Catalog, now: int, m: Machine, status: Status)
    requires Informed(catalog, m, status) && IsDirty(Rows(m)) && now > 0
    ensures Reports(catalog, m, Repaired(catalog, now, m, status), true,
                    Db(Some(LastCompletedAt(Rows(m), now)), View(m).content))
  {
    var last := |Rows(m)| - 1;
    CompleteExact(catalog, now, m);
    CompletedHistory(catalog, Rows(m), now);
    RereadExact(catalog, CompleteRecord(last, catalog.steps[last], now, m).m);
  }

  /** A retry once its checks have passed. */
  function Retried(catalog: Catalog, now: int, m: Machine, status: Status): Outcome
    requires 0 < |status.history| <= |catalog.steps|
  {
    var p := ExecuteStep(catalog, |status.history| - 1, now, m);
    if p.Broke? then Outcome(p.m, status, Some(p.failure)) else Reread(catalog, p.m)
  }

  /** An outcome reached the way a retry reaches its own. */
  predicate RetriesTo(catalog: Catalog, now: int, m: Machine, status: Status, id: int, o: Outcome)
    requires |status.history| <= |catalog.steps|
  {
    if !Names(status, id) || !Retryable(catalog, |status.history| - 1) then o.failure.Some?
    else
      var p := RetryChecks(catalog, |status.history| - 1, m, status.dirty);
      if p.Broke? then o.failure.Some? else o == Retried(catalog, now, p.m, status)
  }

  lemma RetryIs(catalog: Catalog, now: int, m: Machine, status: Status, id: int)
    requires |status.history| <= |catalog.steps|
    ensures RetriesTo(catalog, now, m, status, id, RunRetry(catalog, now, m, status, id))
  {
    RetryByParts(catalog, now, m, status, id);
  }

  /** What a retry makes of a journal that has a last record. */
  function Redone(catalog: Catalog, now: int, db: Db): Db
    requires |JournalRows(db)| <= |catalog.steps|
  {
    var rows := JournalRows(db);
    if rows == [] then db else Db(Some(LastCompletedAt(rows, now)), Ran(catalog.steps[|rows| - 1], 0, db.content))
  }

  lemma RetryExact(catalog: Catalog, now: int, m: Machine, status: Status, id: int)
    requires Informed(catalog, m, status) && now > 0
    ensures Reports(catalog, m, RunRetry(catalog, now, m, status, id), Founded(catalog, Retry(id), View(m)),
                    Redone(catalog, now, View(m)))
  {
    RetryIs(catalog, now, m, status, id);
    RetryShown(catalog, now, m, status, id, RunRetry(catalog, now, m, status, id));
  }

  lemma RetryShown(catalog: Catalog, now: int, m: Machine, status: Status, id: int, o: Outcome)
    requires Informed(catalog, m, status) && now > 0 && RetriesTo(catalog, now, m, status, id, o)
    ensures Reports(catalog, m, o, Founded(catalog, Retry(id), View(m)), Redone(catalog, now, View(m)))
  {
    if RetryAsked(catalog, m, status, id) {
      RetryChecksExact(catalog, m, status, id);
      var p := RetryChecks(catalog, |Rows(m)| - 1, m, status.dirty);
      if p.Done? {
        assert View(p.m) == View(m);
        RetriedExact(catalog, now, p.m, status);
      }
    }
    RetrySettled(catalog, m, status, id, o, Redone(catalog, now, View(m)));
  }

  /** From what a retry does after its checks to the whole of it. */
  lemma RetrySettled(catalog: Catalog, m: Machine, status: Status, id: int, o: Outcome, db: Db)
    requires Informed(catalog, m, status)
    requires
      if !RetryAsked(catalog, m, status, id) then o.failure.Some?
      else
        var p := RetryChecks(catalog, |Rows(m)| - 1, m, status.dirty);
        var step := catalog.steps[|Rows(m)| - 1];
        if p.Broke? then o.failure.Some?
        else Reports(catalog, p.m, o, Verified(catalog, step, Ran(step, 0, View(m).content)), db)
    ensures Reports(catalog, m, o, Founded(catalog, Retry(id), View(m)), db)
  {
    if RetryAsked(catalog, m, status, id) {
      var step := catalog.steps[|Rows(m)| - 1];
      RetryChecksExact(catalog, m, status, id);
      ReportedAfter(catalog, m, RetryChecks(catalog, |Rows(m)| - 1, m, status.dirty), o, RetryFounded(catalog, id, View(m)),
                    View(m), Verified(catalog, step, Ran(step, 0, View(m).content)), db);
    } else {
      assert !Founded(catalog, Retry(id), View(m));
    }
  }

  lemma RetriedExact(catalog: Catalog, now: int, m: Machine, status: Status)
    requires Informed(catalog, m, status) && IsDirty(Rows(m)) && now > 0
    ensures var step := catalog.steps[|Rows(m)| - 1];
      var reached := Ran(step, 0, View(m).content);
      Reports(catalog, m, Retried(catalog, now, m, status),
              Verified(catalog, step, reached), Db(Some(LastCompletedAt(Rows(m), now)), reached))
  {
    ExecuteExact(catalog, now, m);
    CompletedHistory(catalog, Rows(m), now);
    RereadExact(catalog, ExecuteStep(catalog, |Rows(m)| - 1, now, m).m);
  }

  lemma RetryChecksExact(catalog: Catalog, m: Machine, status: Status, id: int)
    requires RetryAsked(catalog, m, status, id)
    ensures Yields(m, RetryChecks(catalog, |Rows(m)| - 1, m, status.dirty), RetryFounded(catalog, id, View(m)), View(m))
  {}

  lemma CreateExact(m: Machine)
    ensures Yields(m, CreateJournal(m), true, View(m).(journal := Some(Rows(m))))
  {}

  lemma AdoptionBodyExact(catalog: Catalog, now: int, m: Machine)
    requires ValidCatalog(catalog) && now > 0 && View(m).journal == Some([])
    ensures Yields(m, AdoptionBody(catalog, now, m), true, Db(Some([Whole(catalog, 0, Adopted, now)]), View(m).content))
  {
    StartExact(catalog, Adopted, now, m);
    var row := NewRecord(catalog, catalog.steps[0], Adopted, now);
    assert [] + [row] == [row] && [] + [Whole(catalog, 0, Adopted, now)] == [Whole(catalog, 0, Adopted, now)];
    var p := StartRecord(catalog, catalog.steps[0], Adopted, now, m);
    if p.Done? {
      CompleteExact(catalog, now, p.m);
    }
  }

  lemma RecordAdoptionExact(catalog: Catalog, now: int, m: Machine)
    requires ValidCatalog(catalog) && now > 0 && Seated(catalog, m) && View(m).journal == Some([])
    ensures Yields(m, RecordAdoption(catalog, now, m), true, Db(Some([Whole(catalog, 0, Adopted, now)]), View(m).content))
  {
    if catalog.dialect.Sqlite? {
      AdoptionBodyExact(catalog, now, m);
    } else {
      var p := Begin(m);
      if p.Done? {
        AdoptionBodyExact(catalog, now, p.m);
      }
    }
  }

  lemma WholeHistory(catalog: Catalog, mode: Mode, now: int)
    requires ValidCatalog(catalog) && now > 0 && (mode == Mode.Executed || mode == Adopted)
    ensures ValidHistory(catalog, [Whole(catalog, 0, mode, now)]) && !IsDirty([Whole(catalog, 0, mode, now)])
  {
    assert RowFits(catalog, 0, Whole(catalog, 0, mode, now));
  }

  lemma AdoptExact(catalog: Catalog, now: int, m: Machine, status: Status)
    requires Informed(catalog, m, status) && now > 0
    ensures Reports(catalog, m, RunAdopt(catalog, now, m, status), Founded(catalog, Adopt(catalog.bootstrap), View(m)),
                    Db(Some([Whole(catalog, 0, Adopted, now)]), View(m).content))
  {
    if Rows(m) == [] {
      var p1 := VerifyStep(catalog, catalog.steps[0], m);
      if p1.Done? {
        CreateExact(p1.m);
        var p2 := CreateJournal(p1.m);
        if p2.Done? {
          RecordAdoptionExact(catalog, now, p2.m);
          WholeHistory(catalog, Adopted, now);
          RereadExact(catalog, RecordAdoption(catalog, now, p2.m).m);
        }
      }
    }
  }

  predicate PreflightHolds(catalog: Catalog, db: Db)
    requires |JournalRows(db)| <= |catalog.steps|
  {
    if JournalRows(db) == [] then Unused(catalog, db.content)
    else Verified(catalog, catalog.steps[|JournalRows(db)| - 1], db.content)
  }

  lemma PreflightExact(catalog: Catalog, m: Machine, status: Status)
    requires Informed(catalog, m, status)
    ensures Yields(m, Preflight(catalog, m, status), PreflightHolds(catalog, View(m)), View(m).(journal := Some(Rows(m))))
  {
    if Rows(m) == [] {
      var p := Check(m, Unused(catalog, View(m).content), Untracked);
      CreateExact(p.m);
    }
  }

  lemma ApplyExact(catalog: Catalog, now: int, m: Machine, status: Status)
    requires Informed(catalog, m, status) && now > 0
    ensures Reports(catalog, m, RunApply(catalog, now, m, status), Founded(catalog, Apply, View(m)),
                    Completed(catalog, now, View(m)))
  {
    if !status.dirty {
      PreflightExact(catalog, m, status);
      var p := Preflight(catalog, m, status);
      if p.Done? {
        LoopExact(catalog, 0, now, p.m, status);
      }
    }
  }

  /** What an operation founded on `db` leaves. */
  function Left(catalog: Catalog, op: Operation, now: int, db: Db): Db {
    if Founded(catalog, op, db) then Effect(catalog, op, now, db) else db
  }

  lemma PerformExact(catalog: Catalog, op: Operation, now: int, m: Machine, status: Status)
    requires Informed(catalog, m, status) && now > 0 && (op.Adopt? ==> op.id == catalog.bootstrap)
    ensures Reports(catalog, m, Perform(catalog, op, now, m, status), Founded(catalog, op, View(m)),
                    Left(catalog, op, now, View(m)))
  {
    var db := View(m);
    var o := Perform(catalog, op, now, m, status);
    match op {
      case Verify =>
        VerifyExact(catalog, m, status);
        LeftIs(catalog, op, now, m, o, db);
      case Repair(id) =>
        RepairExact(catalog, now, m, status, id);
        LeftIs(catalog, op, now, m, o, Db(Some(LastCompletedAt(Rows(m), now)), db.content));
      case Retry(id) =>
        RetryExact(catalog, now, m, status, id);
        LeftIs(catalog, op, now, m, o, Redone(catalog, now, db));
      case Adopt(_) =>
        AdoptExact(catalog, now, m, status);
        LeftIs(catalog, op, now, m, o, Db(Some([Whole(catalog, 0, Adopted, now)]), db.content));
      case Apply =>
        ApplyExact(catalog, now, m, status);
        LeftIs(catalog, op, now, m, o, Completed(catalog, now, db));
    }
  }

  lemma LeftIs(catalog: Catalog, op: Operation, now: int, m: Machine, o: Outcome, db: Db)
    requires Reports(catalog, m, o, Founded(catalog, op, View(m)), db)
    requires Founded(catalog, op, View(m)) ==> db == Effect(catalog, op, now, View(m))
    ensures Reports(catalog, m, o, Founded(catalog, op, View(m)), Left(catalog, op, now, View(m)))
  {}

  // ----- whole runs -----

  /** The run was founded on `before`, left exactly its effect, and reports that journal's status. */
  predicate Achieved(catalog: Catalog, op: Operation, now: int, before: Db, r: Report) {
    && Founded(catalog, op, before)
    && r.m.durable == Effect(catalog, op, now, before)
    && ValidHistory(catalog, JournalRows(r.m.durable))
    && r.status == StatusOf(catalog, JournalRows(r.m.durable))
  }

  lemma InspectExact(catalog: Catalog, m: Machine)
    requires ValidCatalog(catalog) && Seated(catalog, m)
    ensures var o := Inspect(catalog, m);
      && (o.failure.None? ==> Informed(catalog, o.m, o.status) && Moved(m, o.m, View(m)))
      && (Calm(m) && ValidHistory(catalog, Rows(m)) ==> o.failure.None?)
  {
    var p1 := Check(m, true, Infrastructure);
    if p1.Done? && View(p1.m).journal.Some? {
      var p2 := Check(p1.m, true, Drift);
      assert View(p1.m) == View(m) && View(p2.m) == View(m);
      RereadExact(catalog, p2.m);
    }
  }

  lemma BodyExact(catalog: Catalog, op: Operation, now: int, m: Machine)
    requires ValidCatalog(catalog) && Seated(catalog, m) && now > 0 && (op.Adopt? ==> op.id == catalog.bootstrap)
    ensures Reports(catalog, m, Body(catalog, op, now, m).0, Founded(catalog, op, View(m)), Left(catalog, op, now, View(m)))
  {
    InspectExact(catalog, m);
    var read := Inspect(catalog, m);
    if read.failure.None? {
      PerformExact(catalog, op, now, read.m, read.status);
    }
  }

  lemma FinishExact(catalog: Catalog, initial: Status, o: Outcome)
    ensures var r := Finish(catalog, initial, o);
      && (r.failure.None? ==> o.failure.None? && r.m.durable == View(o.m) && r.status == o.status)
      && (Calm(o.m) && o.failure.None? ==> r.failure.None?)
  {}

  /**
   * Whatever faults were drawn, a run that reports success was founded, has made of the database
   * exactly its operation's effect, and reports the status of the journal it leaves. A run that
   * nothing disturbs succeeds if and only if it is founded.
   */
  lemma SuccessExactly(catalog: Catalog, op: Operation, now: int, m: Machine)
    requires ValidCatalog(catalog) && now > 0 && m.open.None?
    ensures var r := Run(catalog, op, now, m);
      && (r.failure.None? ==> Achieved(catalog, op, now, m.durable, r))
      && (Calm(m) ==> (r.failure.None? <==> Founded(catalog, op, m.durable)))
  {
    var leased := Lease(catalog, m);
    if leased.Done? && !(op.Adopt? && op.id != catalog.bootstrap) {
      assert View(leased.m) == m.durable;
      LeasedExact(catalog, op, now, leased.m);
    }
  }

  lemma LeasedExact(catalog: Catalog, op: Operation, now: int, m: Machine)
    requires ValidCatalog(catalog) && Seated(catalog, m) && now > 0 && (op.Adopt? ==> op.id == catalog.bootstrap)
    ensures var body := Body(catalog, op, now, m);
      var r := Finish(catalog, body.1, body.0);
      && (r.failure.None? ==> Achieved(catalog, op, now, View(m), r))
      && (Calm(m) && Founded(catalog, op, View(m)) ==> r.failure.None?)
  {
    BodyExact(catalog, op, now, m);
    var body := Body(catalog, op, now, m);
    FinishExact(catalog, body.1, body.0);
  }

  /** A verify that reports success has seen the target's schema, over a clean journal of every step; undisturbed it does exactly then. */
  lemma VerifiedExactly(catalog: Catalog, now: int, m: Machine)
    requires ValidCatalog(catalog) && now > 0 && m.open.None?
    ensures var r := Run(catalog, Verify, now, m);
      var rows := JournalRows(m.durable);
      var holds := ValidHistory(catalog, rows) && !IsDirty(rows) && |rows| == |catalog.steps|
                   && Verified(catalog, catalog.steps[|rows| - 1], m.durable.content);
      (r.failure.None? ==> holds && r.m.durable == m.durable) && (Calm(m) && holds ==> r.failure.None?)
  {
    SuccessExactly(catalog, Verify, now, m);
  }
}
