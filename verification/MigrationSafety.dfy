/**
 * What every migration run keeps, whatever fails: the journal stays a prefix of the catalog,
 * only grows, and when it is not dirty the schema is the one its revision publishes.
 */
module MigrationSafety {
  import opened Outcomes
  import opened MigrationHistory
  import opened MigrationRun

  // ----- the invariant -----

  function JournalRows(db: Db): seq<Record> { if db.journal.Some? then db.journal.value else [] }

  /** A readable journal; unless it is dirty, the schema is exactly that of its last step. */
  predicate Consistent(catalog: Catalog, db: Db) {
    var rows := JournalRows(db);
    && ValidHistory(catalog, rows)
    && (|rows| > 0 && !IsDirty(rows) ==> ObjectsMatch(catalog, catalog.steps[|rows| - 1], db.content))
  }

  /** Between runs only a step that cannot be rolled back may be incomplete. */
  predicate Settled(catalog: Catalog, db: Db) {
    && Consistent(catalog, db)
    && (IsDirty(JournalRows(db)) ==> !catalog.steps[|JournalRows(db)| - 1].transactional)
  }

  /** No row is removed or replaced; only the last one can turn from started to complete. */
  predicate Grows(rows: seq<Record>, later: seq<Record>) {
    && |rows| <= |later|
    && (forall i :: 0 <= i < |rows| - 1 ==> later[i] == rows[i])
    && (|rows| > 0 ==>
          var last := |rows| - 1;
          later[last] == rows[last] || (IsDirty(rows) && later[last] == rows[last].(state := Complete, completedAt := later[last].completedAt)))
  }

  predicate Follows(db: Db, later: Db) {
    && (db.journal.Some? ==> later.journal.Some?)
    && Grows(JournalRows(db), JournalRows(later))
  }

  lemma FollowsTransitive(a: Db, b: Db, c: Db)
    requires Follows(a, b) && Follows(b, c)
    ensures Follows(a, c)
  {}

  /** In every completed event of the trace the step's postconditions held. */
  predicate TraceVerified(catalog: Catalog, log: seq<Event>) {
    forall k :: 0 <= k < |log| && log[k].CompletedStep? ==>
      log[k].i < |catalog.steps| && Verified(catalog, catalog.steps[log[k].i], log[k].content)
  }

  /** The trace shows the completion of step `i`. */
  predicate Traced(log: seq<Event>, i: nat) {
    exists k :: 0 <= k < |log| && log[k].CompletedStep? && log[k].i == i
  }

  /** Records complete in `later` but not in `rows` are traced. */
  predicate NewlyTraced(rows: seq<Record>, later: seq<Record>, log: seq<Event>) {
    forall i :: CompleteCount(rows) <= i < CompleteCount(later) ==> Traced(log, i)
  }

  // ----- single effects -----

  /** Effects stay inside an open transaction, and the trace only grows. */
  predicate Framed(m: Machine, later: Machine) {
    && later.open.Some? == m.open.Some?
    && (m.open.Some? ==> later.durable == m.durable)
    && m.log <= later.log
  }

  lemma {:induction false} InsertedLast(rows: seq<Record>, row: Record)
    requires forall i :: 0 <= i < |rows| ==> rows[i].id < row.id
    ensures Inserted(rows, row) == rows + [row]
  {
    if rows != [] {
      InsertedLast(rows[1..], row);
      assert rows + [row] == [rows[0]] + (rows[1..] + [row]);
    }
  }

  lemma {:induction false} NoneCompletable(rows: seq<Record>, step: Step)
    requires forall i :: 0 <= i < |rows| ==> rows[i].id != step.id
    ensures CountCompletable(rows, step) == 0
  {
    if rows != [] { NoneCompletable(rows[1..], step); }
  }

  lemma {:induction false} CountAppend(rows: seq<Record>, row: Record, step: Step)
    ensures CountCompletable(rows + [row], step) == CountCompletable(rows, step) + (if Completable(step, row) then 1 else 0)
  {
    if rows == [] {
      assert rows + [row] == [row];
    } else {
      assert (rows + [row])[1..] == rows[1..] + [row];
      CountAppend(rows[1..], row, step);
    }
  }

  /** The rows' ids increase with the catalog's. */
  lemma RowsBelow(catalog: Catalog, rows: seq<Record>, n: nat)
    requires ValidCatalog(catalog) && ValidHistory(catalog, rows) && n < |catalog.steps| && n <= |rows|
    ensures forall i :: 0 <= i < n ==> rows[i].id < catalog.steps[n].id
  {
    forall i | 0 <= i < n
      ensures rows[i].id < catalog.steps[n].id
    {
      assert RowFits(catalog, i, rows[i]);
    }
  }

  /** In a valid history the started record of its last step, and no other, is completed. */
  lemma {:induction false} CompletesLast(catalog: Catalog, rows: seq<Record>, now: int)
    requires ValidCatalog(catalog) && ValidHistory(catalog, rows) && IsDirty(rows)
    ensures var step := catalog.steps[|rows| - 1];
      && CountCompletable(rows, step) == 1
      && CompletedRows(rows, step, now) == rows[|rows| - 1 := CompletedRow(rows[|rows| - 1], now)]
  {
    var last := |rows| - 1;
    var step := catalog.steps[last];
    RowsBelow(catalog, rows, last);
    assert RowFits(catalog, last, rows[last]);
    OnlyLast(rows, step, now);
  }

  lemma {:induction false} OnlyLast(rows: seq<Record>, step: Step, now: int)
    requires |rows| > 0 && Completable(step, rows[|rows| - 1])
    requires forall i :: 0 <= i < |rows| - 1 ==> rows[i].id != step.id
    ensures CountCompletable(rows, step) == 1
    ensures CompletedRows(rows, step, now) == rows[|rows| - 1 := CompletedRow(rows[|rows| - 1], now)]
  {
    var last := |rows| - 1;
    NoneCompletable(rows[..last], step);
    CountAppend(rows[..last], rows[last], step);
    assert rows[..last] + [rows[last]] == rows;
  }

  lemma StartedHistory(catalog: Catalog, rows: seq<Record>, mode: Mode, now: int)
    requires ValidCatalog(catalog) && ValidHistory(catalog, rows) && !IsDirty(rows) && |rows| < |catalog.steps|
    requires now > 0 && (mode == Mode.Executed || (mode == Adopted && |rows| == 0))
    ensures var row := NewRecord(catalog, catalog.steps[|rows|], mode, now);
      && !HasId(rows, row.id) && Inserted(rows, row) == rows + [row]
      && ValidHistory(catalog, rows + [row]) && IsDirty(rows + [row])
  {
    var row := NewRecord(catalog, catalog.steps[|rows|], mode, now);
    RowsBelow(catalog, rows, |rows|);
    InsertedLast(rows, row);
    AppendedHistory(catalog, rows, row);
  }

  lemma AppendedHistory(catalog: Catalog, rows: seq<Record>, row: Record)
    requires ValidHistory(catalog, rows) && !IsDirty(rows) && RowFits(catalog, |rows|, row) && IsStarted(row)
    ensures ValidHistory(catalog, rows + [row]) && IsDirty(rows + [row])
  {}

  lemma CompletedHistory(catalog: Catalog, rows: seq<Record>, now: int)
    requires ValidHistory(catalog, rows) && IsDirty(rows) && now > 0
    ensures var done := rows[|rows| - 1 := CompletedRow(rows[|rows| - 1], now)];
      ValidHistory(catalog, done) && !IsDirty(done) && Grows(rows, done)
  {
    var done := rows[|rows| - 1 := CompletedRow(rows[|rows| - 1], now)];
    forall i | 0 <= i < |done|
      ensures RowFits(catalog, i, done[i])
    {
      assert RowFits(catalog, i, rows[i]);
    }
    assert forall i :: 0 <= i < |done| - 1 ==> IsComplete(rows[i]) && done[i] == rows[i];
  }

  lemma {:induction false} StatementsFrame(i: nat, step: Step, k: nat, m: Machine)
    requires k <= |step.statements|
    ensures var p := Statements(i, step, k, m);
      && Framed(m, p.m) && View(p.m).journal == View(m).journal
      && (forall j :: |m.log| <= j < |p.m.log| ==> p.m.log[j] == RanStatement(i))
    decreases |step.statements| - k
  {
    if k < |step.statements| {
      var m0 := m.(log := m.log + [RanStatement(i)]);
      match Write(m0, View(m).(content := step.statements[k](View(m).content))) {
        case Broke(_, _) =>
        case Done(m1) => StatementsFrame(i, step, k + 1, m1);
      }
    }
  }

  // ----- one step -----

  /** The last record of `rows` has been completed over verified content. */
  predicate CompletedNow(catalog: Catalog, rows: seq<Record>, m: Machine) {
    var last := |rows| - 1;
    && |rows| > 0 && |rows| <= |catalog.steps|
    && View(m).journal.Some?
    && ValidHistory(catalog, Rows(m)) && !IsDirty(Rows(m)) && |Rows(m)| == |rows| && Grows(rows, Rows(m))
    && Verified(catalog, catalog.steps[last], View(m).content)
    && Traced(m.log, last)
  }

  lemma TraceAppend(catalog: Catalog, log: seq<Event>, more: seq<Event>)
    requires TraceVerified(catalog, log) && log <= more
    requires forall j :: |log| <= j < |more| ==> more[j].RanStatement?
    ensures TraceVerified(catalog, more)
  {}

  /** Completing the started last record, over content that verifies. */
  lemma CompleteRecordKeeps(catalog: Catalog, now: int, m: Machine)
    requires ValidCatalog(catalog) && now > 0 && View(m).journal.Some?
    requires ValidHistory(catalog, Rows(m)) && IsDirty(Rows(m)) && TraceVerified(catalog, m.log)
    requires Verified(catalog, catalog.steps[|Rows(m)| - 1], View(m).content)
    ensures var last := |Rows(m)| - 1;
      var p := CompleteRecord(last, catalog.steps[last], now, m);
      && Framed(m, p.m) && TraceVerified(catalog, p.m.log) && View(p.m).content == View(m).content
      && (CompletedNow(catalog, Rows(m), p.m) || (p.Broke? && View(p.m) == View(m)))
  {
    var last := |Rows(m)| - 1;
    CompletesLast(catalog, Rows(m), now);
    CompletedHistory(catalog, Rows(m), now);
    TraceCompleted(catalog, m.log, last, View(m).content);
  }

  lemma TraceCompleted(catalog: Catalog, log: seq<Event>, i: nat, content: Content)
    requires TraceVerified(catalog, log) && i < |catalog.steps| && Verified(catalog, catalog.steps[i], content)
    ensures var more := log + [CompletedStep(i, content)];
      log <= more && TraceVerified(catalog, more) && Traced(more, i)
  {
    var more := log + [CompletedStep(i, content)];
    assert more[|log|] == CompletedStep(i, content);
    assert forall j :: 0 <= j < |log| ==> more[j] == log[j];
  }

  /** The last record, started before, is complete over content that verified; or still started, with an error. */
  predicate StepEnded(catalog: Catalog, m: Machine, p: Progress) {
    && Framed(m, p.m) && TraceVerified(catalog, p.m.log)
    && (CompletedNow(catalog, Rows(m), p.m) || (p.Broke? && View(p.m).journal == View(m).journal))
  }

  lemma ExecuteStepKeeps(catalog: Catalog, now: int, m: Machine)
    requires ValidCatalog(catalog) && now > 0 && View(m).journal.Some?
    requires ValidHistory(catalog, Rows(m)) && IsDirty(Rows(m)) && TraceVerified(catalog, m.log)
    ensures StepEnded(catalog, m, ExecuteStep(catalog, |Rows(m)| - 1, now, m))
  {
    var last := |Rows(m)| - 1;
    var step := catalog.steps[last];
    var p1 := Statements(last, step, 0, m);
    StatementsFrame(last, step, 0, m);
    TraceAppend(catalog, m.log, p1.m.log);
    if p1.Broke? {
      return;
    }
    var p2 := VerifyStep(catalog, step, p1.m);
    if p2.Broke? {
      return;
    }
    var m2 := p2.m;
    assert View(m2) == View(p1.m) && Rows(m2) == Rows(m) && m2.log == p1.m.log && Framed(m, m2);
    CompleteRecordKeeps(catalog, now, m2);
    var p3 := CompleteRecord(last, step, now, m2);
    assert ExecuteStep(catalog, last, now, m).m == p3.m;
    FramedTransitive(m, m2, p3.m);
  }

  /** The record is written, or nothing happened. */
  lemma StartRecordKeeps(catalog: Catalog, mode: Mode, now: int, m: Machine)
    requires ValidCatalog(catalog) && now > 0 && View(m).journal.Some?
    requires ValidHistory(catalog, Rows(m)) && !IsDirty(Rows(m)) && |Rows(m)| < |catalog.steps|
    requires mode == Mode.Executed || (mode == Adopted && |Rows(m)| == 0)
    ensures var step := catalog.steps[|Rows(m)|];
      var started := Rows(m) + [NewRecord(catalog, step, mode, now)];
      var p := StartRecord(catalog, step, mode, now, m);
      && ValidHistory(catalog, started) && IsDirty(started)
      && Framed(m, p.m) && p.m.log == m.log && View(p.m).content == View(m).content
      && (View(p.m).journal == Some(started) || (p.Broke? && View(p.m) == View(m)))
  {
    StartedHistory(catalog, Rows(m), mode, now);
  }

  /** A started record: nothing has happened yet, or it is in the journal, or it is complete over content that verifies. */
  predicate StepReached(catalog: Catalog, m: Machine, started: seq<Record>, p: Progress) {
    && Framed(m, p.m) && TraceVerified(catalog, p.m.log)
    && (|| CompletedNow(catalog, started, p.m)
        || (p.Broke? && View(p.m) == View(m))
        || (p.Broke? && View(p.m).journal == Some(started)))
  }

  function WithStarted(catalog: Catalog, rows: seq<Record>, now: int): seq<Record>
    requires |rows| < |catalog.steps|
  {
    rows + [NewRecord(catalog, catalog.steps[|rows|], Mode.Executed, now)]
  }

  /** A step, in whatever transaction is open; success means complete. */
  lemma StepBodyKeeps(catalog: Catalog, now: int, m: Machine)
    requires ValidCatalog(catalog) && now > 0 && View(m).journal.Some?
    requires ValidHistory(catalog, Rows(m)) && !IsDirty(Rows(m)) && |Rows(m)| < |catalog.steps|
    requires TraceVerified(catalog, m.log)
    ensures var started := WithStarted(catalog, Rows(m), now);
      && ValidHistory(catalog, started) && IsDirty(started)
      && StepReached(catalog, m, started, StepBody(catalog, |Rows(m)|, now, m))
  {
    var i := |Rows(m)|;
    var p1 := StartStep(catalog, i, now, m);
    StartStepKeeps(catalog, now, m);
    assert p1.m.log == m.log;
    if p1.Done? {
      StartedStepKeeps(catalog, now, m, p1.m);
    }
  }

  lemma StartedStepKeeps(catalog: Catalog, now: int, m: Machine, m1: Machine)
    requires ValidCatalog(catalog) && now > 0 && |Rows(m)| < |catalog.steps| && Framed(m, m1)
    requires var started := WithStarted(catalog, Rows(m), now);
      ValidHistory(catalog, started) && IsDirty(started) && View(m1).journal == Some(started)
    requires TraceVerified(catalog, m1.log)
    ensures StepReached(catalog, m, WithStarted(catalog, Rows(m), now), ExecuteStep(catalog, |Rows(m)|, now, m1))
  {
    ExecuteStepKeeps(catalog, now, m1);
    FramedTransitive(m, m1, ExecuteStep(catalog, |Rows(m)|, now, m1).m);
  }

  lemma StartStepKeeps(catalog: Catalog, now: int, m: Machine)
    requires ValidCatalog(catalog) && now > 0 && View(m).journal.Some?
    requires ValidHistory(catalog, Rows(m)) && !IsDirty(Rows(m)) && |Rows(m)| < |catalog.steps|
    ensures var started := WithStarted(catalog, Rows(m), now);
      var p := StartStep(catalog, |Rows(m)|, now, m);
      && ValidHistory(catalog, started) && IsDirty(started)
      && Framed(m, p.m) && p.m.log == m.log && View(p.m).content == View(m).content
      && (View(p.m).journal == Some(started) || (p.Broke? && View(p.m) == View(m)))
  {
    StartedHistory(catalog, Rows(m), Mode.Executed, now);
    var p1 := CheckPreconditions(catalog.steps[|Rows(m)|], m);
    if p1.Done? {
      assert View(p1.m) == View(m);
      StartRecordKeeps(catalog, Mode.Executed, now, p1.m);
    }
  }

  lemma FramedTransitive(a: Machine, b: Machine, c: Machine)
    requires Framed(a, b) && Framed(b, c)
    ensures Framed(a, c)
  {}

  /** A machine under lease: SQLite runs in one transaction, the others in none. */
  predicate Leased(catalog: Catalog, m: Machine) {
    && m.open.Some? == catalog.dialect.Sqlite?
    && Settled(catalog, m.durable)
    && Settled(catalog, View(m))
    && TraceVerified(catalog, m.log)
  }

  /** A settled database that has only grown, with every new completion traced. */
  predicate Grown(catalog: Catalog, before: Db, later: Db, log: seq<Event>) {
    && Settled(catalog, later) && Follows(before, later)
    && NewlyTraced(JournalRows(before), JournalRows(later), log)
  }

  /** There is a record of a step beyond those that were complete. */
  predicate Recorded(before: Db, later: Db) { CompleteCount(JournalRows(before)) < |JournalRows(later)| }

  /** What a run may do to a database: nothing changes without its record in the journal. */
  predicate Progressed(catalog: Catalog, before: Db, later: Db, log: seq<Event>) {
    Grown(catalog, before, later, log) && (later.content != before.content ==> Recorded(before, later))
  }

  /** What a part of a run keeps, failed or not: an open transaction hides it, or the database progressed. */
  predicate Safe(catalog: Catalog, m: Machine, later: Machine) {
    && Framed(m, later) && TraceVerified(catalog, later.log)
    && (m.open.None? ==> Progressed(catalog, m.durable, later.durable, later.log))
  }

  /** What a part that succeeded keeps: the view progressed too. */
  predicate Advanced(catalog: Catalog, m: Machine, later: Machine) {
    Safe(catalog, m, later) && Progressed(catalog, View(m), View(later), later.log)
  }

  /** Where a step leaves the machine when it succeeds. */
  predicate OneFurther(catalog: Catalog, m: Machine, later: Machine) {
    && View(later).journal.Some? && Settled(catalog, View(later))
    && !IsDirty(Rows(later)) && |Rows(later)| == |Rows(m)| + 1
    && Grows(Rows(m), Rows(later)) && Traced(later.log, |Rows(m)|)
  }

  lemma CompletedIsFurther(catalog: Catalog, m: Machine, now: int, later: Machine)
    requires |Rows(m)| < |catalog.steps| && !IsDirty(Rows(m))
    requires CompletedNow(catalog, WithStarted(catalog, Rows(m), now), later)
    ensures OneFurther(catalog, m, later)
  {}

  /** A step in its own transaction: the database is untouched, or the step is done and verified. */
  lemma TransactionalStepAtomic(catalog: Catalog, now: int, m: Machine)
    requires ValidCatalog(catalog) && now > 0 && m.open.None? && View(m).journal.Some?
    requires ValidHistory(catalog, Rows(m)) && !IsDirty(Rows(m)) && |Rows(m)| < |catalog.steps|
    requires TraceVerified(catalog, m.log) && OwnTransaction(catalog, catalog.steps[|Rows(m)|])
    ensures var p := ApplyStep(catalog, |Rows(m)|, now, m);
      && Framed(m, p.m) && TraceVerified(catalog, p.m.log)
      && (OneFurther(catalog, m, p.m) || (p.Broke? && p.m.durable == m.durable))
  {
    var i := |Rows(m)|;
    var p1 := Begin(m);
    if p1.Broke? {
      return;
    }
    var m1 := p1.m;
    assert View(m1) == View(m) && Rows(m1) == Rows(m) && m1.log == m.log && m1.durable == m.durable;
    StepBodyKeeps(catalog, now, m1);
    var p2 := StepBody(catalog, i, now, m1);
    if p2.Broke? {
      assert ApplyStep(catalog, i, now, m) == Broke(Rollback(p2.m), p2.failure);
      return;
    }
    CompletedIsFurther(catalog, m1, now, p2.m);
    assert ApplyStep(catalog, i, now, m) == Commit(p2.m);
    CommitKeeps(catalog, m, p2.m);
  }

  /** Committing publishes the view, or rolls it back. */
  lemma CommitKeeps(catalog: Catalog, m: Machine, later: Machine)
    requires m.open.None? && later.open.Some? && later.durable == m.durable && m.log <= later.log
    requires OneFurther(catalog, m, later)
    ensures var p := Commit(later);
      && Framed(m, p.m) && p.m.log == later.log
      && (OneFurther(catalog, m, p.m) || (p.Broke? && p.m.durable == m.durable))
  {}

  /** One step from a settled, clean database. */
  lemma ApplyStepKeeps(catalog: Catalog, now: int, m: Machine)
    requires ValidCatalog(catalog) && now > 0 && Leased(catalog, m) && View(m).journal.Some?
    requires !IsDirty(Rows(m)) && |Rows(m)| < |catalog.steps|
    ensures var p := ApplyStep(catalog, |Rows(m)|, now, m);
      && Safe(catalog, m, p.m)
      && (p.Done? ==> Advanced(catalog, m, p.m) && OneFurther(catalog, m, p.m))
  {
    var i := |Rows(m)|;
    if OwnTransaction(catalog, catalog.steps[i]) {
      TransactionalStepAtomic(catalog, now, m);
    } else {
      StepBodyKeeps(catalog, now, m);
      var p := StepBody(catalog, i, now, m);
      assert Grows(Rows(m), WithStarted(catalog, Rows(m), now));
      if CompletedNow(catalog, WithStarted(catalog, Rows(m), now), p.m) {
        CompletedIsFurther(catalog, m, now, p.m);
      }
    }
  }
}
