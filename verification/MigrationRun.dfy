/**
 * What one migration run does to a database (internal/migrations/runner.go,
 * internal/migrations/recovery.go, internal/migrations/lock.go), as functions of the state.
 *
 * Every statement and query draws a fault. A failure may come before or after the effect, and
 * a schema statement may leave anything behind. A crash is a failure after which nothing but
 * the engine's own rollback happens; that is also all the code does after a failure, so the
 * database cannot tell the two apart.
 */
module MigrationRun {
  import opened Outcomes
  import opened MigrationHistory

  datatype Db = Db(journal: Option<seq<Record>>, content: Content)

  datatype Fault = Fine | Fail(applied: bool) | Mangled(content: Content)

  /** A schema statement of the catalog's step `i` was executed; its record was completed over `content`. */
  datatype Event = RanStatement(i: nat) | CompletedStep(i: nat, content: Content)

  /** The durable database, the open transaction's copy of it, the faults to come and the trace. */
  datatype Machine = Machine(durable: Db, open: Option<Db>, faults: seq<Fault>, log: seq<Event>)

  datatype Cause =
    | Infrastructure | HistoryRejected | Untracked | DirtyHistory | Incompatible | Drift
    | Precondition | RetryUnsupported | AlreadyTracked | WrongBaseline

  /** A plain error is reported with the dirty flag of the status at hand; the others carry their own. */
  datatype Failure = Plain(cause: Cause) | Reported(cause: Cause, dirty: bool, uncertain: bool)

  datatype Progress = Done(m: Machine) | Broke(m: Machine, failure: Failure)

  // ----- single effects -----

  function View(m: Machine): Db { if m.open.Some? then m.open.value else m.durable }

  function WithView(m: Machine, db: Db): Machine {
    if m.open.Some? then m.(open := Some(db)) else m.(durable := db)
  }

  function NextFault(m: Machine): Fault { if m.faults == [] then Fine else m.faults[0] }

  function Drawn(m: Machine): Machine { if m.faults == [] then m else m.(faults := m.faults[1..]) }

  /** A query that should find `holds`. */
  function Check(m: Machine, holds: bool, cause: Cause): Progress {
    if NextFault(m) != Fine then Broke(Drawn(m), Plain(Infrastructure))
    else if !holds then Broke(Drawn(m), Plain(cause))
    else Done(Drawn(m))
  }

  /** A statement that should leave the database as `after`. */
  function Write(m: Machine, after: Db): Progress {
    match NextFault(m)
    case Fine => Done(WithView(Drawn(m), after))
    case Fail(applied) => Broke(if applied then WithView(Drawn(m), after) else Drawn(m), Plain(Infrastructure))
    case Mangled(content) => Broke(WithView(Drawn(m), View(m).(content := content)), Plain(Infrastructure))
  }

  /** A write to the journal: it happens or it does not. */
  function WriteJournal(m: Machine, rows: seq<Record>): Progress {
    match NextFault(m)
    case Fine => Done(WithView(Drawn(m), View(m).(journal := Some(rows))))
    case fault =>
      Broke(if fault.Fail? && fault.applied then WithView(Drawn(m), View(m).(journal := Some(rows))) else Drawn(m),
            Plain(Infrastructure))
  }

  function Begin(m: Machine): Progress {
    if NextFault(m) == Fine then Done(Drawn(m).(open := Some(m.durable))) else Broke(Drawn(m), Plain(Infrastructure))
  }

  function Rollback(m: Machine): Machine { m.(open := None) }

  function Commit(m: Machine): Progress {
    match NextFault(m)
    case Fine => Done(Drawn(m).(durable := View(m), open := None))
    case fault =>
      Broke(if fault.Fail? && fault.applied then Drawn(m).(durable := View(m), open := None) else Rollback(Drawn(m)),
            Reported(Infrastructure, false, true))
  }

  // ----- journal records -----

  function Rows(m: Machine): seq<Record> { if View(m).journal.Some? then View(m).journal.value else [] }

  /** Rows stay in key order. */
  function Inserted(rows: seq<Record>, row: Record): seq<Record> {
    if rows == [] || row.id < rows[0].id then [row] + rows else [rows[0]] + Inserted(rows[1..], row)
  }

  function NewRecord(catalog: Catalog, step: Step, mode: Mode, now: int): Record {
    Record(step.id, catalog.bootstrap, catalog.dialect, step.file, step.checksum, step.schemaChecksum,
           step.kind, mode, Started, now, None)
  }

  function HasId(rows: seq<Record>, id: int): bool { exists i :: 0 <= i < |rows| && rows[i].id == id }

  function StartRecord(catalog: Catalog, step: Step, mode: Mode, now: int, m: Machine): Progress {
    if HasId(Rows(m), step.id) then Broke(Drawn(m), Plain(Infrastructure))
    else WriteJournal(m, Inserted(Rows(m), NewRecord(catalog, step, mode, now)))
  }

  predicate Completable(step: Step, row: Record) {
    row.id == step.id && row.checksum == step.checksum && row.state == Started
  }

  function CompletedRow(row: Record, now: int): Record { row.(state := Complete, completedAt := Some(now)) }

  function CompletedRows(rows: seq<Record>, step: Step, now: int): (r: seq<Record>)
    ensures |r| == |rows|
    ensures forall i :: 0 <= i < |rows| ==> r[i] == if Completable(step, rows[i]) then CompletedRow(rows[i], now) else rows[i]
  {
    seq(|rows|, i requires 0 <= i < |rows| => if Completable(step, rows[i]) then CompletedRow(rows[i], now) else rows[i])
  }

  function CountCompletable(rows: seq<Record>, step: Step): nat {
    if rows == [] then 0 else (if Completable(step, rows[0]) then 1 else 0) + CountCompletable(rows[1..], step)
  }

  /** UPDATE of the started record: exactly one row must change. */
  function CompleteRecord(i: nat, step: Step, now: int, m: Machine): Progress {
    var marked := m.(log := m.log + [CompletedStep(i, View(m).content)]);
    match WriteJournal(if CountCompletable(Rows(m), step) == 0 then m else marked, CompletedRows(Rows(m), step, now))
    case Broke(m1, e) => Broke(m1, e)
    case Done(m1) => if CountCompletable(Rows(m), step) == 1 then Done(m1) else Broke(m1, Plain(HistoryRejected))
  }

  // ----- one step -----

  function VerifyStep(catalog: Catalog, step: Step, m: Machine): Progress {
    Check(m, Verified(catalog, step, View(m).content), Drift)
  }

  function CheckPreconditions(step: Step, m: Machine): Progress {
    var c := View(m).content;
    Check(m, step.preconditions(c) && (step.retry.Some? ==> step.retry.value(c)), Precondition)
  }

  /** The step's statements from number `k` on. */
  function Statements(i: nat, step: Step, k: nat, m: Machine): Progress
    requires k <= |step.statements|
    decreases |step.statements| - k
  {
    if k == |step.statements| then Done(m)
    else
      var before := View(m);
      match Write(m.(log := m.log + [RanStatement(i)]), before.(content := step.statements[k](before.content)))
      case Broke(m1, e) => Broke(m1, e)
      case Done(m1) => Statements(i, step, k + 1, m1)
  }

  function Raise(p: Progress, dirty: bool, uncertain: bool): Progress {
    match p case Broke(m, e) => Broke(m, Reported(e.cause, dirty, uncertain)) case Done(m) => p
  }

  function ExecuteStep(catalog: Catalog, i: nat, now: int, m: Machine): Progress
    requires i < |catalog.steps|
  {
    var step := catalog.steps[i];
    var dirty := !step.transactional;
    match Raise(Statements(i, step, 0, m), dirty, dirty)
    case Broke(m1, e) => Broke(m1, e)
    case Done(m1) =>
      match Raise(VerifyStep(catalog, step, m1), dirty, dirty)
      case Broke(m2, e) => Broke(m2, e)
      case Done(m2) => Raise(CompleteRecord(i, step, now, m2), dirty, dirty)
  }

  /** Preconditions and the started record. */
  function StartStep(catalog: Catalog, i: nat, now: int, m: Machine): Progress
    requires i < |catalog.steps|
  {
    var step := catalog.steps[i];
    match Raise(CheckPreconditions(step, m), false, false)
    case Broke(m1, e) => Broke(m1, e)
    case Done(m1) =>
      Raise(StartRecord(catalog, step, Mode.Executed, now, m1), !step.transactional, !step.transactional)
  }

  /** One step, in whatever transaction is open. */
  function StepBody(catalog: Catalog, i: nat, now: int, m: Machine): Progress
    requires i < |catalog.steps|
  {
    match StartStep(catalog, i, now, m)
    case Broke(m1, e) => Broke(m1, e)
    case Done(m1) => ExecuteStep(catalog, i, now, m1)
  }

  predicate OwnTransaction(catalog: Catalog, step: Step) { step.transactional && !catalog.dialect.Sqlite? }

  function ApplyStep(catalog: Catalog, i: nat, now: int, m: Machine): Progress
    requires i < |catalog.steps|
  {
    if !OwnTransaction(catalog, catalog.steps[i]) then StepBody(catalog, i, now, m)
    else match Begin(m)
      case Broke(m1, e) => Broke(Rollback(m1), e)
      case Done(m1) =>
        match StepBody(catalog, i, now, m1)
        case Broke(m2, e) => Broke(Rollback(m2), e)
        case Done(m2) => Commit(m2)
  }

  function RecordAdoption(catalog: Catalog, now: int, m: Machine): Progress
    requires |catalog.steps| > 0
  {
    var step := catalog.steps[0];
    if catalog.dialect.Sqlite? then AdoptionBody(catalog, now, m)
    else match Begin(m)
      case Broke(m1, e) => Broke(Rollback(m1), e)
      case Done(m1) =>
        match AdoptionBody(catalog, now, m1)
        case Broke(m2, e) => Broke(Rollback(m2), e)
        case Done(m2) => Commit(m2)
  }

  function AdoptionBody(catalog: Catalog, now: int, m: Machine): Progress
    requires |catalog.steps| > 0
  {
    match StartRecord(catalog, catalog.steps[0], Adopted, now, m)
    case Broke(m1, e) => Broke(m1, e)
    case Done(m1) => CompleteRecord(0, catalog.steps[0], now, m1)
  }

  // ----- one operation -----

  datatype Operation = Apply | Adopt(id: int) | Repair(id: int) | Retry(id: int) | Verify

  datatype Outcome = Outcome(m: Machine, status: Status, failure: Option<Failure>)

  function Unread(catalog: Catalog): Status { Status(0, false, Ids(catalog.steps), []) }

  /** Reads the journal back: the status it reports, or the error. */
  function Reread(catalog: Catalog, m: Machine): Outcome {
    if NextFault(m) != Fine then Outcome(Drawn(m), Status(0, false, [], []), Some(Plain(Infrastructure)))
    else if !ValidHistory(catalog, Rows(m)) then
      var partial := PartialStatus(catalog, Rows(m));
      Outcome(Drawn(m), partial, Some(Reported(HistoryRejected, partial.dirty, false)))
    else Outcome(Drawn(m), StatusOf(catalog, Rows(m)), None)
  }

  function Stop(p: Progress, status: Status): Outcome {
    Outcome(p.m, status, if p.Broke? then Some(p.failure) else None)
  }

  function RunVerify(catalog: Catalog, m: Machine, status: Status): Outcome
    requires |catalog.steps| > 0
  {
    if |status.history| == 0 then Outcome(m, status, Some(Plain(Untracked)))
    else if status.dirty then Outcome(m, status, Some(Plain(DirtyHistory)))
    else if status.revision != catalog.target then Outcome(m, status, Some(Plain(Incompatible)))
    else Stop(VerifyStep(catalog, catalog.steps[|catalog.steps| - 1], m), status)
  }

  predicate Names(status: Status, id: int) {
    status.dirty && |status.history| > 0 && status.history[|status.history| - 1].id == id
  }

  function RunRepair(catalog: Catalog, now: int, m: Machine, status: Status, id: int): Outcome
    requires |status.history| <= |catalog.steps|
  {
    if !Names(status, id) then Outcome(m, status, Some(Plain(DirtyHistory)))
    else
      var i := |status.history| - 1;
      match Raise(VerifyStep(catalog, catalog.steps[i], m), true, false)
      case Broke(m1, e) => Outcome(m1, status, Some(e))
      case Done(m1) =>
        match Raise(CompleteRecord(i, catalog.steps[i], now, m1), true, true)
        case Broke(m2, e) => Outcome(m2, status, Some(e))
        case Done(m2) => Reread(catalog, m2)
  }

  function RunRetry(catalog: Catalog, now: int, m: Machine, status: Status, id: int): Outcome
    requires |status.history| <= |catalog.steps|
  {
    if !Names(status, id) then Outcome(m, status, Some(Reported(DirtyHistory, status.dirty, false)))
    else
      var i := |status.history| - 1;
      var step := catalog.steps[i];
      if i == 0 || step.transactional || step.retry.None? then
        Outcome(m, status, Some(Reported(RetryUnsupported, status.dirty, false)))
      else match Raise(VerifyStep(catalog, catalog.steps[i - 1], m), status.dirty, false)
        case Broke(m1, e) => Outcome(m1, status, Some(e))
        case Done(m1) =>
          match Raise(CheckPreconditions(step, m1), status.dirty, false)
          case Broke(m2, e) => Outcome(m2, status, Some(e))
          case Done(m2) =>
            match ExecuteStep(catalog, i, now, m2)
            case Broke(m3, e) => Outcome(m3, status, Some(e))
            case Done(m3) => Reread(catalog, m3)
  }

  /** The loop over the steps, from position `i` on. */
  function ApplyFrom(catalog: Catalog, i: nat, now: int, m: Machine, status: Status): Outcome
    requires i <= |catalog.steps|
    decreases |catalog.steps| - i
  {
    if i == |catalog.steps| then Outcome(m, status, None)
    else if catalog.steps[i].id <= status.revision then ApplyFrom(catalog, i + 1, now, m, status)
    else match ApplyStep(catalog, i, now, m)
      case Broke(m1, e) =>
        Outcome(m1, if e.Reported? then status.(dirty := e.dirty) else status, Some(e))
      case Done(m1) =>
        var read := Reread(catalog, m1);
        if read.failure.Some? then read else ApplyFrom(catalog, i + 1, now, read.m, read.status)
  }

  function CreateJournal(m: Machine): Progress {
    if View(m).journal.Some? then Done(m) else Raise(WriteJournal(m, []), false, false)
  }

  function RunAdopt(catalog: Catalog, now: int, m: Machine, status: Status): Outcome
    requires |catalog.steps| > 0
  {
    if status.dirty then Outcome(m, status, Some(Reported(DirtyHistory, true, false)))
    else if |status.history| != 0 then Outcome(m, status, Some(Plain(AlreadyTracked)))
    else match Raise(VerifyStep(catalog, catalog.steps[0], m), false, false)
      case Broke(m1, e) => Outcome(m1, status, Some(e))
      case Done(m1) =>
        match CreateJournal(m1)
        case Broke(m2, e) => Outcome(m2, status, Some(e))
        case Done(m2) =>
          match RecordAdoption(catalog, now, m2)
          case Broke(m3, e) => Outcome(m3, status, Some(e))
          case Done(m3) => Reread(catalog, m3)
  }

  /** What must hold before the loop: nothing owned exists yet, or the current revision verifies. */
  function Preflight(catalog: Catalog, m: Machine, status: Status): Progress
    requires |status.history| <= |catalog.steps|
  {
    if |status.history| == 0 then
      match Check(m, Unused(catalog, View(m).content), Untracked)
      case Broke(m1, e) => Broke(m1, e)
      case Done(m1) => CreateJournal(m1)
    else Raise(VerifyStep(catalog, catalog.steps[|status.history| - 1], m), false, false)
  }

  function RunApply(catalog: Catalog, now: int, m: Machine, status: Status): Outcome
    requires |status.history| <= |catalog.steps|
  {
    if status.dirty then Outcome(m, status, Some(Reported(DirtyHistory, true, false)))
    else match Preflight(catalog, m, status)
      case Broke(m1, e) => Outcome(m1, status, Some(e))
      case Done(m1) => ApplyFrom(catalog, 0, now, m1, status)
  }

  /** History inspection: the status the run starts from. */
  function Inspect(catalog: Catalog, m: Machine): Outcome {
    match Check(m, true, Infrastructure)
    case Broke(m1, e) => Outcome(m1, Unread(catalog), Some(e))
    case Done(m1) =>
      if View(m1).journal.None? then Outcome(m1, Unread(catalog), None)
      else match Raise(Check(m1, true, Drift), false, false)
        case Broke(m2, e) => Outcome(m2, Unread(catalog), Some(e))
        case Done(m2) => Reread(catalog, m2)
  }

  function Perform(catalog: Catalog, op: Operation, now: int, m: Machine, status: Status): Outcome
    requires |catalog.steps| > 0 && |status.history| <= |catalog.steps|
  {
    match op
    case Verify => RunVerify(catalog, m, status)
    case Repair(id) => RunRepair(catalog, now, m, status, id)
    case Retry(id) => RunRetry(catalog, now, m, status, id)
    case Adopt(_) => RunAdopt(catalog, now, m, status)
    case Apply => RunApply(catalog, now, m, status)
  }

  // ----- one run -----

  /** `closing` says that releasing the lease failed; `failure` is what the run reports. */
  datatype Report = Report(m: Machine, status: Status, failure: Option<Failure>, closing: bool)

  function Wrapped(failure: Failure, status: Status): Failure {
    if failure.Plain? then Reported(failure.cause, status.dirty, false) else failure
  }

  /** The statements that release a session: two settings to restore, the lock unless it was the transaction, and closing. */
  function Releases(dialect: Dialect): nat { if dialect.Sqlite? then 3 else 4 }

  /** Every one of `n` statements is tried, whatever became of those before it. */
  function Release(m: Machine, n: nat): (r: Machine)
    ensures r == m.(faults := r.faults)
    ensures m.faults == [] ==> r == m
    decreases n
  {
    if n == 0 then m else Release(Drawn(m), n - 1)
  }

  predicate Released(m: Machine, n: nat)
    ensures m.faults == [] ==> Released(m, n)
    decreases n
  {
    n == 0 || (NextFault(m) == Fine && Released(Drawn(m), n - 1))
  }

  /** SQLite's transaction: committed or rolled back. */
  function EndTx(m: Machine, commit: bool): Progress {
    if m.open.None? then Done(m) else if commit then Commit(m) else Done(Rollback(m))
  }

  /** SQLite commits or rolls back the whole run; every dialect then releases its session, even after a failed commit. */
  function Close(dialect: Dialect, m: Machine, commit: bool): Progress {
    var ended := EndTx(m, commit);
    var m1 := Release(ended.m, Releases(dialect));
    if ended.Done? && Released(ended.m, Releases(dialect)) then Done(m1) else Broke(m1, Reported(Infrastructure, false, true))
  }

  /** Of two joined errors the first that carries its own report is the one found; a plain one takes the status'. */
  function Finish(catalog: Catalog, initial: Status, o: Outcome): Report {
    var checked := if o.failure.Some? then Broke(o.m, o.failure.value) else Check(o.m, true, Infrastructure);
    var closed := Close(catalog.dialect, checked.m, checked.Done?);
    var failure :=
      if checked.Broke? && checked.failure.Reported? then Some(checked.failure)
      else if closed.Broke? then Some(Reported(Infrastructure, false, true))
      else if checked.Broke? then Some(Wrapped(checked.failure, o.status))
      else None;
    Report(closed.m, if failure.Some? && catalog.dialect.Sqlite? then initial else o.status, failure, closed.Broke?)
  }

  /** SQLite takes its lock by beginning the run's transaction; the others lock the session. */
  function Lease(catalog: Catalog, m: Machine): Progress {
    if catalog.dialect.Sqlite? then Begin(m) else Check(m, true, Infrastructure)
  }

  /** A leased run up to its end, and the status it started from. */
  function Body(catalog: Catalog, op: Operation, now: int, m: Machine): (Outcome, Status)
    requires |catalog.steps| > 0
  {
    var read := Inspect(catalog, m);
    if read.failure.Some? then (read, Unread(catalog))
    else if |read.status.history| <= |catalog.steps| then
      (Perform(catalog, op, now, read.m, read.status), read.status)
    else (read, read.status)
  }

  function Run(catalog: Catalog, op: Operation, now: int, m: Machine): Report
    requires |catalog.steps| > 0
  {
    if op.Adopt? && op.id != catalog.bootstrap then
      Report(m, Status(0, false, [], []), Some(Reported(WrongBaseline, false, false)), false)
    else
      var leased := Lease(catalog, m);
      if leased.Broke? then Report(leased.m, Status(0, false, [], []), Some(Reported(Infrastructure, false, false)), false)
      else
        var body := Body(catalog, op, now, leased.m);
        Finish(catalog, body.1, body.0)
  }
}
