/**
 * Recording an audit event (audit/record.go, with the savepoints of
 * internal/sqlstore/audit_outbox_repo.go): the record and its delivery obligation join the
 * caller's transaction, each in a savepoint of its own.
 */
module AuditRecord {
  import opened Outcomes

  /** Records by event identifier, and obligations with their priority. */
  datatype Tables = Tables(log: set<string>, outbox: map<string, int>)

  /**
   * The caller's connection. On PostgreSQL (`strict`) a failed statement poisons the transaction
   * until it is rolled back to a savepoint; a poisoned transaction cannot be committed.
   */
  datatype Connection = Connection(committed: Tables, tx: Option<Tables>, poisoned: bool, strict: bool)

  /**
   * How one savepointed insert goes: where a statement is reported as failed, if one is. A failed
   * insert may have taken effect, and the rollback to its savepoint may fail as well.
   */
  datatype Course = Clean | NoSavepoint | InsertFails(applied: bool, rolledBack: bool) | NoRelease

  function View(c: Connection): Tables { if c.tx.Some? then c.tx.value else c.committed }

  function WithView(c: Connection, t: Tables): Connection { if c.tx.Some? then c.(tx := Some(t)) else c.(committed := t) }

  function Poison(c: Connection): Connection { c.(poisoned := c.poisoned || c.strict) }

  /** Outside a transaction the savepoint is inert; inside a poisoned one it fails. */
  function Effective(c: Connection, course: Course): Course {
    if c.tx.None? then (if course.InsertFails? then course else Clean)
    else if c.poisoned then NoSavepoint
    else course
  }

  /** Runs an insert that should leave `after`, in its savepoint: the connection left and whether it succeeded. */
  function Savepoint(c: Connection, course: Course, after: Tables): (Connection, bool) {
    match Effective(c, course)
    case Clean => (WithView(c, after), true)
    case NoSavepoint => (Poison(c), false)
    case InsertFails(applied, rolledBack) =>
      var left := if applied && (c.tx.None? || !rolledBack) then WithView(c, after) else c;
      (if c.tx.None? || rolledBack then left else Poison(left), false)
    case NoRelease => (Poison(WithView(c, after)), false)
  }

  datatype Config = Config(enabled: bool, recordStore: bool, outbox: bool, sinks: nat)

  /** What came of the event; `RecordOnly` when there is no sink to deliver to. */
  datatype Outcome = Ignored | Obliged | RecordOnly | RecordLost | DeliveryMissed | RecordBlocked

  function Logged(t: Tables, id: string): Tables { t.(log := t.log + {id}) }

  function Queued(t: Tables, id: string, priority: int): Tables { t.(outbox := t.outbox[id := priority]) }

  /** The event as recorded, with the courses of its two savepoints. */
  function Recorded(config: Config, c: Connection, id: string, priority: int, closed: bool, record: Course, obligation: Course): (Connection, Outcome) {
    if !config.enabled || !config.recordStore then (c, Ignored)
    else
      var failClosed := closed && c.tx.Some?;
      var (c1, inserted) := Savepoint(c, record, Logged(View(c), id));
      if !inserted then (c1, if failClosed then RecordBlocked else RecordLost)
      else if config.sinks == 0 then (c1, RecordOnly)
      else
        var (c2, queued) := if config.outbox then Savepoint(c1, obligation, Queued(View(c1), id, priority)) else (c1, false);
        if queued then (c2, Obliged) else (c2, if failClosed then RecordBlocked else DeliveryMissed)
  }

  class Recorder {
    const config: Config
    var connection: Connection
    var recordLost: nat
    var deliveryMissed: nat
    var recordBlocked: nat

    constructor (config: Config, connection: Connection)
      ensures this.config == config && this.connection == connection
      ensures recordLost == deliveryMissed == recordBlocked == 0
    {
      this.config := config;
      this.connection := connection;
      recordLost, deliveryMissed, recordBlocked := 0, 0, 0;
    }

    method RunSavepoint(course: Course, after: Tables) returns (ok: bool)
      modifies this`connection
      ensures (connection, ok) == old(Savepoint(connection, course, after))
    {
      if connection.tx.None? {
        if !course.InsertFails? || course.applied {
          connection := connection.(committed := after);
        }
        return !course.InsertFails?;
      }
      if connection.poisoned || course.NoSavepoint? {
        connection := Poison(connection);
        return false;
      }
      if course.InsertFails? {
        if !course.rolledBack {
          if course.applied {
            connection := connection.(tx := Some(after));
          }
          connection := Poison(connection);
        }
        return false;
      }
      connection := connection.(tx := Some(after));
      if course.NoRelease? {
        connection := Poison(connection);
        return false;
      }
      return true;
    }

    /** Returns whether the operation must fail. Exactly one counter moves when something was lost. */
    method Record(id: string, priority: int, closed: bool, record: Course, obligation: Course) returns (blocked: bool)
      modifies this
      ensures var (after, outcome) := old(Recorded(config, connection, id, priority, closed, record, obligation));
        && connection == after && blocked == outcome.RecordBlocked?
        && recordLost == old(recordLost) + (if outcome.RecordLost? then 1 else 0)
        && deliveryMissed == old(deliveryMissed) + (if outcome.DeliveryMissed? then 1 else 0)
        && recordBlocked == old(recordBlocked) + (if outcome.RecordBlocked? then 1 else 0)
    {
      if !config.enabled {
        return false;
      }
      var failClosed := closed;
      if failClosed && connection.tx.None? {
        failClosed := false;
      }
      if !config.recordStore {
        return false;
      }
      var inserted := RunSavepoint(record, Logged(View(connection), id));
      if !inserted {
        if failClosed {
          recordBlocked := recordBlocked + 1;
          return true;
        }
        recordLost := recordLost + 1;
        return false;
      }
      if config.sinks == 0 {
        return false;
      }
      var queued := false;
      if config.outbox {
        queued := RunSavepoint(obligation, Queued(View(connection), id, priority));
      }
      if !queued {
        if failClosed {
          recordBlocked := recordBlocked + 1;
          return true;
        }
        deliveryMissed := deliveryMissed + 1;
      }
      return false;
    }
  }

  // ----- what a call means for the caller -----

  /** An operation fails only where there is a transaction to roll back. */
  lemma BlockedOnlyInTransactions(config: Config, c: Connection, id: string, priority: int, closed: bool, record: Course, obligation: Course)
    ensures Recorded(config, c, id, priority, closed, record, obligation).1.RecordBlocked? ==> closed && c.tx.Some?
    ensures var (after, _) := Recorded(config, c, id, priority, closed, record, obligation);
      c.tx.Some? ==> after.committed == c.committed && after.tx.Some?
  {}

  /** Failing closed inside a transaction, a call either leaves record and obligation or blocks the operation. */
  lemma ClosedMeansAllOrBlocked(config: Config, c: Connection, id: string, priority: int, record: Course, obligation: Course)
    requires config.enabled && config.recordStore && config.sinks > 0 && c.tx.Some?
    ensures var (after, outcome) := Recorded(config, c, id, priority, true, record, obligation);
      && (outcome.RecordBlocked? || outcome.Obliged?)
      && (outcome.Obliged? ==> after.poisoned == c.poisoned && View(after) == Queued(Logged(View(c), id), id, priority))
  {}

  /** Commit of what is not poisoned; rollback otherwise. */
  function Committed(c: Connection): Connection {
    if c.tx.None? then c
    else c.(committed := if c.poisoned then c.committed else c.tx.value, tx := None, poisoned := false)
  }

  function RolledBack(c: Connection): Connection { c.(tx := None, poisoned := false) }

  /**
   * The insert stays although its savepoint reports a failure: outside a transaction it took effect
   * with an error; inside one, on an engine that keeps the transaction usable, the release failed, or
   * it took effect with an error and so did the rollback to the savepoint.
   */
  predicate Slips(c: Connection, course: Course) {
    if c.tx.None? then course.InsertFails? && course.applied
    else !c.poisoned && !c.strict && (course.NoRelease? || (course.InsertFails? && course.applied && !course.rolledBack))
  }

  /**
   * For a new event, after its transaction commits: the counters tell exactly what is in the
   * tables, unless an insert slipped past its savepoint, and then exactly not.
   */
  lemma CountersTellTheTruth(config: Config, c: Connection, id: string, priority: int, closed: bool, record: Course, obligation: Course)
    requires config.enabled && config.recordStore && config.sinks > 0 && config.outbox
    requires id !in View(c).log && id !in View(c).outbox && id !in c.committed.log && id !in c.committed.outbox
    requires c.tx.None? ==> !c.poisoned
    ensures var (after, outcome) := Recorded(config, c, id, priority, closed, record, obligation);
      var t := Committed(after).committed;
      !after.poisoned && !outcome.RecordBlocked? ==>
        && ((id in t.log <==> !outcome.RecordLost?) <==> !Slips(c, record))
        && (!Slips(c, record) ==>
              ((id in t.outbox <==> outcome.Obliged?) <==> !(outcome.DeliveryMissed? && Slips(c, obligation))))
  {}

  /** Where a savepointed insert ends well. */
  predicate Succeeds(c: Connection, course: Course) {
    if c.tx.None? then !course.InsertFails? else !c.poisoned && course.Clean?
  }

  /**
   * Without delivery sinks an event is its record alone: it is inserted and reported as kept exactly
   * when its insert succeeds, otherwise it is lost or blocks; no obligation is ever queued. After the
   * commit that is what the table says, unless the insert slipped past its savepoint.
   */
  lemma RecordsWithoutSinks(config: Config, c: Connection, id: string, priority: int, closed: bool, record: Course, obligation: Course)
    requires config.enabled && config.recordStore && config.sinks == 0
    requires id !in View(c).log && id !in c.committed.log && (c.tx.None? ==> !c.poisoned)
    ensures var (after, outcome) := Recorded(config, c, id, priority, closed, record, obligation);
      && (outcome.RecordOnly? <==> Succeeds(c, record))
      && (!outcome.RecordOnly? ==> outcome == if closed && c.tx.Some? then RecordBlocked else RecordLost)
      && (outcome.RecordOnly? ==> after == WithView(c, Logged(View(c), id)))
      && View(after).outbox == View(c).outbox && after.committed.outbox == c.committed.outbox
      && var t := Committed(after).committed;
         !after.poisoned && !outcome.RecordBlocked? ==> ((id in t.log <==> outcome.RecordOnly?) <==> !Slips(c, record))
  {}

  /**
   * With sinks to deliver to, an event ends well exactly when both inserts do, and leaves exactly its
   * record and its obligation; an event without an outbox, or whose obligation fails, keeps its record.
   */
  lemma RecordsWithSinks(config: Config, c: Connection, id: string, priority: int, closed: bool, record: Course, obligation: Course)
    requires config.enabled && config.recordStore && config.sinks > 0 && (c.tx.None? ==> !c.poisoned)
    ensures var (after, outcome) := Recorded(config, c, id, priority, closed, record, obligation);
      var failing := closed && c.tx.Some?;
      && (outcome.Obliged? <==> Succeeds(c, record) && config.outbox && Succeeds(c, obligation))
      && (outcome.Obliged? ==> after == WithView(c, Queued(Logged(View(c), id), id, priority)))
      && (!Succeeds(c, record) ==> outcome == if failing then RecordBlocked else RecordLost)
      && (Succeeds(c, record) && !outcome.Obliged? ==>
            outcome == (if failing then RecordBlocked else DeliveryMissed) && View(after).log == View(c).log + {id})
  {}

  /** Nothing is recorded when auditing is off or nothing durable is configured. */
  lemma RecordsNothingWhenOff(config: Config, c: Connection, id: string, priority: int, closed: bool, record: Course, obligation: Course)
    ensures Recorded(config, c, id, priority, closed, record, obligation).1.Ignored? <==> !(config.enabled && config.recordStore)
    ensures !(config.enabled && config.recordStore) ==> Recorded(config, c, id, priority, closed, record, obligation).0 == c
  {}

  // ----- one operation that fails closed -----

  datatype Entry = Entry(id: string, priority: int, record: Course, obligation: Course)

  /** The events of an operation in turn, up to the first that blocks it. */
  function RecordEntries(config: Config, c: Connection, entries: seq<Entry>): (Connection, bool)
    decreases entries
  {
    if entries == [] then (c, false)
    else
      var e := entries[0];
      var (after, outcome) := Recorded(config, c, e.id, e.priority, true, e.record, e.obligation);
      if outcome.RecordBlocked? then (after, true) else RecordEntries(config, after, entries[1..])
  }

  /** An operation in a transaction of its own, rolled back when an event blocks it. */
  function Operation(config: Config, c: Connection, entries: seq<Entry>): Connection {
    var (after, blocked) := RecordEntries(config, c.(tx := Some(c.committed), poisoned := false), entries);
    if blocked then RolledBack(after) else Committed(after)
  }

  /** Every event with its record and its obligation. */
  function WithEntries(t: Tables, entries: seq<Entry>): Tables
    decreases entries
  {
    if entries == [] then t else WithEntries(Queued(Logged(t, entries[0].id), entries[0].id, entries[0].priority), entries[1..])
  }

  lemma {:induction false} EntriesAllOrBlocked(config: Config, c: Connection, entries: seq<Entry>)
    requires config.enabled && config.recordStore && config.sinks > 0 && c.tx.Some? && !c.poisoned
    ensures var (after, blocked) := RecordEntries(config, c, entries);
      && after.tx.Some? && after.committed == c.committed
      && (!blocked ==> !after.poisoned && after.tx.value == WithEntries(c.tx.value, entries))
    decreases entries
  {
    if entries != [] {
      var e := entries[0];
      var (after, outcome) := Recorded(config, c, e.id, e.priority, true, e.record, e.obligation);
      ClosedMeansAllOrBlocked(config, c, e.id, e.priority, e.record, e.obligation);
      BlockedOnlyInTransactions(config, c, e.id, e.priority, true, e.record, e.obligation);
      if !outcome.RecordBlocked? {
        EntriesAllOrBlocked(config, after, entries[1..]);
      } else {
        BlockedKeepsTransaction(config, c, e);
      }
    }
  }

  lemma BlockedKeepsTransaction(config: Config, c: Connection, e: Entry)
    requires c.tx.Some?
    ensures var (after, _) := Recorded(config, c, e.id, e.priority, true, e.record, e.obligation);
      after.tx.Some? && after.committed == c.committed
  {}

  /**
   * Failing closed, an operation commits a record and an obligation for every one of its events, or
   * it is blocked and commits nothing; whatever fails on the way.
   */
  lemma ClosedOperationAllOrNothing(config: Config, c: Connection, entries: seq<Entry>)
    requires config.enabled && config.recordStore && config.sinks > 0
    ensures var blocked := RecordEntries(config, c.(tx := Some(c.committed), poisoned := false), entries).1;
      Operation(config, c, entries).committed == if blocked then c.committed else WithEntries(c.committed, entries)
  {
    EntriesAllOrBlocked(config, c.(tx := Some(c.committed), poisoned := false), entries);
  }

  // ----- over any number of calls -----

  datatype Call =
    | Begin
    | Event(id: string, priority: int, closed: bool, record: Course, obligation: Course)
    | Commit
    | Rollback

  function After(config: Config, c: Connection, call: Call): Connection {
    match call
    case Begin => if c.tx.None? then c.(tx := Some(c.committed), poisoned := false) else c
    case Event(id, priority, closed, record, obligation) => Recorded(config, c, id, priority, closed, record, obligation).0
    case Commit => Committed(c)
    case Rollback => RolledBack(c)
  }

  function AfterAll(config: Config, c: Connection, calls: seq<Call>): Connection
    decreases calls
  {
    if calls == [] then c else AfterAll(config, After(config, c, calls[0]), calls[1..])
  }

  predicate Backed(t: Tables) { t.outbox.Keys <= t.log }

  predicate AllBacked(c: Connection) { Backed(c.committed) && (c.tx.Some? ==> Backed(c.tx.value)) }

  lemma RecordedKeepsBacked(config: Config, c: Connection, id: string, priority: int, closed: bool, record: Course, obligation: Course)
    requires AllBacked(c)
    ensures AllBacked(Recorded(config, c, id, priority, closed, record, obligation).0)
  {}

  /** Whatever fails, commits or rolls back, every committed obligation has its record. */
  lemma {:induction false} ObligationsHaveRecords(config: Config, c: Connection, calls: seq<Call>)
    requires AllBacked(c)
    ensures AllBacked(AfterAll(config, c, calls))
    decreases calls
  {
    if calls != [] {
      var call := calls[0];
      if call.Event? {
        RecordedKeepsBacked(config, c, call.id, call.priority, call.closed, call.record, call.obligation);
      }
      ObligationsHaveRecords(config, After(config, c, call), calls[1..]);
    }
  }
}
