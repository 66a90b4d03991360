/**
 * The delivery queue (internal/sqlstore/audit_outbox_repo.go), statement by statement: what each
 * query may select and what each update or delete leaves. A statement may be reported as failed
 * after it took effect.
 */
module AuditOutbox {
  import opened Outcomes

  /** The claim a row carries: the token of one ClaimBatch call and the time that call took for its claims. */
  datatype Claim = Claim(token: string, at: int)

  datatype Row = Row(priority: int, attempts: nat, nextAt: int, claim: Option<Claim>, createdAt: int, deadAt: Option<int>)

  type Rows = map<string, Row>

  datatype Fault = Fine | Lost(applied: bool)

  predicate TakesEffect(fault: Fault) { fault.Fine? || fault.applied }

  // ----- sets of rows -----

  predicate Distinct(ids: seq<string>) { forall i, j :: 0 <= i < j < |ids| ==> ids[i] != ids[j] }

  function Members(ids: seq<string>): set<string> { set i | 0 <= i < |ids| :: ids[i] }

  lemma {:induction false} DistinctCount(ids: seq<string>)
    requires Distinct(ids)
    ensures |Members(ids)| == |ids|
  {
    if ids != [] {
      var last := |ids| - 1;
      DistinctCount(ids[..last]);
      assert Members(ids) == Members(ids[..last]) + {ids[last]};
    }
  }

  lemma MinusCount(rows: Rows, gone: set<string>)
    requires gone <= rows.Keys
    ensures |rows - gone| == |rows| - |gone|
  {
    assert (rows - gone).Keys == rows.Keys - gone;
    assert |rows.Keys - gone| == |rows.Keys| - |gone| by {
      assert rows.Keys == (rows.Keys - gone) + gone;
    }
    assert |rows| == |rows.Keys| && |rows - gone| == |(rows - gone).Keys|;
  }

  // ----- claiming -----

  predicate Unclaimed(row: Row, cutoff: int) { row.claim.None? || row.claim.value.at < cutoff }

  predicate Claimable(row: Row, now: int, cutoff: int) {
    row.deadAt.None? && row.nextAt <= now && Unclaimed(row, cutoff)
  }

  /** The candidate query: at most `limit` claimable rows, by priority and then by time. */
  predicate AreCandidates(rows: Rows, ids: seq<string>, now: int, cutoff: int, limit: nat) {
    && Distinct(ids) && |ids| <= limit
    && (forall i :: 0 <= i < |ids| ==> ids[i] in rows && Claimable(rows[ids[i]], now, cutoff))
    && (forall id :: id in rows && Claimable(rows[id], now, cutoff) && id !in ids ==>
          |ids| == limit && forall i :: 0 <= i < |ids| ==> !Before(rows[id], rows[ids[i]]))
  }

  predicate Before(a: Row, b: Row) { a.priority < b.priority || (a.priority == b.priority && a.nextAt < b.nextAt) }

  /** Whether the guarded update of a claim touches the row. */
  predicate Takes(rows: Rows, id: string, claim: Claim, cutoff: int) { id in rows && Claimable(rows[id], claim.at, cutoff) }

  function Taken(rows: Rows, id: string, claim: Claim): Rows
    requires id in rows
  {
    rows[id := rows[id].(claim := Some(claim), attempts := rows[id].attempts + 1)]
  }

  /** The rows that carry the token and still have their record. */
  function Owned(rows: Rows, records: set<string>, token: string): set<string> {
    set id | id in rows && id in records && rows[id].claim.Some? && rows[id].claim.value.token == token
  }

  // ----- settling -----

  function Succeeded(rows: Rows, id: string): Rows { rows - {id} }

  function Failed(rows: Rows, id: string, nextAt: int): Rows {
    if id in rows then rows[id := rows[id].(nextAt := nextAt, claim := None)] else rows
  }

  function DeadLettered(rows: Rows, id: string, at: int): Rows {
    if id in rows then rows[id := rows[id].(deadAt := Some(at), claim := None)] else rows
  }

  // ----- the clocks -----

  predicate PendingLapsed(row: Row, now: int, maxAge: int) { maxAge > 0 && row.deadAt.None? && row.createdAt < now - maxAge }

  predicate DeadLapsed(row: Row, now: int, ttl: int) { ttl > 0 && row.deadAt.Some? && row.deadAt.value < now - ttl }

  function PendingExpired(rows: Rows, now: int, maxAge: int): set<string> {
    set id | id in rows && PendingLapsed(rows[id], now, maxAge)
  }

  function DeadExpired(rows: Rows, now: int, ttl: int): set<string> {
    set id | id in rows && DeadLapsed(rows[id], now, ttl)
  }

  /** What the sweep's DELETE removes. */
  function Expired(rows: Rows, now: int, maxAge: int, ttl: int): set<string> {
    PendingExpired(rows, now, maxAge) + DeadExpired(rows, now, ttl)
  }

  // ----- the emergency valve -----

  function DeadIds(rows: Rows): set<string> { set id | id in rows && rows[id].deadAt.Some? }

  /** The first `n` rows of a set, oldest first. */
  predicate Oldest(rows: Rows, from: set<string>, ids: seq<string>, n: nat, age: Row -> int) {
    && Distinct(ids) && Members(ids) <= from && from <= rows.Keys
    && |ids| == (if n <= |from| then n else |from|)
    && forall i, id :: 0 <= i < |ids| && ids[i] in rows && id in from && id !in ids ==> age(rows[ids[i]]) <= age(rows[id])
  }

  function DeadAge(row: Row): int { if row.deadAt.Some? then row.deadAt.value else 0 }

  function Age(row: Row): int { row.createdAt }

  // ----- orphans -----

  predicate AreOrphans(rows: Rows, records: set<string>, ids: seq<string>, limit: nat) {
    && Distinct(ids) && |ids| <= limit
    && forall i :: 0 <= i < |ids| ==> ids[i] in rows && ids[i] !in records
  }
}
