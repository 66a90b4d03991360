/** The steps of a call on a queue of one row, for the runs that show what can happen. */
module AuditSingleRow {
  import opened Outcomes
  import opened AuditOutbox
  import opened AuditDelivery

  predicate Goes(c: Settings, w: World, e: Event, later: World) { Fits(c, w, e) && Step(c, w, e) == later }

  predicate Due(row: Row, now: int) { row.deadAt.None? && row.claim.None? && row.nextAt <= now }

  function WaitingRow(now: int): Row { Row(0, 0, now, None, now, None) }

  function HeldRow(row: Row, token: string, at: int): Row { row.(claim := Some(Claim(token, at)), attempts := row.attempts + 1) }

  function Picked(id: string, token: string, at: int, cutoff: int): Flight { Claiming(at, cutoff, [Candidate(id, false)], map[]) }

  function Selecting(c: Settings, w: World, id: string, token: string, now: int): World {
    w.(flights := w.flights[token := Picked(id, token, now, now - c.lease)], ledger := w.ledger.(tokens := w.ledger.tokens + {token}))
  }

  lemma SelectsOne(c: Settings, w: World, id: string, row: Row, token: string, now: int)
    requires w.rows == map[id := row] && Due(row, now) && token !in w.ledger.tokens && c.batchSize >= 1
    ensures Goes(c, w, Select(token, now, now, [id]), Selecting(c, w, id, token, now))
  {
    assert Candidates(w.rows, [id]) == [Candidate(id, false)];
  }

  function Holding(w: World, id: string, row: Row, token: string, at: int, cutoff: int): World {
    w.(rows := map[id := HeldRow(row, token, at)], flights := w.flights[token := Claiming(at, cutoff, [], map[id := false])])
  }

  /** The claim of a row nobody has claimed. */
  lemma CasesOne(c: Settings, w: World, id: string, row: Row, token: string, at: int, cutoff: int)
    requires w.rows == map[id := row] && Due(row, at) && token in w.flights && w.flights[token] == Picked(id, token, at, cutoff)
    ensures Goes(c, w, Cas(token, Fine), Holding(w, id, row, token, at, cutoff))
  {
    assert Picked(id, token, at, cutoff).left[1..] == [];
  }

  function InFlight(w: World, id: string, token: string, at: int, attempts: nat): World {
    w.(flights := w.flights[token := Delivering(at, [Claimed(id, attempts, false)])])
  }

  lemma ReadsOne(c: Settings, w: World, id: string, row: Row, token: string, at: int, cutoff: int)
    requires w.rows == map[id := HeldRow(row, token, at)] && id in w.records
    requires token in w.flights && w.flights[token] == Claiming(at, cutoff, [], map[id := false])
    ensures Goes(c, w, ReadBack(token, [id], Fine), InFlight(w, id, token, at, row.attempts + 1))
  {
    assert [id][0] == id && Members([id]) == Owned(w.rows, w.records, token);
    assert Batch(w.rows, [id], map[id := false]) == [Claimed(id, row.attempts + 1, false)];
    assert id in map[id := false];
  }
}
