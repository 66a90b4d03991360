/**
 * No critical obligation starves, however fast others arrive; and a dead letter has had all its
 * attempts.
 */
module AuditFairness {
  import opened Outcomes
  import opened AuditOutbox
  import opened AuditDelivery
  import AuditClocks
  import AuditLeases

  // ----- a critical row gets its turn -----

  /** The unclaimed rows that the candidate query may prefer to this one. */
  function Ahead(rows: Rows, row: Row, id: string): set<string> {
    set other | other in rows && other != id && rows[other].deadAt.None? && rows[other].claim.None? && !Before(row, rows[other])
  }

  /** The row is queued as it was, and no row has a higher priority. */
  predicate StillWaiting(w: World, row: Row, id: string) {
    id in w.rows && w.rows[id] == row && forall other :: other in w.rows ==> w.rows[other].priority >= row.priority
  }

  /** New obligations and settlements come after the row was due. */
  predicate LaterThan(row: Row, e: Event) {
    && (e.Enqueue? ==> e.now > row.nextAt && e.priority >= row.priority)
    && (e.Settle? ==> e.now >= row.nextAt)
  }

  predicate Waits(c: Settings, w: World, events: seq<Event>, row: Row, id: string)
    requires Possible(c, w, events)
    decreases events
  {
    && StillWaiting(w, row, id)
    && (events != [] ==> LaterThan(row, events[0]) && Waits(c, Step(c, w, events[0]), events[1..], row, id))
  }

  /** The event claims a row that was ahead. */
  predicate ClaimsAhead(w: World, e: Event, row: Row, id: string) {
    && e.Cas? && e.token in w.flights && w.flights[e.token].Claiming? && w.flights[e.token].left != []
    && TakesEffect(e.fault)
    && var f := w.flights[e.token];
    Takes(w.rows, f.left[0].id, Claim(e.token, f.at), f.cutoff) && f.left[0].id in Ahead(w.rows, row, id)
  }

  function AheadClaims(c: Settings, w: World, events: seq<Event>, row: Row, id: string): nat
    requires Possible(c, w, events)
    decreases events
  {
    if events == [] then 0
    else (if ClaimsAhead(w, events[0], row, id) then 1 else 0) + AheadClaims(c, Step(c, w, events[0]), events[1..], row, id)
  }

  lemma FewerAhead(a: set<string>, b: set<string>)
    requires a <= b
    ensures |a| <= |b|
  {
    assert b == a + (b - a);
  }

  lemma CasingAhead(c: Settings, w: World, token: string, fault: Fault, row: Row, id: string)
    requires Fits(c, w, Cas(token, fault)) && StillWaiting(w, row, id) && StillWaiting(Casing(w, token, fault), row, id)
    ensures |Ahead(Casing(w, token, fault).rows, row, id)| + (if ClaimsAhead(w, Cas(token, fault), row, id) then 1 else 0)
      <= |Ahead(w.rows, row, id)|
  {
    var later := Casing(w, token, fault);
    var next := w.flights[token].left[0].id;
    if ClaimsAhead(w, Cas(token, fault), row, id) {
      FewerAhead(Ahead(later.rows, row, id), Ahead(w.rows, row, id) - {next});
    } else {
      FewerAhead(Ahead(later.rows, row, id), Ahead(w.rows, row, id));
    }
  }

  lemma ResolvingAhead(c: Settings, w: World, token: string, now: int, fault: Fault, row: Row, id: string)
    requires Fits(c, w, Settle(token, now, fault)) && StillWaiting(w, row, id) && now >= row.nextAt
    ensures Ahead(Resolving(c, w, token, now, fault).rows, row, id) <= Ahead(w.rows, row, id)
  {
    var attempts := w.flights[token].rows[0].attempts;
    assert AuditClocks.Backoff(attempts) > 0;
  }

  lemma StepAhead(c: Settings, w: World, e: Event, row: Row, id: string)
    requires Fits(c, w, e) && StillWaiting(w, row, id) && StillWaiting(Step(c, w, e), row, id) && LaterThan(row, e)
    ensures |Ahead(Step(c, w, e).rows, row, id)| + (if ClaimsAhead(w, e, row, id) then 1 else 0) <= |Ahead(w.rows, row, id)|
  {
    if e.Cas? {
      CasingAhead(c, w, e.token, e.fault, row, id);
    } else {
      if e.Settle? {
        ResolvingAhead(c, w, e.token, e.now, e.fault, row, id);
      } else if ByJanitor(e) {
        AuditLeases.JanitorOnlyRemoves(c, w, e);
      }
      FewerAhead(Ahead(Step(c, w, e).rows, row, id), Ahead(w.rows, row, id));
    }
  }

  lemma {:induction false} RunAhead(c: Settings, w: World, events: seq<Event>, row: Row, id: string)
    requires Possible(c, w, events) && Waits(c, w, events, row, id)
    ensures StillWaiting(Final(c, w, events), row, id)
    ensures |Ahead(Final(c, w, events).rows, row, id)| + AheadClaims(c, w, events, row, id) <= |Ahead(w.rows, row, id)|
    decreases events
  {
    if events != [] {
      StepAhead(c, w, events[0], row, id);
      RunAhead(c, Step(c, w, events[0]), events[1..], row, id);
    }
  }

  /** A selection that takes nothing over returns every due row with fewer rows than a batch ahead of it. */
  lemma SelectedWhenNear(c: Settings, w: World, token: string, now: int, at: int, ids: seq<string>, row: Row, id: string)
    requires Fits(c, w, Select(token, now, at, ids)) && StillWaiting(w, row, id)
    requires row.claim.None? && row.deadAt.None? && row.nextAt <= now && |Ahead(w.rows, row, id)| < c.batchSize
    requires forall i :: 0 <= i < |ids| ==> w.rows[ids[i]].claim.None?
    ensures id in ids
  {
    if id !in ids {
      DistinctCount(ids);
      FewerAhead(Members(ids), Ahead(w.rows, row, id));
    }
  }

  /**
   * While a critical row waits, whatever arrives and whatever fails: no more rows can be claimed
   * before it than were ahead of it, and once fewer than a batch of those are left, the next
   * selection that takes nothing over includes it.
   */
  lemma CriticalNeverStarves(c: Settings, w: World, events: seq<Event>, id: string, token: string, now: int, at: int, ids: seq<string>)
    requires id in w.rows && w.rows[id].claim.None? && w.rows[id].deadAt.None?
    requires Possible(c, w, events) && Waits(c, w, events, w.rows[id], id)
    requires var later := Final(c, w, events);
      && Fits(c, later, Select(token, now, at, ids)) && now >= w.rows[id].nextAt
      && forall i :: 0 <= i < |ids| ==> later.rows[ids[i]].claim.None?
    ensures AheadClaims(c, w, events, w.rows[id], id) <= |Ahead(w.rows, w.rows[id], id)|
    ensures |Ahead(w.rows, w.rows[id], id)| - AheadClaims(c, w, events, w.rows[id], id) < c.batchSize ==> id in ids
  {
    RunAhead(c, w, events, w.rows[id], id);
    if |Ahead(Final(c, w, events).rows, w.rows[id], id)| < c.batchSize {
      SelectedWhenNear(c, Final(c, w, events), token, now, at, ids, w.rows[id], id);
    }
  }

  // ----- a dead letter has had its attempts -----

  /** The event claims the row. */
  predicate ClaimsRow(w: World, e: Event, id: string) {
    && e.Cas? && e.token in w.flights && w.flights[e.token].Claiming? && w.flights[e.token].left != []
    && TakesEffect(e.fault)
    && var f := w.flights[e.token];
    f.left[0].id == id && Takes(w.rows, id, Claim(e.token, f.at), f.cutoff)
  }

  function ClaimsOf(c: Settings, w: World, events: seq<Event>, id: string): nat
    requires Possible(c, w, events)
    decreases events
  {
    if events == [] then 0
    else (if ClaimsRow(w, events[0], id) then 1 else 0) + ClaimsOf(c, Step(c, w, events[0]), events[1..], id)
  }

  /** A batch never carries more attempts than its row has, and dead rows have had all. */
  predicate AttemptsKept(c: Settings, w: World) {
    && w.rows.Keys <= w.ledger.used
    && (forall id :: id in w.rows && w.rows[id].deadAt.Some? ==> w.rows[id].attempts >= c.maxAttempts)
    && forall token :: token in w.flights && !w.flights[token].Claiming? ==> BatchKept(w, w.flights[token].rows)
  }

  predicate BatchKept(w: World, batch: seq<Claimed>) {
    forall i :: 0 <= i < |batch| ==>
      batch[i].id in w.ledger.used && (batch[i].id in w.rows ==> batch[i].attempts <= w.rows[batch[i].id].attempts)
  }

  /** Rows go or keep at least their attempts, and new ones have new names. */
  predicate AttemptsGrow(w: World, later: World) {
    && w.ledger.used <= later.ledger.used && later.rows.Keys <= later.ledger.used
    && forall id :: id in later.rows ==> (id in w.rows && later.rows[id].attempts >= w.rows[id].attempts) || id !in w.ledger.used
  }

  lemma ResolvingGrows(c: Settings, w: World, token: string, now: int, fault: Fault)
    requires w.rows.Keys <= w.ledger.used && Fits(c, w, Settle(token, now, fault))
    ensures var later := Resolving(c, w, token, now, fault);
      AttemptsGrow(w, later) && later.flights == Popped(w.flights, token) && later.ledger.used == w.ledger.used
  {}

  lemma ResolvingDead(c: Settings, w: World, token: string, now: int, fault: Fault)
    requires AttemptsKept(c, w) && Fits(c, w, Settle(token, now, fault))
    ensures forall id :: id in Resolving(c, w, token, now, fault).rows && Resolving(c, w, token, now, fault).rows[id].deadAt.Some? ==>
      Resolving(c, w, token, now, fault).rows[id].attempts >= c.maxAttempts
  {
    assert BatchKept(w, w.flights[token].rows);
  }

  lemma PoppedKept(w: World, later: World, token: string)
    requires token in w.flights && w.flights[token].Settling? && w.flights[token].rows != []
    requires later.flights == Popped(w.flights, token) && AttemptsGrow(w, later) && w.ledger.used == later.ledger.used
    requires forall other :: other in w.flights && !w.flights[other].Claiming? ==> BatchKept(w, w.flights[other].rows)
    ensures forall other :: other in later.flights && !later.flights[other].Claiming? ==> BatchKept(later, later.flights[other].rows)
  {
    var batch := w.flights[token].rows;
    assert forall i :: 0 <= i < |batch[1..]| ==> batch[1..][i] == batch[i + 1];
    forall other | other in later.flights && !later.flights[other].Claiming?
      ensures BatchKept(later, later.flights[other].rows)
    {
      assert BatchKept(w, w.flights[other].rows);
    }
  }

  lemma ResolvingKeepsAttempts(c: Settings, w: World, token: string, now: int, fault: Fault)
    requires AttemptsKept(c, w) && Fits(c, w, Settle(token, now, fault))
    ensures AttemptsKept(c, Resolving(c, w, token, now, fault))
  {
    ResolvingGrows(c, w, token, now, fault);
    ResolvingDead(c, w, token, now, fault);
    PoppedKept(w, Resolving(c, w, token, now, fault), token);
  }

  lemma OthersKeepAttempts(c: Settings, w: World, later: World)
    requires AttemptsKept(c, w) && AttemptsGrow(w, later)
    requires forall id :: id in later.rows && later.rows[id].deadAt.Some? ==> id in w.rows && w.rows[id].deadAt.Some?
    requires forall token :: token in later.flights && !later.flights[token].Claiming? ==>
      (token in w.flights && !w.flights[token].Claiming? && w.flights[token].rows == later.flights[token].rows)
      || BatchKept(later, later.flights[token].rows)
    ensures AttemptsKept(c, later)
  {
    forall token | token in later.flights && !later.flights[token].Claiming?
      ensures BatchKept(later, later.flights[token].rows)
    {
      if !BatchKept(later, later.flights[token].rows) {
        assert BatchKept(w, w.flights[token].rows);
      }
    }
  }

  lemma ReadingKeepsAttempts(c: Settings, w: World, token: string, ids: seq<string>, fault: Fault)
    requires AttemptsKept(c, w) && Fits(c, w, ReadBack(token, ids, fault))
    ensures AttemptsKept(c, Reading(w, token, ids, fault))
  {
    var later := Reading(w, token, ids, fault);
    assert forall i :: 0 <= i < |ids| ==> ids[i] in Members(ids);
    assert BatchKept(w, Batch(w.rows, ids, w.flights[token].won));
    OthersKeepAttempts(c, w, later);
  }

  lemma WorkerKeepsAttempts(c: Settings, w: World, e: Event)
    requires AttemptsKept(c, w) && FitsWorker(c, w, e)
    ensures AttemptsKept(c, WorkerStep(c, w, e))
  {
    if e.Settle? {
      ResolvingKeepsAttempts(c, w, e.token, e.now, e.fault);
    } else if e.ReadBack? {
      ReadingKeepsAttempts(c, w, e.token, e.ids, e.fault);
    } else {
      OthersKeepAttempts(c, w, WorkerStep(c, w, e));
    }
  }

  lemma StepKeepsAttempts(c: Settings, w: World, e: Event)
    requires AttemptsKept(c, w) && Fits(c, w, e)
    ensures AttemptsKept(c, Step(c, w, e))
  {
    if FitsWorker(c, w, e) {
      WorkerKeepsAttempts(c, w, e);
    } else {
      if ByJanitor(e) {
        AuditLeases.JanitorOnlyRemoves(c, w, e);
      }
      OthersKeepAttempts(c, w, Step(c, w, e));
    }
  }

  function AttemptsSoFar(w: World, id: string): nat { if id in w.rows then w.rows[id].attempts else 0 }

  lemma StepCountsClaims(c: Settings, w: World, e: Event, id: string)
    requires Fits(c, w, e) && id in Step(c, w, e).rows && w.rows.Keys <= w.ledger.used && (id in w.rows || id !in w.ledger.used)
    ensures AttemptsSoFar(Step(c, w, e), id) == AttemptsSoFar(w, id) + if ClaimsRow(w, e, id) then 1 else 0
  {
    if ByJanitor(e) {
      AuditLeases.JanitorOnlyRemoves(c, w, e);
    }
  }

  /** A row that is gone does not come back, and a row not yet queued is not claimed. */
  lemma NoReturn(c: Settings, w: World, e: Event, id: string)
    requires Fits(c, w, e) && id !in w.rows
    ensures !ClaimsRow(w, e, id) && (id in w.ledger.used ==> id !in Step(c, w, e).rows && id in Step(c, w, e).ledger.used)
  {
    if ByJanitor(e) {
      AuditLeases.JanitorOnlyRemoves(c, w, e);
    }
  }

  lemma {:induction false} GoneForGood(c: Settings, w: World, events: seq<Event>, id: string)
    requires Possible(c, w, events) && id !in w.rows && id in w.ledger.used
    ensures id !in Final(c, w, events).rows
    decreases events
  {
    if events != [] {
      NoReturn(c, w, events[0], id);
      GoneForGood(c, Step(c, w, events[0]), events[1..], id);
    }
  }

  lemma UsedKept(c: Settings, w: World, e: Event)
    requires Fits(c, w, e)
    ensures w.ledger.used <= Step(c, w, e).ledger.used
  {
    if ByJanitor(e) {
      AuditLeases.JanitorOnlyRemoves(c, w, e);
    }
  }

  lemma CountsOneStep(c: Settings, w: World, e: Event, rest: seq<Event>, id: string)
    requires AttemptsKept(c, w) && Fits(c, w, e) && Possible(c, Step(c, w, e), rest)
    requires id in Final(c, Step(c, w, e), rest).rows && (id in w.rows || id !in w.ledger.used)
    ensures var later := Step(c, w, e);
      && (id in later.rows || id !in later.ledger.used)
      && AttemptsSoFar(later, id) == AttemptsSoFar(w, id) + if ClaimsRow(w, e, id) then 1 else 0
  {
    var later := Step(c, w, e);
    UsedKept(c, w, e);
    if id in later.rows {
      StepCountsClaims(c, w, e, id);
    } else {
      if id in later.ledger.used {
        GoneForGood(c, later, rest, id);
      }
      NoReturn(c, w, e, id);
    }
  }

  lemma {:induction false} RunCountsClaims(c: Settings, w: World, events: seq<Event>, id: string)
    requires Possible(c, w, events) && AttemptsKept(c, w) && id in Final(c, w, events).rows && (id in w.rows || id !in w.ledger.used)
    ensures Final(c, w, events).rows[id].attempts == AttemptsSoFar(w, id) + ClaimsOf(c, w, events, id)
    ensures AttemptsKept(c, Final(c, w, events))
    decreases events
  {
    if events != [] {
      StepKeepsAttempts(c, w, events[0]);
      CountsOneStep(c, w, events[0], events[1..], id);
      RunCountsClaims(c, Step(c, w, events[0]), events[1..], id);
    }
  }

  /** On every run, a queued row has been claimed exactly as often as it says, and a dead letter at least as often as configured. */
  lemma DeadLettersHadTheirAttempts(c: Settings, events: seq<Event>, id: string)
    requires Possible(c, Start(), events) && id in Final(c, Start(), events).rows
    ensures var row := Final(c, Start(), events).rows[id];
      && row.attempts == ClaimsOf(c, Start(), events, id)
      && (row.deadAt.Some? ==> ClaimsOf(c, Start(), events, id) >= c.maxAttempts)
  {
    RunCountsClaims(c, Start(), events, id);
  }
}
