/**
 * Claims and leases: how long an obligation stays in the hands of one call, when a duplicate is
 * counted, and why prompt calls never lose a row.
 */
module AuditLeases {
  import opened Outcomes
  import opened AuditOutbox
  import opened AuditDelivery

  // ----- whose hands an obligation is in -----

  /** The call has read the row back and has not settled it. */
  predicate Held(w: World, token: string, id: string) {
    token in w.flights && !w.flights[token].Claiming? && id in BatchIds(w.flights[token].rows)
  }

  ghost predicate OneHolder(w: World) { forall a, b, id :: Held(w, a, id) && Held(w, b, id) ==> a == b }

  /** The row carries the call's claim. */
  predicate Carries(w: World, id: string, token: string) {
    id in w.rows && w.rows[id].claim.Some? && w.rows[id].claim.value.token == token
  }

  /** A claim the call made on a row it had seen unclaimed, and still has. */
  predicate Clean(w: World, token: string, id: string) {
    && token in w.flights && w.flights[token].Claiming? && id in w.flights[token].won && !w.flights[token].won[id]
    && Carries(w, id, token)
  }

  predicate Several(batch: seq<Claimed>) { forall i, j :: 0 <= i < j < |batch| ==> batch[i].id != batch[j].id }

  /** Names are not reused, and a claim is known to the call that made it while that call is claiming. */
  ghost predicate Tidy(w: World) {
    && w.rows.Keys <= w.ledger.used && w.flights.Keys <= w.ledger.tokens
    && (forall id :: id in w.rows && w.rows[id].claim.Some? ==> w.rows[id].claim.value.token in w.ledger.tokens)
    && (forall token, id :: token in w.flights && w.flights[token].Claiming? && Carries(w, id, token) ==> id in w.flights[token].won)
    && (forall token :: token in w.flights && !w.flights[token].Claiming? ==> Several(w.flights[token].rows))
    && (forall token, id :: Held(w, token, id) ==> id in w.ledger.used)
  }

  /** Nobody holds more than before. */
  ghost predicate HeldWithin(later: World, w: World) { forall token, id :: Held(later, token, id) ==> Held(w, token, id) }

  // ----- what the steps do to hands and claims -----

  lemma BatchOf(rows: Rows, ids: seq<string>, won: map<string, bool>)
    requires Distinct(ids) && forall i :: 0 <= i < |ids| ==> ids[i] in rows
    ensures var batch := Batch(rows, ids, won);
      && BatchIds(batch) == Members(ids) && Several(batch)
      && forall i :: 0 <= i < |batch| ==> batch[i].id == ids[i] && batch[i].stolen == (ids[i] in won && won[ids[i]])
  {
    var batch := Batch(rows, ids, won);
    forall id | id in Members(ids)
      ensures id in BatchIds(batch)
    {
      var i :| 0 <= i < |ids| && ids[i] == id;
      assert batch[i].id == id;
    }
  }

  lemma RestOfBatch(batch: seq<Claimed>)
    requires Several(batch) && batch != []
    ensures Several(batch[1..]) && BatchIds(batch[1..]) == BatchIds(batch) - {batch[0].id}
  {}

  /** After a read-back the call holds exactly the rows that carry its claim and have their record. */
  lemma ReadingHolds(w: World, token: string, ids: seq<string>, fault: Fault)
    requires token in w.flights && w.flights[token].Claiming? && Distinct(ids) && Members(ids) == Owned(w.rows, w.records, token)
    ensures var later := Reading(w, token, ids, fault);
      && (forall other, id :: other != token ==> (Held(later, other, id) <==> Held(w, other, id)))
      && (forall id :: Held(later, token, id) ==> id in Owned(w.rows, w.records, token))
      && (token in later.flights ==> !later.flights[token].Claiming? && Several(later.flights[token].rows)
                                     && BatchIds(later.flights[token].rows) == Members(ids))
  {
    assert forall i :: 0 <= i < |ids| ==> ids[i] in Members(ids);
    BatchOf(w.rows, ids, w.flights[token].won);
  }

  lemma PoppedHolds(w: World, token: string)
    requires Tidy(w) && token in w.flights && w.flights[token].Settling? && w.flights[token].rows != []
    ensures var later := w.(flights := Popped(w.flights, token));
      var done := w.flights[token].rows[0].id;
      && Held(w, token, done) && !Held(later, token, done) && HeldWithin(later, w)
      && (token in later.flights ==> !later.flights[token].Claiming? && Several(later.flights[token].rows))
  {
    RestOfBatch(w.flights[token].rows);
  }

  /** Claims of rows after a settlement: the settled row is gone or released, the others are as before. */
  predicate Releases(w: World, later: World, done: string) {
    && (forall id :: id in later.rows && id != done ==> id in w.rows && later.rows[id] == w.rows[id])
    && (done in later.rows ==> done in w.rows && (later.rows[done].claim.None? || later.rows[done] == w.rows[done]))
  }

  lemma ResolvingReleases(c: Settings, w: World, token: string, now: int, fault: Fault)
    requires Fits(c, w, Settle(token, now, fault))
    ensures var later := Resolving(c, w, token, now, fault);
      && Releases(w, later, w.flights[token].rows[0].id) && later.flights == Popped(w.flights, token)
      && later.ledger.used == w.ledger.used && later.ledger.tokens == w.ledger.tokens && later.ledger.steals == w.ledger.steals
      && later.counters.duplicated == w.counters.duplicated && later.records == w.records
  {}

  /** Rows may be gone; everything about calls and claims is as before. */
  predicate OnlyRemoves(w: World, later: World) {
    && later.flights == w.flights && later.records <= w.records
    && later.ledger.used == w.ledger.used && later.ledger.tokens == w.ledger.tokens && later.ledger.steals == w.ledger.steals
    && later.counters.duplicated == w.counters.duplicated
    && later.rows.Keys <= w.rows.Keys && forall id :: id in later.rows ==> later.rows[id] == w.rows[id]
  }

  lemma DeletingOnlyRemoves(c: Settings, w: World, fault: Fault)
    requires w.janitor.Sweeping?
    ensures OnlyRemoves(w, Deleting(c, w, fault))
  {}

  lemma SheddingOnlyRemoves(w: World, fault: Fault, known: bool)
    requires (w.janitor.SheddingDead? || w.janitor.SheddingOldest?) && w.janitor.left != []
    ensures OnlyRemoves(w, Shedding(w, fault, known))
  {}

  lemma PurgingOnlyRemoves(w: World, fault: Fault)
    requires w.janitor.Purging? && w.janitor.left != []
    ensures OnlyRemoves(w, PurgingNext(w, fault))
  {}

  lemma JanitorOnlyRemoves(c: Settings, w: World, e: Event)
    requires FitsJanitor(c, w, e)
    ensures OnlyRemoves(w, JanitorStep(c, w, e))
  {
    if e.DeleteExpired? {
      DeletingOnlyRemoves(c, w, e.fault);
    } else if e.Shed? {
      SheddingOnlyRemoves(w, e.fault, e.known);
    } else if e.PurgeNext? {
      PurgingOnlyRemoves(w, e.fault);
    }
  }

  // ----- names stay tidy -----

  lemma FewerRowsStayTidy(w: World, later: World)
    requires Tidy(w) && OnlyRemoves(w, later)
    ensures Tidy(later) && HeldWithin(later, w)
  {
    assert HeldWithin(later, w);
  }

  lemma FewerFlightsStayTidy(w: World, later: World, token: string)
    requires Tidy(w) && later == w.(flights := w.flights - {token})
    ensures Tidy(later) && HeldWithin(later, w)
  {
    assert HeldWithin(later, w);
  }

  lemma CasingStaysTidy(w: World, token: string, fault: Fault)
    requires Tidy(w) && token in w.flights && w.flights[token].Claiming? && w.flights[token].left != []
    ensures Tidy(Casing(w, token, fault)) && HeldWithin(Casing(w, token, fault), w)
  {
    var later := Casing(w, token, fault);
    assert HeldWithin(later, w);
    assert forall other, id :: Carries(later, id, other) && other != token ==> Carries(w, id, other);
  }

  lemma ReadingStaysTidy(w: World, token: string, ids: seq<string>, fault: Fault)
    requires Tidy(w) && token in w.flights && w.flights[token].Claiming?
    requires Distinct(ids) && Members(ids) == Owned(w.rows, w.records, token)
    ensures Tidy(Reading(w, token, ids, fault))
  {
    ReadingHolds(w, token, ids, fault);
  }

  lemma ResolvingStaysTidy(c: Settings, w: World, token: string, now: int, fault: Fault)
    requires Tidy(w) && Fits(c, w, Settle(token, now, fault))
    ensures Tidy(Resolving(c, w, token, now, fault)) && HeldWithin(Resolving(c, w, token, now, fault), w)
  {
    var later := Resolving(c, w, token, now, fault);
    ResolvingReleases(c, w, token, now, fault);
    PoppedHolds(w, token);
    ReleasedStaysTidy(w, later, w.flights[token].rows[0].id, token);
  }

  lemma ReleasedStaysTidy(w: World, later: World, done: string, token: string)
    requires Tidy(w) && Releases(w, later, done) && later.ledger.used == w.ledger.used && later.ledger.tokens == w.ledger.tokens
    requires HeldWithin(w.(flights := later.flights), w)
    requires later.flights.Keys <= w.flights.Keys && forall other :: other in later.flights && other != token ==> later.flights[other] == w.flights[other]
    requires token in later.flights ==> !later.flights[token].Claiming? && Several(later.flights[token].rows)
    ensures Tidy(later) && HeldWithin(later, w)
  {
    forall other, id | Held(later, other, id)
      ensures Held(w, other, id)
    {
      assert Held(w.(flights := later.flights), other, id);
    }
  }

  lemma HandingStaysTidy(w: World, token: string, results: seq<bool>)
    requires Tidy(w) && token in w.flights && w.flights[token].Delivering?
    ensures Tidy(Handing(w, token, results))
    ensures HeldWithin(Handing(w, token, results), w)
  {
    assert HeldWithin(Handing(w, token, results), w);
  }

  lemma SelectedStaysTidy(c: Settings, w: World, token: string, now: int, at: int, ids: seq<string>)
    requires Tidy(w) && Fits(c, w, Select(token, now, at, ids))
    ensures Tidy(Selected(c, w, token, now, at, ids))
    ensures HeldWithin(Selected(c, w, token, now, at, ids), w)
  {
    assert HeldWithin(Selected(c, w, token, now, at, ids), w);
    assert forall id :: !Carries(w, id, token);
  }

  lemma EnqueuedStaysTidy(w: World, id: string, priority: int, now: int)
    requires Tidy(w) && id !in w.ledger.used
    ensures Tidy(Enqueued(w, id, priority, now)) && HeldWithin(Enqueued(w, id, priority, now), w)
  {
    assert HeldWithin(Enqueued(w, id, priority, now), w);
  }

  lemma WorkerStaysTidy(c: Settings, w: World, e: Event)
    requires Tidy(w) && FitsWorker(c, w, e)
    ensures Tidy(WorkerStep(c, w, e))
  {
    match e
    case Select(token, now, at, ids) => SelectedStaysTidy(c, w, token, now, at, ids);
    case Cas(token, fault) => CasingStaysTidy(w, token, fault);
    case ReadBack(token, ids, fault) => ReadingStaysTidy(w, token, ids, fault);
    case Deliver(token, results) => HandingStaysTidy(w, token, results);
    case Settle(token, now, fault) => ResolvingStaysTidy(c, w, token, now, fault);
    case Crash(token) => FewerFlightsStayTidy(w, WorkerStep(c, w, e), token);
  }

  lemma StepStaysTidy(c: Settings, w: World, e: Event)
    requires Tidy(w) && Fits(c, w, e)
    ensures Tidy(Step(c, w, e))
  {
    if e.Enqueue? {
      EnqueuedStaysTidy(w, e.id, e.priority, e.now);
    } else if ByJanitor(e) {
      JanitorOnlyRemoves(c, w, e);
      FewerRowsStayTidy(w, Step(c, w, e));
    } else if FitsWorker(c, w, e) {
      WorkerStaysTidy(c, w, e);
    } else {
      FewerRowsStayTidy(w, Step(c, w, e));
    }
  }

  // ----- one holder until a duplicate is counted -----

  /** Takes over a row that another call has claimed since this call saw it unclaimed. */
  predicate TakesSilently(w: World, e: Event) {
    && e.Cas? && e.token in w.flights && w.flights[e.token].Claiming? && w.flights[e.token].left != []
    && TakesEffect(e.fault)
    && var f := w.flights[e.token];
    var next := f.left[0];
    Takes(w.rows, next.id, Claim(e.token, f.at), f.cutoff) && w.rows[next.id].claim.Some? && !next.claimed
  }

  /** Held rows are claimed and held once, and nobody holds a row that a call has just claimed as unclaimed. */
  ghost predicate Guarded(w: World) {
    && OneHolder(w)
    && (forall token, id :: Held(w, token, id) && id in w.rows ==> w.rows[id].claim.Some?)
    && (forall token, other, id :: Clean(w, token, id) && Held(w, other, id) ==> false)
  }

  lemma SelectedGuarded(c: Settings, w: World, token: string, now: int, at: int, ids: seq<string>)
    requires Tidy(w) && Guarded(w) && Fits(c, w, Select(token, now, at, ids))
    ensures Guarded(Selected(c, w, token, now, at, ids))
  {
    var later := Selected(c, w, token, now, at, ids);
    SelectedStaysTidy(c, w, token, now, at, ids);
    assert forall other, id :: Clean(later, other, id) ==> Clean(w, other, id);
  }

  lemma CasingGuarded(w: World, token: string, fault: Fault)
    requires Tidy(w) && Guarded(w) && token in w.flights && w.flights[token].Claiming? && w.flights[token].left != []
    requires !TakesSilently(w, Cas(token, fault))
    ensures Guarded(Casing(w, token, fault))
  {
    var later := Casing(w, token, fault);
    var next := w.flights[token].left[0];
    CasingStaysTidy(w, token, fault);
    forall other, id | Clean(later, other, id)
      ensures Clean(w, other, id) || (other == token && id == next.id && w.rows[id].claim.None?)
    {
      if other == token && id != next.id {
        assert Carries(w, id, token);
      }
    }
  }

  lemma ReadingGuarded(w: World, token: string, ids: seq<string>, fault: Fault)
    requires Tidy(w) && Guarded(w) && token in w.flights && w.flights[token].Claiming?
    requires Distinct(ids) && Members(ids) == Owned(w.rows, w.records, token)
    requires Reading(w, token, ids, fault).counters.duplicated == w.counters.duplicated
    ensures Guarded(Reading(w, token, ids, fault))
  {
    var later := Reading(w, token, ids, fault);
    ReadingHolds(w, token, ids, fault);
    forall id | Held(later, token, id)
      ensures Clean(w, token, id)
    {
      NothingStolen(w, token, ids, fault, id);
    }
    assert forall other, id :: Clean(later, other, id) ==> Clean(w, other, id) && other != token;
    assert forall other, id :: Carries(w, id, other) && Carries(w, id, token) ==> other == token;
  }

  /** A batch that counts no duplicate has only rows that the call had seen unclaimed. */
  lemma NothingStolen(w: World, token: string, ids: seq<string>, fault: Fault, id: string)
    requires Tidy(w) && token in w.flights && w.flights[token].Claiming?
    requires Distinct(ids) && Members(ids) == Owned(w.rows, w.records, token)
    requires var later := Reading(w, token, ids, fault); later.counters.duplicated == w.counters.duplicated && Held(later, token, id)
    ensures Clean(w, token, id)
  {
    ReadingHolds(w, token, ids, fault);
    assert id in Members(ids);
    var i :| 0 <= i < |ids| && ids[i] == id;
    assert forall j :: 0 <= j < |ids| ==> ids[j] in Members(ids);
    BatchOf(w.rows, ids, w.flights[token].won);
    assert !Batch(w.rows, ids, w.flights[token].won)[i].stolen;
    assert Carries(w, id, token);
  }

  lemma ResolvingGuarded(c: Settings, w: World, token: string, now: int, fault: Fault)
    requires Tidy(w) && Guarded(w) && Fits(c, w, Settle(token, now, fault))
    ensures Guarded(Resolving(c, w, token, now, fault))
  {
    var later := Resolving(c, w, token, now, fault);
    var done := w.flights[token].rows[0].id;
    ResolvingReleases(c, w, token, now, fault);
    ResolvingStaysTidy(c, w, token, now, fault);
    PoppedHolds(w, token);
    assert !Held(later, token, done) by {
      assert Held(later, token, done) <==> Held(w.(flights := later.flights), token, done);
    }
    assert forall other, id :: Clean(later, other, id) ==> Clean(w, other, id);
  }

  lemma HandingGuarded(w: World, token: string, results: seq<bool>)
    requires Tidy(w) && Guarded(w) && token in w.flights && w.flights[token].Delivering?
    ensures Guarded(Handing(w, token, results))
  {
    var later := Handing(w, token, results);
    HandingStaysTidy(w, token, results);
    assert forall other, id :: Clean(later, other, id) ==> Clean(w, other, id);
  }

  lemma FewerRowsGuarded(w: World, later: World)
    requires Tidy(w) && Guarded(w) && OnlyRemoves(w, later)
    ensures Guarded(later)
  {
    FewerRowsStayTidy(w, later);
    assert forall other, id :: Clean(later, other, id) ==> Clean(w, other, id);
  }

  lemma FewerFlightsGuarded(w: World, later: World, token: string)
    requires Tidy(w) && Guarded(w) && later == w.(flights := w.flights - {token})
    ensures Guarded(later)
  {
    FewerFlightsStayTidy(w, later, token);
    assert forall other, id :: Clean(later, other, id) ==> Clean(w, other, id);
  }

  lemma EnqueuedGuarded(w: World, id: string, priority: int, now: int)
    requires Tidy(w) && Guarded(w) && id !in w.ledger.used
    ensures Guarded(Enqueued(w, id, priority, now))
  {
    var later := Enqueued(w, id, priority, now);
    EnqueuedStaysTidy(w, id, priority, now);
    assert forall other, i :: Clean(later, other, i) ==> Clean(w, other, i);
  }

  lemma WorkerGuarded(c: Settings, w: World, e: Event)
    requires Tidy(w) && Guarded(w) && FitsWorker(c, w, e) && !TakesSilently(w, e)
    requires WorkerStep(c, w, e).counters.duplicated == w.counters.duplicated
    ensures Guarded(WorkerStep(c, w, e))
  {
    match e
    case Select(token, now, at, ids) => SelectedGuarded(c, w, token, now, at, ids);
    case Cas(token, fault) => CasingGuarded(w, token, fault);
    case ReadBack(token, ids, fault) => ReadingGuarded(w, token, ids, fault);
    case Deliver(token, results) => HandingGuarded(w, token, results);
    case Settle(token, now, fault) => ResolvingGuarded(c, w, token, now, fault);
    case Crash(token) => FewerFlightsGuarded(w, WorkerStep(c, w, e), token);
  }

  lemma StepGuarded(c: Settings, w: World, e: Event)
    requires Tidy(w) && Guarded(w) && Fits(c, w, e) && !TakesSilently(w, e)
    requires Step(c, w, e).counters.duplicated == w.counters.duplicated
    ensures Guarded(Step(c, w, e))
  {
    if e.Enqueue? {
      EnqueuedGuarded(w, e.id, e.priority, e.now);
    } else if ByJanitor(e) {
      JanitorOnlyRemoves(c, w, e);
      FewerRowsGuarded(w, Step(c, w, e));
    } else if FitsWorker(c, w, e) {
      WorkerGuarded(c, w, e);
    } else {
      FewerRowsGuarded(w, Step(c, w, e));
    }
  }

  lemma DuplicatesOnlyGrow(c: Settings, w: World, e: Event)
    requires Fits(c, w, e)
    ensures w.counters.duplicated <= Step(c, w, e).counters.duplicated
  {
    if ByJanitor(e) {
      JanitorOnlyRemoves(c, w, e);
    }
  }

  predicate NothingSilent(c: Settings, w: World, events: seq<Event>)
    requires Possible(c, w, events)
    decreases events
  {
    events == [] || (!TakesSilently(w, events[0]) && NothingSilent(c, Step(c, w, events[0]), events[1..]))
  }

  lemma {:induction false} RunGuarded(c: Settings, w: World, events: seq<Event>)
    requires Tidy(w) && (w.counters.duplicated == 0 ==> Guarded(w)) && Possible(c, w, events) && NothingSilent(c, w, events)
    ensures Final(c, w, events).counters.duplicated == 0 ==> Guarded(Final(c, w, events))
    decreases events
  {
    if events != [] {
      StepStaysTidy(c, w, events[0]);
      DuplicatesOnlyGrow(c, w, events[0]);
      if Step(c, w, events[0]).counters.duplicated == 0 {
        StepGuarded(c, w, events[0]);
      }
      RunGuarded(c, Step(c, w, events[0]), events[1..]);
    }
  }

  /**
   * While the duplicate counter is zero and no claim took over a row behind its call's back, no
   * obligation is in the hands of two calls.
   */
  lemma OneHolderUntilCounted(c: Settings, events: seq<Event>)
    requires Possible(c, Start(), events) && NothingSilent(c, Start(), events) && Final(c, Start(), events).counters.duplicated == 0
    ensures OneHolder(Final(c, Start(), events))
  {
    RunGuarded(c, Start(), events);
  }
}
