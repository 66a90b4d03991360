/**
 * Outbox clocks against record retention (audit/service.go): how old a queued row can get when
 * sweeps are punctual, and exactly when the retention delete leaves every queued row its record.
 */
module AuditRetention {
  import opened Outcomes
  import opened AuditOutbox
  import opened AuditDelivery
  import opened AuditLeases
  import AuditClocks
  import AuditConfig

  // ----- runs on a clock -----

  datatype Stamped = Stamped(time: int, event: Event)

  /** The world, the time, and when the latest completed sweep began. */
  datatype Moment = Moment(world: World, clock: int, swept: int)

  /** How old a record must be to be deleted, and how long ago the latest completed sweep may have begun. */
  datatype Keeping = Keeping(retention: int, slack: int)

  /** A sweep is complete when it finds nothing to delete or its DELETE succeeds. */
  function SweptAfter(c: Settings, m: Moment, e: Event): int
    requires Fits(c, m.world, e)
  {
    if e.CountExpired? && e.readable && Step(c, m.world, e).janitor.Resting? then e.now
    else if e.DeleteExpired? && e.fault.Fine? then m.world.janitor.now
    else m.swept
  }

  function Tick(c: Settings, m: Moment, s: Stamped): Moment
    requires Fits(c, m.world, s.event)
  {
    Moment(Step(c, m.world, s.event), s.time, SweptAfter(c, m, s.event))
  }

  /** A settlement that marks a dead letter dead once more. */
  predicate DiesAgain(c: Settings, w: World, e: Event)
    requires Fits(c, w, e)
  {
    && e.Settle? && TakesEffect(e.fault) && !w.flights[e.token].accepted
    && var row := w.flights[e.token].rows[0];
    row.attempts >= c.maxAttempts && row.id in w.rows && w.rows[row.id].deadAt.Some?
  }

  /**
   * The clock goes forward and is what the stamps say; obligations are queued within the age limit
   * of their creation; sweeps are punctual; and the retention delete removes only records of more
   * than the retention age.
   */
  predicate Punctual(c: Settings, k: Keeping, m: Moment, s: Stamped) {
    && Fits(c, m.world, s.event) && m.clock <= s.time && s.time - k.slack <= m.swept
    && match s.event
       case Enqueue(_, _, now) => s.time - c.maxAge <= now <= s.time
       case CountExpired(now, _) => now == s.time
       case Settle(_, now, _) => now == s.time
       case Cleanup(gone) => forall id :: id in gone && id in m.world.rows ==> m.world.rows[id].createdAt < s.time - k.retention
       case _ => true
  }

  predicate PunctualRun(c: Settings, k: Keeping, m: Moment, run: seq<Stamped>)
    decreases run
  {
    run != [] ==> Punctual(c, k, m, run[0]) && PunctualRun(c, k, Tick(c, m, run[0]), run[1..])
  }

  function Last(c: Settings, k: Keeping, m: Moment, run: seq<Stamped>): Moment
    requires PunctualRun(c, k, m, run)
    decreases run
  {
    if run == [] then m else Last(c, k, Tick(c, m, run[0]), run[1..])
  }

  function Begin(): Moment { Moment(Start(), 0, 0) }

  // ----- how old rows get -----

  /** Finite clocks. */
  predicate FiniteClocks(c: Settings, k: Keeping) { c.maxAge > 0 && c.deadLetterTtl > 0 && k.slack >= 0 }

  /** A pending row is within the age limit of the latest sweep; a dead one within its window of it, and died within `gap`. */
  predicate RowKept(c: Settings, swept: int, row: Row, gap: int) {
    if row.deadAt.None? then row.createdAt >= swept - c.maxAge
    else row.deadAt.value >= swept - c.deadLetterTtl && row.createdAt >= row.deadAt.value - gap
  }

  predicate Kept(c: Settings, m: Moment, gap: int) {
    && m.swept <= m.clock && (m.world.janitor.Sweeping? ==> m.world.janitor.now <= m.clock)
    && m.world.rows.Keys <= m.world.records && m.world.records <= m.world.ledger.used
    && forall id :: id in m.world.rows ==> RowKept(c, m.swept, m.world.rows[id], gap)
  }

  /** The longest life of a row whose death comes within `gap` of its creation. */
  function LongestLife(c: Settings, k: Keeping, gap: int): int {
    (if c.maxAge > gap + c.deadLetterTtl then c.maxAge else gap + c.deadLetterTtl) + k.slack
  }

  /** If the event marks a row dead, the row was pending and is no older than the gap. */
  predicate DiesWithin(c: Settings, m: Moment, s: Stamped, gap: int)
    requires Fits(c, m.world, s.event)
  {
    && !DiesAgain(c, m.world, s.event)
    && (s.event.Settle? ==>
          var f := m.world.flights[s.event.token];
          !f.accepted && f.rows[0].attempts >= c.maxAttempts && TakesEffect(s.event.fault) && f.rows[0].id in m.world.rows ==>
            m.world.rows[f.rows[0].id].createdAt >= s.time - gap)
  }

  lemma AgeBound(c: Settings, k: Keeping, m: Moment, time: int, gap: int, id: string)
    requires Kept(c, m, gap) && id in m.world.rows && time - k.slack <= m.swept
    ensures m.world.rows[id].createdAt >= time - LongestLife(c, k, gap)
  {
    assert RowKept(c, m.swept, m.world.rows[id], gap);
  }

  lemma ResolvingKept(c: Settings, k: Keeping, m: Moment, s: Stamped, gap: int)
    requires FiniteClocks(c, k) && Kept(c, m, gap) && Punctual(c, k, m, s) && s.event.Settle? && DiesWithin(c, m, s, gap)
    ensures Kept(c, Tick(c, m, s), gap)
  {
    var later := Tick(c, m, s);
    var token := s.event.token;
    assert later.world == Resolving(c, m.world, token, s.event.now, s.event.fault);
    forall id | id in later.world.rows
      ensures RowKept(c, m.swept, later.world.rows[id], gap)
    {
      assert RowKept(c, m.swept, m.world.rows[id], gap);
    }
  }

  lemma CountingKept(c: Settings, k: Keeping, m: Moment, s: Stamped, gap: int)
    requires FiniteClocks(c, k) && Kept(c, m, gap) && Punctual(c, k, m, s) && s.event.CountExpired?
    ensures Kept(c, Tick(c, m, s), gap)
  {
    var later := Tick(c, m, s);
    var now := s.event.now;
    if s.event.readable && later.world.janitor.Resting? {
      forall id | id in m.world.rows
        ensures RowKept(c, now, m.world.rows[id], gap)
      {
        assert RowKept(c, m.swept, m.world.rows[id], gap);
        assert id !in PendingExpired(m.world.rows, now, c.maxAge) + DeadExpired(m.world.rows, now, c.deadLetterTtl);
      }
    }
  }

  lemma DeletingKept(c: Settings, k: Keeping, m: Moment, s: Stamped, gap: int)
    requires FiniteClocks(c, k) && Kept(c, m, gap) && Punctual(c, k, m, s) && s.event.DeleteExpired?
    ensures Kept(c, Tick(c, m, s), gap)
  {
    var later := Tick(c, m, s);
    DeletingOnlyRemoves(c, m.world, s.event.fault);
    forall id | id in later.world.rows
      ensures RowKept(c, later.swept, later.world.rows[id], gap)
    {
      assert RowKept(c, m.swept, m.world.rows[id], gap);
      if s.event.fault.Fine? {
        assert id !in Expired(m.world.rows, m.world.janitor.now, c.maxAge, c.deadLetterTtl);
      }
    }
  }

  lemma CleanupKept(c: Settings, k: Keeping, m: Moment, s: Stamped, gap: int)
    requires Kept(c, m, gap) && Punctual(c, k, m, s) && s.event.Cleanup? && LongestLife(c, k, gap) <= k.retention
    ensures Kept(c, Tick(c, m, s), gap)
  {
    forall id | id in m.world.rows
      ensures id !in s.event.gone
    {
      AgeBound(c, k, m, s.time, gap, id);
    }
  }

  lemma FewerRowsKept(c: Settings, m: Moment, later: Moment, gap: int)
    requires Kept(c, m, gap) && OnlyRemoves(m.world, later.world) && later.world.records == m.world.records
    requires later.swept == m.swept && m.clock <= later.clock && !later.world.janitor.Sweeping?
    ensures Kept(c, later, gap)
  {}

  /** Claims change neither age nor death. */
  lemma ClaimsKept(c: Settings, m: Moment, later: Moment, gap: int)
    requires Kept(c, m, gap) && later.swept == m.swept && m.clock <= later.clock
    requires later.world.records == m.world.records && later.world.ledger.used == m.world.ledger.used && later.world.janitor == m.world.janitor
    requires later.world.rows.Keys == m.world.rows.Keys
    requires forall id :: id in m.world.rows ==>
      later.world.rows[id].createdAt == m.world.rows[id].createdAt && later.world.rows[id].deadAt == m.world.rows[id].deadAt
    ensures Kept(c, later, gap)
  {
    forall id | id in later.world.rows
      ensures RowKept(c, later.swept, later.world.rows[id], gap)
    {
      assert RowKept(c, m.swept, m.world.rows[id], gap);
    }
  }

  lemma EnqueuedKept(c: Settings, k: Keeping, m: Moment, s: Stamped, gap: int)
    requires FiniteClocks(c, k) && Kept(c, m, gap) && Punctual(c, k, m, s) && s.event.Enqueue?
    ensures Kept(c, Tick(c, m, s), gap)
  {}

  lemma TickKept(c: Settings, k: Keeping, m: Moment, s: Stamped, gap: int)
    requires FiniteClocks(c, k) && Kept(c, m, gap) && Punctual(c, k, m, s) && DiesWithin(c, m, s, gap)
    requires LongestLife(c, k, gap) <= k.retention
    ensures Kept(c, Tick(c, m, s), gap)
  {
    var e := s.event;
    if e.Enqueue? {
      EnqueuedKept(c, k, m, s, gap);
    } else if e.Cleanup? {
      CleanupKept(c, k, m, s, gap);
    } else if e.Settle? {
      ResolvingKept(c, k, m, s, gap);
    } else if e.CountExpired? {
      CountingKept(c, k, m, s, gap);
    } else if e.DeleteExpired? {
      DeletingKept(c, k, m, s, gap);
    } else if ByJanitor(e) {
      JanitorOnlyRemoves(c, m.world, e);
      JanitorLeavesRecords(c, m.world, e);
      FewerRowsKept(c, m, Tick(c, m, s), gap);
    } else {
      ClaimsKept(c, m, Tick(c, m, s), gap);
    }
  }

  lemma JanitorLeavesRecords(c: Settings, w: World, e: Event)
    requires FitsJanitor(c, w, e)
    ensures JanitorStep(c, w, e).records == w.records
    ensures !e.CountExpired? ==> !JanitorStep(c, w, e).janitor.Sweeping?
  {}

  // ----- any schedule of claims -----

  /** No event of the run marks a dead letter dead once more. */
  predicate DeadStayDead(c: Settings, k: Keeping, m: Moment, run: seq<Stamped>)
    requires PunctualRun(c, k, m, run)
    decreases run
  {
    run != [] ==> !DiesAgain(c, m.world, run[0].event) && DeadStayDead(c, k, Tick(c, m, run[0]), run[1..])
  }

  /** A row that dies was within the age limit of the latest sweep. */
  lemma DiesWithinAge(c: Settings, k: Keeping, m: Moment, s: Stamped)
    requires Kept(c, m, c.maxAge + k.slack) && Punctual(c, k, m, s) && !DiesAgain(c, m.world, s.event)
    ensures DiesWithin(c, m, s, c.maxAge + k.slack)
  {
    if s.event.Settle? {
      var id := m.world.flights[s.event.token].rows[0].id;
      if id in m.world.rows {
        assert RowKept(c, m.swept, m.world.rows[id], c.maxAge + k.slack);
      }
    }
  }

  lemma {:induction false} AnyScheduleKept(c: Settings, k: Keeping, m: Moment, run: seq<Stamped>)
    requires FiniteClocks(c, k) && Kept(c, m, c.maxAge + k.slack) && PunctualRun(c, k, m, run) && DeadStayDead(c, k, m, run)
    requires c.maxAge + c.deadLetterTtl + 2 * k.slack <= k.retention
    ensures Kept(c, Last(c, k, m, run), c.maxAge + k.slack)
    decreases run
  {
    if run != [] {
      DiesWithinAge(c, k, m, run[0]);
      TickKept(c, k, m, run[0], c.maxAge + k.slack);
      AnyScheduleKept(c, k, Tick(c, m, run[0]), run[1..]);
    }
  }

  /**
   * Whatever the schedule of claims: if both clocks and twice the sweeps' slack fit the retention,
   * every queued row has its record, and none is older than that sum.
   */
  lemma RetentionKeepsRecords(c: Settings, k: Keeping, run: seq<Stamped>)
    requires FiniteClocks(c, k) && PunctualRun(c, k, Begin(), run) && DeadStayDead(c, k, Begin(), run)
    requires c.maxAge + c.deadLetterTtl + 2 * k.slack <= k.retention
    ensures var m := Last(c, k, Begin(), run);
      && m.world.rows.Keys <= m.world.records
      && forall id :: id in m.world.rows ==> m.swept - m.world.rows[id].createdAt <= c.maxAge + c.deadLetterTtl + k.slack
  {
    AnyScheduleKept(c, k, Begin(), run);
    var m := Last(c, k, Begin(), run);
    forall id | id in m.world.rows
      ensures m.swept - m.world.rows[id].createdAt <= c.maxAge + c.deadLetterTtl + k.slack
    {
      assert RowKept(c, m.swept, m.world.rows[id], c.maxAge + k.slack);
    }
  }

  // ----- who could mark a dead letter dead once more -----

  predicate DeadUnclaimed(rows: Rows) { forall id :: id in rows && rows[id].deadAt.Some? ==> rows[id].claim.None? }

  lemma StepDeadUnclaimed(c: Settings, w: World, e: Event)
    requires DeadUnclaimed(w.rows) && Fits(c, w, e)
    ensures DeadUnclaimed(Step(c, w, e).rows)
  {
    if ByJanitor(e) {
      JanitorOnlyRemoves(c, w, e);
    } else if e.Settle? {
      ResolvingDeadUnclaimed(c, w, e.token, e.now, e.fault);
    }
  }

  lemma ResolvingDeadUnclaimed(c: Settings, w: World, token: string, now: int, fault: Fault)
    requires DeadUnclaimed(w.rows) && Fits(c, w, Settle(token, now, fault))
    ensures DeadUnclaimed(Resolving(c, w, token, now, fault).rows)
  {}

  lemma GuardedNeverDiesAgain(c: Settings, w: World, e: Event)
    requires Guarded(w) && DeadUnclaimed(w.rows) && Fits(c, w, e)
    ensures !DiesAgain(c, w, e)
  {
    if e.Settle? {
      assert w.flights[e.token].rows[0].id in BatchIds(w.flights[e.token].rows);
      assert Held(w, e.token, w.flights[e.token].rows[0].id);
    }
  }

  /** No duplicate is counted in the run, and none goes uncounted. */
  predicate NoDuplicates(c: Settings, k: Keeping, m: Moment, run: seq<Stamped>)
    requires PunctualRun(c, k, m, run)
    decreases run
  {
    run != [] ==>
      && !TakesSilently(m.world, run[0].event)
      && Step(c, m.world, run[0].event).counters.duplicated == m.world.counters.duplicated
      && NoDuplicates(c, k, Tick(c, m, run[0]), run[1..])
  }

  lemma {:induction false} WithoutDuplicatesDeadStayDead(c: Settings, k: Keeping, m: Moment, run: seq<Stamped>)
    requires Tidy(m.world) && Guarded(m.world) && DeadUnclaimed(m.world.rows)
    requires PunctualRun(c, k, m, run) && NoDuplicates(c, k, m, run)
    ensures DeadStayDead(c, k, m, run)
    decreases run
  {
    if run != [] {
      GuardedNeverDiesAgain(c, m.world, run[0].event);
      StepStaysTidy(c, m.world, run[0].event);
      StepGuarded(c, m.world, run[0].event);
      StepDeadUnclaimed(c, m.world, run[0].event);
      WithoutDuplicatesDeadStayDead(c, k, Tick(c, m, run[0]), run[1..]);
    }
  }

  /** Only a row delivered twice at once can die twice: without duplicates the retention condition is all that is needed. */
  lemma RetentionWithoutDuplicates(c: Settings, k: Keeping, run: seq<Stamped>)
    requires FiniteClocks(c, k) && PunctualRun(c, k, Begin(), run) && NoDuplicates(c, k, Begin(), run)
    requires c.maxAge + c.deadLetterTtl + 2 * k.slack <= k.retention
    ensures Last(c, k, Begin(), run).world.rows.Keys <= Last(c, k, Begin(), run).world.records
  {
    WithoutDuplicatesDeadStayDead(c, k, Begin(), run);
    RetentionKeepsRecords(c, k, run);
  }
}
