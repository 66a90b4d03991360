/**
 * Claims on schedule: how long all attempts of a row take, and why a validated configuration then
 * keeps every queued row below retention.
 */
module AuditSchedules {
  import opened Outcomes
  import opened AuditOutbox
  import opened AuditDelivery
  import opened AuditLeases
  import opened AuditRetention
  import AuditClocks
  import AuditConfig

  /** Nothing is taken over, and each attempt is over at most `delay` after it was due. */
  predicate OnTime(c: Settings, delay: nat, m: Moment, s: Stamped)
    requires Fits(c, m.world, s.event)
  {
    match s.event
    case Cas(token, _) =>
      var f := m.world.flights[token];
      Takes(m.world.rows, f.left[0].id, Claim(token, f.at), f.cutoff) ==> m.world.rows[f.left[0].id].claim.None?
    case Settle(token, _, _) =>
      var id := m.world.flights[token].rows[0].id;
      id in m.world.rows ==> s.time <= m.world.rows[id].nextAt + delay
    case _ => true
  }

  /** All attempts of a row, from its creation to the end of the last one. */
  function AttemptsWindow(c: Settings, delay: nat): int
    requires c.maxAttempts >= 1
  {
    AuditClocks.Backoffs(1, c.maxAttempts) + c.maxAttempts * delay
  }

  /** When the attempt after the first `n` is due at the latest. */
  function DueBy(createdAt: int, n: nat, delay: nat): int { createdAt + AuditClocks.Backoffs(1, n + 1) + n * delay }

  predicate RowOnTime(c: Settings, delay: nat, row: Row) {
    if row.deadAt.Some? then row.claim.None?
    else if row.claim.None? then row.attempts < c.maxAttempts && row.nextAt <= DueBy(row.createdAt, row.attempts, delay)
    else 1 <= row.attempts <= c.maxAttempts && row.nextAt <= DueBy(row.createdAt, row.attempts - 1, delay)
  }

  predicate RowsOnTime(c: Settings, delay: nat, w: World) { forall id :: id in w.rows ==> RowOnTime(c, delay, w.rows[id]) }

  /** A call that has read a row back still carries it, at that attempt. */
  predicate BatchCurrent(w: World, token: string, batch: seq<Claimed>) {
    forall i :: 0 <= i < |batch| && batch[i].id in w.rows ==>
      Carries(w, batch[i].id, token) && w.rows[batch[i].id].attempts == batch[i].attempts
  }

  predicate CallsCurrent(w: World) {
    forall token :: token in w.flights && !w.flights[token].Claiming? ==> BatchCurrent(w, token, w.flights[token].rows)
  }

  ghost predicate Scheduled(c: Settings, delay: nat, w: World) { Tidy(w) && RowsOnTime(c, delay, w) && CallsCurrent(w) }

  lemma NextDue(createdAt: int, n: nat, delay: nat)
    requires n >= 1
    ensures DueBy(createdAt, n - 1, delay) + delay + AuditClocks.Backoff(n) == DueBy(createdAt, n, delay)
  {
    AuditClocks.BackoffsLast(1, n);
  }

  lemma ResolvingRowsOnTime(c: Settings, delay: nat, m: Moment, k: Keeping, s: Stamped)
    requires Scheduled(c, delay, m.world) && Punctual(c, k, m, s) && s.event.Settle? && OnTime(c, delay, m, s)
    ensures RowsOnTime(c, delay, Step(c, m.world, s.event))
  {
    var w := m.world;
    var row := w.flights[s.event.token].rows[0];
    assert BatchCurrent(w, s.event.token, w.flights[s.event.token].rows);
    if row.id in w.rows {
      assert RowOnTime(c, delay, w.rows[row.id]);
      NextDue(w.rows[row.id].createdAt, row.attempts, delay);
    }
  }

  lemma ResolvingCurrent(c: Settings, w: World, token: string, now: int, fault: Fault)
    requires Tidy(w) && CallsCurrent(w) && Fits(c, w, Settle(token, now, fault))
    ensures CallsCurrent(Resolving(c, w, token, now, fault))
  {
    var later := Resolving(c, w, token, now, fault);
    var batch := w.flights[token].rows;
    var done := batch[0].id;
    ResolvingReleases(c, w, token, now, fault);
    RestOfBatch(batch);
    forall other | other in later.flights && !later.flights[other].Claiming?
      ensures BatchCurrent(later, other, later.flights[other].rows)
    {
      OthersCurrent(w, later, token, other);
    }
  }

  lemma OthersCurrent(w: World, later: World, token: string, other: string)
    requires CallsCurrent(w) && token in w.flights && w.flights[token].Settling? && w.flights[token].rows != []
    requires later.flights == Popped(w.flights, token) && Releases(w, later, w.flights[token].rows[0].id)
    requires BatchIds(w.flights[token].rows[1..]) == BatchIds(w.flights[token].rows) - {w.flights[token].rows[0].id}
    requires other in later.flights && !later.flights[other].Claiming?
    ensures BatchCurrent(later, other, later.flights[other].rows)
  {
    var done := w.flights[token].rows[0].id;
    var before, after := w.flights[other].rows, later.flights[other].rows;
    assert BatchCurrent(w, other, before) && BatchCurrent(w, token, w.flights[token].rows);
    forall i | 0 <= i < |after| && after[i].id in later.rows
      ensures Carries(later, after[i].id, other) && later.rows[after[i].id].attempts == after[i].attempts
    {
      var j := if other == token then i + 1 else i;
      assert before[j] == after[i];
      assert Carries(w, done, token) && Carries(w, done, other) ==> other == token;
      if other == token {
        assert after[i].id in BatchIds(after);
      }
    }
  }

  lemma CasingOnTime(c: Settings, delay: nat, w: World, token: string, fault: Fault)
    requires Scheduled(c, delay, w) && Fits(c, w, Cas(token, fault))
    requires var f := w.flights[token];
      Takes(w.rows, f.left[0].id, Claim(token, f.at), f.cutoff) ==> w.rows[f.left[0].id].claim.None?
    ensures RowsOnTime(c, delay, Casing(w, token, fault)) && CallsCurrent(Casing(w, token, fault))
  {
    var later := Casing(w, token, fault);
    var next := w.flights[token].left[0].id;
    if next in w.rows {
      assert RowOnTime(c, delay, w.rows[next]);
    }
    forall other | other in later.flights && !later.flights[other].Claiming?
      ensures BatchCurrent(later, other, later.flights[other].rows)
    {
      assert BatchCurrent(w, other, w.flights[other].rows);
    }
  }

  lemma ReadingCurrent(w: World, token: string, ids: seq<string>, fault: Fault)
    requires CallsCurrent(w) && token in w.flights && w.flights[token].Claiming?
    requires Distinct(ids) && Members(ids) == Owned(w.rows, w.records, token)
    ensures CallsCurrent(Reading(w, token, ids, fault))
  {
    var later := Reading(w, token, ids, fault);
    assert forall i :: 0 <= i < |ids| ==> ids[i] in Members(ids);
    assert BatchCurrent(w, token, Batch(w.rows, ids, w.flights[token].won));
    forall other | other in later.flights && !later.flights[other].Claiming?
      ensures BatchCurrent(later, other, later.flights[other].rows)
    {
      assert other != token ==> BatchCurrent(w, other, w.flights[other].rows);
    }
  }

  lemma SameRowsOnTime(c: Settings, delay: nat, w: World, later: World)
    requires RowsOnTime(c, delay, w) && CallsCurrent(w) && later.rows.Keys <= w.rows.Keys
    requires forall id :: id in later.rows ==> later.rows[id] == w.rows[id]
    requires forall token :: token in later.flights && !later.flights[token].Claiming? ==>
      token in w.flights && !w.flights[token].Claiming? && w.flights[token].rows == later.flights[token].rows
    ensures RowsOnTime(c, delay, later) && CallsCurrent(later)
  {
    forall token | token in later.flights && !later.flights[token].Claiming?
      ensures BatchCurrent(later, token, later.flights[token].rows)
    {
      assert BatchCurrent(w, token, w.flights[token].rows);
    }
  }

  lemma EnqueuedOnTime(c: Settings, delay: nat, w: World, id: string, priority: int, now: int)
    requires Scheduled(c, delay, w) && id !in w.ledger.used && c.maxAttempts >= 1
    ensures RowsOnTime(c, delay, Enqueued(w, id, priority, now)) && CallsCurrent(Enqueued(w, id, priority, now))
  {
    var later := Enqueued(w, id, priority, now);
    forall token | token in later.flights && !later.flights[token].Claiming?
      ensures BatchCurrent(later, token, later.flights[token].rows)
    {
      assert BatchCurrent(w, token, w.flights[token].rows);
      assert forall i :: 0 <= i < |w.flights[token].rows| ==> w.flights[token].rows[i].id in BatchIds(w.flights[token].rows);
      assert forall i :: 0 <= i < |w.flights[token].rows| ==> Held(w, token, w.flights[token].rows[i].id);
    }
  }

  lemma StepScheduled(c: Settings, k: Keeping, delay: nat, m: Moment, s: Stamped)
    requires Scheduled(c, delay, m.world) && Punctual(c, k, m, s) && OnTime(c, delay, m, s) && c.maxAttempts >= 1
    ensures Scheduled(c, delay, Step(c, m.world, s.event))
  {
    var w, e := m.world, s.event;
    StepStaysTidy(c, w, e);
    if e.Enqueue? {
      EnqueuedOnTime(c, delay, w, e.id, e.priority, e.now);
    } else if e.Cas? {
      CasingOnTime(c, delay, w, e.token, e.fault);
    } else if e.ReadBack? {
      ReadingCurrent(w, e.token, e.ids, e.fault);
    } else if e.Settle? {
      ResolvingRowsOnTime(c, delay, m, k, s);
      ResolvingCurrent(c, w, e.token, e.now, e.fault);
    } else {
      if ByJanitor(e) {
        JanitorOnlyRemoves(c, w, e);
      }
      SameRowsOnTime(c, delay, w, Step(c, w, e));
    }
  }

  /** A row that dies on schedule dies within its attempts' window, and only once. */
  lemma DiesOnSchedule(c: Settings, k: Keeping, delay: nat, m: Moment, s: Stamped)
    requires Scheduled(c, delay, m.world) && Punctual(c, k, m, s) && OnTime(c, delay, m, s) && c.maxAttempts >= 1
    ensures DiesWithin(c, m, s, AttemptsWindow(c, delay))
  {
    if s.event.Settle? {
      var w := m.world;
      var row := w.flights[s.event.token].rows[0];
      assert BatchCurrent(w, s.event.token, w.flights[s.event.token].rows);
      if row.id in w.rows {
        assert RowOnTime(c, delay, w.rows[row.id]);
      }
    }
  }

  predicate AllOnTime(c: Settings, k: Keeping, delay: nat, m: Moment, run: seq<Stamped>)
    requires PunctualRun(c, k, m, run)
    decreases run
  {
    run != [] ==> OnTime(c, delay, m, run[0]) && AllOnTime(c, k, delay, Tick(c, m, run[0]), run[1..])
  }

  lemma {:induction false} OnScheduleKept(c: Settings, k: Keeping, delay: nat, m: Moment, run: seq<Stamped>)
    requires FiniteClocks(c, k) && c.maxAttempts >= 1 && LongestLife(c, k, AttemptsWindow(c, delay)) <= k.retention
    requires Kept(c, m, AttemptsWindow(c, delay)) && Scheduled(c, delay, m.world)
    requires PunctualRun(c, k, m, run) && AllOnTime(c, k, delay, m, run)
    ensures Kept(c, Last(c, k, m, run), AttemptsWindow(c, delay))
    decreases run
  {
    if run != [] {
      DiesOnSchedule(c, k, delay, m, run[0]);
      TickKept(c, k, m, run[0], AttemptsWindow(c, delay));
      StepScheduled(c, k, delay, m, run[0]);
      OnScheduleKept(c, k, delay, Tick(c, m, run[0]), run[1..]);
    }
  }

  /** The configuration a running service was built from. */
  predicate Configured(c: Settings, config: AuditConfig.Config) {
    && c.maxAttempts == config.maxAttempts && c.maxAge == config.outboxMaxAge && c.deadLetterTtl == config.deadLetterTtl
    && c.maxAttempts >= 1 && config.outboxMaxAge > 0 && config.deadLetterTtl > 0
  }

  /**
   * An accepted configuration, over every punctual run in which claims start when due: each queued
   * row has its record, and is not older than the checked lifetime plus the delays, provided that
   * the delays fit between that lifetime and the retention.
   */
  lemma AcceptedKeepsRecords(config: AuditConfig.Config, sinks: seq<AuditConfig.Sink>, c: Settings, k: Keeping, delay: nat, run: seq<Stamped>)
    requires AuditConfig.InRange(config) && config.retentionDays > 0 && Configured(c, config)
    requires AuditConfig.Accepted(config, sinks) && AuditConfig.WindowsFit(config)
    requires k.slack >= 0 && k.retention == config.retentionDays * AuditConfig.DAY
    requires k.slack + c.maxAttempts * delay <= k.retention - AuditConfig.Lifetime(config)
    requires PunctualRun(c, k, Begin(), run) && AllOnTime(c, k, delay, Begin(), run)
    ensures var m := Last(c, k, Begin(), run);
      && m.world.rows.Keys <= m.world.records
      && forall id :: id in m.world.rows ==> m.swept - m.world.rows[id].createdAt <= AuditConfig.Lifetime(config) + c.maxAttempts * delay
  {
    assert AuditClocks.Backoffs(0, c.maxAttempts) == AuditClocks.Backoff(0) + AuditClocks.Backoffs(1, c.maxAttempts);
    OnScheduleKept(c, k, delay, Begin(), run);
    var m := Last(c, k, Begin(), run);
    forall id | id in m.world.rows
      ensures m.swept - m.world.rows[id].createdAt <= AuditConfig.Lifetime(config) + c.maxAttempts * delay
    {
      assert RowKept(c, m.swept, m.world.rows[id], AttemptsWindow(c, delay));
    }
  }
}
