/**
 * The retention condition is needed: when both clocks and twice the sweeps' slack exceed the
 * retention, a row that uses up its attempts late loses its record while it is queued.
 */
module AuditLateDeath {
  import opened Outcomes
  import opened AuditOutbox
  import opened AuditDelivery
  import opened AuditRetention
  import opened AuditSingleRow
  import opened AuditSchedules
  import AuditClocks
  import AuditConfig

  // ----- building punctual runs -----

  predicate Reaches(c: Settings, k: Keeping, run: seq<Stamped>, m: Moment) {
    PunctualRun(c, k, Begin(), run) && DeadStayDead(c, k, Begin(), run) && Last(c, k, Begin(), run) == m
  }

  lemma {:induction false} RunSnoc(c: Settings, k: Keeping, m: Moment, run: seq<Stamped>, s: Stamped)
    requires PunctualRun(c, k, m, run) && DeadStayDead(c, k, m, run)
    requires var last := Last(c, k, m, run); Punctual(c, k, last, s) && !DiesAgain(c, last.world, s.event)
    ensures PunctualRun(c, k, m, run + [s]) && DeadStayDead(c, k, m, run + [s])
    ensures Last(c, k, m, run + [s]) == Tick(c, Last(c, k, m, run), s)
    decreases run
  {
    if run != [] {
      RunSnoc(c, k, Tick(c, m, run[0]), run[1..], s);
      assert (run + [s])[1..] == run[1..] + [s];
    }
  }

  lemma Next(c: Settings, k: Keeping, run: seq<Stamped>, m: Moment, s: Stamped, later: Moment) returns (longer: seq<Stamped>)
    requires Reaches(c, k, run, m) && Punctual(c, k, m, s) && !DiesAgain(c, m.world, s.event) && Tick(c, m, s) == later
    ensures Reaches(c, k, longer, later) && longer == run + [s]
  {
    RunSnoc(c, k, Begin(), run, s);
    longer := run + [s];
  }

  // ----- one row and nobody at work -----

  /** A sweep at that time leaves the row alone. */
  predicate Spared(c: Settings, row: Row, now: int) {
    !PendingLapsed(row, now, c.maxAge) && !DeadLapsed(row, now, c.deadLetterTtl)
  }

  lemma QuietSweep(c: Settings, w: World, id: string, row: Row, now: int)
    requires w.rows == map[id := row] && w.janitor.Resting? && Spared(c, row, now)
    ensures Goes(c, w, CountExpired(now, true), w)
  {
    assert PendingExpired(w.rows, now, c.maxAge) == {} && DeadExpired(w.rows, now, c.deadLetterTtl) == {};
  }

  /** Sweeps as often as needed that find nothing, up to a time at which they still find nothing. */
  lemma {:induction false} QuietSweeps(c: Settings, k: Keeping, run: seq<Stamped>, w: World, id: string, row: Row, clock: int, swept: int, until: int)
    returns (longer: seq<Stamped>)
    requires k.slack > 0 && w.rows == map[id := row] && w.janitor.Resting? && swept <= clock <= swept + k.slack && clock <= until
    requires Spared(c, row, until) && Reaches(c, k, run, Moment(w, clock, swept))
    ensures Reaches(c, k, longer, Moment(w, until, until))
    decreases until - swept
  {
    var now := if swept + k.slack < until then swept + k.slack else until;
    QuietSweep(c, w, id, row, now);
    longer := Next(c, k, run, Moment(w, clock, swept), Stamped(now, CountExpired(now, true)), Moment(w, now, now));
    if now < until {
      longer := QuietSweeps(c, k, longer, w, id, row, now, now, until);
    }
  }

  // ----- one failed attempt -----

  function Refused(n: nat): seq<bool> { seq(n, _ => false) }

  /** The row after an attempt that failed at that time. */
  function AfterFailure(c: Settings, row: Row, now: int): Row {
    if row.attempts + 1 >= c.maxAttempts then row.(attempts := row.attempts + 1, deadAt := Some(now))
    else row.(attempts := row.attempts + 1, nextAt := now + AuditClocks.Backoff(row.attempts + 1))
  }

  function Flown(c: Settings, w: World, id: string, row: Row, token: string, now: int): World {
    InFlight(Holding(Selecting(c, w, id, token, now), id, row, token, now, now - c.lease), id, token, now, row.attempts + 1)
  }

  function Rejected(c: Settings, w: World, id: string, row: Row, token: string, now: int): World {
    var flown := Flown(c, w, id, row, token, now);
    flown.(flights := flown.flights[token := Settling(now, [Claimed(id, row.attempts + 1, false)], false)])
  }

  lemma RejectsOne(c: Settings, w: World, id: string, row: Row, token: string, now: int)
    requires c.sinks > 0
    ensures Goes(c, Flown(c, w, id, row, token, now), Deliver(token, Refused(c.sinks)), Rejected(c, w, id, row, token, now))
  {
    assert !Refused(c.sinks)[0];
  }

  function Failing(c: Settings, w: World, id: string, row: Row, token: string, now: int): World {
    var dies := row.attempts + 1 >= c.maxAttempts;
    w.(rows := map[id := AfterFailure(c, row, now)],
       counters := w.counters.(deadLettered := w.counters.deadLettered + CountIf(dies, 1)),
       ledger := w.ledger.(tokens := w.ledger.tokens + {token}))
  }

  lemma SettlesFailed(c: Settings, w: World, id: string, row: Row, token: string, now: int)
    requires w.rows == map[id := row] && row.claim.None? && w.flights == map[]
    ensures Goes(c, Rejected(c, w, id, row, token, now), Settle(token, now, Fine), Failing(c, w, id, row, token, now))
  {
    var rejected := Rejected(c, w, id, row, token, now);
    assert Popped(rejected.flights, token) == map[];
    assert Step(c, rejected, Settle(token, now, Fine)) == Resolving(c, rejected, token, now, Fine);
  }

  /** From the selection to the settlement, all at one time. */
  lemma FailsOnce(c: Settings, k: Keeping, run: seq<Stamped>, w: World, id: string, row: Row, token: string, clock: int, swept: int, now: int)
    returns (longer: seq<Stamped>)
    requires w.rows == map[id := row] && Due(row, now) && id in w.records && w.flights == map[] && w.janitor.Resting?
    requires token !in w.ledger.tokens && c.batchSize >= 1 && c.sinks > 0
    requires clock <= now <= swept + k.slack && Reaches(c, k, run, Moment(w, clock, swept))
    ensures Reaches(c, k, longer, Moment(Failing(c, w, id, row, token, now), now, swept))
  {
    var w1 := Selecting(c, w, id, token, now);
    var w2 := Holding(w1, id, row, token, now, now - c.lease);
    SelectsOne(c, w, id, row, token, now);
    CasesOne(c, w1, id, row, token, now, now - c.lease);
    longer := Next(c, k, run, Moment(w, clock, swept), Stamped(now, Select(token, now, now, [id])), Moment(w1, now, swept));
    longer := Next(c, k, longer, Moment(w1, now, swept), Stamped(now, Cas(token, Fine)), Moment(w2, now, swept));
    longer := FailsAfterClaim(c, k, longer, w, id, row, token, swept, now);
  }

  lemma FailsAfterClaim(c: Settings, k: Keeping, run: seq<Stamped>, w: World, id: string, row: Row, token: string, swept: int, now: int)
    returns (longer: seq<Stamped>)
    requires w.rows == map[id := row] && Due(row, now) && id in w.records && w.flights == map[] && c.sinks > 0 && now <= swept + k.slack
    requires var claimed := Holding(Selecting(c, w, id, token, now), id, row, token, now, now - c.lease);
      Reaches(c, k, run, Moment(claimed, now, swept))
    ensures Reaches(c, k, longer, Moment(Failing(c, w, id, row, token, now), now, swept))
  {
    var claimed := Holding(Selecting(c, w, id, token, now), id, row, token, now, now - c.lease);
    ReadsOne(c, claimed, id, row, token, now, now - c.lease);
    RejectsOne(c, w, id, row, token, now);
    SettlesFailed(c, w, id, row, token, now);
    var flown, rejected := Flown(c, w, id, row, token, now), Rejected(c, w, id, row, token, now);
    longer := Next(c, k, run, Moment(claimed, now, swept), Stamped(now, ReadBack(token, [id], Fine)), Moment(flown, now, swept));
    longer := Next(c, k, longer, Moment(flown, now, swept), Stamped(now, Deliver(token, Refused(c.sinks))), Moment(rejected, now, swept));
    longer := Next(c, k, longer, Moment(rejected, now, swept), Stamped(now, Settle(token, now, Fine)), Moment(Failing(c, w, id, row, token, now), now, swept));
  }

  // ----- attempts that use up the age limit -----

  predicate Quiet(w: World, id: string, row: Row) {
    && w.rows == map[id := row] && id in w.records && w.flights == map[] && w.janitor.Resting?
    && row.createdAt == 0 && row.claim.None?
  }

  function Sooner(a: int, b: int): int { if a <= b then a else b }

  /** Sweeps up to the age limit and then an attempt that fails, at any time a sweep can still spare the row. */
  lemma FailsAt(c: Settings, k: Keeping, run: seq<Stamped>, w: World, id: string, row: Row, token: string, clock: int, now: int)
    returns (longer: seq<Stamped>)
    requires Quiet(w, id, row) && Due(row, now) && token !in w.ledger.tokens && c.batchSize >= 1 && c.sinks > 0 && k.slack > 0
    requires clock <= now <= c.maxAge + k.slack && Reaches(c, k, run, Moment(w, clock, Sooner(clock, c.maxAge)))
    ensures Reaches(c, k, longer, Moment(Failing(c, w, id, row, token, now), now, Sooner(now, c.maxAge)))
  {
    if clock <= c.maxAge {
      var until := Sooner(now, c.maxAge);
      longer := QuietSweeps(c, k, run, w, id, row, clock, clock, until);
      longer := FailsOnce(c, k, longer, w, id, row, token, until, until, now);
    } else {
      longer := FailsOnce(c, k, run, w, id, row, token, clock, c.maxAge, now);
    }
  }

  /** A new token for the attempt after the first `n`. */
  function Token(n: nat): string { seq(n + 1, _ => 'a') }

  predicate TokensBelow(w: World, n: nat) { forall token :: token in w.ledger.tokens ==> |token| <= n }

  /** Attempts on schedule, and the last one as late as the sweeps allow. */
  lemma {:induction false} AllAttemptsFail(c: Settings, k: Keeping, run: seq<Stamped>, w: World, id: string, row: Row, clock: int)
    returns (longer: seq<Stamped>, last: World, dead: Row)
    requires Quiet(w, id, row) && row.deadAt.None? && row.attempts < c.maxAttempts && TokensBelow(w, row.attempts)
    requires c.batchSize >= 1 && c.sinks > 0 && k.slack > 0 && c.maxAge > 0
    requires clock <= row.nextAt == AuditClocks.Backoffs(1, row.attempts + 1)
    requires AuditClocks.Backoffs(1, c.maxAttempts) <= c.maxAge + k.slack
    requires Reaches(c, k, run, Moment(w, clock, Sooner(clock, c.maxAge)))
    ensures Reaches(c, k, longer, Moment(last, c.maxAge + k.slack, c.maxAge))
    ensures Quiet(last, id, dead) && dead.deadAt == Some(c.maxAge + k.slack)
    decreases c.maxAttempts - row.attempts
  {
    AuditClocks.BackoffsGrow(1, row.attempts + 1, c.maxAttempts);
    var lastOne := row.attempts + 1 == c.maxAttempts;
    var now := if lastOne then c.maxAge + k.slack else row.nextAt;
    longer := FailsAt(c, k, run, w, id, row, Token(row.attempts), clock, now);
    last, dead := Failing(c, w, id, row, Token(row.attempts), now), AfterFailure(c, row, now);
    if !lastOne {
      AuditClocks.BackoffsLast(1, row.attempts + 1);
      longer, last, dead := AllAttemptsFail(c, k, longer, last, id, dead, now);
    }
  }

  /** The queue with one new row. */
  lemma BeginsWithOne(c: Settings, k: Keeping, id: string) returns (run: seq<Stamped>, w: World)
    requires c.maxAge > 0 && k.slack > 0
    ensures Reaches(c, k, run, Moment(w, 0, 0)) && Quiet(w, id, WaitingRow(0)) && w.records == {id} && TokensBelow(w, 0)
  {
    w := Enqueued(Start(), id, 0, 0);
    run := Next(c, k, [], Begin(), Stamped(0, Enqueue(id, 0, 0)), Moment(w, 0, 0));
  }

  /** A punctual run with each attempt starting no sooner than due, and only the last one late. */
  lemma LateDeathLosesRecord(c: Settings, k: Keeping, id: string) returns (run: seq<Stamped>)
    requires FiniteClocks(c, k) && k.slack > 0 && c.sinks > 0 && c.batchSize >= 1 && c.maxAttempts >= 1
    requires AuditClocks.Backoffs(1, c.maxAttempts) <= c.maxAge + k.slack
    requires c.maxAge + c.deadLetterTtl + 2 * k.slack > k.retention
    ensures PunctualRun(c, k, Begin(), run) && DeadStayDead(c, k, Begin(), run)
    ensures var w := Last(c, k, Begin(), run).world; id in w.rows && id !in w.records
  {
    var w: World, dead: Row;
    run, w := BeginsWithOne(c, k, id);
    assert AuditClocks.Backoffs(1, 1) == 0;
    run, w, dead := AllAttemptsFail(c, k, run, w, id, WaitingRow(0), 0);
    var died := c.maxAge + k.slack;
    run := QuietSweeps(c, k, run, w, id, dead, died, c.maxAge, died + c.deadLetterTtl);
    var late := died + c.deadLetterTtl + k.slack;
    run := Next(c, k, run, Moment(w, died + c.deadLetterTtl, died + c.deadLetterTtl), Stamped(late, Cleanup({id})),
                Moment(w.(records := w.records - {id}), late, died + c.deadLetterTtl));
  }

  // ----- the exact condition -----

  /** On every punctual run every queued row has its record. */
  ghost predicate AlwaysRecorded(c: Settings, k: Keeping) {
    forall run :: PunctualRun(c, k, Begin(), run) && DeadStayDead(c, k, Begin(), run) ==>
      Last(c, k, Begin(), run).world.rows.Keys <= Last(c, k, Begin(), run).world.records
  }

  /**
   * For settings whose attempts fit the age limit: retention never takes the record of a queued row,
   * whenever claims happen, if and only if it is no shorter than both clocks and twice the slack.
   */
  lemma RetentionExactly(c: Settings, k: Keeping)
    requires FiniteClocks(c, k) && k.slack > 0 && c.sinks > 0 && c.batchSize >= 1 && c.maxAttempts >= 1
    requires AuditClocks.Backoffs(1, c.maxAttempts) <= c.maxAge + k.slack
    ensures AlwaysRecorded(c, k) <==> c.maxAge + c.deadLetterTtl + 2 * k.slack <= k.retention
  {
    if c.maxAge + c.deadLetterTtl + 2 * k.slack <= k.retention {
      forall run | PunctualRun(c, k, Begin(), run) && DeadStayDead(c, k, Begin(), run)
        ensures Last(c, k, Begin(), run).world.rows.Keys <= Last(c, k, Begin(), run).world.records
      {
        RetentionKeepsRecords(c, k, run);
      }
    } else {
      var run := LateDeathLosesRecord(c, k, "");
    }
  }

  /** The defaults with eight days of retention are accepted, and lose records whatever the slack. */
  lemma AcceptedDefaultsLoseRecords(c: Settings, slack: int)
    requires var config := AuditConfig.Defaults(AuditConfig.Config(0, 0, 0, 8, 0, 0, 0, 0, 0)); Configured(c, config)
    requires slack > 0 && c.sinks > 0 && c.batchSize >= 1
    ensures AuditConfig.Accepted(AuditConfig.Defaults(AuditConfig.Config(0, 0, 0, 8, 0, 0, 0, 0, 0)), [])
    ensures !AlwaysRecorded(c, Keeping(8 * AuditConfig.DAY, slack))
  {
    AuditConfig.DefaultRetryWindow();
    assert AuditClocks.Backoffs(0, 10) == AuditClocks.Backoff(0) + AuditClocks.Backoffs(1, 10);
    AuditConfig.RetentionBelowExact(AuditConfig.Defaults(AuditConfig.Config(0, 0, 0, 8, 0, 0, 0, 0, 0)));
    RetentionExactly(c, Keeping(8 * AuditConfig.DAY, slack));
  }
}
