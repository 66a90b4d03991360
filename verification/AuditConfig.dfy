/**
 * The checked audit configuration (audit/service.go) and what acceptance guarantees about leases
 * and retention, and what it does not.
 */
module AuditConfig {
  import opened Outcomes
  import opened AuditClocks

  const MINUTE: int := 60 * SECOND
  const HOUR: int := 3600 * SECOND
  const DAY: int := 24 * HOUR

  datatype Config = Config(
    workers: int, batchSize: int, flushInterval: int, retentionDays: int,
    maxAttempts: int, claimLease: int, outboxMaxAge: int, deadLetterTtl: int, outboxMaxRows: int)

  function Positive(x: int, default_: int): int { if x <= 0 then default_ else x }

  function NonZero(x: int, default_: int): int { if x == 0 then default_ else x }

  function Defaults(c: Config): Config {
    Config(Positive(c.workers, 3), Positive(c.batchSize, 50), Positive(c.flushInterval, 100000000),
           if c.retentionDays < 0 then 0 else c.retentionDays,
           Positive(c.maxAttempts, 10), Positive(c.claimLease, 10 * MINUTE),
           NonZero(c.outboxMaxAge, 7 * DAY), NonZero(c.deadLetterTtl, 7 * DAY), NonZero(c.outboxMaxRows, 100000))
  }

  /** An external sink: what it declares for a batch of some size, if it declares anything. */
  datatype Sink = Undeclared | Declared(bound: int -> (int, bool))

  datatype Problem = LeaseBelowFloor | NoBound | Unbounded | LeaseTooShort | InfiniteClock | LifetimeTooLong | ZeroRows

  predicate SinkFits(c: Config, sink: Sink) {
    sink.Declared? && sink.bound(c.batchSize).1 && 0 < sink.bound(c.batchSize).0 < c.claimLease
  }

  /** Retention in 64 bits. */
  function Retention(c: Config): int { Wrap(Wrap(c.retentionDays * 24) * HOUR) }

  /** The longest row lifetime, as computed in 64 bits. */
  function ComputedLifetime(c: Config): int
    requires c.maxAttempts >= 0
  {
    var alt := Wrap(Wrap(Backoffs(0, c.maxAttempts)) + c.deadLetterTtl);
    if alt > c.outboxMaxAge then alt else c.outboxMaxAge
  }

  predicate ClocksFit(c: Config)
    requires c.maxAttempts >= 0
  {
    c.retentionDays > 0 ==> c.outboxMaxAge >= 0 && c.deadLetterTtl >= 0 && ComputedLifetime(c) < Retention(c)
  }

  predicate Accepted(c: Config, sinks: seq<Sink>)
    requires c.maxAttempts >= 0
  {
    && c.claimLease >= MINUTE
    && (forall i :: 0 <= i < |sinks| ==> SinkFits(c, sinks[i]))
    && ClocksFit(c)
  }

  /** Acceptance is exactly this; the error for a zero row cap cannot occur, because zero is replaced by its default. */
  method ValidateConfig(given: Config, sinks: seq<Sink>) returns (problem: Option<Problem>)
    ensures problem.None? <==> Accepted(Defaults(given), sinks)
    ensures problem != Some(ZeroRows)
  {
    var c := Defaults(given);
    if c.claimLease < MINUTE {
      return Some(LeaseBelowFloor);
    }
    for i := 0 to |sinks|
      invariant forall j :: 0 <= j < i ==> SinkFits(c, sinks[j])
    {
      if sinks[i].Undeclared? {
        return Some(NoBound);
      }
      var (maxDelivery, bounded) := sinks[i].bound(c.batchSize);
      if !bounded || maxDelivery <= 0 {
        return Some(Unbounded);
      }
      if c.claimLease <= maxDelivery {
        return Some(LeaseTooShort);
      }
    }
    if c.retentionDays > 0 {
      if c.outboxMaxAge < 0 || c.deadLetterTtl < 0 {
        return Some(InfiniteClock);
      }
      var retryWindow := RetryWindowFor(c.maxAttempts);
      var worst := c.outboxMaxAge;
      var alt := Wrap(retryWindow + c.deadLetterTtl);
      if alt > worst {
        worst := alt;
      }
      if worst >= Retention(c) {
        return Some(LifetimeTooLong);
      }
    }
    if c.outboxMaxRows == 0 {
      return Some(ZeroRows);
    }
    return None;
  }

  // ----- what is given -----

  /**
   * What is given and positive is kept; what is zero becomes the documented default, as does what is
   * negative of the counts and the lease; a negative clock and a negative cap stay as they are.
   */
  lemma DefaultsExactly(given: Config)
    ensures var c := Defaults(given);
      && c.workers == (if given.workers > 0 then given.workers else 3)
      && c.batchSize == (if given.batchSize > 0 then given.batchSize else 50)
      && c.maxAttempts == (if given.maxAttempts > 0 then given.maxAttempts else 10)
      && c.claimLease == (if given.claimLease > 0 then given.claimLease else 600 * SECOND)
      && (given.outboxMaxAge != 0 ==> c.outboxMaxAge == given.outboxMaxAge)
      && (given.outboxMaxAge == 0 ==> c.outboxMaxAge == 7 * 86400 * SECOND)
      && (given.deadLetterTtl != 0 ==> c.deadLetterTtl == given.deadLetterTtl)
      && (given.deadLetterTtl == 0 ==> c.deadLetterTtl == 7 * 86400 * SECOND)
      && c.outboxMaxRows == (if given.outboxMaxRows == 0 then 100000 else given.outboxMaxRows)
      && (c.retentionDays > 0 <==> given.retentionDays > 0) && (given.retentionDays > 0 ==> c.retentionDays == given.retentionDays)
    ensures Defaults(Defaults(given)) == Defaults(given)
  {}

  /**
   * Over what is given: a lease below a minute, and under a finite retention a negative clock, is
   * always refused; a clock left at zero is one of seven days.
   */
  lemma GivenIsChecked(given: Config, sinks: seq<Sink>)
    ensures 0 < given.claimLease < 60 * SECOND ==> !Accepted(Defaults(given), sinks)
    ensures given.retentionDays > 0 && (given.outboxMaxAge < 0 || given.deadLetterTtl < 0) ==> !Accepted(Defaults(given), sinks)
    ensures given.outboxMaxAge == 0 ==>
      (Accepted(Defaults(given), sinks) <==> Accepted(Defaults(given.(outboxMaxAge := 7 * 86400 * SECOND)), sinks))
    ensures given.deadLetterTtl == 0 ==>
      (Accepted(Defaults(given), sinks) <==> Accepted(Defaults(given.(deadLetterTtl := 7 * 86400 * SECOND)), sinks))
    ensures given.retentionDays <= 0 && sinks == [] ==> (Accepted(Defaults(given), sinks) <==> !(0 < given.claimLease < 60 * SECOND))
  {
    DefaultsExactly(given);
    DefaultsExactly(given.(outboxMaxAge := 7 * 86400 * SECOND));
    DefaultsExactly(given.(deadLetterTtl := 7 * 86400 * SECOND));
  }

  // ----- retention -----

  predicate InRange(c: Config) {
    && -MAX - 1 <= c.outboxMaxAge <= MAX && -MAX - 1 <= c.deadLetterTtl <= MAX && c.claimLease <= MAX
    && 0 <= c.maxAttempts <= MAX && c.retentionDays <= MAX
  }

  /** The longest a row can live on schedule. */
  function Lifetime(c: Config): int
    requires c.maxAttempts >= 0
  {
    var alt := Backoffs(0, c.maxAttempts) + c.deadLetterTtl;
    if alt > c.outboxMaxAge then alt else c.outboxMaxAge
  }

  lemma RetentionBelowExact(c: Config)
    requires c.retentionDays >= 0
    ensures Retention(c) <= c.retentionDays * DAY
    ensures c.retentionDays * DAY <= MAX ==> Retention(c) == c.retentionDays * DAY
  {}

  /** Whether the retry window and the evidence window fit a 64-bit duration together. */
  predicate WindowsFit(c: Config)
    requires c.maxAttempts >= 0
  {
    Backoffs(0, c.maxAttempts) + c.deadLetterTtl <= MAX
  }

  /**
   * An accepted configuration keeps every row's scheduled lifetime below retention if its windows
   * fit 64 bits; for a retention that fits itself, exactly then.
   */
  lemma AcceptedLifetime(c: Config, sinks: seq<Sink>)
    requires InRange(c) && Accepted(c, sinks) && c.retentionDays > 0
    ensures WindowsFit(c) ==> Lifetime(c) < c.retentionDays * DAY
    ensures c.retentionDays * DAY <= MAX ==> (Lifetime(c) < c.retentionDays * DAY <==> WindowsFit(c))
  {}

  /** The retry window of ten attempts: two hours, twenty-five minutes and ten seconds. */
  lemma DefaultRetryWindow()
    ensures Backoffs(0, 10) == 8710 * SECOND
  {
    assert Backoff(0) == 10 * SECOND && Backoff(1) == 20 * SECOND && Backoff(2) == 40 * SECOND;
    assert Backoff(3) == 80 * SECOND && Backoff(4) == 160 * SECOND && Backoff(5) == 320 * SECOND;
    assert Backoff(6) == 640 * SECOND && Backoff(7) == 1280 * SECOND && Backoff(8) == 2560 * SECOND;
    assert Backoff(9) == MAX_BACKOFF;
    assert Backoffs(8, 10) == 2560 * SECOND + MAX_BACKOFF;
    assert Backoffs(6, 10) == 640 * SECOND + 1280 * SECOND + Backoffs(8, 10);
    assert Backoffs(4, 10) == 160 * SECOND + 320 * SECOND + Backoffs(6, 10);
    assert Backoffs(2, 10) == 40 * SECOND + 80 * SECOND + Backoffs(4, 10);
  }

  /** An evidence window near the top of the range overflows the check and is accepted under any retention. */
  lemma OverflowAccepted()
    ensures var c := Defaults(Config(0, 0, 0, 30, 0, 0, 0, MAX, 0));
      InRange(c) && Accepted(c, []) && !WindowsFit(c) && Lifetime(c) >= c.retentionDays * DAY
  {
    DefaultRetryWindow();
    RetentionBelowExact(Defaults(Config(0, 0, 0, 30, 0, 0, 0, MAX, 0)));
  }

  // ----- leases -----

  datatype Webhook = Webhook(timeout: nat, wait: nat, retries: nat)

  predicate ValidHook(hook: Webhook) { 0 < hook.timeout <= MAX && ValidWebhook(hook.wait, hook.retries) }

  /** What a webhook declares, which MaxBatchDeliveryTime computes. */
  function HookSink(hook: Webhook): Sink {
    Declared(batch => if batch > 0 then (Min(MAX, WorstBatch(batch, hook.timeout, hook.wait, hook.retries)), true) else (0, false))
  }

  function HookSinks(hooks: seq<Webhook>): (r: seq<Sink>)
    ensures |r| == |hooks|
    ensures forall i :: 0 <= i < |hooks| ==> r[i] == HookSink(hooks[i])
  {
    seq(|hooks|, i requires 0 <= i < |hooks| => HookSink(hooks[i]))
  }

  /** The worst case of delivering one batch to the sinks in turn. */
  function WorstOfAll(hooks: seq<Webhook>, batch: nat): nat {
    if hooks == [] then 0 else WorstBatch(batch, hooks[0].timeout, hooks[0].wait, hooks[0].retries) + WorstOfAll(hooks[1..], batch)
  }

  /** The responses each sink gives to the batch. */
  predicate AllResponses(hooks: seq<Webhook>, runs: seq<seq<seq<Attempt>>>, batch: nat) {
    && |runs| == |hooks|
    && forall i :: 0 <= i < |hooks| ==> Responses(hooks[i].timeout, hooks[i].retries, runs[i]) && |runs[i]| <= batch
  }

  /** How long the batch is being delivered: sink after sink, up to a failure if delivery fails closed. */
  function DeliveryTime(hooks: seq<Webhook>, runs: seq<seq<seq<Attempt>>>, failClosed: bool): nat
    requires |runs| == |hooks|
  {
    if hooks == [] then 0
    else
      var one := BatchFrom(hooks[0].wait, runs[0], 0);
      if failClosed && !one.0 then one.1 else one.1 + DeliveryTime(hooks[1..], runs[1..], failClosed)
  }

  lemma {:induction false} DeliveryTimeBound(hooks: seq<Webhook>, runs: seq<seq<seq<Attempt>>>, failClosed: bool, batch: nat)
    requires AllResponses(hooks, runs, batch) && forall i :: 0 <= i < |hooks| ==> ValidHook(hooks[i])
    ensures DeliveryTime(hooks, runs, failClosed) <= WorstOfAll(hooks, batch)
  {
    if hooks != [] {
      BatchBound(hooks[0].timeout, hooks[0].wait, hooks[0].retries, runs[0], batch);
      DeliveryTimeBound(hooks[1..], runs[1..], failClosed, batch);
    }
  }

  /** If the worst cases of all sinks together are below the lease, no run of a batch outlasts its lease. */
  lemma LeaseCoversDelivery(c: Config, hooks: seq<Webhook>, runs: seq<seq<seq<Attempt>>>, failClosed: bool)
    requires c.batchSize > 0 && AllResponses(hooks, runs, c.batchSize) && forall i :: 0 <= i < |hooks| ==> ValidHook(hooks[i])
    requires WorstOfAll(hooks, c.batchSize) < c.claimLease
    ensures DeliveryTime(hooks, runs, failClosed) < c.claimLease
  {
    DeliveryTimeBound(hooks, runs, failClosed, c.batchSize);
  }

  lemma OneSinkWithinLease(c: Config, hook: Webhook)
    requires c.batchSize > 0 && InRange(c) && Accepted(c, HookSinks([hook])) && ValidHook(hook)
    ensures WorstOfAll([hook], c.batchSize) < c.claimLease
  {
    assert SinkFits(c, HookSinks([hook])[0]);
    assert WorstOfAll([hook], c.batchSize) == WorstBatch(c.batchSize, hook.timeout, hook.wait, hook.retries);
  }

  /** With one sink, acceptance is enough. */
  lemma OneSinkNeverOutlastsLease(c: Config, hook: Webhook, run: seq<seq<Attempt>>, failClosed: bool)
    requires c.batchSize > 0 && InRange(c) && Accepted(c, HookSinks([hook])) && ValidHook(hook)
    requires AllResponses([hook], [run], c.batchSize)
    ensures DeliveryTime([hook], [run], failClosed) < c.claimLease
  {
    OneSinkWithinLease(c, hook);
    LeaseCoversDelivery(c, [hook], [run], failClosed);
  }

  // ----- the worst case is reached -----

  /** Every sink answers each event only at the last attempt, each attempt taking its whole timeout. */
  function SlowestRuns(hooks: seq<Webhook>, batch: nat): seq<seq<seq<Attempt>>> {
    if hooks == [] then [] else [SlowestRun(hooks[0].timeout, hooks[0].retries, batch)] + SlowestRuns(hooks[1..], batch)
  }

  lemma {:induction false} SlowestRunsReach(c: Config, hooks: seq<Webhook>, failClosed: bool)
    requires c.batchSize > 0 && InRange(c) && forall i :: 0 <= i < |hooks| ==> ValidHook(hooks[i]) && SinkFits(c, HookSink(hooks[i]))
    ensures AllResponses(hooks, SlowestRuns(hooks, c.batchSize), c.batchSize)
    ensures DeliveryTime(hooks, SlowestRuns(hooks, c.batchSize), failClosed) == WorstOfAll(hooks, c.batchSize)
  {
    if hooks != [] {
      var hook, runs := hooks[0], SlowestRuns(hooks, c.batchSize);
      assert WorstBatch(c.batchSize, hook.timeout, hook.wait, hook.retries) <= MAX by {
        assert SinkFits(c, HookSink(hook));
      }
      SlowestRunReaches(hook.timeout, hook.wait, hook.retries, c.batchSize);
      SlowestRunsReach(c, hooks[1..], failClosed);
      assert runs[0] == SlowestRun(hook.timeout, hook.retries, c.batchSize) && runs[1..] == SlowestRuns(hooks[1..], c.batchSize);
      assert forall i :: 1 <= i < |hooks| ==> hooks[i] == hooks[1..][i - 1] && runs[i] == runs[1..][i - 1];
    }
  }

  /** Every delivery stays within the lease, whatever the sinks answer and in either failure mode. */
  ghost predicate NeverOutlasts(c: Config, hooks: seq<Webhook>)
    requires c.batchSize > 0
  {
    forall runs, failClosed: bool :: AllResponses(hooks, runs, c.batchSize) ==> DeliveryTime(hooks, runs, failClosed) < c.claimLease
  }

  /** Under an accepted configuration, deliveries stay within the lease exactly when the worst cases together do. */
  lemma LeaseCoversExactly(c: Config, hooks: seq<Webhook>)
    requires c.batchSize > 0 && InRange(c) && Accepted(c, HookSinks(hooks)) && forall i :: 0 <= i < |hooks| ==> ValidHook(hooks[i])
    ensures NeverOutlasts(c, hooks) <==> WorstOfAll(hooks, c.batchSize) < c.claimLease
  {
    assert forall i :: 0 <= i < |hooks| ==> SinkFits(c, HookSinks(hooks)[i]);
    SlowestRunsReach(c, hooks, false);
    if WorstOfAll(hooks, c.batchSize) < c.claimLease {
      forall runs, failClosed: bool | AllResponses(hooks, runs, c.batchSize)
        ensures DeliveryTime(hooks, runs, failClosed) < c.claimLease
      {
        LeaseCoversDelivery(c, hooks, runs, failClosed);
      }
    }
  }

  /** With two it is not: each fits the lease, and one after the other they outlast it. */
  lemma TwoSinksOutlastLease()
    ensures var c := Defaults(Config(0, 1, 0, 0, 0, MINUTE, 0, 0, 0));
      var hook := Webhook(40 * SECOND, 0, 0);
      var run := [[Attempt(40 * SECOND, Transient, None)]];
      && ValidHook(hook) && Accepted(c, HookSinks([hook, hook]))
      && AllResponses([hook, hook], [run, run], c.batchSize)
      && DeliveryTime([hook, hook], [run, run], false) > c.claimLease
  {}
}
