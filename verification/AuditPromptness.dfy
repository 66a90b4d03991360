/**
 * What punctual calls guarantee: claims made within their lease are never taken over uncounted,
 * calls that settle within their lease never lose a row, and a validated configuration with one
 * sink delivers within the lease.
 */
module AuditPromptness {
  import opened Outcomes
  import opened AuditOutbox
  import opened AuditDelivery
  import opened AuditLeases
  import AuditClocks
  import AuditConfig

  // ----- claims made within their lease -----

  /** The clock goes forward, a call reads it before its SELECT, and claims within a lease of that. */
  predicate ClaimsInTime(c: Settings, w: World, clock: int, time: int, e: Event)
    requires Fits(c, w, e)
  {
    && clock <= time
    && (e.Select? ==> e.now <= time)
    && (e.Cas? ==> time <= w.flights[e.token].at + c.lease)
  }

  predicate AllClaimsInTime(c: Settings, w: World, clock: int, times: seq<int>, events: seq<Event>)
    requires Possible(c, w, events) && |times| == |events|
    decreases events
  {
    events != [] ==>
      ClaimsInTime(c, w, clock, times[0], events[0]) && AllClaimsInTime(c, Step(c, w, events[0]), times[0], times[1..], events[1..])
  }

  predicate DistinctCandidates(left: seq<Candidate>) { forall i, j :: 0 <= i < j < |left| ==> left[i].id != left[j].id }

  /** The claim that a candidate seen unclaimed has got since, if any, is not older than the cutoff. */
  predicate SeenFresh(rows: Rows, cutoff: int, candidate: Candidate) {
    !candidate.claimed && candidate.id in rows && rows[candidate.id].claim.Some? ==> rows[candidate.id].claim.value.at >= cutoff
  }

  predicate FreshCandidates(c: Settings, w: World, clock: int, token: string)
    requires token in w.flights && w.flights[token].Claiming?
  {
    var f := w.flights[token];
    f.cutoff + c.lease <= clock && DistinctCandidates(f.left) && forall i :: 0 <= i < |f.left| ==> SeenFresh(w.rows, f.cutoff, f.left[i])
  }

  predicate AllFresh(c: Settings, w: World, clock: int) {
    forall token :: token in w.flights && w.flights[token].Claiming? ==> FreshCandidates(c, w, clock, token)
  }

  lemma FreshNeverSilent(c: Settings, w: World, clock: int, e: Event)
    requires AllFresh(c, w, clock) && Fits(c, w, e)
    ensures !TakesSilently(w, e)
  {
    if e.Cas? {
      assert SeenFresh(w.rows, w.flights[e.token].cutoff, w.flights[e.token].left[0]);
    }
  }

  /** Claims are gone or as before. */
  predicate NoNewClaims(rows: Rows, later: Rows) {
    forall id :: id in later && later[id].claim.Some? ==> id in rows && rows[id].claim == later[id].claim
  }

  lemma OthersStayFresh(c: Settings, w: World, later: World, clock: int, time: int)
    requires AllFresh(c, w, clock) && clock <= time && NoNewClaims(w.rows, later.rows)
    requires forall token :: token in later.flights && later.flights[token].Claiming? ==>
      token in w.flights && w.flights[token] == later.flights[token]
    ensures AllFresh(c, later, time)
  {
    forall token | token in later.flights && later.flights[token].Claiming?
      ensures FreshCandidates(c, later, time, token)
    {
      assert FreshCandidates(c, w, clock, token);
    }
  }

  lemma SelectedFresh(c: Settings, w: World, clock: int, time: int, token: string, now: int, at: int, ids: seq<string>)
    requires AllFresh(c, w, clock) && Fits(c, w, Select(token, now, at, ids)) && clock <= time && now <= time
    ensures AllFresh(c, Selected(c, w, token, now, at, ids), time)
  {
    var later := Selected(c, w, token, now, at, ids);
    forall other | other in later.flights && later.flights[other].Claiming?
      ensures FreshCandidates(c, later, time, other)
    {
      if other != token {
        assert FreshCandidates(c, w, clock, other);
      }
    }
  }

  lemma CasingFresh(c: Settings, w: World, clock: int, time: int, token: string, fault: Fault)
    requires AllFresh(c, w, clock) && Fits(c, w, Cas(token, fault)) && ClaimsInTime(c, w, clock, time, Cas(token, fault))
    ensures AllFresh(c, Casing(w, token, fault), time)
  {
    var later := Casing(w, token, fault);
    forall other | other in later.flights && later.flights[other].Claiming?
      ensures FreshCandidates(c, later, time, other)
    {
      assert FreshCandidates(c, w, clock, other);
      CasingFreshFor(c, w, clock, time, token, fault, other);
    }
  }

  lemma CasingFreshFor(c: Settings, w: World, clock: int, time: int, token: string, fault: Fault, other: string)
    requires Fits(c, w, Cas(token, fault)) && ClaimsInTime(c, w, clock, time, Cas(token, fault))
    requires other in w.flights && w.flights[other].Claiming? && FreshCandidates(c, w, clock, other)
    requires other in Casing(w, token, fault).flights
    ensures FreshCandidates(c, Casing(w, token, fault), time, other)
  {
    var later := Casing(w, token, fault);
    var before, after := w.flights[other].left, later.flights[other].left;
    var shift := if other == token then 1 else 0;
    assert after == before[shift..];
    forall i | 0 <= i < |after|
      ensures SeenFresh(later.rows, later.flights[other].cutoff, after[i])
    {
      assert after[i] == before[i + shift] && SeenFresh(w.rows, w.flights[other].cutoff, before[i + shift]);
    }
    forall i, j | 0 <= i < j < |after|
      ensures after[i].id != after[j].id
    {
      assert after[i] == before[i + shift] && after[j] == before[j + shift];
    }
  }

  lemma StepFresh(c: Settings, w: World, clock: int, time: int, e: Event)
    requires AllFresh(c, w, clock) && Fits(c, w, e) && ClaimsInTime(c, w, clock, time, e)
    ensures AllFresh(c, Step(c, w, e), time)
  {
    if e.Select? {
      SelectedFresh(c, w, clock, time, e.token, e.now, e.at, e.ids);
    } else if e.Cas? {
      CasingFresh(c, w, clock, time, e.token, e.fault);
    } else if ByJanitor(e) {
      JanitorOnlyRemoves(c, w, e);
      OthersStayFresh(c, w, Step(c, w, e), clock, time);
    } else if e.Settle? {
      ResolvingReleases(c, w, e.token, e.now, e.fault);
      OthersStayFresh(c, w, Step(c, w, e), clock, time);
    } else {
      OthersStayFresh(c, w, Step(c, w, e), clock, time);
    }
  }

  lemma {:induction false} InTimeNeverSilent(c: Settings, w: World, clock: int, times: seq<int>, events: seq<Event>)
    requires AllFresh(c, w, clock) && Possible(c, w, events) && |times| == |events| && AllClaimsInTime(c, w, clock, times, events)
    ensures NothingSilent(c, w, events)
    decreases events
  {
    if events != [] {
      FreshNeverSilent(c, w, clock, events[0]);
      StepFresh(c, w, clock, times[0], events[0]);
      InTimeNeverSilent(c, Step(c, w, events[0]), times[0], times[1..], events[1..]);
    }
  }

  /** If every claim is made within a lease of its call's reading of the clock, two holders are always counted. */
  lemma DuplicatesCounted(c: Settings, clock: int, times: seq<int>, events: seq<Event>)
    requires Possible(c, Start(), events) && |times| == |events| && AllClaimsInTime(c, Start(), clock, times, events)
    ensures Final(c, Start(), events).counters.duplicated == 0 ==> OneHolder(Final(c, Start(), events))
  {
    InTimeNeverSilent(c, Start(), clock, times, events);
    if Final(c, Start(), events).counters.duplicated == 0 {
      OneHolderUntilCounted(c, events);
    }
  }

  // ----- calls that settle within their lease -----

  /** The call has the row: it has won it, or read it back and not settled it. */
  predicate Keeps(w: World, token: string, id: string) {
    token in w.flights
    && if w.flights[token].Claiming? then id in w.flights[token].won else id in BatchIds(w.flights[token].rows)
  }

  /** The claims of rows with records belong to calls in the air. */
  predicate ClaimsInFlight(w: World) {
    forall id :: id in w.rows && id in w.records && w.rows[id].claim.Some? ==>
      Keeps(w, w.rows[id].claim.value.token, id) && w.flights[w.rows[id].claim.value.token].at == w.rows[id].claim.value.at
  }

  predicate FlagsOrphans(w: World, f: Flight)
    requires f.Claiming?
  {
    && (forall i :: 0 <= i < |f.left| ==> f.left[i].id in w.ledger.used && (f.left[i].claimed ==> f.left[i].id !in w.records))
    && (forall id :: id in f.won ==> id in w.ledger.used && (f.won[id] ==> id !in w.records))
  }

  /** A call sees a row as claimed only if the row has lost its record, so it will not be read back. */
  predicate OnlyOrphansFlagged(w: World) {
    forall token :: token in w.flights && w.flights[token].Claiming? ==> FlagsOrphans(w, w.flights[token])
  }

  /** Nothing fails half-way, and nobody selects while a call is older than its lease. */
  predicate Prompt(c: Settings, w: World, e: Event) {
    match e
    case Select(_, now, _, _) => forall token :: token in w.flights ==> now - c.lease <= w.flights[token].at
    case Cas(_, fault) => fault.Fine?
    case ReadBack(_, _, fault) => fault.Fine?
    case Settle(_, _, fault) => fault.Fine?
    case Crash(_) => false
    case _ => true
  }

  ghost predicate Orderly(w: World) { Tidy(w) && ClaimsInFlight(w) && OnlyOrphansFlagged(w) }

  lemma SelectedOrderly(c: Settings, w: World, token: string, now: int, at: int, ids: seq<string>)
    requires Orderly(w) && Fits(c, w, Select(token, now, at, ids)) && Prompt(c, w, Select(token, now, at, ids))
    ensures ClaimsInFlight(Selected(c, w, token, now, at, ids)) && OnlyOrphansFlagged(Selected(c, w, token, now, at, ids))
  {
    var later := Selected(c, w, token, now, at, ids);
    assert forall id :: id in w.rows && id in w.records && w.rows[id].claim.Some? ==> Keeps(later, w.rows[id].claim.value.token, id);
    assert FlagsOrphans(later, later.flights[token]);
    assert forall other :: other in later.flights && later.flights[other].Claiming? && other != token ==> FlagsOrphans(w, w.flights[other]);
  }

  lemma CasingInFlight(w: World, token: string)
    requires Orderly(w) && token in w.flights && w.flights[token].Claiming? && w.flights[token].left != []
    ensures ClaimsInFlight(Casing(w, token, Fine))
  {
    var later := Casing(w, token, Fine);
    assert forall other, id :: Keeps(w, other, id) ==> Keeps(later, other, id);
  }

  lemma CasingFlags(w: World, token: string)
    requires Orderly(w) && token in w.flights && w.flights[token].Claiming? && w.flights[token].left != []
    ensures OnlyOrphansFlagged(Casing(w, token, Fine))
  {
    var later := Casing(w, token, Fine);
    var before, after := w.flights[token].left, later.flights[token].left;
    assert FlagsOrphans(w, w.flights[token]) && forall i :: 0 <= i < |after| ==> after[i] == before[i + 1];
    assert FlagsOrphans(later, later.flights[token]);
  }

  lemma ReadingOrderly(w: World, token: string, ids: seq<string>)
    requires Orderly(w) && token in w.flights && w.flights[token].Claiming?
    requires Distinct(ids) && Members(ids) == Owned(w.rows, w.records, token)
    ensures var later := Reading(w, token, ids, Fine);
      && ClaimsInFlight(later) && OnlyOrphansFlagged(later) && later.counters.duplicated == w.counters.duplicated
  {
    var later := Reading(w, token, ids, Fine);
    var f := w.flights[token];
    ReadingHolds(w, token, ids, Fine);
    assert forall i :: 0 <= i < |ids| ==> ids[i] in Members(ids);
    BatchOf(w.rows, ids, f.won);
    assert FlagsOrphans(w, f);
    assert !AnyStolen(Batch(w.rows, ids, f.won));
    forall id | id in later.rows && id in later.records && later.rows[id].claim.Some?
      ensures Keeps(later, later.rows[id].claim.value.token, id)
    {
      assert Keeps(w, w.rows[id].claim.value.token, id);
      if Carries(w, id, token) {
        assert id in Members(ids) && id in f.won && Batch(w.rows, ids, f.won) != [];
      }
    }
  }

  lemma ResolvingOrderly(c: Settings, w: World, token: string, now: int)
    requires Orderly(w) && Fits(c, w, Settle(token, now, Fine))
    ensures ClaimsInFlight(Resolving(c, w, token, now, Fine)) && OnlyOrphansFlagged(Resolving(c, w, token, now, Fine))
  {
    var later := Resolving(c, w, token, now, Fine);
    var batch := w.flights[token].rows;
    ResolvingReleases(c, w, token, now, Fine);
    RestOfBatch(batch);
    ReleasesDone(c, w, token, now);
    assert forall other :: other in later.flights && later.flights[other].Claiming? ==> FlagsOrphans(w, w.flights[other]);
    forall id | id in later.rows && id in later.records && later.rows[id].claim.Some?
      ensures Keeps(later, later.rows[id].claim.value.token, id) && later.flights[later.rows[id].claim.value.token].at == later.rows[id].claim.value.at
    {
      assert id != batch[0].id && Keeps(w, w.rows[id].claim.value.token, id);
    }
  }

  lemma ReleasesDone(c: Settings, w: World, token: string, now: int)
    requires Fits(c, w, Settle(token, now, Fine))
    ensures var later := Resolving(c, w, token, now, Fine);
      var done := w.flights[token].rows[0].id;
      done in later.rows ==> later.rows[done].claim.None?
  {}

  lemma HandingOrderly(w: World, token: string, results: seq<bool>)
    requires Orderly(w) && token in w.flights && w.flights[token].Delivering?
    ensures ClaimsInFlight(Handing(w, token, results)) && OnlyOrphansFlagged(Handing(w, token, results))
  {
    var later := Handing(w, token, results);
    assert forall other, id :: Keeps(w, other, id) ==> Keeps(later, other, id);
    assert forall other :: other in later.flights && later.flights[other].Claiming? ==> FlagsOrphans(w, w.flights[other]);
  }

  lemma FewerRowsOrderly(w: World, later: World)
    requires Orderly(w) && OnlyRemoves(w, later)
    ensures ClaimsInFlight(later) && OnlyOrphansFlagged(later)
  {
    assert forall other, id :: Keeps(w, other, id) ==> Keeps(later, other, id);
    assert forall other :: other in later.flights && later.flights[other].Claiming? ==> FlagsOrphans(w, w.flights[other]);
  }

  lemma EnqueuedOrderly(w: World, id: string, priority: int, now: int)
    requires Orderly(w) && id !in w.ledger.used
    ensures ClaimsInFlight(Enqueued(w, id, priority, now)) && OnlyOrphansFlagged(Enqueued(w, id, priority, now))
  {
    var later := Enqueued(w, id, priority, now);
    assert forall other, i :: Keeps(w, other, i) ==> Keeps(later, other, i);
    assert forall other :: other in later.flights && later.flights[other].Claiming? ==> FlagsOrphans(w, w.flights[other]);
  }

  lemma WorkerOrderly(c: Settings, w: World, e: Event)
    requires Orderly(w) && FitsWorker(c, w, e) && Prompt(c, w, e)
    ensures var later := WorkerStep(c, w, e);
      ClaimsInFlight(later) && OnlyOrphansFlagged(later) && later.counters.duplicated == w.counters.duplicated
  {
    match e
    case Select(token, now, at, ids) => SelectedOrderly(c, w, token, now, at, ids);
    case Cas(token, _) =>
      CasingInFlight(w, token);
      CasingFlags(w, token);
    case ReadBack(token, ids, _) => ReadingOrderly(w, token, ids);
    case Deliver(token, results) => HandingOrderly(w, token, results);
    case Settle(token, now, _) =>
      ResolvingReleases(c, w, token, now, Fine);
      ResolvingOrderly(c, w, token, now);
  }

  lemma StepOrderly(c: Settings, w: World, e: Event)
    requires Orderly(w) && Fits(c, w, e) && Prompt(c, w, e)
    ensures Orderly(Step(c, w, e)) && Step(c, w, e).counters.duplicated == w.counters.duplicated
  {
    StepStaysTidy(c, w, e);
    if e.Enqueue? {
      EnqueuedOrderly(w, e.id, e.priority, e.now);
    } else if ByJanitor(e) {
      JanitorOnlyRemoves(c, w, e);
      FewerRowsOrderly(w, Step(c, w, e));
    } else if FitsWorker(c, w, e) {
      WorkerOrderly(c, w, e);
    } else {
      FewerRowsOrderly(w, Step(c, w, e));
    }
  }

  predicate AllPrompt(c: Settings, w: World, events: seq<Event>)
    requires Possible(c, w, events)
    decreases events
  {
    events == [] || (Prompt(c, w, events[0]) && AllPrompt(c, Step(c, w, events[0]), events[1..]))
  }

  lemma {:induction false} PromptRun(c: Settings, w: World, events: seq<Event>)
    requires Orderly(w) && Possible(c, w, events) && AllPrompt(c, w, events)
    ensures Final(c, w, events).counters.duplicated == w.counters.duplicated
    decreases events
  {
    if events != [] {
      StepOrderly(c, w, events[0]);
      PromptRun(c, Step(c, w, events[0]), events[1..]);
    }
  }

  /** While calls claim and settle within their leases, no duplicate is counted and no obligation ever has two holders. */
  lemma PromptRunsNeverSteal(c: Settings, clock: int, times: seq<int>, events: seq<Event>)
    requires Possible(c, Start(), events) && AllPrompt(c, Start(), events)
    requires |times| == |events| && AllClaimsInTime(c, Start(), clock, times, events)
    ensures Final(c, Start(), events).counters.duplicated == 0 && OneHolder(Final(c, Start(), events))
  {
    PromptRun(c, Start(), events);
    DuplicatesCounted(c, clock, times, events);
  }

  // ----- a validated configuration -----

  /** The call is no older than some delivery of a batch to the sinks takes. */
  ghost predicate BeingDelivered(hooks: seq<AuditConfig.Webhook>, failClosed: bool, batch: nat, at: int, now: int) {
    exists runs :: AuditConfig.AllResponses(hooks, runs, batch) && now - at <= AuditConfig.DeliveryTime(hooks, runs, failClosed)
  }

  /** Nothing fails half-way, and a call is in the air only while its batch is being delivered. */
  ghost predicate SettledAtOnce(c: Settings, w: World, hooks: seq<AuditConfig.Webhook>, failClosed: bool, e: Event) {
    if e.Select? then forall token :: token in w.flights ==> BeingDelivered(hooks, failClosed, c.batchSize, w.flights[token].at, e.now)
    else Prompt(c, w, e)
  }

  ghost predicate AllSettledAtOnce(c: Settings, w: World, hooks: seq<AuditConfig.Webhook>, failClosed: bool, events: seq<Event>)
    requires Possible(c, w, events)
    decreases events
  {
    events != [] ==>
      SettledAtOnce(c, w, hooks, failClosed, events[0]) && AllSettledAtOnce(c, Step(c, w, events[0]), hooks, failClosed, events[1..])
  }

  lemma {:induction false} SettledAtOnceIsPrompt(c: Settings, w: World, hooks: seq<AuditConfig.Webhook>, failClosed: bool, events: seq<Event>)
    requires Possible(c, w, events) && AllSettledAtOnce(c, w, hooks, failClosed, events)
    requires forall i :: 0 <= i < |hooks| ==> AuditConfig.ValidHook(hooks[i])
    requires AuditConfig.WorstOfAll(hooks, c.batchSize) <= c.lease
    ensures AllPrompt(c, w, events)
    decreases events
  {
    if events != [] {
      if events[0].Select? {
        forall token | token in w.flights
          ensures events[0].now - c.lease <= w.flights[token].at
        {
          DeliveryWithin(hooks, failClosed, c.batchSize, w.flights[token].at, events[0].now);
        }
      }
      SettledAtOnceIsPrompt(c, Step(c, w, events[0]), hooks, failClosed, events[1..]);
    }
  }

  lemma DeliveryWithin(hooks: seq<AuditConfig.Webhook>, failClosed: bool, batch: nat, at: int, now: int)
    requires BeingDelivered(hooks, failClosed, batch, at, now)
    requires forall i :: 0 <= i < |hooks| ==> AuditConfig.ValidHook(hooks[i])
    ensures now - at <= AuditConfig.WorstOfAll(hooks, batch)
  {
    var runs :| AuditConfig.AllResponses(hooks, runs, batch) && now - at <= AuditConfig.DeliveryTime(hooks, runs, failClosed);
    AuditConfig.DeliveryTimeBound(hooks, runs, failClosed, batch);
  }

  /**
   * With a validated configuration and one sink: while every call settles as soon as its batch is
   * delivered, no obligation is claimed away during its delivery, over any run.
   */
  lemma ValidatedSinkNeverLosesRows(config: AuditConfig.Config, c: Settings, hook: AuditConfig.Webhook, failClosed: bool,
                                    clock: int, times: seq<int>, events: seq<Event>)
    requires config.batchSize > 0 && AuditConfig.InRange(config) && AuditConfig.ValidHook(hook)
    requires AuditConfig.Accepted(config, AuditConfig.HookSinks([hook]))
    requires c.lease == config.claimLease && c.batchSize == config.batchSize
    requires Possible(c, Start(), events) && AllSettledAtOnce(c, Start(), [hook], failClosed, events)
    requires |times| == |events| && AllClaimsInTime(c, Start(), clock, times, events)
    ensures Final(c, Start(), events).counters.duplicated == 0 && OneHolder(Final(c, Start(), events))
  {
    AuditConfig.OneSinkWithinLease(config, hook);
    SettledAtOnceIsPrompt(c, Start(), [hook], failClosed, events);
    PromptRunsNeverSteal(c, clock, times, events);
  }
}
