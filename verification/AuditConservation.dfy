/**
 * What becomes of every audit obligation: delivered after all sinks accepted it, dropped and
 * counted, orphaned and counted, or still queued; and exactly which steps make the counters count
 * too little, too much or under the wrong name.
 */
module AuditConservation {
  import opened Outcomes
  import opened AuditOutbox
  import opened AuditDelivery

  // ----- the balance -----

  /** Rows the janitor has removed and not yet reported. */
  function InHand(j: Janitor): nat {
    match j
    case SheddingDead(_, _, deadShed) => deadShed
    case SheddingOldest(_, deadShed, pendingShed) => deadShed + pendingShed
    case Purging(_, removed, _) => removed
    case _ => 0
  }

  predicate Balanced(w: World) {
    && w.ledger.inserted + w.ledger.overcounted
       == w.ledger.delivered + |w.rows| + w.counters.dropped + w.counters.orphaned + w.ledger.leaked + InHand(w.janitor)
    && w.counters.dropped + w.ledger.misreported == w.ledger.deadCounted + w.counters.pendingDropped
    && w.rows.Keys <= w.ledger.used
    && (w.janitor.Sweeping? ==> w.janitor.pending !! w.janitor.dead)
  }

  lemma SameKeysCount(a: Rows, b: Rows)
    requires a.Keys == b.Keys
    ensures |a| == |b|
  {}

  lemma WithoutOne(rows: Rows, id: string)
    ensures (rows - {id}).Keys == rows.Keys - {id} && |rows - {id}| + CountIf(id in rows, 1) == |rows|
  {}

  lemma SuccessBalances(c: Settings, w: World, token: string, now: int, fault: Fault)
    requires Balanced(w) && Fits(c, w, Settle(token, now, fault)) && w.flights[token].accepted
    ensures Balanced(Resolving(c, w, token, now, fault))
  {
    WithoutOne(w.rows, w.flights[token].rows[0].id);
  }

  /** Neither rows nor counts that matter have changed. */
  lemma SameBalance(w: World, later: World)
    requires Balanced(w) && later.ledger == w.ledger && later.janitor == w.janitor && later.rows.Keys == w.rows.Keys
    requires later.counters == w.counters.(deadLettered := later.counters.deadLettered, duplicated := later.counters.duplicated)
    ensures Balanced(later)
  {
    SameKeysCount(later.rows, w.rows);
  }

  lemma ResolvingBalances(c: Settings, w: World, token: string, now: int, fault: Fault)
    requires Balanced(w) && Fits(c, w, Settle(token, now, fault))
    ensures Balanced(Resolving(c, w, token, now, fault))
  {
    if w.flights[token].accepted {
      SuccessBalances(c, w, token, now, fault);
    } else {
      SameBalance(w, Resolving(c, w, token, now, fault));
    }
  }

  lemma CasingBalances(w: World, token: string, fault: Fault)
    requires Balanced(w) && token in w.flights && w.flights[token].Claiming? && w.flights[token].left != []
    ensures Balanced(Casing(w, token, fault))
  {
    var f := w.flights[token];
    if f.left[0].id in w.rows {
      SameKeysCount(Taken(w.rows, f.left[0].id, Claim(token, f.at)), w.rows);
    }
  }

  lemma WorkerBalances(c: Settings, w: World, e: Event)
    requires Balanced(w) && FitsWorker(c, w, e)
    ensures Balanced(WorkerStep(c, w, e))
  {
    if e.Cas? {
      CasingBalances(w, e.token, e.fault);
    } else if e.Settle? {
      ResolvingBalances(c, w, e.token, e.now, e.fault);
    }
  }

  /** Two sets, what they share counted once from either side. */
  lemma DifferencesCount(a: set<string>, b: set<string>)
    ensures |a| + |b - a| == |b| + |a - b|
  {
    assert a == (a - b) + a * b && b == (b - a) + a * b;
  }

  lemma FineDeleteBalances(c: Settings, w: World)
    requires Balanced(w) && w.janitor.Sweeping?
    ensures Balanced(Deleting(c, w, Fine))
  {
    var gone := Expired(w.rows, w.janitor.now, c.maxAge, c.deadLetterTtl);
    MinusCount(w.rows, gone);
    DifferencesCount(w.janitor.pending + w.janitor.dead, gone);
    assert |w.janitor.pending + w.janitor.dead| == |w.janitor.pending| + |w.janitor.dead|;
  }

  lemma LostDeleteBalances(c: Settings, w: World, applied: bool)
    requires Balanced(w) && w.janitor.Sweeping?
    ensures Balanced(Deleting(c, w, Lost(applied)))
  {
    MinusCount(w.rows, if applied then Expired(w.rows, w.janitor.now, c.maxAge, c.deadLetterTtl) else {});
  }

  lemma SheddingBalances(w: World, fault: Fault, known: bool)
    requires Balanced(w) && (w.janitor.SheddingDead? || w.janitor.SheddingOldest?) && w.janitor.left != []
    ensures Balanced(Shedding(w, fault, known))
  {
    WithoutOne(w.rows, w.janitor.left[0]);
  }

  lemma PurgingBalances(w: World, fault: Fault)
    requires Balanced(w) && w.janitor.Purging? && w.janitor.left != []
    ensures Balanced(PurgingNext(w, fault))
  {
    WithoutOne(w.rows, w.janitor.left[0]);
  }

  lemma JanitorBalances(c: Settings, w: World, e: Event)
    requires Balanced(w) && FitsJanitor(c, w, e)
    ensures Balanced(JanitorStep(c, w, e))
  {
    if e.DeleteExpired? {
      if e.fault.Fine? {
        FineDeleteBalances(c, w);
      } else {
        LostDeleteBalances(c, w, e.fault.applied);
      }
    } else if e.Shed? {
      SheddingBalances(w, e.fault, e.known);
    } else if e.PurgeNext? {
      PurgingBalances(w, e.fault);
    }
  }

  lemma StepBalances(c: Settings, w: World, e: Event)
    requires Balanced(w) && Fits(c, w, e)
    ensures Balanced(Step(c, w, e))
  {
    if ByJanitor(e) {
      JanitorBalances(c, w, e);
    } else if FitsWorker(c, w, e) {
      WorkerBalances(c, w, e);
    }
  }

  lemma {:induction false} RunBalances(c: Settings, w: World, events: seq<Event>)
    requires Balanced(w) && Possible(c, w, events)
    ensures Balanced(Final(c, w, events))
    decreases events
  {
    if events != [] {
      StepBalances(c, w, events[0]);
      RunBalances(c, Step(c, w, events[0]), events[1..]);
    }
  }

  /**
   * In every reachable state: what was inserted and what was counted without being removed is what
   * was delivered, is queued, is counted as dropped or orphaned, was removed unseen, or is in the
   * janitor's hands.
   */
  lemma ObligationsConserved(c: Settings, events: seq<Event>)
    requires Possible(c, Start(), events)
    ensures var w := Final(c, Start(), events);
      w.ledger.inserted + w.ledger.overcounted
      == w.ledger.delivered + |w.rows| + w.counters.dropped + w.counters.orphaned + w.ledger.leaked + InHand(w.janitor)
  {
    RunBalances(c, Start(), events);
  }

  // ----- which steps hide a removal, and which count one too many -----

  /** The rows the next janitor statement would delete. */
  function Victims(c: Settings, w: World): set<string> {
    match w.janitor
    case Sweeping(now, _, _) => Expired(w.rows, now, c.maxAge, c.deadLetterTtl)
    case SheddingDead(_, left, _) => if left != [] && left[0] in w.rows then {left[0]} else {}
    case SheddingOldest(left, _, _) => if left != [] && left[0] in w.rows then {left[0]} else {}
    case Purging(left, _, _) => if left != [] && left[0] in w.rows then {left[0]} else {}
    case _ => {}
  }

  /**
   * A removal no counter will ever include: a delete that took effect and was reported as failed or
   * without a row count, a sweep deleting a row that it had not counted, an eviction failing after
   * it removed pending rows, a purge failing after it removed orphans.
   */
  predicate Hides(c: Settings, w: World, e: Event)
    requires Fits(c, w, e)
  {
    match e
    case DeleteExpired(fault) =>
      TakesEffect(fault) && exists id :: id in Victims(c, w) && (fault.Lost? || id !in w.janitor.pending + w.janitor.dead)
    case Shed(fault, known) =>
      || (TakesEffect(fault) && Victims(c, w) != {} && (fault.Lost? || !known))
      || (fault.Lost? && w.janitor.SheddingOldest? && w.janitor.pendingShed > 0)
    case PurgeNext(fault) => fault.Lost? && (w.janitor.removed > 0 || (fault.applied && Victims(c, w) != {}))
    case _ => false
  }

  /** A count without its removal: a sweep whose counted row has gone or lives on, a purge that deleted a row already gone. */
  predicate Overcounts(c: Settings, w: World, e: Event)
    requires Fits(c, w, e)
  {
    match e
    case DeleteExpired(fault) => fault.Fine? && exists id :: id in w.janitor.pending + w.janitor.dead && id !in Victims(c, w)
    case EndPurge => w.janitor.absent > 0
    case _ => false
  }

  /** An eviction that fails among the pending rows after it deleted some of them. */
  predicate HalfEvicts(w: World, e: Event) {
    e.Shed? && e.fault.Lost? && w.janitor.SheddingOldest? && w.janitor.pendingShed > 0
  }

  lemma Nonempty(a: set<string>, b: set<string>)
    ensures |a - b| > 0 <==> exists id :: id in a && id !in b
  {
    if id :| id in a && id !in b {
      assert id in a - b;
    } else {
      assert a - b == {};
    }
  }

  lemma FineDeleteHides(c: Settings, w: World)
    requires w.janitor.Sweeping?
    ensures var later := Deleting(c, w, Fine).ledger.leaked;
      later >= w.ledger.leaked && (later > w.ledger.leaked <==> Hides(c, w, DeleteExpired(Fine)))
  {
    Nonempty(Victims(c, w), w.janitor.pending + w.janitor.dead);
  }

  lemma LostDeleteHides(c: Settings, w: World, applied: bool)
    requires w.janitor.Sweeping?
    ensures var later := Deleting(c, w, Lost(applied)).ledger.leaked;
      later >= w.ledger.leaked && (later > w.ledger.leaked <==> Hides(c, w, DeleteExpired(Lost(applied))))
  {
    Nonempty(Victims(c, w), {});
    assert Victims(c, w) - {} == Victims(c, w);
  }

  lemma DeletingOvercounts(c: Settings, w: World, fault: Fault)
    requires Fits(c, w, DeleteExpired(fault))
    ensures var later := Deleting(c, w, fault).ledger.overcounted;
      later >= w.ledger.overcounted && (later > w.ledger.overcounted <==> Overcounts(c, w, DeleteExpired(fault)))
  {
    Nonempty(w.janitor.pending + w.janitor.dead, Victims(c, w));
  }

  predicate EntriesMove(c: Settings, w: World, later: World, e: Event)
    requires Fits(c, w, e)
  {
    && later.ledger.leaked >= w.ledger.leaked && (later.ledger.leaked > w.ledger.leaked <==> Hides(c, w, e))
    && later.ledger.overcounted >= w.ledger.overcounted && (later.ledger.overcounted > w.ledger.overcounted <==> Overcounts(c, w, e))
    && later.ledger.misreported == w.ledger.misreported + if HalfEvicts(w, e) then w.janitor.pendingShed else 0
  }

  lemma DeletingExactly(c: Settings, w: World, fault: Fault)
    requires w.janitor.Sweeping?
    ensures EntriesMove(c, w, Deleting(c, w, fault), DeleteExpired(fault))
  {
    if fault.Fine? {
      FineDeleteHides(c, w);
    } else {
      LostDeleteHides(c, w, fault.applied);
    }
    DeletingOvercounts(c, w, fault);
  }

  lemma SheddingExactly(c: Settings, w: World, fault: Fault, known: bool)
    requires Fits(c, w, Shed(fault, known))
    ensures EntriesMove(c, w, Shedding(w, fault, known), Shed(fault, known))
  {}

  lemma PurgingExactly(c: Settings, w: World, fault: Fault)
    requires Fits(c, w, PurgeNext(fault))
    ensures EntriesMove(c, w, PurgingNext(w, fault), PurgeNext(fault))
  {}

  /** Each of the three ledger entries moves exactly at its events, the third by the rows of that eviction. */
  lemma EntriesExactly(c: Settings, w: World, e: Event)
    requires Fits(c, w, e)
    ensures EntriesMove(c, w, Step(c, w, e), e)
  {
    if e.DeleteExpired? {
      DeletingExactly(c, w, e.fault);
    } else if e.Shed? {
      SheddingExactly(c, w, e.fault, e.known);
    } else if e.PurgeNext? {
      PurgingExactly(c, w, e.fault);
    }
  }

  predicate NothingHidden(c: Settings, w: World, events: seq<Event>)
    requires Possible(c, w, events)
    decreases events
  {
    events == [] || (!Hides(c, w, events[0]) && NothingHidden(c, Step(c, w, events[0]), events[1..]))
  }

  predicate NothingOvercounted(c: Settings, w: World, events: seq<Event>)
    requires Possible(c, w, events)
    decreases events
  {
    events == [] || (!Overcounts(c, w, events[0]) && NothingOvercounted(c, Step(c, w, events[0]), events[1..]))
  }

  lemma {:induction false} EntriesOfRun(c: Settings, w: World, events: seq<Event>)
    requires Possible(c, w, events)
    ensures var later := Final(c, w, events);
      && later.ledger.leaked >= w.ledger.leaked && (later.ledger.leaked == w.ledger.leaked <==> NothingHidden(c, w, events))
      && later.ledger.overcounted >= w.ledger.overcounted
      && (later.ledger.overcounted == w.ledger.overcounted <==> NothingOvercounted(c, w, events))
    decreases events
  {
    if events != [] {
      EntriesExactly(c, w, events[0]);
      EntriesOfRun(c, Step(c, w, events[0]), events[1..]);
    }
  }

  predicate AddsUp(w: World) {
    w.ledger.inserted == w.ledger.delivered + |w.rows| + w.counters.dropped + w.counters.orphaned
  }

  /**
   * While no eviction or purge is on its way, the counters account for every obligation if no step
   * hid a removal or counted one too many; and only then, unless steps of both kinds cancel out.
   */
  lemma CountersAddUpExactly(c: Settings, events: seq<Event>)
    requires Possible(c, Start(), events) && InHand(Final(c, Start(), events).janitor) == 0
    ensures NothingHidden(c, Start(), events) && NothingOvercounted(c, Start(), events) ==> AddsUp(Final(c, Start(), events))
    ensures NothingHidden(c, Start(), events) || NothingOvercounted(c, Start(), events) ==>
      (AddsUp(Final(c, Start(), events)) <==> NothingHidden(c, Start(), events) && NothingOvercounted(c, Start(), events))
  {
    ObligationsConserved(c, events);
    EntriesOfRun(c, Start(), events);
  }

  // ----- the two numbers of an eviction -----

  /** The rows counted as pending and not as dropped, by the evictions of the run that failed half-way. */
  function HalfEvicted(c: Settings, w: World, events: seq<Event>): nat
    requires Possible(c, w, events)
    decreases events
  {
    if events == [] then 0
    else (if HalfEvicts(w, events[0]) then w.janitor.pendingShed else 0) + HalfEvicted(c, Step(c, w, events[0]), events[1..])
  }

  lemma {:induction false} MisreportedOfRun(c: Settings, w: World, events: seq<Event>)
    requires Possible(c, w, events)
    ensures Final(c, w, events).ledger.misreported == w.ledger.misreported + HalfEvicted(c, w, events)
    decreases events
  {
    if events != [] {
      EntriesExactly(c, w, events[0]);
      MisreportedOfRun(c, Step(c, w, events[0]), events[1..]);
    }
  }

  predicate NoHalfEviction(c: Settings, w: World, events: seq<Event>)
    requires Possible(c, w, events)
    decreases events
  {
    events == [] || (!HalfEvicts(w, events[0]) && NoHalfEviction(c, Step(c, w, events[0]), events[1..]))
  }

  lemma {:induction false} HalfEvictedNothing(c: Settings, w: World, events: seq<Event>)
    requires Possible(c, w, events)
    ensures HalfEvicted(c, w, events) == 0 <==> NoHalfEviction(c, w, events)
    decreases events
  {
    if events != [] {
      HalfEvictedNothing(c, Step(c, w, events[0]), events[1..]);
    }
  }

  /**
   * The pending count stays within the dropped count on every run in which no eviction returns an
   * error together with a positive pending count. What such evictions returned is exactly what the
   * dropped count lacks, so while no dead letter was counted, one of them is enough to break it.
   */
  lemma PendingWithinDropped(c: Settings, events: seq<Event>)
    requires Possible(c, Start(), events)
    ensures var w := Final(c, Start(), events);
      && w.counters.dropped + HalfEvicted(c, Start(), events) == w.ledger.deadCounted + w.counters.pendingDropped
      && (NoHalfEviction(c, Start(), events) ==> w.counters.pendingDropped <= w.counters.dropped)
      && (w.ledger.deadCounted == 0 ==>
            (w.counters.pendingDropped <= w.counters.dropped <==> NoHalfEviction(c, Start(), events)))
  {
    RunBalances(c, Start(), events);
    MisreportedOfRun(c, Start(), events);
    HalfEvictedNothing(c, Start(), events);
  }

  // ----- what happens between a sweep's count and its delete -----

  /** The rows the event takes out of a sweep's reach: settled as delivered or as dead. */
  function Settled(c: Settings, w: World, e: Event): set<string>
    requires Fits(c, w, e)
  {
    if e.Settle? && TakesEffect(e.fault) && (w.flights[e.token].accepted || w.flights[e.token].rows[0].attempts >= c.maxAttempts) then
      {w.flights[e.token].rows[0].id}
    else {}
  }

  function SettledIn(c: Settings, w: World, events: seq<Event>): set<string>
    requires Possible(c, w, events)
    decreases events
  {
    if events == [] then {} else Settled(c, w, events[0]) + SettledIn(c, Step(c, w, events[0]), events[1..])
  }

  /** Not the janitor, and no stamp from before the sweep that makes a row expired at once. */
  predicate Beside(c: Settings, now: int, e: Event) {
    && !ByJanitor(e)
    && (e.Enqueue? ==> e.now >= now - c.maxAge)
    && (e.Settle? ==> e.now >= now - c.deadLetterTtl)
  }

  lemma ResolvingExpires(c: Settings, w: World, token: string, at: int, fault: Fault, now: int)
    requires Fits(c, w, Settle(token, at, fault)) && at >= now - c.deadLetterTtl
    ensures Expired(Resolving(c, w, token, at, fault).rows, now, c.maxAge, c.deadLetterTtl)
      == Expired(w.rows, now, c.maxAge, c.deadLetterTtl) - Settled(c, w, Settle(token, at, fault))
  {}

  lemma StepExpires(c: Settings, w: World, e: Event, now: int)
    requires w.rows.Keys <= w.ledger.used && Fits(c, w, e) && Beside(c, now, e)
    ensures Expired(Step(c, w, e).rows, now, c.maxAge, c.deadLetterTtl)
      == Expired(w.rows, now, c.maxAge, c.deadLetterTtl) - Settled(c, w, e)
  {
    if e.Settle? {
      ResolvingExpires(c, w, e.token, e.now, e.fault, now);
    }
  }

  predicate AllBeside(c: Settings, now: int, events: seq<Event>) {
    events == [] || (Beside(c, now, events[0]) && AllBeside(c, now, events[1..]))
  }

  lemma NotTheJanitor(c: Settings, w: World, e: Event)
    requires Fits(c, w, e) && !ByJanitor(e)
    ensures Step(c, w, e).janitor == w.janitor
  {}

  lemma {:induction false} SweepWindow(c: Settings, w: World, events: seq<Event>, now: int)
    requires Balanced(w) && Possible(c, w, events) && AllBeside(c, now, events)
    ensures Expired(Final(c, w, events).rows, now, c.maxAge, c.deadLetterTtl)
      == Expired(w.rows, now, c.maxAge, c.deadLetterTtl) - SettledIn(c, w, events)
    ensures Final(c, w, events).janitor == w.janitor
    decreases events
  {
    if events != [] {
      StepExpires(c, w, events[0], now);
      StepBalances(c, w, events[0]);
      NotTheJanitor(c, w, events[0]);
      SweepWindow(c, Step(c, w, events[0]), events[1..], now);
    }
  }

  /** A DELETE that finds what was counted but for the settled rows. */
  lemma DeleteAfter(c: Settings, w: World, settled: set<string>)
    requires w.janitor.Sweeping? && Victims(c, w) == w.janitor.pending + w.janitor.dead - settled
    ensures var counted := w.janitor.pending + w.janitor.dead;
      && !Hides(c, w, DeleteExpired(Fine))
      && (Overcounts(c, w, DeleteExpired(Fine)) <==> counted * settled != {})
      && Deleting(c, w, Fine).ledger.overcounted == w.ledger.overcounted + |counted * settled|
  {
    var counted := w.janitor.pending + w.janitor.dead;
    assert counted - (counted - settled) == counted * settled;
    Nonempty(counted, Victims(c, w));
    assert |counted * settled| > 0 <==> counted * settled != {};
  }

  /**
   * A sweep counts too many exactly when a row it counted was delivered or dead-lettered before its
   * DELETE, and by those rows; it never deletes a row it has not counted.
   */
  lemma SweepRaceExactly(c: Settings, w: World, now: int, between: seq<Event>)
    requires Balanced(w) && w.janitor.Resting? && Counting(c, w, now, true).janitor.Sweeping?
    requires Possible(c, Counting(c, w, now, true), between) && AllBeside(c, now, between)
    ensures var counted := Counting(c, w, now, true);
      var later := Final(c, counted, between);
      var raced := Expired(w.rows, now, c.maxAge, c.deadLetterTtl) * SettledIn(c, counted, between);
      && Fits(c, later, DeleteExpired(Fine)) && !Hides(c, later, DeleteExpired(Fine))
      && (Overcounts(c, later, DeleteExpired(Fine)) <==> raced != {})
      && Step(c, later, DeleteExpired(Fine)).ledger.overcounted == later.ledger.overcounted + |raced|
  {
    var counted := Counting(c, w, now, true);
    SweepWindow(c, counted, between, now);
    DeleteAfter(c, Final(c, counted, between), SettledIn(c, counted, between));
  }
}
