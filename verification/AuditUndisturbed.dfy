/**
 * What the janitor's calls do to the queue when nobody else acts and no statement fails: the valve
 * brings the queue down to its cap and sheds whom it should, a sweep removes exactly what is past
 * its clock, and an orphan scan exactly the orphans it selected.
 */
module AuditUndisturbed {
  import opened Outcomes
  import opened AuditOutbox
  import opened AuditDelivery
  import opened AuditConservation

  // ----- calls in which nothing fails -----

  /** A statement of an eviction after its first, which works. */
  predicate Sheds(e: Event) {
    match e
    case SelectDead(_, readable) => readable
    case SelectOldest(_, readable) => readable
    case Shed(fault, known) => fault.Fine? && known
    case EndEviction => true
    case _ => false
  }

  predicate AllShed(events: seq<Event>) { forall i :: 0 <= i < |events| ==> Sheds(events[i]) }

  /** The whole of one eviction, from rest to rest. */
  predicate ValveCall(c: Settings, w: World, events: seq<Event>)
    requires Possible(c, w, events)
  {
    && w.janitor.Resting? && Final(c, w, events).janitor.Resting?
    && events != [] && events[0] == CountRows(true) && AllShed(events[1..])
  }

  lemma RestEnds(c: Settings, w: World, events: seq<Event>)
    requires Possible(c, w, events) && AllShed(events) && w.janitor.Resting?
    ensures events == []
  {}

  // ----- who is shed -----

  /** The rows shed: all of the overflow, dead letters first and of those the longest dead, then the oldest. */
  predicate ShedFairly(rows: Rows, gone: set<string>) {
    && gone <= rows.Keys
    && (forall a, b :: a in gone && b in rows && b !in gone && rows[b].deadAt.Some? ==>
          rows[a].deadAt.Some? && rows[a].deadAt.value <= rows[b].deadAt.value)
    && (forall a, b :: a in gone && rows[a].deadAt.None? && b in rows && b !in gone ==>
          rows[b].deadAt.None? && rows[a].createdAt <= rows[b].createdAt)
  }

  /** The queue is within its cap, no smaller than it had to become, and lost whom it should. */
  predicate CutToCap(maxRows: int, rows: Rows, later: Rows) {
    && later.Keys <= rows.Keys && later == rows - (rows.Keys - later.Keys)
    && |later| == (if 0 < maxRows < |rows| then maxRows else |rows|)
    && ShedFairly(rows, rows.Keys - later.Keys)
  }

  /** The queue is cut back, both counters say by how much, and nothing else has changed. */
  predicate CutBack(c: Settings, w: World, later: World) {
    var gone := w.rows.Keys - later.rows.Keys;
    && CutToCap(c.maxRows, w.rows, later.rows)
    && later.counters == Dropping(w.counters, |gone|, |gone - DeadIds(w.rows)|)
    && later.records == w.records && later.flights == w.flights
  }

  lemma NextVictim(rows: Rows, ids: seq<string>, k: nat)
    requires Distinct(ids) && Members(ids) <= rows.Keys && k < |ids|
    ensures ids[k] in rows - Members(ids[..k]) && (rows - Members(ids[..k])) - {ids[k]} == rows - Members(ids[..k + 1])
  {
    assert ids[k] in Members(ids);
    assert Members(ids[..k + 1]) == Members(ids[..k]) + {ids[k]};
  }

  /** One victim of an eviction in which all works. */
  lemma ShedsNext(w: World, rows: Rows, ids: seq<string>, k: nat)
    requires (w.janitor.SheddingDead? || w.janitor.SheddingOldest?) && k < |ids| && w.janitor.left == ids[k..]
    requires Distinct(ids) && Members(ids) <= rows.Keys && w.rows == rows - Members(ids[..k])
    ensures var later := Shedding(w, Fine, true);
      && later.rows == rows - Members(ids[..k + 1]) && later.counters == w.counters
      && later.records == w.records && later.flights == w.flights
      && later.janitor ==
           if w.janitor.SheddingDead? then SheddingDead(w.janitor.overflow, ids[k + 1..], w.janitor.deadShed + 1)
           else SheddingOldest(ids[k + 1..], w.janitor.deadShed, w.janitor.pendingShed + 1)
  {
    NextVictim(rows, ids, k);
  }

  /** The next statement of a call that has not come to its end, and the rest of the call. */
  lemma GoesOn(c: Settings, w: World, events: seq<Event>)
    requires Possible(c, w, events) && AllShed(events) && Final(c, w, events).janitor.Resting? && !w.janitor.Resting?
    ensures events != [] && Fits(c, w, events[0]) && Sheds(events[0]) && AllShed(events[1..])
    ensures var next := Step(c, w, events[0]);
      && Possible(c, next, events[1..]) && Final(c, next, events[1..]) == Final(c, w, events)
  {}

  /** Which statement that is. */
  lemma NextStatement(c: Settings, w: World, e: Event)
    requires Fits(c, w, e) && Sheds(e)
    ensures w.janitor.SheddingDead? && w.janitor.left != [] ==> e == Shed(Fine, true)
    ensures w.janitor.SheddingOldest? ==> e == if w.janitor.left != [] then Shed(Fine, true) else EndEviction
    ensures w.janitor.SheddingDead? && w.janitor.left == [] ==>
      if w.janitor.overflow <= w.janitor.deadShed then e == EndEviction
      else e.SelectOldest? && Oldest(w.rows, w.rows.Keys, e.ids, w.janitor.overflow - w.janitor.deadShed, Age)
  {}

  /** The eviction has left these rows, and counted the shed and the pending of them. */
  predicate Shedded(w: World, later: World, rows: Rows, shed: nat, pending: nat) {
    && later.janitor.Resting? && later.rows == rows
    && later.counters == Dropping(w.counters, shed, pending)
    && later.records == w.records && later.flights == w.flights
  }

  lemma EndsEviction(c: Settings, w: World)
    requires Fits(c, w, EndEviction)
    ensures Shedded(w, Step(c, w, EndEviction), w.rows,
                    w.janitor.deadShed + if w.janitor.SheddingOldest? then w.janitor.pendingShed else 0,
                    if w.janitor.SheddingOldest? then w.janitor.pendingShed else 0)
  {}

  /** The call ends. */
  lemma EndsCall(c: Settings, w: World, events: seq<Event>)
    requires Possible(c, w, events) && AllShed(events) && Final(c, w, events).janitor.Resting?
    requires events != [] && events[0] == EndEviction
    ensures Final(c, w, events) == Step(c, w, EndEviction)
  {
    EndsEviction(c, w);
    RestEnds(c, Step(c, w, EndEviction), events[1..]);
  }

  /** The oldest rows go one by one. */
  lemma {:induction false} OldestPhase(c: Settings, w: World, events: seq<Event>, rows: Rows, ids: seq<string>, k: nat)
    requires Possible(c, w, events) && AllShed(events) && Final(c, w, events).janitor.Resting?
    requires w.janitor.SheddingOldest? && k <= |ids| && w.janitor.left == ids[k..] && w.janitor.pendingShed == k
    requires Distinct(ids) && Members(ids) <= rows.Keys && w.rows == rows - Members(ids[..k])
    ensures Shedded(w, Final(c, w, events), rows - Members(ids), w.janitor.deadShed + |ids|, |ids|)
    decreases events
  {
    GoesOn(c, w, events);
    NextStatement(c, w, events[0]);
    if k == |ids| {
      assert ids[..k] == ids;
      EndsCall(c, w, events);
      EndsEviction(c, w);
    } else {
      ShedsNext(w, rows, ids, k);
      var next := Step(c, w, events[0]);
      assert next == Shedding(w, Fine, true);
      OldestPhase(c, next, events[1..], rows, ids, k + 1);
    }
  }

  /** The dead letters go first; what is left of the call then. */
  lemma {:induction false} DeadPhase(c: Settings, w: World, events: seq<Event>, rows: Rows, ids: seq<string>, k: nat)
    returns (reached: World, rest: seq<Event>)
    requires Possible(c, w, events) && AllShed(events) && Final(c, w, events).janitor.Resting?
    requires w.janitor.SheddingDead? && k <= |ids| && w.janitor.left == ids[k..] && w.janitor.deadShed == k
    requires Distinct(ids) && Members(ids) <= rows.Keys && w.rows == rows - Members(ids[..k])
    ensures reached == w.(rows := rows - Members(ids), janitor := SheddingDead(w.janitor.overflow, [], |ids|), ledger := reached.ledger)
    ensures Possible(c, reached, rest) && AllShed(rest) && Final(c, reached, rest) == Final(c, w, events)
    decreases events
  {
    if k < |ids| {
      DeadNext(c, w, events, rows, ids, k);
      reached, rest := DeadPhase(c, Shedding(w, Fine, true), events[1..], rows, ids, k + 1);
    } else {
      assert ids[..k] == ids;
      reached, rest := w, events;
    }
  }

  /** The next dead letter goes. */
  lemma DeadNext(c: Settings, w: World, events: seq<Event>, rows: Rows, ids: seq<string>, k: nat)
    requires Possible(c, w, events) && AllShed(events) && Final(c, w, events).janitor.Resting?
    requires w.janitor.SheddingDead? && k < |ids| && w.janitor.left == ids[k..] && w.janitor.deadShed == k
    requires Distinct(ids) && Members(ids) <= rows.Keys && w.rows == rows - Members(ids[..k])
    ensures events != [] && AllShed(events[1..])
    ensures var next := Shedding(w, Fine, true);
      && Possible(c, next, events[1..]) && Final(c, next, events[1..]) == Final(c, w, events)
      && next.janitor == SheddingDead(w.janitor.overflow, ids[k + 1..], k + 1) && next.rows == rows - Members(ids[..k + 1])
      && next == w.(janitor := next.janitor, rows := next.rows, ledger := next.ledger)
  {
    GoesOn(c, w, events);
    NextStatement(c, w, events[0]);
    ShedsNext(w, rows, ids, k);
  }

  /** The second selection from what the first one left: the oldest rows, as many as are still too many. */
  predicate FollowedBy(left: Rows, oldest: seq<string>, n: int) {
    Members(oldest) <= left.Keys && if n <= 0 then oldest == [] else Oldest(left, left.Keys, oldest, n, Age)
  }

  lemma AfterDead(c: Settings, w: World, events: seq<Event>) returns (oldest: seq<string>)
    requires Possible(c, w, events) && AllShed(events) && Final(c, w, events).janitor.Resting?
    requires w.janitor.SheddingDead? && w.janitor.left == []
    ensures FollowedBy(w.rows, oldest, w.janitor.overflow - w.janitor.deadShed)
    ensures Shedded(w, Final(c, w, events), w.rows - Members(oldest), w.janitor.deadShed + |oldest|, |oldest|)
  {
    GoesOn(c, w, events);
    NextStatement(c, w, events[0]);
    if w.janitor.overflow <= w.janitor.deadShed {
      EndsCall(c, w, events);
      EndsEviction(c, w);
      oldest := [];
      assert w.rows - {} == w.rows;
    } else {
      oldest := events[0].ids;
      OldestSelected(c, w, events);
    }
  }

  lemma OldestSelected(c: Settings, w: World, events: seq<Event>)
    requires Possible(c, w, events) && AllShed(events) && Final(c, w, events).janitor.Resting?
    requires w.janitor.SheddingDead? && events != [] && events[0].SelectOldest?
    ensures Members(events[0].ids) <= w.rows.Keys
    ensures var oldest := events[0].ids;
      Shedded(w, Final(c, w, events), w.rows - Members(oldest), w.janitor.deadShed + |oldest|, |oldest|)
  {
    GoesOn(c, w, events);
    var oldest := events[0].ids;
    var next := Step(c, w, events[0]);
    assert next == w.(janitor := SheddingOldest(oldest, w.janitor.deadShed, 0));
    assert w.rows - Members(oldest[..0]) == w.rows;
    OldestPhase(c, next, events[1..], w.rows, oldest, 0);
  }

  /** A second selection that follows a first one of dead letters. */
  predicate ThenOldest(rows: Rows, dead: seq<string>, oldest: seq<string>, overflow: nat) {
    Oldest(rows, DeadIds(rows), dead, overflow, DeadAge) && FollowedBy(rows - Members(dead), oldest, overflow - |dead|)
  }

  lemma SelectionsCount(rows: Rows, dead: seq<string>, oldest: seq<string>, overflow: nat)
    requires overflow <= |rows| && ThenOldest(rows, dead, oldest, overflow)
    ensures |Members(dead) + Members(oldest)| == |dead| + |oldest| == overflow && |Members(oldest)| == |oldest|
    ensures oldest != [] ==> Members(dead) == DeadIds(rows)
  {
    DistinctCount(dead);
    MinusCount(rows, Members(dead));
    if overflow > |dead| {
      DistinctCount(oldest);
      AllDeadGone(Members(dead), DeadIds(rows));
    }
    assert Members(dead) !! Members(oldest);
  }

  lemma OldestAmong(rows: Rows, from: set<string>, ids: seq<string>, n: nat, age: Row -> int, a: string, b: string)
    requires Oldest(rows, from, ids, n, age) && a in Members(ids) && b in from && b !in Members(ids)
    ensures a in rows && b in rows && age(rows[a]) <= age(rows[b])
  {
    var i :| 0 <= i < |ids| && ids[i] == a;
    assert b !in ids;
  }

  lemma DeadFair(rows: Rows, dead: seq<string>, oldest: seq<string>, overflow: nat, a: string, b: string)
    requires overflow <= |rows| && ThenOldest(rows, dead, oldest, overflow)
    requires a in Members(dead) + Members(oldest) && b in DeadIds(rows) && b !in Members(dead) + Members(oldest)
    ensures a in DeadIds(rows) && rows[a].deadAt.value <= rows[b].deadAt.value
  {
    SelectionsCount(rows, dead, oldest, overflow);
    OldestAmong(rows, DeadIds(rows), dead, overflow, DeadAge, a, b);
  }

  lemma PendingFair(rows: Rows, dead: seq<string>, oldest: seq<string>, overflow: nat, a: string, b: string)
    requires overflow <= |rows| && ThenOldest(rows, dead, oldest, overflow)
    requires a in Members(dead) + Members(oldest) && a in rows && rows[a].deadAt.None?
    requires b in rows && b !in Members(dead) + Members(oldest)
    ensures rows[b].deadAt.None? && rows[a].createdAt <= rows[b].createdAt
  {
    var left := rows - Members(dead);
    SelectionsCount(rows, dead, oldest, overflow);
    assert a in Members(oldest) && oldest != [];
    OldestAmong(left, left.Keys, oldest, overflow - |dead|, Age, a, b);
  }

  /** Two selections in turn shed fairly. */
  lemma SelectionsFair(rows: Rows, dead: seq<string>, oldest: seq<string>, overflow: nat)
    requires overflow <= |rows| && ThenOldest(rows, dead, oldest, overflow)
    ensures ShedFairly(rows, Members(dead) + Members(oldest))
  {
    var gone := Members(dead) + Members(oldest);
    assert gone <= rows.Keys;
    forall a, b | a in gone && b in rows && b !in gone && rows[b].deadAt.Some?
      ensures rows[a].deadAt.Some? && rows[a].deadAt.value <= rows[b].deadAt.value
    {
      DeadFair(rows, dead, oldest, overflow, a, b);
    }
    forall a, b | a in gone && rows[a].deadAt.None? && b in rows && b !in gone
      ensures rows[b].deadAt.None? && rows[a].createdAt <= rows[b].createdAt
    {
      PendingFair(rows, dead, oldest, overflow, a, b);
    }
  }

  /** Those of them that were pending are the second selection. */
  lemma LaterShed(rows: Rows, dead: seq<string>, oldest: seq<string>, overflow: nat)
    requires overflow <= |rows| && ThenOldest(rows, dead, oldest, overflow)
    ensures Members(dead) + Members(oldest) - DeadIds(rows) == Members(oldest)
  {
    SelectionsCount(rows, dead, oldest, overflow);
    assert Members(oldest) <= (rows - Members(dead)).Keys;
  }

  /** What the two selections come to. */
  predicate SelectedFairly(rows: Rows, dead: seq<string>, oldest: seq<string>, overflow: nat) {
    var gone := Members(dead) + Members(oldest);
    ShedFairly(rows, gone) && |gone| == |dead| + |oldest| == overflow && |gone - DeadIds(rows)| == |oldest|
  }

  lemma SelectionsExactly(rows: Rows, dead: seq<string>, oldest: seq<string>, overflow: nat)
    requires overflow <= |rows| && ThenOldest(rows, dead, oldest, overflow)
    ensures SelectedFairly(rows, dead, oldest, overflow)
  {
    SelectionsCount(rows, dead, oldest, overflow);
    SelectionsFair(rows, dead, oldest, overflow);
    LaterShed(rows, dead, oldest, overflow);
  }

  lemma AllDeadGone(some: set<string>, all: set<string>)
    requires some <= all && |some| == |all|
    ensures some == all
  {
    assert |all - some| == |all| - |some|;
    assert all == some + (all - some);
  }

  /**
   * Over a whole eviction that nothing disturbs: without a cap, or within it, nothing happens; above
   * it the queue is cut down to exactly its cap. Dead letters go first, the longest dead before the
   * others, then the oldest rows, and both counters say how many.
   */
  lemma CutsToCap(c: Settings, w: World, events: seq<Event>)
    requires Possible(c, w, events) && ValveCall(c, w, events)
    ensures CutBack(c, w, Final(c, w, events))
  {
    if 0 < c.maxRows < |w.rows| {
      var dead, oldest := OverCap(c, w, events);
      SelectionsExactly(w.rows, dead, oldest, |w.rows| - c.maxRows);
      CutFairly(c, w, Final(c, w, events), dead, oldest);
    } else {
      assert Step(c, w, events[0]) == w;
      RestEnds(c, w, events[1..]);
      NothingCut(c, w);
    }
  }

  lemma NothingCut(c: Settings, w: World)
    requires !(0 < c.maxRows < |w.rows|)
    ensures CutBack(c, w, w)
  {
    assert w.rows - {} == w.rows;
  }

  /** The selections of an eviction of a queue above its cap. */
  lemma OverCap(c: Settings, w: World, events: seq<Event>) returns (dead: seq<string>, oldest: seq<string>)
    requires Possible(c, w, events) && ValveCall(c, w, events) && 0 < c.maxRows < |w.rows|
    ensures ThenOldest(w.rows, dead, oldest, |w.rows| - c.maxRows)
    ensures Shedded(w, Final(c, w, events), w.rows - Members(dead) - Members(oldest), |dead| + |oldest|, |oldest|)
  {
    dead, oldest := FromOverfull(c, Step(c, w, events[0]), events[1..]);
  }

  lemma FromOverfull(c: Settings, w: World, events: seq<Event>) returns (dead: seq<string>, oldest: seq<string>)
    requires Possible(c, w, events) && AllShed(events) && Final(c, w, events).janitor.Resting? && w.janitor.Overfull?
    ensures ThenOldest(w.rows, dead, oldest, w.janitor.overflow)
    ensures Shedded(w, Final(c, w, events), w.rows - Members(dead) - Members(oldest), |dead| + |oldest|, |oldest|)
  {
    var reached, rest;
    dead, reached, rest := DeadSelected(c, w, events);
    oldest := AfterDead(c, reached, rest);
  }

  /** The dead letters are selected and go. */
  lemma DeadSelected(c: Settings, w: World, events: seq<Event>) returns (dead: seq<string>, reached: World, rest: seq<Event>)
    requires Possible(c, w, events) && AllShed(events) && Final(c, w, events).janitor.Resting? && w.janitor.Overfull?
    ensures Oldest(w.rows, DeadIds(w.rows), dead, w.janitor.overflow, DeadAge)
    ensures reached == w.(rows := w.rows - Members(dead), janitor := SheddingDead(w.janitor.overflow, [], |dead|), ledger := reached.ledger)
    ensures Possible(c, reached, rest) && AllShed(rest) && Final(c, reached, rest) == Final(c, w, events)
  {
    GoesOn(c, w, events);
    assert events[0].SelectDead?;
    dead := events[0].ids;
    var next := Step(c, w, events[0]);
    assert next == w.(janitor := SheddingDead(w.janitor.overflow, dead, 0));
    assert w.rows - Members(dead[..0]) == w.rows;
    reached, rest := DeadPhase(c, next, events[1..], w.rows, dead, 0);
  }

  lemma CutFairly(c: Settings, w: World, later: World, dead: seq<string>, oldest: seq<string>)
    requires 0 < c.maxRows < |w.rows| && SelectedFairly(w.rows, dead, oldest, |w.rows| - c.maxRows)
    requires Shedded(w, later, w.rows - Members(dead) - Members(oldest), |dead| + |oldest|, |oldest|)
    ensures CutBack(c, w, later)
  {
    MinusTwice(w.rows, Members(dead), Members(oldest));
    CutCounted(c, w, later, Members(dead) + Members(oldest), |dead| + |oldest|, |oldest|);
  }

  lemma CutCounted(c: Settings, w: World, later: World, gone: set<string>, shed: nat, pending: nat)
    requires ShedFairly(w.rows, gone) && 0 < c.maxRows < |w.rows| && |gone| == |w.rows| - c.maxRows
    requires shed == |gone| && pending == |gone - DeadIds(w.rows)| && Shedded(w, later, w.rows - gone, shed, pending)
    ensures CutBack(c, w, later)
  {
    CutByCount(c.maxRows, w.rows, gone);
  }

  lemma CutByCount(maxRows: int, rows: Rows, gone: set<string>)
    requires ShedFairly(rows, gone) && 0 < maxRows < |rows| && |gone| == |rows| - maxRows
    ensures CutToCap(maxRows, rows, rows - gone) && rows.Keys - (rows - gone).Keys == gone
  {
    MinusCount(rows, gone);
    assert (rows - gone).Keys == rows.Keys - gone;
    assert rows.Keys - (rows - gone).Keys == gone;
  }

  lemma MinusTwice(rows: Rows, a: set<string>, b: set<string>)
    ensures rows - a - b == rows - (a + b)
    ensures a + b <= rows.Keys ==> rows.Keys - (rows - (a + b)).Keys == a + b
  {}

  // ----- the sweep -----

  /** The row is past the clock that applies to it. */
  predicate PastItsClock(row: Row, now: int, maxAge: int, ttl: int) {
    match row.deadAt
    case None => maxAge > 0 && row.createdAt + maxAge < now
    case Some(at) => ttl > 0 && at + ttl < now
  }

  /** The sweep's two statements, when both work. */
  predicate SweepCall(c: Settings, w: World, events: seq<Event>, now: int)
    requires Possible(c, w, events)
  {
    && w.janitor.Resting? && Final(c, w, events).janitor.Resting?
    && (events == [CountExpired(now, true)] || events == [CountExpired(now, true), DeleteExpired(Fine)])
  }

  /** What a sweep that works makes of the state. */
  predicate SweptAt(c: Settings, w: World, later: World, now: int) {
    var gone := set id | id in w.rows && PastItsClock(w.rows[id], now, c.maxAge, c.deadLetterTtl);
    && later.rows == w.rows - gone
    && later.counters == Dropping(w.counters, |gone|, |gone - DeadIds(w.rows)|)
    && later.records == w.records && later.flights == w.flights
  }

  /** A sweep that nothing disturbs removes exactly the rows past their clock, and the counters say how many of each kind. */
  lemma SweepsExactly(c: Settings, w: World, events: seq<Event>, now: int)
    requires Possible(c, w, events) && SweepCall(c, w, events, now)
    ensures SweptAt(c, w, Final(c, w, events), now)
  {
    RunCons(c, w, CountExpired(now, true), events[1..]);
    assert events == [CountExpired(now, true)] + events[1..];
    if PendingExpired(w.rows, now, c.maxAge) + DeadExpired(w.rows, now, c.deadLetterTtl) == {} {
      NoDelete(c, w);
      NothingExpired(c, w, now);
    } else {
      assert events[1..] == [DeleteExpired(Fine)];
      OneStep(c, Counting(c, w, now, true), DeleteExpired(Fine));
      DeletesExpired(c, w, now);
    }
  }

  lemma NoDelete(c: Settings, w: World)
    requires w.janitor.Resting?
    ensures !Possible(c, w, [DeleteExpired(Fine)])
  {
    assert !Fits(c, w, DeleteExpired(Fine)) && [DeleteExpired(Fine)][0] == DeleteExpired(Fine);
  }

  lemma NothingExpired(c: Settings, w: World, now: int)
    requires PendingExpired(w.rows, now, c.maxAge) + DeadExpired(w.rows, now, c.deadLetterTtl) == {}
    ensures SweptAt(c, w, w, now)
  {
    PastClocks(w.rows, now, c.maxAge, c.deadLetterTtl);
    assert w.rows - {} == w.rows;
  }

  lemma DeletesExpired(c: Settings, w: World, now: int)
    ensures var counted := w.(janitor := Janitor.Sweeping(now, PendingExpired(w.rows, now, c.maxAge), DeadExpired(w.rows, now, c.deadLetterTtl)));
      SweptAt(c, w, FineDeleted(c, counted), now)
  {
    PastClocks(w.rows, now, c.maxAge, c.deadLetterTtl);
  }

  lemma OneStep(c: Settings, w: World, e: Event)
    requires Possible(c, w, [e])
    ensures Fits(c, w, e) && Final(c, w, [e]) == Step(c, w, e)
  {
    assert [e][1..] == [];
  }

  lemma PastClocks(rows: Rows, now: int, maxAge: int, ttl: int)
    ensures var gone := set id | id in rows && PastItsClock(rows[id], now, maxAge, ttl);
      var pending, dead := PendingExpired(rows, now, maxAge), DeadExpired(rows, now, ttl);
      && gone == pending + dead && gone - DeadIds(rows) == pending && |gone| == |pending| + |dead|
  {
    var gone := set id | id in rows && PastItsClock(rows[id], now, maxAge, ttl);
    var pending, dead := PendingExpired(rows, now, maxAge), DeadExpired(rows, now, ttl);
    assert pending !! dead && gone == pending + dead;
  }

  // ----- the orphan scan -----

  /** A scan that nothing disturbs: its query and a delete for each orphan it found. */
  predicate ScanCall(c: Settings, w: World, events: seq<Event>, ids: seq<string>, limit: nat)
    requires Possible(c, w, events)
  {
    && w.janitor.Resting? && Final(c, w, events).janitor.Resting? && |events| > 1
    && events[0] == SelectOrphans(ids, limit, true) && AllPurge(events[1..])
  }

  lemma NoMorePurges(c: Settings, w: World, events: seq<Event>)
    requires Possible(c, w, events) && w.janitor.Resting?
    requires AllPurge(events)
    ensures events == []
  {}

  /** Purging statements that work, and the end. */
  predicate AllPurge(events: seq<Event>) { forall i :: 0 <= i < |events| ==> events[i] == PurgeNext(Fine) || events[i] == EndPurge }

  lemma PurgesNext(c: Settings, w: World, events: seq<Event>, rows: Rows, ids: seq<string>, k: nat)
    requires Possible(c, w, events) && Final(c, w, events).janitor.Resting? && AllPurge(events)
    requires w.janitor.Purging? && k < |ids| && w.janitor.left == ids[k..] && w.janitor.removed == k && w.janitor.absent == 0
    requires Distinct(ids) && Members(ids) <= rows.Keys && w.rows == rows - Members(ids[..k])
    ensures events != [] && AllPurge(events[1..])
    ensures var next := PurgingNext(w, Fine);
      && Possible(c, next, events[1..]) && Final(c, next, events[1..]) == Final(c, w, events)
      && next.janitor == Purging(ids[k + 1..], k + 1, 0) && next.rows == rows - Members(ids[..k + 1])
      && next.counters == w.counters && next.records == w.records && next.flights == w.flights
  {
    assert events != [] && Fits(c, w, events[0]);
    NextVictim(rows, ids, k);
  }

  /** The scan has left these rows and counted so many orphans. */
  predicate Purged(w: World, later: World, rows: Rows, n: nat) {
    && later.rows == rows && later.records == w.records && later.flights == w.flights
    && later.counters == w.counters.(orphaned := w.counters.orphaned + n)
  }

  lemma PurgeEnds(c: Settings, w: World, events: seq<Event>)
    requires Possible(c, w, events) && Final(c, w, events).janitor.Resting? && AllPurge(events)
    requires w.janitor.Purging? && w.janitor.left == [] && w.janitor.absent == 0
    ensures Purged(w, Final(c, w, events), w.rows, w.janitor.removed)
  {
    assert events != [] && Fits(c, w, events[0]) && events[0] == EndPurge;
    NoMorePurges(c, Step(c, w, EndPurge), events[1..]);
  }

  lemma {:induction false} PurgePhase(c: Settings, w: World, events: seq<Event>, rows: Rows, ids: seq<string>, k: nat)
    requires Possible(c, w, events) && Final(c, w, events).janitor.Resting? && AllPurge(events)
    requires w.janitor.Purging? && k <= |ids| && w.janitor.left == ids[k..] && w.janitor.removed == k && w.janitor.absent == 0
    requires Distinct(ids) && Members(ids) <= rows.Keys && w.rows == rows - Members(ids[..k])
    ensures Purged(w, Final(c, w, events), rows - Members(ids), |ids|)
    decreases events
  {
    if k == |ids| {
      assert ids[..k] == ids;
      PurgeEnds(c, w, events);
    } else {
      PurgesNext(c, w, events, rows, ids, k);
      PurgePhase(c, PurgingNext(w, Fine), events[1..], rows, ids, k + 1);
    }
  }

  /** It removes exactly the orphans selected, each a row without a record, and counts them all. */
  lemma PurgesExactly(c: Settings, w: World, events: seq<Event>, ids: seq<string>, limit: nat)
    requires Possible(c, w, events) && ScanCall(c, w, events, ids, limit)
    ensures var gone := w.rows.Keys - Final(c, w, events).rows.Keys;
      && gone == Members(ids) && gone !! w.records && |gone| == |ids| <= limit
      && Purged(w, Final(c, w, events), w.rows - gone, |gone|)
  {
    OrphansHaveNoRecord(w.rows, w.records, ids, limit);
    ScanPurges(c, w, events, ids, limit);
    AllGone(w.rows, ids);
  }

  lemma AllGone(rows: Rows, ids: seq<string>)
    requires Distinct(ids) && Members(ids) <= rows.Keys
    ensures rows.Keys - (rows - Members(ids)).Keys == Members(ids) && |Members(ids)| == |ids|
  {
    DistinctCount(ids);
  }

  lemma ScanPurges(c: Settings, w: World, events: seq<Event>, ids: seq<string>, limit: nat)
    requires Possible(c, w, events) && ScanCall(c, w, events, ids, limit) && Members(ids) <= w.rows.Keys
    ensures Purged(w, Final(c, w, events), w.rows - Members(ids), |ids|)
  {
    var next := w.(janitor := Purging(ids, 0, 0));
    assert Step(c, w, events[0]) == next;
    assert w.rows - Members(ids[..0]) == w.rows;
    PurgePhase(c, next, events[1..], w.rows, ids, 0);
  }

  lemma OrphansHaveNoRecord(rows: Rows, records: set<string>, ids: seq<string>, limit: nat)
    requires AreOrphans(rows, records, ids, limit)
    ensures Members(ids) <= rows.Keys && Members(ids) !! records
  {}
}
