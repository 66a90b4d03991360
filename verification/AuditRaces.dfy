/**
 * Three short runs on which the numbers of audit delivery are not what they are called: a sweep
 * that counts a delivered row, an eviction that fails half-way, and a duplicate nobody counts.
 */
module AuditRaces {
  import opened Outcomes
  import opened AuditOutbox
  import opened AuditDelivery
  import opened AuditConservation
  import opened AuditSingleRow

  // ----- building runs -----

  predicate Reaches(c: Settings, events: seq<Event>, w: World) { Possible(c, Start(), events) && Final(c, Start(), events) == w }

  lemma Next(c: Settings, events: seq<Event>, w: World, e: Event, later: World) returns (longer: seq<Event>)
    requires Reaches(c, events, w) && Goes(c, w, e, later)
    ensures longer == events + [e] && Reaches(c, longer, later)
  {
    longer := events + [e];
    RunAppend(c, Start(), events, [e]);
    RunCons(c, w, e, []);
    assert [e] + [] == [e];
  }

  /** One queued obligation, enqueued at time zero. */
  function OneQueued(id: string): World {
    World(map[id := WaitingRow(0)], {id}, map[], Resting, Counters(0, 0, 0, 0, 0), Ledger(1, 0, 0, 0, 0, 0, 0, {}, {id}, {}))
  }

  lemma QueuesOne(c: Settings, id: string)
    ensures Goes(c, Start(), Enqueue(id, 0, 0), OneQueued(id))
  {}

  // ----- a delivered row counted as dropped -----

  /** After SELECT, claim and read-back of the row by one call. */
  function OneHeld(c: Settings, id: string, token: string): World {
    InFlight(Holding(Selecting(c, OneQueued(id), id, token, 0), id, WaitingRow(0), token, 0, 0 - c.lease), id, token, 0, 1)
  }

  lemma HoldsOne(c: Settings, id: string, token: string) returns (events: seq<Event>)
    requires c.batchSize >= 1
    ensures events == [Enqueue(id, 0, 0), Select(token, 0, 0, [id]), Cas(token, Fine), ReadBack(token, [id], Fine)]
    ensures Reaches(c, events, OneHeld(c, id, token))
  {
    var w0 := OneQueued(id);
    var w1 := Selecting(c, w0, id, token, 0);
    var w2 := Holding(w1, id, WaitingRow(0), token, 0, 0 - c.lease);
    QueuesOne(c, id);
    SelectsOne(c, w0, id, WaitingRow(0), token, 0);
    CasesOne(c, w1, id, WaitingRow(0), token, 0, 0 - c.lease);
    ReadsOne(c, w2, id, WaitingRow(0), token, 0, 0 - c.lease);
    events := Next(c, [], Start(), Enqueue(id, 0, 0), w0);
    events := Next(c, events, w0, Select(token, 0, 0, [id]), w1);
    events := Next(c, events, w1, Cas(token, Fine), w2);
    events := Next(c, events, w2, ReadBack(token, [id], Fine), OneHeld(c, id, token));
  }

  function AllNil(n: nat): seq<bool> { seq(n, _ => true) }

  function OneAccepted(c: Settings, id: string, token: string): World {
    var w := OneHeld(c, id, token);
    w.(flights := w.flights[token := Settling(0, [Claimed(id, 1, false)], true)], ledger := w.ledger.(acked := {id}))
  }

  lemma DeliversOne(c: Settings, id: string, token: string)
    ensures Goes(c, OneHeld(c, id, token), Deliver(token, AllNil(c.sinks)), OneAccepted(c, id, token))
  {
    assert BatchIds([Claimed(id, 1, false)]) == {id} by {
      assert [Claimed(id, 1, false)][0].id == id;
    }
  }

  function OneCounted(c: Settings, id: string, token: string, now: int): World {
    OneAccepted(c, id, token).(janitor := Janitor.Sweeping(now, {id}, {}))
  }

  lemma CountsOne(c: Settings, id: string, token: string, now: int)
    requires c.maxAge > 0 && now > c.maxAge
    ensures Goes(c, OneAccepted(c, id, token), CountExpired(now, true), OneCounted(c, id, token, now))
  {
    var w := OneAccepted(c, id, token);
    assert PendingExpired(w.rows, now, c.maxAge) == {id} && DeadExpired(w.rows, now, c.deadLetterTtl) == {};
    assert id in {id} + {};
  }

  function OneSettled(c: Settings, id: string, token: string, now: int): World {
    var w := OneCounted(c, id, token, now);
    w.(rows := map[], flights := map[], ledger := w.ledger.(delivered := 1))
  }

  lemma SettlesOne(c: Settings, id: string, token: string, now: int)
    ensures Goes(c, OneCounted(c, id, token, now), Settle(token, now, Fine), OneSettled(c, id, token, now))
  {
    var w := OneCounted(c, id, token, now);
    assert Succeeded(w.rows, id) == map[] && Popped(w.flights, token) == map[];
  }

  lemma DeletesNone(c: Settings, id: string, token: string, now: int) returns (last: World)
    ensures Goes(c, OneSettled(c, id, token, now), DeleteExpired(Fine), last)
    ensures last.ledger.inserted == last.ledger.delivered == last.counters.dropped == last.counters.pendingDropped == 1
    ensures last.rows == map[]
  {
    last := Deleting(c, OneSettled(c, id, token, now), Fine);
  }

  /**
   * With any age limit: no statement fails, the one obligation is delivered, and it is counted as
   * dropped as well, because it was delivered between the sweep's count and its DELETE.
   */
  lemma SweepCountsDelivered(c: Settings, id: string, token: string, now: int) returns (events: seq<Event>)
    requires c.batchSize >= 1 && c.maxAge > 0 && now > c.maxAge
    ensures events == [Enqueue(id, 0, 0), Select(token, 0, 0, [id]), Cas(token, Fine), ReadBack(token, [id], Fine),
                       Deliver(token, AllNil(c.sinks)), CountExpired(now, true), Settle(token, now, Fine), DeleteExpired(Fine)]
    ensures Possible(c, Start(), events)
    ensures var w := Final(c, Start(), events);
      w.ledger.inserted == w.ledger.delivered == w.counters.dropped == w.counters.pendingDropped == 1 && w.rows == map[]
  {
    events := HoldsOne(c, id, token);
    DeliversOne(c, id, token);
    CountsOne(c, id, token, now);
    SettlesOne(c, id, token, now);
    var last := DeletesNone(c, id, token, now);
    events := Next(c, events, OneHeld(c, id, token), Deliver(token, AllNil(c.sinks)), OneAccepted(c, id, token));
    events := Next(c, events, OneAccepted(c, id, token), CountExpired(now, true), OneCounted(c, id, token, now));
    events := Next(c, events, OneCounted(c, id, token, now), Settle(token, now, Fine), OneSettled(c, id, token, now));
    events := Next(c, events, OneSettled(c, id, token, now), DeleteExpired(Fine), last);
  }

  // ----- an eviction that fails half-way -----

  function TwoQueued(a: string, b: string): World { Enqueued(OneQueued(a), b, 0, 1) }

  function ThreeQueued(a: string, b: string, d: string): World { Enqueued(TwoQueued(a, b), d, 0, 2) }

  lemma QueuesThree(c: Settings, a: string, b: string, d: string) returns (events: seq<Event>)
    requires a != b && b != d && d != a
    ensures events == [Enqueue(a, 0, 0), Enqueue(b, 0, 1), Enqueue(d, 0, 2)] && Reaches(c, events, ThreeQueued(a, b, d))
    ensures ThreeQueued(a, b, d).rows == map[a := WaitingRow(0), b := WaitingRow(1), d := WaitingRow(2)]
  {
    QueuesOne(c, a);
    events := Next(c, [], Start(), Enqueue(a, 0, 0), OneQueued(a));
    events := Next(c, events, OneQueued(a), Enqueue(b, 0, 1), TwoQueued(a, b));
    events := Next(c, events, TwoQueued(a, b), Enqueue(d, 0, 2), ThreeQueued(a, b, d));
  }

  lemma TwoOldest(a: string, b: string, d: string)
    requires a != b && b != d && d != a
    ensures var rows := map[a := WaitingRow(0), b := WaitingRow(1), d := WaitingRow(2)];
      |rows| == 3 && DeadIds(rows) == {} && Oldest(rows, rows.Keys, [a, b], 2, Age)
  {
    var rows := map[a := WaitingRow(0), b := WaitingRow(1), d := WaitingRow(2)];
    assert rows.Keys == {a, b, d} && |rows| == |rows.Keys|;
    assert [a, b][0] == a && [a, b][1] == b && Members([a, b]) <= rows.Keys;
  }

  /** From the count to the selection of two pending victims. */
  lemma SelectsTwo(c: Settings, w: World, a: string, b: string)
    requires c.maxRows == 1 && |w.rows| == 3 && w.janitor.Resting? && DeadIds(w.rows) == {} && Oldest(w.rows, w.rows.Keys, [a, b], 2, Age)
    ensures Goes(c, w, CountRows(true), w.(janitor := Overfull(2)))
    ensures Goes(c, w.(janitor := Overfull(2)), SelectDead([], true), w.(janitor := SheddingDead(2, [], 0)))
    ensures Goes(c, w.(janitor := SheddingDead(2, [], 0)), SelectOldest([a, b], true), w.(janitor := SheddingOldest([a, b], 0, 0)))
  {}

  lemma HalfShed(c: Settings, w: World, a: string, b: string) returns (half: World, last: World)
    requires w.janitor == SheddingOldest([a, b], 0, 0) && a in w.rows
    ensures Goes(c, w, Shed(Fine, true), half) && Goes(c, half, Shed(Lost(false), true), last)
    ensures last.counters.dropped == w.counters.dropped && last.counters.pendingDropped == w.counters.pendingDropped + 1
  {
    half := Shedding(w, Fine, true);
    assert half.janitor == SheddingOldest([b], 0, 1);
    last := Shedding(half, Lost(false), true);
  }

  /** Two rows over the cap, and the second delete fails: one row dropped as pending, none dropped. */
  lemma PendingExceedsDropped(c: Settings, a: string, b: string, d: string) returns (events: seq<Event>)
    requires c.maxRows == 1 && a != b && b != d && d != a
    ensures events == [Enqueue(a, 0, 0), Enqueue(b, 0, 1), Enqueue(d, 0, 2), CountRows(true), SelectDead([], true),
                       SelectOldest([a, b], true), Shed(Fine, true), Shed(Lost(false), true)]
    ensures Possible(c, Start(), events)
    ensures Final(c, Start(), events).counters.pendingDropped == 1 && Final(c, Start(), events).counters.dropped == 0
  {
    events := QueuesThree(c, a, b, d);
    events := FindsTwo(c, a, b, d, events);
    var w := ThreeQueued(a, b, d).(janitor := SheddingOldest([a, b], 0, 0));
    var half, last := HalfShed(c, w, a, b);
    events := Next(c, events, w, Shed(Fine, true), half);
    events := Next(c, events, half, Shed(Lost(false), true), last);
  }

  lemma FindsTwo(c: Settings, a: string, b: string, d: string, events: seq<Event>) returns (longer: seq<Event>)
    requires c.maxRows == 1 && a != b && b != d && d != a && Reaches(c, events, ThreeQueued(a, b, d))
    ensures longer == events + [CountRows(true), SelectDead([], true), SelectOldest([a, b], true)]
    ensures Reaches(c, longer, ThreeQueued(a, b, d).(janitor := SheddingOldest([a, b], 0, 0)))
  {
    var w := ThreeQueued(a, b, d);
    TwoOldest(a, b, d);
    SelectsTwo(c, w, a, b);
    longer := Next(c, events, w, CountRows(true), w.(janitor := Overfull(2)));
    longer := Next(c, longer, w.(janitor := Overfull(2)), SelectDead([], true), w.(janitor := SheddingDead(2, [], 0)));
    longer := Next(c, longer, w.(janitor := SheddingDead(2, [], 0)), SelectOldest([a, b], true), w.(janitor := SheddingOldest([a, b], 0, 0)));
  }

  // ----- a duplicate that is not counted -----

  /** The row selected by both calls while neither has claimed it. */
  function SelectedTwice(c: Settings, id: string, first: string, second: string, now: int): World {
    Selecting(c, Selecting(c, OneQueued(id), id, first, 0), id, second, now)
  }

  function HeldOnce(c: Settings, id: string, first: string, second: string, now: int): World {
    InFlight(Holding(SelectedTwice(c, id, first, second, now), id, WaitingRow(0), first, 0, 0 - c.lease), id, first, 0, 1)
  }

  /** The second call has taken the row over although it saw it unclaimed. */
  function TakenOver(c: Settings, id: string, first: string, second: string, now: int): World {
    var w := HeldOnce(c, id, first, second, now);
    w.(rows := map[id := HeldRow(HeldRow(WaitingRow(0), first, 0), second, now)],
       flights := w.flights[second := Claiming(now, now - c.lease, [], map[id := false])],
       ledger := w.ledger.(steals := 1))
  }

  lemma TakesOver(c: Settings, id: string, first: string, second: string, now: int)
    requires first != second && now > c.lease && now >= 0
    ensures Goes(c, HeldOnce(c, id, first, second, now), Cas(second, Fine), TakenOver(c, id, first, second, now))
  {
    assert Picked(id, second, now, now - c.lease).left[1..] == [];
  }

  lemma SelectsBoth(c: Settings, id: string, first: string, second: string, now: int) returns (events: seq<Event>)
    requires c.batchSize >= 1 && first != second && now >= 0
    ensures events == [Enqueue(id, 0, 0), Select(first, 0, 0, [id]), Select(second, now, now, [id])]
    ensures Reaches(c, events, SelectedTwice(c, id, first, second, now))
  {
    var w := Selecting(c, OneQueued(id), id, first, 0);
    QueuesOne(c, id);
    SelectsOne(c, OneQueued(id), id, WaitingRow(0), first, 0);
    SelectsOne(c, w, id, WaitingRow(0), second, now);
    events := Next(c, [], Start(), Enqueue(id, 0, 0), OneQueued(id));
    events := Next(c, events, OneQueued(id), Select(first, 0, 0, [id]), w);
    events := Next(c, events, w, Select(second, now, now, [id]), SelectedTwice(c, id, first, second, now));
  }

  /**
   * With any lease: a call that stalls for longer than its lease between reading the clock and its
   * claim is taken over by one that had selected the row before, and both deliver it although the
   * duplicate counter stays at zero and nothing failed.
   */
  lemma UncountedDuplicate(c: Settings, id: string, first: string, second: string, now: int) returns (events: seq<Event>)
    requires c.batchSize >= 1 && first != second && now > c.lease && now >= 0
    ensures events == [Enqueue(id, 0, 0), Select(first, 0, 0, [id]), Select(second, now, now, [id]), Cas(first, Fine),
                       ReadBack(first, [id], Fine), Cas(second, Fine), ReadBack(second, [id], Fine)]
    ensures Possible(c, Start(), events)
    ensures var w := Final(c, Start(), events);
      && w.counters.duplicated == 0 && first in w.flights && second in w.flights
      && w.flights[first] == Delivering(0, [Claimed(id, 1, false)]) && w.flights[second] == Delivering(now, [Claimed(id, 2, false)])
  {
    events := SelectsBoth(c, id, first, second, now);
    events := HeldBy(c, id, first, second, now, events);
    events := TakenOverBy(c, id, first, second, now, events);
  }

  lemma HeldBy(c: Settings, id: string, first: string, second: string, now: int, events: seq<Event>) returns (longer: seq<Event>)
    requires first != second && now > c.lease && now >= 0
    requires Reaches(c, events, SelectedTwice(c, id, first, second, now))
    ensures longer == events + [Cas(first, Fine), ReadBack(first, [id], Fine)]
    ensures Reaches(c, longer, HeldOnce(c, id, first, second, now))
  {
    var w0 := SelectedTwice(c, id, first, second, now);
    var w1 := Holding(w0, id, WaitingRow(0), first, 0, 0 - c.lease);
    CasesOne(c, w0, id, WaitingRow(0), first, 0, 0 - c.lease);
    ReadsOne(c, w1, id, WaitingRow(0), first, 0, 0 - c.lease);
    longer := Next(c, events, w0, Cas(first, Fine), w1);
    longer := Next(c, longer, w1, ReadBack(first, [id], Fine), HeldOnce(c, id, first, second, now));
  }

  lemma TakenOverBy(c: Settings, id: string, first: string, second: string, now: int, events: seq<Event>) returns (longer: seq<Event>)
    requires first != second && now > c.lease && now >= 0
    requires Reaches(c, events, HeldOnce(c, id, first, second, now))
    ensures longer == events + [Cas(second, Fine), ReadBack(second, [id], Fine)]
    ensures Reaches(c, longer, InFlight(TakenOver(c, id, first, second, now), id, second, now, 2))
  {
    var w := TakenOver(c, id, first, second, now);
    TakesOver(c, id, first, second, now);
    ReadsOne(c, w, id, HeldRow(WaitingRow(0), first, 0), second, now, now - c.lease);
    longer := Next(c, events, HeldOnce(c, id, first, second, now), Cas(second, Fine), w);
    longer := Next(c, longer, w, ReadBack(second, [id], Fine), InFlight(w, id, second, now, 2));
  }
}
